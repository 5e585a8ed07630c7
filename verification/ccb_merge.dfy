/** Merging changed parameters with the attributes a queue has, and what that means for the template. */
module CcbMerge {
  import opened Options
  import opened Text
  import opened TemplateGrammar
  import opened QueueEntries
  import opened QueueInvariants
  import opened QueueSettings
  import opened CcbUndo
  import CcbAbortModify

  /** Which parameters the transaction gives. */
  datatype Given = Given(
    template: bool, tag1: bool, tag2: bool, removeBefore: bool, removeDelay: bool, status: bool,
    retries: bool, retryDelay: bool, startup: bool)

  /** The argument changeRenameTemplate. */
  predicate TemplateChange(g: Given) {
    g.template || g.tag2 || g.tag1 || g.startup
  }

  /** find_last_of('*'), -1 when there is none. */
  function LastStar(s: string): (i: int)
    ensures -1 <= i < |s|
    ensures i >= 0 ==> s[i] == '*'
    ensures forall k :: i < k < |s| ==> s[k] != '*'
  {
    if s == [] then -1 else if s[|s| - 1] == '*' then |s| - 1 else LastStar(s[..|s| - 1])
  }

  function Part1(tag: string): string {
    if LastStar(tag) < 0 then tag else tag[..LastStar(tag)]
  }

  function Part2(tag: string): string {
    if LastStar(tag) < 0 then "" else tag[LastStar(tag) + 1..]
  }

  function Join(part1: string, part2: string): string {
    if part2 == "" then part1 else part1 + "*" + part2
  }

  /** The name tag after the change; a second part needs a first one. */
  function MergeTag(was: string, given: string, tag1: bool, tag2: bool): Option<string> {
    if !tag1 && !tag2 then Some(was)
    else if tag1 && tag2 then Some(given)
    else if tag2 then (if was == "" then None else Some(Join(Part1(was), given)))
    else Some(if was == "" then given else Join(given, Part2(was)))
  }

  lemma JoinParts(part1: string, part2: string)
    requires '*' !in part2
    ensures Part2(Join(part1, part2)) == part2 && Part1(Join(part1, part2)) == part1 <==> part2 != "" || '*' !in part1
  {
    var tag := Join(part1, part2);
    if part2 != "" {
      assert tag[|part1|] == '*' && forall k :: |part1| < k < |tag| ==> tag[k] == part2[k - |part1| - 1];
      assert LastStar(tag) == |part1|;
    } else if '*' in part1 {
      assert LastStar(tag) >= 0;
    }
  }

  lemma PartsOfTag(tag: string)
    ensures '*' !in Part2(tag) && (LastStar(tag) < 0 || tag == Part1(tag) + "*" + Part2(tag))
  {
  }

  /** Changing the second part of a name tag leaves the first, exactly unless the second is dropped from a tag
      whose first part has an asterisk itself. */
  lemma SecondTagMerged(was: string, given: string)
    requires '*' !in given && was != ""
    ensures var tag := MergeTag(was, given, false, true);
            && tag.Some?
            && (Part1(tag.value) == Part1(was) && Part2(tag.value) == given <==> given != "" || '*' !in Part1(was))
  {
    JoinParts(Part1(was), given);
  }

  /** Changing the first part leaves the second. */
  lemma FirstTagMerged(was: string, given: string)
    requires '*' !in given
    ensures var tag := MergeTag(was, given, true, false);
            tag.Some? && Part1(tag.value) == given && Part2(tag.value) == Part2(was)
  {
    PartsOfTag(was);
    if was == "" { JoinParts(given, ""); } else { JoinParts(given, Part2(was)); }
  }

  /** complete: what is not given is taken from the queue. */
  function Merge(was: Attrs, given: Attrs, g: Given): Option<Attrs> {
    match MergeTag(was.nameTag, given.nameTag, g.tag1, g.tag2)
    case None => None
    case Some(tag) =>
      Some(given.(template := if g.template then given.template else was.template,
                  nameTag := tag,
                  removeBefore := if g.removeBefore then given.removeBefore else was.removeBefore,
                  removeDelay := if g.removeDelay then given.removeDelay else was.removeDelay,
                  status := if g.status then given.status else was.status,
                  retries := if g.retries then given.retries else was.retries,
                  retryDelay := if g.retryDelay then given.retryDelay else was.retryDelay,
                  startup := if g.startup then given.startup else was.startup))
  }

  /** So a change through a transaction always tells the queue when its template is concerned: agreement is
      kept by it. */
  lemma MergeCovers(es: Entries, name: string, given: Attrs, g: Given)
    requires Agreement(es) && FirstNamed(es, name).Some?
    ensures var a := Merge(FirstNamed(es, name).value.attrs, given, g);
            a.Some? ==> Covers(es, name, a.value, TemplateChange(g))
  {
    var f := FirstNamed(es, name).value;
    forall e | e in es && e.name == name ensures Agrees(e.attrs, f.attrs) {
    }
    hide FirstNamed;
  }

  /** The whole of complete for parameters. */
  function CompleteParams(es: Entries, name: string, given: Attrs, g: Given, env: Env): (Entries, Undo) {
    match FirstNamed(es, name)
    case None => (es, Nothing)
    case Some(f) =>
      match Merge(f.attrs, given, g)
      case None => (es, Nothing)
      case Some(a) => CompleteModify(es, name, a, TemplateChange(g), env)
  }

  /** ... and when it returns success. */
  predicate ParamsComplete(es: Entries, name: string, given: Attrs, g: Given, env: Env) {
    match FirstNamed(es, name)
    case None => false
    case Some(f) =>
      match Merge(f.attrs, given, g)
      case None => false
      case Some(a) => ModifyCompletes(es, name, a, TemplateChange(g), env)
  }

  /** A completed change of parameters keeps agreement, cap and template objects. */
  lemma CompletedChangeKeeps(es: Entries, name: string, given: Attrs, g: Given, env: Env)
    requires Table(es) && ParamsComplete(es, name, given, g, env)
    ensures Table(CompleteParams(es, name, given, g, env).0)
  {
    var a := Merge(FirstNamed(es, name).value.attrs, given, g).value;
    MergeCovers(es, name, given, g);
    hide Merge, CompleteModify, Covers, AllFiled, ModifyCompletes, Capped, SetAll;
    CcbAbortModify.CompletedIs(es, name, a, TemplateChange(g), env);
    SetAllKeeps(es, name, a, TemplateChange(g), env.blades);
  }
}
