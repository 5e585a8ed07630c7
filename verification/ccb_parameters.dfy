/** What a completed change of parameters leaves in the entries, parameter by parameter, and what an added
    destination is given. */
module CcbParameters {
  import opened Options
  import opened Text
  import opened TemplateGrammar
  import opened QueueEntries
  import opened QueueOrder
  import opened QueueInvariants
  import opened QueueSettings
  import opened QueueAnswers
  import opened CcbUndo
  import opened CcbListing
  import opened CcbMerge
  import CcbAbort
  import CcbAbortModify

  /** The two parts of a name tag: the second is what follows the last asterisk. */
  predicate Splits(tag: string, p: string, q: string) {
    '*' !in q && ((tag == p && q == "" && '*' !in p) || tag == p + "*" + q)
  }

  lemma SplitsOnce(tag: string) returns (p: string, q: string)
    ensures Splits(tag, p, q)
    ensures forall p', q' :: Splits(tag, p', q') ==> p' == p && q' == q
  {
    p, q := Part1(tag), Part2(tag);
    forall p', q' | Splits(tag, p', q') ensures p' == p && q' == q {
      SplitParts(tag, p', q');
    }
  }

  lemma SplitParts(tag: string, p: string, q: string)
    requires Splits(tag, p, q)
    ensures p == Part1(tag) && q == Part2(tag)
  {
    if tag == p + "*" + q {
      assert tag[|p|] == '*' && forall k :: |p| < k < |tag| ==> tag[k] == q[k - |p| - 1];
      assert LastStar(tag) == |p|;
    }
  }

  /** Giving one part keeps the other; a second part needs a tag to follow. */
  ghost predicate TagMerged(was: string, tag: string, given: string, tag1: bool, tag2: bool) {
    && (!tag1 && !tag2 ==> tag == was)
    && (tag1 && tag2 ==> tag == given)
    && (tag1 && !tag2 ==> forall p, q :: Splits(was, p, q) ==> tag == if q == "" then given else given + "*" + q)
    && (!tag1 && tag2 ==>
          was != "" && forall p, q :: Splits(was, p, q) ==> tag == if given == "" then p else p + "*" + given)
  }

  lemma MergedTag(was: string, tag: string, given: string, tag1: bool, tag2: bool)
    ensures TagMerged(was, tag, given, tag1, tag2) <==> MergeTag(was, given, tag1, tag2) == Some(tag)
  {
    var p, q := SplitsOnce(was);
    SplitParts(was, p, q);
    hide Part1, Part2, Splits;
    if was == "" { EmptySplits(); }
  }

  lemma EmptySplits()
    ensures Splits("", "", "")
  {
  }

  // ---------------------------------------------------------------- when the change is completed

  /** Whether anything about the file names is given. */
  predicate Touches(g: Given) {
    g.template || g.tag1 || g.tag2 || g.startup
  }

  function NewTemplate(was: string, given: Attrs, g: Given): string {
    if g.template then given.template else was
  }

  lemma MergedAttrs(was: Attrs, given: Attrs, g: Given, tag: string)
    requires TagMerged(was.nameTag, tag, given.nameTag, g.tag1, g.tag2)
    ensures var a := Merge(was, given, g);
            && a.Some?
            && a.value.nameTag == tag && a.value.template == NewTemplate(was.template, given, g)
            && a.value.retries == (if g.retries then given.retries else was.retries)
            && a.value.retryDelay == (if g.retryDelay then given.retryDelay else was.retryDelay)
            && a.value.removeDelay == (if g.removeDelay then given.removeDelay else was.removeDelay)
            && a.value.removeBefore == (if g.removeBefore then given.removeBefore else was.removeBefore)
            && a.value.status == (if g.status then given.status else was.status)
            && a.value.startup == (if g.startup then given.startup else was.startup)
    ensures TemplateChange(g) <==> Touches(g)
  {
    MergedTag(was.nameTag, tag, given.nameTag, g.tag1, g.tag2);
    hide MergeTag, TagMerged;
  }

  /** A second part for a queue without a name tag: nothing happens. */
  lemma NoTagToExtend(es: Entries, name: string, given: Attrs, g: Given, env: Env, j: nat)
    requires FirstOf(es, name, j) && es[j].attrs.nameTag == "" && g.tag2 && !g.tag1
    ensures CompleteParams(es, name, given, g, env) == (es, Nothing) && !ParamsComplete(es, name, given, g, env)
  {
    FirstNamedAt(es, name, j);
  }

  /** The entry takes the change: the record can be written, and if names are concerned no transfer is in progress
      and the template is not refused for the name tag. */
  predicate TakesChange(e: Entry, template: string, tag: string, touches: bool, blades: bool) {
    && e.world.writing == WriteOk
    && (touches && (template != "" || e.attrs.template != "") ==> !e.world.busy)
    && (touches && template != "" ==> Parse(template, tag, blades) != Bad)
  }

  lemma TakesExactly(e: Entry, a: Attrs, change: bool, blades: bool)
    requires Filed(e)
    ensures SetCode(e, a, change, blades) == NoError <==> TakesChange(e, a.template, a.nameTag, change, blades)
  {
    SettingAnswers(e, a, change, blades);
    hide Parse, SetCode, Key;
    assert e.live.Some? <==> e.attrs.template != "";
  }

  lemma {:induction false} AllSetExactly(es: Entries, name: string, a: Attrs, change: bool, blades: bool)
    ensures SetAllCode(es, name, a, change, blades) == NoError <==>
            forall e :: e in es && e.name == name ==> SetCode(e, a, change, blades) == NoError
    decreases |es|
  {
    hide SetCode;
    if es != [] {
      AllSetExactly(es[1..], name, a, change, blades);
      assert es == [es[0]] + es[1..];
    }
  }

  lemma CheckedExactly(es: Entries, name: string, refuses: set<string>)
    ensures Checked(Dests(es, name), refuses) == |Dests(es, name)| <==>
            forall e :: e in es && e.name == name ==> e.dest !in refuses
    decreases |es|
  {
    hide Dests;
    if es == [] {
      CcbAbortModify.NoDests(name);
    } else {
      CcbAbortModify.DestsCons(es, name);
      CheckedExactly(es[1..], name, refuses);
      assert es == [es[0]] + es[1..];
      var dests, rest := Dests(es, name), Dests(es[1..], name);
      if es[0].name == name {
        assert dests[1..] == rest && dests[0] == es[0].dest;
      } else {
        assert dests == rest;
      }
    }
  }

  lemma ModifyAnswer(es: Entries, name: string, a: Attrs, change: bool, env: Env)
    requires Table(es) && Known(es, name)
    ensures ModifyCompletes(es, name, a, change, env) <==>
            && env.valid
            && forall e :: e in es && e.name == name ==>
                 e.dest !in env.refuses && SetCode(e, a, change, env.blades) == NoError
  {
    CheckedExactly(es, name, env.refuses);
    AllSetExactly(es, name, a, change, env.blades);
    hide SetAll, SetAllCode, SetCode, Table, CcbAbortModify.Keyed, Dests, Checked, CompleteModify;
    if ModifyCompletes(es, name, a, change, env) {
      CcbAbortModify.ValidModify(es, name, a, change, env);
      CcbAbortModify.CompletedIs(es, name, a, change, env);
    } else if env.valid && Checked(Dests(es, name), env.refuses) == |Dests(es, name)| {
      CcbAbortModify.TableKeyed(es, name);
      CcbAbortModify.ReachAll(es, name, env.refuses);
      CcbAbortModify.ModifyIs(es, name, a, change, env);
      assert es[..|es|] == es;
    }
  }

  /** complete returns success exactly when the parameters are valid and every destination takes the change, its
      default status included. */
  lemma ParamsAnswer(es: Entries, name: string, given: Attrs, g: Given, env: Env, j: nat, tag: string)
    requires Table(es) && FirstOf(es, name, j)
    requires TagMerged(es[j].attrs.nameTag, tag, given.nameTag, g.tag1, g.tag2)
    ensures ParamsComplete(es, name, given, g, env) <==>
            && env.valid
            && forall e :: e in es && e.name == name ==>
                 && e.dest !in env.refuses
                 && TakesChange(e, NewTemplate(es[j].attrs.template, given, g), tag, Touches(g), env.blades)
  {
    FirstNamedAt(es, name, j);
    MergedAttrs(es[j].attrs, given, g, tag);
    assert es[j] in es;
    hide Merge, SetCode, ModifyCompletes, TakesChange, TagMerged, FirstNamed, Filed, Agreement, Sorted, Capped,
         TemplateChange, Touches, NewTemplate;
    var a := Merge(es[j].attrs, given, g).value;
    ModifyAnswer(es, name, a, TemplateChange(g), env);
    forall e | e in es
      ensures SetCode(e, a, TemplateChange(g), env.blades) == NoError <==>
              TakesChange(e, a.template, tag, Touches(g), env.blades)
    {
      TakesExactly(e, a, TemplateChange(g), env.blades);
    }
  }

  // ---------------------------------------------------------------- what it leaves

  /** first: the attributes of the first entry before; e: an entry of the queue before, r: after. What is given
      arrives, what is not is the first entry's. */
  ghost predicate Reached(first: Attrs, e: Entry, r: Entry, given: Attrs, g: Given) {
    && r == e.(attrs := r.attrs, live := r.live)
    && r.attrs.sourceDir == e.attrs.sourceDir && r.attrs.userGroup == e.attrs.userGroup && r.attrs.kind == e.attrs.kind
    && r.attrs.retries == (if g.retries then given.retries else first.retries)
    && r.attrs.retryDelay == (if g.retryDelay then given.retryDelay else first.retryDelay)
    && r.attrs.removeDelay == (if g.removeDelay then given.removeDelay else first.removeDelay)
    && r.attrs.removeBefore == (if g.removeBefore then given.removeBefore else first.removeBefore)
    && r.attrs.status == (if g.status then given.status else first.status)
    && r.attrs.startup == (if g.startup then given.startup else first.startup)
    && r.attrs.template == (if g.template then given.template else first.template)
    && TagMerged(first.nameTag, r.attrs.nameTag, given.nameTag, g.tag1, g.tag2)
    && r.attrs.rename == (if !(g.template || g.tag1 || g.tag2 || g.startup) then e.attrs.rename
                          else if r.attrs.template != "" then Local
                          else if e.attrs.template != "" then NoRename else e.attrs.rename)
    && r.live == (if !(g.template || g.tag1 || g.tag2 || g.startup) then e.live
                  else if r.attrs.template != "" then Some(Live(r.attrs.template, r.attrs.nameTag, r.attrs.startup))
                  else None)
  }

  lemma ReachedOne(first: Attrs, e: Entry, given: Attrs, g: Given, tag: string, blades: bool)
    requires Filed(e) && TagMerged(first.nameTag, tag, given.nameTag, g.tag1, g.tag2)
    requires Merge(first, given, g).Some? && SetCode(e, Merge(first, given, g).value, TemplateChange(g), blades) == NoError
    ensures Reached(first, e, SetEntry(e, Merge(first, given, g).value, TemplateChange(g), blades), given, g)
  {
    MergedAttrs(first, given, g, tag);
    var a := Merge(first, given, g).value;
    SetEntryResult(e, a, TemplateChange(g), blades);
    TurnOfSuccess(e, a, Touches(g), blades);
    hide Merge, TagMerged, Parse, Key, SetEntry, SetCode, TemplateTurn, TemplateChange;
  }

  lemma TurnOfSuccess(e: Entry, a: Attrs, change: bool, blades: bool)
    requires Filed(e) && SetCode(e, a, change, blades) == NoError
    ensures TemplateTurn(e, a, change, blades) ==
            if !change || (a.template == "" && e.attrs.template == "") then Kept
            else if a.template == "" then Turn.Dropped else Renewed
  {
    hide Parse, Key;
  }

  /** A completed change of parameters: the entries of the queue have what the transaction gives and the first
      entry's old values for the rest; the other queues are as they were. */
  lemma ParamsReach(es: Entries, name: string, given: Attrs, g: Given, env: Env, j: nat)
    requires Table(es) && FirstOf(es, name, j) && ParamsComplete(es, name, given, g, env)
    ensures var r := CompleteParams(es, name, given, g, env).0;
            && |r| == |es|
            && forall i :: 0 <= i < |es| ==>
                 && (es[i].name != name ==> r[i] == es[i])
                 && (es[i].name == name ==> Reached(es[j].attrs, es[i], r[i], given, g))
  {
    FirstNamedAt(es, name, j);
    hide FirstNamed, Filed, Agreement, Sorted, Capped, Merge, SetCode, SetAll, SetEntry, Reached, TemplateChange,
         CompleteModify, ModifyCompletes, MergeTag, TagMerged;
    var a := Merge(es[j].attrs, given, g).value;
    CcbAbortModify.CompletedIs(es, name, a, TemplateChange(g), env);
    SetAllAt(es, name, a, TemplateChange(g), env.blades);
    var tag := TagOfMerge(es[j].attrs, given, g);
    forall i | 0 <= i < |es| && es[i].name == name
      ensures Reached(es[j].attrs, es[i], SetEntry(es[i], a, TemplateChange(g), env.blades), given, g)
    {
      assert es[i] in es;
      ReachedOne(es[j].attrs, es[i], given, g, tag, env.blades);
    }
  }

  lemma TagOfMerge(first: Attrs, given: Attrs, g: Given) returns (tag: string)
    requires Merge(first, given, g).Some?
    ensures TagMerged(first.nameTag, tag, given.nameTag, g.tag1, g.tag2)
  {
    hide MergeTag, TagMerged;
    tag := MergeTag(first.nameTag, given.nameTag, g.tag1, g.tag2).value;
    MergedTag(first.nameTag, tag, given.nameTag, g.tag1, g.tag2);
  }

  // ---------------------------------------------------------------- one destination more

  /** The destination added gets the attributes of the first entry and the type given; nothing else changes. */
  lemma AddedLine(es: Entries, name: string, dest: string, kind: int, env: Env, j: nat) returns (p: nat)
    requires Sorted(es) && '/' !in name && FirstOf(es, name, j)
    requires AddDest(es, name, dest, kind, env).1 != Nothing
    ensures p <= |es|
    ensures Listing(AddDest(es, name, dest, kind, env).0) ==
            Listing(es)[..p] + [Line(name + "_" + dest, name, dest, es[j].attrs.(kind := kind))] + Listing(es)[p..]
  {
    var a := es[j].attrs.(kind := kind);
    AddIsCreate(es, name, dest, kind, env, j);
    PlainName(name);
    hide Refusal, Sorted, Create, AddDest, CompletedFrom, BaseName, Known, Built, FirstOf, Listing;
    var c: Entry;
    p, c := CreatedEntry(es, name, dest, a, env.up, env.blades);
    CompletedOwn(c.attrs, a, es, name, j);
    ListingWith(es, p, c);
  }

  lemma ListingWith(es: Entries, p: nat, c: Entry)
    requires p <= |es|
    ensures Listing(es[..p] + [c] + es[p..]) == Listing(es)[..p] + [LineOf(c)] + Listing(es)[p..]
  {
    ListingSplice(es[..p], c, es[p..]);
    assert Listing(es)[..p] == Listing(es[..p]) && Listing(es)[p..] == Listing(es[p..]);
    hide Listing;
  }

  lemma AddIsCreate(es: Entries, name: string, dest: string, kind: int, env: Env, j: nat)
    requires FirstOf(es, name, j)
    ensures var a, r := es[j].attrs.(kind := kind), AddDest(es, name, dest, kind, env);
            && (r.1 != Nothing <==> Refusal(es, name, dest, a, env.up, env.blades) == NoError)
            && (r.1 != Nothing ==> r.0 == Create(es, name, dest, a, env.up, env.blades))
  {
    FirstNamedAt(es, name, j);
    hide Refusal, Create, FirstNamed;
  }

  lemma CompletedOwn(c: Attrs, a: Attrs, es: Entries, name: string, j: nat)
    requires FirstOf(es, name, j) && CompletedFrom(c, a, es, name)
    requires a.sourceDir == es[j].attrs.sourceDir && a.nameTag == es[j].attrs.nameTag
    ensures c == a
  {
    hide FirstOf, Known;
  }
}
