/** Setting the attributes of a queue: what becomes of each entry, and when its destinations still agree. */
module QueueSettings {
  import opened Options
  import opened Text
  import opened TemplateGrammar
  import opened QueueEntries
  import opened QueueOrder
  import opened QueueInvariants

  /** The attributes that have to agree. */
  datatype Common = Common(rename: Rename, template: string, nameTag: string, startup: int, sourceDir: string)

  function Shared(a: Attrs): Common {
    Common(a.rename, a.template, a.nameTag, a.startup, a.sourceDir)
  }

  /** The branch an entry takes when no transfer is in progress. */
  function Quiet(e: Entry, a: Attrs, change: bool, blades: bool): Turn {
    TemplateTurn(e.(world := e.world.(busy := false)), a, change, blades)
  }

  /** Untouched: refused before anything is rewritten. Broken: the new template is refused when the old one is
      gone. */
  datatype Outcome = Untouched | Broken | Rewritten

  function OutcomeOf(e: Entry, a: Attrs, change: bool, blades: bool): Outcome {
    var turn := Quiet(e, a, change, blades);
    if e.world.writing == WriteFails || (e.world.busy && turn != Kept) then Untouched
    else if turn == Faulty then Broken else Rewritten
  }

  predicate Refuses(e: Entry, a: Attrs, change: bool, blades: bool) {
    OutcomeOf(e, a, change, blades) != Rewritten || e.world.writing == WriteFailsLate
  }

  /** The common attributes after a rewriting. */
  function Renewal(c: Common, turn: Turn, a: Attrs): Common {
    Common(TurnRename(turn, c.rename), a.template, a.nameTag, a.startup, c.sourceDir)
  }

  /** The new values are the old ones. */
  predicate AltersNothing(e: Entry, a: Attrs, change: bool, blades: bool) {
    Renewal(Shared(e.attrs), Quiet(e, a, change, blades), a) == Shared(e.attrs)
  }

  /** The first entry of the queue that refuses, -1 when none does. */
  function Refuser(es: Entries, name: string, a: Attrs, change: bool, blades: bool): (i: int)
    ensures -1 <= i < |es|
    ensures i >= 0 ==> es[i].name == name && Refuses(es[i], a, change, blades)
    ensures forall j :: 0 <= j < |es| && (i < 0 || j < i) && es[j].name == name ==> !Refuses(es[j], a, change, blades)
  {
    if es == [] then -1
    else if es[0].name == name && Refuses(es[0], a, change, blades) then 0
    else var i := Refuser(es[1..], name, a, change, blades); if i < 0 then -1 else i + 1
  }

  /** Entries are rewritten up to the one that refuses, so its place in the queue counts. */
  predicate AllStayAgreed(es: Entries, name: string, a: Attrs, change: bool, blades: bool) {
    var i := Refuser(es, name, a, change, blades);
    i < 0 ||
    match OutcomeOf(es[i], a, change, blades)
    case Untouched => !Defined(es[..i], name) || AltersNothing(es[i], a, change, blades)
    case Rewritten => !Defined(es[i + 1..], name) || AltersNothing(es[i], a, change, blades)
    case Broken => !Defined(es[i + 1..], name) || es[i].attrs.rename == NoRename
  }

  /** The same for one destination. */
  predicate OneStaysAgreed(es: Entries, i: nat, a: Attrs, change: bool, blades: bool)
    requires i < |es|
  {
    match OutcomeOf(es[i], a, change, blades)
    case Untouched => true
    case Rewritten => !Defined(Erase(es, i), es[i].name) || AltersNothing(es[i], a, change, blades)
    case Broken => !Defined(Erase(es, i), es[i].name) || es[i].attrs.rename == NoRename
  }

  /** The template object stays the one the record describes. */
  predicate StaysFiled(e: Entry, a: Attrs, change: bool, blades: bool) {
    match OutcomeOf(e, a, change, blades)
    case Untouched => true
    case Rewritten => change || Built(a) == Built(e.attrs)
    case Broken => e.attrs.template == ""
  }

  /** When a setting keeps the table. */
  predicate Keeps(es: Entries, name: string, dest: string, a: Attrs, change: bool, blades: bool) {
    if dest == "" then
      var i := Refuser(es, name, a, change, blades);
      && AllStayAgreed(es, name, a, change, blades)
      && forall j :: 0 <= j < |es| && (i < 0 || j <= i) && es[j].name == name ==> StaysFiled(es[j], a, change, blades)
    else
      var i := FindKey(es, name + "_" + dest);
      i < 0 || (OneStaysAgreed(es, i, a, change, blades) && StaysFiled(es[i], a, change, blades))
  }

  // ---------------------------------------------------------------- one entry

  lemma AgreesShared(a: Attrs, b: Attrs)
    ensures Agrees(a, b) <==> Shared(a) == Shared(b)
  {
  }

  lemma TurnIsQuiet(e: Entry, a: Attrs, change: bool, blades: bool)
    ensures var turn := Quiet(e, a, change, blades);
            turn != Open && TemplateTurn(e, a, change, blades) == if e.world.busy && turn != Kept then Open else turn
  {
    hide Parse;
  }

  /** An entry refuses exactly when setAttributes answers with an error. */
  lemma RefusesExactly(e: Entry, a: Attrs, change: bool, blades: bool)
    ensures Refuses(e, a, change, blades) <==> SetCode(e, a, change, blades) != NoError
  {
    TurnIsQuiet(e, a, change, blades);
    hide TemplateTurn, Quiet;
  }

  lemma SetNames(e: Entry, a: Attrs, change: bool, blades: bool)
    ensures var f := SetEntry(e, a, change, blades); f.name == e.name && f.key == e.key && f.dest == e.dest
  {
  }

  /** What setAttributes leaves of the attributes that have to agree, whether it succeeds or not. */
  lemma SetShared(e: Entry, a: Attrs, change: bool, blades: bool)
    ensures Shared(SetEntry(e, a, change, blades).attrs) ==
            match OutcomeOf(e, a, change, blades)
            case Untouched => Shared(e.attrs)
            case Broken => Shared(e.attrs).(rename := NoRename)
            case Rewritten => Renewal(Shared(e.attrs), Quiet(e, a, change, blades), a)
  {
    TurnIsQuiet(e, a, change, blades);
    hide TemplateTurn, Quiet;
  }

  /** ... and when the template object is still the record's. */
  lemma SetFiled(e: Entry, a: Attrs, change: bool, blades: bool)
    requires Filed(e)
    ensures Filed(SetEntry(e, a, change, blades)) <==> StaysFiled(e, a, change, blades)
  {
    TurnIsQuiet(e, a, change, blades);
    QuietLive(e, a, change, blades);
    hide TemplateTurn, Quiet, Key;
  }

  lemma QuietLive(e: Entry, a: Attrs, change: bool, blades: bool)
    ensures var turn := Quiet(e, a, change, blades);
            && (!change ==> turn == Kept)
            && (change && turn == Kept ==> a.template == "" && e.live.None?)
            && (turn == Dropped ==> a.template == "")
            && (turn == Renewed ==> a.template != "")
  {
    hide Parse;
  }

  /** What an entry looks like after a successful change. */
  lemma SetEntryResult(e: Entry, a: Attrs, change: bool, blades: bool)
    requires SetCode(e, a, change, blades) == NoError
    ensures var f, turn := SetEntry(e, a, change, blades), TemplateTurn(e, a, change, blades);
            && turn != Open && turn != Faulty
            && f == e.(attrs := Written(e.attrs, a, TurnRename(turn, e.attrs.rename)),
                       live := TurnLive(turn, a, e.live))
  {
    hide Parse;
  }

  lemma SameQuiet(e: Entry, f: Entry, a: Attrs, change: bool, blades: bool)
    requires e.live == f.live
    ensures Quiet(e, a, change, blades) == Quiet(f, a, change, blades)
  {
    hide Parse;
  }

  // ---------------------------------------------------------------- all destinations

  /** The table after the setting, entry by entry. */
  lemma {:induction false} SetAllUpTo(es: Entries, name: string, a: Attrs, change: bool, blades: bool)
    ensures var fs, i := SetAll(es, name, a, change, blades), Refuser(es, name, a, change, blades);
            && |fs| == |es|
            && forall j :: 0 <= j < |es| ==>
                 fs[j] == if es[j].name == name && (i < 0 || j <= i) then SetEntry(es[j], a, change, blades) else es[j]
    decreases |es|
  {
    hide SetEntry, SetCode, Refuses, SetAll, Refuser;
    if es == [] {
      NothingSet(name, a, change, blades);
    } else {
      var rest := SetAll(es[1..], name, a, change, blades);
      SetAllUpTo(es[1..], name, a, change, blades);
      SetHead(es, name, a, change, blades);
      var fs, i := SetAll(es, name, a, change, blades), Refuser(es, name, a, change, blades);
      forall j | 0 < j < |es|
        ensures fs[j] == if es[j].name == name && (i < 0 || j <= i) then SetEntry(es[j], a, change, blades) else es[j]
      {
        assert es[j] == es[1..][j - 1] && fs[j] == (if i == 0 then es[1..] else rest)[j - 1];
      }
    }
  }

  lemma NothingSet(name: string, a: Attrs, change: bool, blades: bool)
    ensures SetAll([], name, a, change, blades) == []
  {
  }

  lemma SetHead(es: Entries, name: string, a: Attrs, change: bool, blades: bool)
    requires es != []
    ensures var i, i' := Refuser(es, name, a, change, blades), Refuser(es[1..], name, a, change, blades);
            var e := if es[0].name == name then SetEntry(es[0], a, change, blades) else es[0];
            && SetAll(es, name, a, change, blades) ==
               [e] + (if i == 0 then es[1..] else SetAll(es[1..], name, a, change, blades))
            && (i == 0 || i == if i' < 0 then -1 else i' + 1)
            && (i == 0 ==> es[0].name == name)
  {
    hide SetEntry, SetCode, Refuses;
    RefusesExactly(es[0], a, change, blades);
  }

  /** The setting succeeds exactly when no entry of the queue refuses. */
  lemma {:induction false} RefuserExactly(es: Entries, name: string, a: Attrs, change: bool, blades: bool)
    ensures Refuser(es, name, a, change, blades) < 0 <==> SetAllCode(es, name, a, change, blades) == NoError
    decreases |es|
  {
    hide SetCode, Refuses;
    if es != [] {
      RefusesExactly(es[0], a, change, blades);
      RefuserExactly(es[1..], name, a, change, blades);
    }
  }

  lemma SetAllAt(es: Entries, name: string, a: Attrs, change: bool, blades: bool)
    requires SetAllCode(es, name, a, change, blades) == NoError
    ensures var fs := SetAll(es, name, a, change, blades);
            && |fs| == |es|
            && forall i :: 0 <= i < |es| ==>
                 && fs[i] == (if es[i].name == name then SetEntry(es[i], a, change, blades) else es[i])
                 && (es[i].name == name ==> SetCode(es[i], a, change, blades) == NoError)
  {
    RefuserExactly(es, name, a, change, blades);
    SetAllUpTo(es, name, a, change, blades);
    hide SetAll, SetAllCode, SetEntry, SetCode, Refuses;
    forall i | 0 <= i < |es| && es[i].name == name ensures SetCode(es[i], a, change, blades) == NoError {
      RefusesExactly(es[i], a, change, blades);
    }
  }

  /** All entries of the queue have these common attributes. */
  predicate AllShare(es: Entries, name: string, c: Common) {
    forall e :: e in es && e.name == name ==> Shared(e.attrs) == c
  }

  lemma ShareOne(es: Entries, e: Entry)
    requires Agreement(es) && e in es
    ensures AllShare(es, e.name, Shared(e.attrs))
  {
    forall f | f in es && f.name == e.name ensures Shared(f.attrs) == Shared(e.attrs) {
      AgreesShared(f.attrs, e.attrs);
    }
  }

  /** What all destinations, the refusing one included, have in common afterwards; c: what they had before. */
  function After(c: Common, i: int, j: nat, outcome: Outcome, d: Common): Common {
    if i < 0 || j < i then d
    else if j > i then c
    else
      match outcome
      case Untouched => c
      case Broken => c.(rename := NoRename)
      case Rewritten => d
  }

  /** The common attributes of each destination after the setting; e is any of them before it. */
  lemma SharedAfter(es: Entries, name: string, a: Attrs, change: bool, blades: bool, e: Entry, j: nat)
    requires AllFiled(es) && Agreement(es) && e in es && e.name == name && j < |es| && es[j].name == name
    ensures var fs, i, c := SetAll(es, name, a, change, blades), Refuser(es, name, a, change, blades), Shared(e.attrs);
            && |fs| == |es| && fs[j].name == name && Quiet(es[j], a, change, blades) == Quiet(e, a, change, blades)
            && Shared(es[j].attrs) == c
            && Shared(fs[j].attrs) ==
               After(c, i, j, OutcomeOf(es[j], a, change, blades), Renewal(c, Quiet(e, a, change, blades), a))
            && (i < 0 || j < i ==> OutcomeOf(es[j], a, change, blades) == Rewritten)
  {
    hide SetAll, SetEntry, Quiet, TemplateTurn, Sorted, Renewal;
    SetAllUpTo(es, name, a, change, blades);
    SetShared(es[j], a, change, blades);
    SetNames(es[j], a, change, blades);
    ShareOne(es, e);
    assert es[j] in es && Filed(es[j]) && Filed(e);
    SameCommon(es[j], e);
    SameQuiet(es[j], e, a, change, blades);
  }

  lemma SameCommon(e: Entry, f: Entry)
    requires Filed(e) && Filed(f) && Shared(e.attrs) == Shared(f.attrs)
    ensures e.live == f.live
  {
  }

  lemma DefinedBefore(es: Entries, i: nat, name: string)
    requires i < |es|
    ensures Defined(es[..i], name) <==> exists j :: 0 <= j < i && es[j].name == name
    ensures Defined(es[i + 1..], name) <==> exists j :: i < j < |es| && es[j].name == name
  {
    var pre, suf := es[..i], es[i + 1..];
    if j :| 0 <= j < i && es[j].name == name { assert pre[j] in pre; }
    if j :| i < j < |es| && es[j].name == name { assert suf[j - i - 1] in suf; }
    if e :| e in pre && e.name == name {
      var j :| 0 <= j < |pre| && pre[j] == e;
      assert es[j].name == name;
    }
    if e :| e in suf && e.name == name {
      var j :| 0 <= j < |suf| && suf[j] == e;
      assert es[i + 1 + j].name == name;
    }
  }

  /** When the other queues are left alone, agreement is that of the queue set. */
  lemma AgreementOfOne(es: Entries, fs: Entries, name: string)
    requires Agreement(es) && |fs| == |es|
    requires forall j :: 0 <= j < |es| ==> fs[j].name == es[j].name && (es[j].name != name ==> fs[j] == es[j])
    ensures Agreement(fs) <==> AllEqual(es, fs, name)
  {
    hide Agrees, Shared;
    if Agreement(fs) {
      forall j, k | 0 <= j < |fs| && 0 <= k < |fs| && es[j].name == es[k].name == name
        ensures Shared(fs[j].attrs) == Shared(fs[k].attrs)
      {
        assert fs[j] in fs && fs[k] in fs;
        AgreesShared(fs[j].attrs, fs[k].attrs);
      }
    } else {
      var e, f :| e in fs && f in fs && e.name == f.name && !Agrees(e.attrs, f.attrs);
      var j :| 0 <= j < |fs| && fs[j] == e;
      var k :| 0 <= k < |fs| && fs[k] == f;
      AgreesShared(e.attrs, f.attrs);
      assert es[j] in es && es[k] in es;
    }
  }

  predicate AllEqual(es: Entries, fs: Entries, name: string)
    requires |fs| == |es|
  {
    forall j, k :: 0 <= j < |fs| && 0 <= k < |fs| && es[j].name == es[k].name == name ==>
      Shared(fs[j].attrs) == Shared(fs[k].attrs)
  }

  /** Values before, at and after the place i. */
  lemma PlacesEqual(es: Entries, fs: Entries, name: string, i: nat, outcome: Outcome, c: Common, d: Common)
    requires |fs| == |es| && i < |es| && es[i].name == name
    requires forall j :: 0 <= j < |es| && es[j].name == name ==> Shared(fs[j].attrs) == After(c, i, j, outcome, d)
    requires outcome == Broken ==> !Defined(es[..i], name)
    ensures AllEqual(es, fs, name) <==>
            match outcome
            case Untouched => !Defined(es[..i], name) || d == c
            case Rewritten => !Defined(es[i + 1..], name) || d == c
            case Broken => !Defined(es[i + 1..], name) || c.rename == NoRename
  {
    hide Shared, Defined;
    DefinedBefore(es, i, name);
    if j :| 0 <= j < i && es[j].name == name {
      assert Shared(fs[j].attrs) == d && Shared(fs[i].attrs) == After(c, i, i, outcome, d);
    }
    if j :| i < j < |es| && es[j].name == name {
      assert Shared(fs[j].attrs) == c && Shared(fs[i].attrs) == After(c, i, i, outcome, d);
    }
  }

  /** After a setting for all destinations, complete or stopped part-way, the destinations of each queue agree
      exactly when nothing was rewritten on the one side of the entry that refuses and left on the other, or the
      new values are the old ones. */
  lemma SetAllAgreesExactly(es: Entries, name: string, a: Attrs, change: bool, blades: bool)
    requires AllFiled(es) && Agreement(es)
    ensures Agreement(SetAll(es, name, a, change, blades)) <==> AllStayAgreed(es, name, a, change, blades)
  {
    hide SetAll, SetEntry, Quiet, TemplateTurn, OutcomeOf, Refuses, Renewal, Agreement, AllFiled, Shared, After, Defined;
    var fs, i := SetAll(es, name, a, change, blades), Refuser(es, name, a, change, blades);
    SetAllUpTo(es, name, a, change, blades);
    forall j | 0 <= j < |es| ensures fs[j].name == es[j].name { SetNames(es[j], a, change, blades); }
    AgreementOfOne(es, fs, name);
    if i >= 0 {
      StoppedAgrees(es, name, a, change, blades, i);
    } else {
      CompleteAgrees(es, name, a, change, blades);
    }
  }

  lemma StoppedAgrees(es: Entries, name: string, a: Attrs, change: bool, blades: bool, i: nat)
    requires AllFiled(es) && Agreement(es) && i == Refuser(es, name, a, change, blades)
    ensures |SetAll(es, name, a, change, blades)| == |es|
    ensures AllEqual(es, SetAll(es, name, a, change, blades), name) <==> AllStayAgreed(es, name, a, change, blades)
  {
    hide SetAll, SetEntry, Quiet, TemplateTurn, OutcomeOf, Refuses, Renewal, Agreement, AllFiled, Shared, After, Defined,
         AllEqual;
    var fs, e, d := SetAll(es, name, a, change, blades), es[i],
                    Renewal(Shared(es[i].attrs), Quiet(es[i], a, change, blades), a);
    SetAllUpTo(es, name, a, change, blades);
    assert e in es;
    DefinedBefore(es, i, name);
    forall j | 0 <= j < |es| && es[j].name == name
      ensures Shared(fs[j].attrs) == After(Shared(e.attrs), i, j, OutcomeOf(e, a, change, blades), d)
      ensures j < i ==> OutcomeOf(e, a, change, blades) != Broken
    {
      StoppedAt(es, name, a, change, blades, i, j);
    }
    PlacesEqual(es, fs, name, i, OutcomeOf(e, a, change, blades), Shared(e.attrs), d);
    assert Shared(e.attrs).rename == e.attrs.rename by { SharedRename(e); }
  }

  lemma StoppedAt(es: Entries, name: string, a: Attrs, change: bool, blades: bool, i: nat, j: nat)
    requires AllFiled(es) && Agreement(es) && i == Refuser(es, name, a, change, blades)
    requires j < |es| && es[j].name == name
    ensures var fs, c := SetAll(es, name, a, change, blades), Shared(es[i].attrs);
            && |fs| == |es|
            && Shared(fs[j].attrs) ==
               After(c, i, j, OutcomeOf(es[i], a, change, blades), Renewal(c, Quiet(es[i], a, change, blades), a))
            && (j < i ==> OutcomeOf(es[i], a, change, blades) != Broken)
  {
    hide SetAll, SetEntry, Quiet, TemplateTurn, OutcomeOf, Refuses, Renewal, Agreement, AllFiled, Shared, After;
    var e := es[i];
    assert e in es;
    SharedAfter(es, name, a, change, blades, e, j);
    AfterAt(Shared(e.attrs), i, j, OutcomeOf(es[j], a, change, blades), OutcomeOf(e, a, change, blades),
            Renewal(Shared(e.attrs), Quiet(e, a, change, blades), a));
    if j < i { NotBroken(es[j], e, a, change, blades); }
  }

  lemma SharedRename(e: Entry)
    ensures Shared(e.attrs).rename == e.attrs.rename
  {
  }

  lemma AfterAt(c: Common, i: nat, j: nat, o: Outcome, o': Outcome, d: Common)
    requires i == j ==> o == o'
    ensures After(c, i, j, o, d) == After(c, i, j, o', d)
  {
  }

  lemma CompleteAgrees(es: Entries, name: string, a: Attrs, change: bool, blades: bool)
    requires AllFiled(es) && Agreement(es) && Refuser(es, name, a, change, blades) < 0
    ensures |SetAll(es, name, a, change, blades)| == |es|
    ensures AllEqual(es, SetAll(es, name, a, change, blades), name)
  {
    hide SetAll, SetEntry, Quiet, TemplateTurn, OutcomeOf, Refuses, Renewal, Agreement, AllFiled, Shared, Refuser;
    var fs := SetAll(es, name, a, change, blades);
    SetAllUpTo(es, name, a, change, blades);
    forall j, k | 0 <= j < |fs| && 0 <= k < |fs| && es[j].name == es[k].name == name
      ensures Shared(fs[j].attrs) == Shared(fs[k].attrs)
    {
      assert es[j] in es;
      SharedAfter(es, name, a, change, blades, es[j], j);
      SharedAfter(es, name, a, change, blades, es[j], k);
    }
  }

  lemma NotBroken(e: Entry, f: Entry, a: Attrs, change: bool, blades: bool)
    requires OutcomeOf(e, a, change, blades) == Rewritten && Quiet(e, a, change, blades) == Quiet(f, a, change, blades)
    ensures OutcomeOf(f, a, change, blades) != Broken
  {
    hide Quiet;
  }

  // ---------------------------------------------------------------- one destination

  /** After a setting for one destination its queue agrees exactly when it has no other, or nothing was
      rewritten, or the new values are the old ones. */
  lemma SetOneAgreesExactly(es: Entries, i: nat, a: Attrs, change: bool, blades: bool)
    requires Agreement(es) && i < |es|
    ensures Agreement(es[i := SetEntry(es[i], a, change, blades)]) <==> OneStaysAgreed(es, i, a, change, blades)
  {
    hide SetEntry, Quiet, TemplateTurn, Renewal, Agreement, Shared, AllEqual, Erase;
    var e, f := es[i], SetEntry(es[i], a, change, blades);
    var fs := es[i := f];
    SetNames(e, a, change, blades);
    SetShared(e, a, change, blades);
    SharedRename(e);
    AgreementOfOne(es, fs, e.name);
    OthersShare(es, fs, i);
    hide OutcomeOf;
  }

  /** The other destinations still have what the one had before. */
  lemma OthersShare(es: Entries, fs: Entries, i: nat)
    requires Agreement(es) && i < |es| && |fs| == |es| && forall j :: 0 <= j < |es| && j != i ==> fs[j] == es[j]
    ensures AllEqual(es, fs, es[i].name) <==>
            !Defined(Erase(es, i), es[i].name) || Shared(fs[i].attrs) == Shared(es[i].attrs)
  {
    hide Shared, Agreement, Erase, Defined;
    var name := es[i].name;
    assert es[i] in es;
    ShareOne(es, es[i]);
    DefinedElsewhere(es, i, name);
    forall j | 0 <= j < |es| && es[j].name == name ensures Shared(es[j].attrs) == Shared(es[i].attrs) {
      assert es[j] in es;
    }
    if j :| 0 <= j < |es| && j != i && es[j].name == name { assert fs[j] == es[j]; }
  }

  lemma DefinedElsewhere(es: Entries, i: nat, name: string)
    requires i < |es|
    ensures Defined(Erase(es, i), name) <==> exists j :: 0 <= j < |es| && j != i && es[j].name == name
  {
    var t := Erase(es, i);
    if j :| 0 <= j < |es| && j != i && es[j].name == name {
      assert t[if j < i then j else j - 1] == es[j];
    }
    if e :| e in t && e.name == name {
      var k :| 0 <= k < |t| && t[k] == e;
      assert es[if k < i then k else k + 1] == e;
    }
  }

  // ---------------------------------------------------------------- the table

  lemma {:induction false} SetAllToDest(es: Entries, name: string, a: Attrs, change: bool, blades: bool, d: string)
    ensures ToDest(SetAll(es, name, a, change, blades), d) == ToDest(es, d)
    decreases |es|
  {
    if es != [] {
      SetAllToDest(es[1..], name, a, change, blades, d);
      SetNames(es[0], a, change, blades);
      hide SetEntry, SetCode;
    }
  }

  lemma ReplacedToDest(es: Entries, i: nat, f: Entry, d: string)
    requires i < |es| && f.dest == es[i].dest
    ensures ToDest(es[i := f], d) == ToDest(es, d)
  {
    assert es == es[..i] + [es[i]] + es[i + 1..];
    assert es[i := f] == es[..i] + [f] + es[i + 1..];
    ToDestSplice(es[..i], es[i], es[i + 1..], d);
    ToDestSplice(es[..i], f, es[i + 1..], d);
  }

  lemma AllFiledAt(es: Entries)
    ensures AllFiled(es) <==> forall j :: 0 <= j < |es| ==> Filed(es[j])
  {
    hide Filed;
  }

  /** A setting for all destinations keeps the table exactly under Keeps. */
  lemma SetAllKeepsExactly(es: Entries, name: string, a: Attrs, change: bool, blades: bool)
    requires Table(es)
    ensures Table(SetAll(es, name, a, change, blades)) <==> Keeps(es, name, "", a, change, blades)
  {
    hide SetAll, SetEntry, Agreement, AllFiled, Sorted, AllStayAgreed, Refuses, Filed, StaysFiled, Less;
    var fs, i := SetAll(es, name, a, change, blades), Refuser(es, name, a, change, blades);
    SetAllUpTo(es, name, a, change, blades);
    AllFiledAt(es);
    AllFiledAt(fs);
    forall j | 0 <= j < |es|
      ensures fs[j].key == es[j].key
      ensures Filed(fs[j]) <==> (es[j].name == name && (i < 0 || j <= i) ==> StaysFiled(es[j], a, change, blades))
    {
      SetNames(es[j], a, change, blades);
      SetFiled(es[j], a, change, blades);
    }
    SortedSame(es, fs);
    forall d ensures ToDest(fs, d) == ToDest(es, d) {
      SetAllToDest(es, name, a, change, blades, d);
    }
    SetAllAgreesExactly(es, name, a, change, blades);
  }

  /** ... and so does one for a single destination. */
  lemma SetOneKeepsExactly(es: Entries, name: string, dest: string, a: Attrs, change: bool, blades: bool)
    requires Table(es) && dest != ""
    ensures Table(SetOne(es, name, dest, a, change, blades)) <==> Keeps(es, name, dest, a, change, blades)
  {
    hide SetEntry, Agreement, AllFiled, Sorted, OneStaysAgreed, Filed, StaysFiled, Less;
    var i := FindKey(es, name + "_" + dest);
    if i >= 0 {
      var fs := es[i := SetEntry(es[i], a, change, blades)];
      AllFiledAt(es);
      AllFiledAt(fs);
      SetNames(es[i], a, change, blades);
      SetFiled(es[i], a, change, blades);
      SortedSame(es, fs);
      forall d ensures ToDest(fs, d) == ToDest(es, d) {
        ReplacedToDest(es, i, fs[i], d);
      }
      SetOneAgreesExactly(es, i, a, change, blades);
    }
  }

  /** The flag says whether template, name tag or startup number change. */
  predicate Covers(es: Entries, name: string, a: Attrs, change: bool) {
    change || forall e :: e in es && e.name == name ==>
      a.template == e.attrs.template && a.nameTag == e.attrs.nameTag && a.startup == e.attrs.startup
  }

  /** A successful setting for all destinations whose flag is right keeps the table. */
  lemma SetAllKeeps(es: Entries, name: string, a: Attrs, change: bool, blades: bool)
    requires Table(es) && SetAllCode(es, name, a, change, blades) == NoError && Covers(es, name, a, change)
    ensures Table(SetAll(es, name, a, change, blades))
  {
    hide SetAll, SetAllCode, Agreement, AllFiled, Sorted, Refuses, Filed, Less, Quiet, Refuser;
    RefuserExactly(es, name, a, change, blades);
    SetAllKeepsExactly(es, name, a, change, blades);
    forall j | 0 <= j < |es| && es[j].name == name ensures StaysFiled(es[j], a, change, blades) {
      assert es[j] in es && !Refuses(es[j], a, change, blades);
      CoveredFiled(es[j], a, change, blades);
    }
  }

  lemma CoveredFiled(e: Entry, a: Attrs, change: bool, blades: bool)
    requires !Refuses(e, a, change, blades)
    requires change || (a.template == e.attrs.template && a.nameTag == e.attrs.nameTag && a.startup == e.attrs.startup)
    ensures StaysFiled(e, a, change, blades)
  {
    hide Quiet;
  }

  /** Two destinations, the second with a transfer in progress: the first loses the template, the second keeps
      it, and the queue disagrees. */
  lemma HalfSet(a: Attrs)
    requires a.template != ""
    ensures var e, f := NewEntry("q", "x", a, false), NewEntry("q", "y", a, true);
            var es := [e, f.(world := f.world.(busy := true))];
            var b := a.(template := "");
            && Table(es) && SetAllCode(es, "q", b, true, false) == TqIsOpen
            && !Agreement(SetAll(es, "q", b, true, false))
  {
    hide Parse, Table, Key;
    var e, f := NewEntry("q", "x", a, false), NewEntry("q", "y", a, true);
    var g, b := f.(world := f.world.(busy := true)), a.(template := "");
    TwoDestinations(a, e, g);
    FirstSet(e, g, b);
    var e' := SetEntry(e, b, true, false);
    assert e'.attrs.template == "" && e'.name == g.name;
    assert [e', g][0] == e' && [e', g][1] == g;
    assert e' in [e', g] && g in [e', g];
  }

  lemma FirstSet(e: Entry, g: Entry, b: Attrs)
    requires e.name == g.name == "q" && b.template == "" && e.live.Some? && g.live.Some?
    requires e.world.writing == g.world.writing == WriteOk && !e.world.busy && g.world.busy
    ensures SetAll([e, g], "q", b, true, false) == [SetEntry(e, b, true, false), g]
    ensures SetAllCode([e, g], "q", b, true, false) == TqIsOpen
  {
    hide Parse;
    var es := [e, g];
    assert es[1..] == [g] && SetEntry(g, b, true, false) == g;
    assert SetCode(e, b, true, false) == NoError && SetCode(g, b, true, false) == TqIsOpen;
    hide SetEntry, SetCode;
    assert SetAll([g], "q", b, true, false) == [g] + [g][1..];
  }

  lemma NewFiled(name: string, dest: string, a: Attrs, firstDs: bool, world: World)
    requires '/' !in name
    ensures Filed(NewEntry(name, dest, a, firstDs).(world := world))
  {
  }

  lemma TwoDestinations(a: Attrs, e: Entry, g: Entry)
    requires e == NewEntry("q", "x", a, false)
    requires g == NewEntry("q", "y", a, true).(world := g.world)
    ensures Table([e, g])
  {
    hide Filed, BaseName, Less, Table, Agrees, Key, Built;
    XBeforeY();
    KeysOrdered("q", "x", "y");
    NewFiled("q", "x", a, false, e.world);
    NewFiled("q", "y", a, true, g.world);
    AgreesItself(a);
    TableOfTwo(e, g);
  }

  lemma TableOfTwo(e: Entry, g: Entry)
    requires Filed(e) && Filed(g) && Less(e.key, g.key) && Agrees(e.attrs, e.attrs) && e.attrs == g.attrs
    ensures Table([e, g])
  {
    hide Filed, Less, Agrees, Capped;
    TwoToDest(e, g);
  }

  lemma KeysOrdered(name: string, d: string, d': string)
    requires Less(d, d')
    ensures Less(Key(name, d), Key(name, d'))
  {
    hide BaseName;
    LessAppend(BaseName(name) + "_", d, BaseName(name) + "_", d');
  }

  lemma XBeforeY()
    ensures '/' !in "q" && Less("x", "y")
  {
    assert "x"[0] < "y"[0];
  }

  lemma TwoToDest(e: Entry, f: Entry)
    ensures Capped([e, f])
  {
    forall d ensures ToDest([e, f], d) <= MaxDestinations {
      assert [e, f][1..] == [f] && [f][1..] == [];
      assert ToDest([], d) == 0;
      assert ToDest([f], d) <= 1 + ToDest([f][1..], d);
    }
  }
}
