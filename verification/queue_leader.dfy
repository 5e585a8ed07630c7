/** The leader of a queue: the one entry that numbers and renames its files. */
module QueueLeader {
  import opened Options
  import opened Text
  import opened TemplateGrammar
  import opened QueueEntries
  import opened QueueOrder
  import opened QueueInvariants
  import opened QueueSettings
  import opened QueueRuns

  predicate Leads(e: Entry, name: string) {
    e.name == name && !e.firstDs
  }

  function Leaders(es: Entries, name: string): nat {
    if es == [] then 0 else (if Leads(es[0], name) then 1 else 0) + Leaders(es[1..], name)
  }

  /** Every defined queue has exactly one leader. */
  predicate OneLeader(es: Entries) {
    forall e :: e in es ==> Leaders(es, e.name) == 1
  }

  lemma {:induction false} LeadersAppend(a: Entries, b: Entries, name: string)
    ensures Leaders(a + b, name) == Leaders(a, name) + Leaders(b, name)
    decreases |a|
  {
    if a == [] {
      assert a + b == b;
    } else {
      LeadersAppend(a[1..], b, name);
      assert (a + b)[1..] == a[1..] + b;
    }
  }

  lemma LeadersSplice(a: Entries, e: Entry, b: Entries, name: string)
    ensures Leaders(a + [e] + b, name) == Leaders(a + b, name) + if Leads(e, name) then 1 else 0
  {
    LeadersAppend(a + [e], b, name);
    LeadersAppend(a, [e], name);
    LeadersAppend(a, b, name);
    assert [e][1..] == [];
  }

  lemma LeadersErase(es: Entries, i: nat, name: string)
    requires i < |es|
    ensures Leaders(es, name) == Leaders(Erase(es, i), name) + if Leads(es[i], name) then 1 else 0
  {
    LeadersSplice(es[..i], es[i], es[i + 1..], name);
    assert es[..i] + [es[i]] + es[i + 1..] == es;
  }

  lemma {:induction false} LeaderExists(es: Entries, name: string)
    ensures Leaders(es, name) > 0 <==> exists e :: e in es && Leads(e, name)
    decreases |es|
  {
    if es != [] {
      LeaderExists(es[1..], name);
      assert es == [es[0]] + es[1..];
    }
  }

  lemma CreateLeads(es: Entries, name: string, dest: string, a: Attrs, up: bool, blades: bool)
    requires OneLeader(es) && Sorted(es)
    ensures OneLeader(Create(es, name, dest, a, up, blades))
  {
    if Refusal(es, name, dest, a, up, blades) == NoError {
      var p := CreateSplices(es, name, dest, a, up, blades);
      var c := Created(es, name, dest, a);
      assert c.name == name && (c.firstDs <==> Defined(es, name)) by { hide Adopt, Built, Key; }
      hide Create, Created, Refusal, Sorted;
      assert es == es[..p] + es[p..];
      var t := es[..p] + [c] + es[p..];
      forall e | e in t ensures Leaders(t, e.name) == 1 {
        LeadersSplice(es[..p], c, es[p..], e.name);
        LeaderExists(es, e.name);
        assert e == c || e in es;
      }
    }
  }

  /** The promotion adds one leader when there is a follower. */
  lemma {:induction false} RetainLeads(es: Entries, name: string, number: nat, writes: bool, m: string)
    ensures Leaders(Retain(es, name, number, writes), m) ==
            Leaders(es, m) + if m == name && HasFollower(es, name) then 1 else 0
    decreases |es|
  {
    if es != [] {
      assert es == [es[0]] + es[1..];
      if Follows(es[0], name) {
        assert es[0] in es;
        assert Retain(es, name, number, writes)[1..] == es[1..];
      } else {
        RetainLeads(es[1..], name, number, writes, m);
        assert Retain(es, name, number, writes)[1..] == Retain(es[1..], name, number, writes);
        assert HasFollower(es, name) <==> HasFollower(es[1..], name);
      }
    }
  }

  /** Entries that do not follow are left alone. */
  lemma {:induction false} RetainAt(es: Entries, name: string, number: nat, writes: bool, i: nat)
    requires i < |es| && !Follows(es[i], name)
    ensures Retain(es, name, number, writes)[i] == es[i]
    decreases |es|
  {
    if !Follows(es[0], name) && i > 0 { RetainAt(es[1..], name, number, writes, i - 1); }
  }

  /** The new leader has the old leader's number. */
  lemma {:induction false} RetainHands(es: Entries, name: string, number: nat) returns (j: nat)
    requires HasFollower(es, name)
    ensures j < |es| && Follows(es[j], name)
    ensures var e := Retain(es, name, number, true)[j]; Leads(e, name) && e.world.persist == Number(number)
    decreases |es|
  {
    if Follows(es[0], name) {
      j := 0;
    } else {
      var e :| e in es && Follows(e, name);
      assert e in es[1..];
      j := RetainHands(es[1..], name, number);
      j := j + 1;
    }
  }

  /** The condition under which removeDestinationSet leaves one leader: a leader with followers either hands
      its number to one that can write it and then lets itself be removed, or does neither. */
  predicate LeaderStays(es: Entries, name: string, dest: string, writes: bool) {
    var i := FindKey(es, name + "_" + dest);
    || !Defined(es, name) || i < 0 || es[i].firstDs || !HasFollower(es, es[i].name)
    || (if es[i].world.persist != Missing then writes && es[i].world.removal == RemoveOk
        else es[i].world.removal != RemoveOk)
  }

  /** Counting after the hand-over and the erasure. */
  lemma AfterRemoval(es: Entries, i: nat, writes: bool, m: string)
    requires i < |es|
    ensures var e, h := es[i], Handed(es, i, writes);
            var more := if m == e.name && HandsOn(e) && HasFollower(es, e.name) then 1 else 0;
            && Leaders(h, m) == Leaders(es, m) + more && h[i] == e
            && Leaders(Erase(h, i), m) == Leaders(es, m) + more - (if Leads(e, m) then 1 else 0)
  {
    var e := es[i];
    if HandsOn(e) {
      RetainLeads(es, e.name, Read(e.world.persist), writes, m);
      RetainAt(es, e.name, Read(e.world.persist), writes, i);
    }
    LeadersErase(Handed(es, i, writes), i, m);
  }

  lemma ErasedMember(es: Entries, i: nat, x: Entry)
    requires i < |es|
    ensures x in Erase(es, i) ==> x in es
    ensures x in es ==> x == es[i] || x in Erase(es, i)
  {
    assert es == es[..i] + [es[i]] + es[i + 1..];
  }

  /** A queue with one leader whose entry i leads has followers exactly when it has other entries. */
  lemma OthersFollow(es: Entries, i: nat, x: Entry)
    requires OneLeader(es) && i < |es| && !es[i].firstDs && x in Erase(es, i) && x.name == es[i].name
    ensures x.firstDs && HasFollower(es, es[i].name)
  {
    ErasedMember(es, i, x);
    assert es[i] in es;
    LeadersErase(es, i, x.name);
    LeaderExists(Erase(es, i), x.name);
  }

  lemma MemberName(es: Entries, fs: Entries, x: Entry) returns (y: Entry)
    requires SameRows(es, fs) && x in fs
    ensures y in es && y.name == x.name
  {
    var k :| 0 <= k < |fs| && fs[k] == x;
    SameRow(es[k], x);
    y := es[k];
  }

  lemma HandedNotRemoved(es: Entries, i: nat, writes: bool)
    requires OneLeader(es) && i < |es|
    ensures OneLeader(Handed(es, i, writes)) <==> !HandsOn(es[i]) || !HasFollower(es, es[i].name)
  {
    var h := Handed(es, i, writes);
    HandedRows(es, i, writes);
    hide Handed, HandsOn, HasFollower, SameRows;
    if !HandsOn(es[i]) || !HasFollower(es, es[i].name) {
      forall x | x in h ensures Leaders(h, x.name) == 1 {
        var y := MemberName(es, h, x);
        AfterRemoval(es, i, writes, x.name);
      }
    } else {
      AfterRemoval(es, i, writes, es[i].name);
      assert es[i] in es && h[i] in h;
    }
  }

  lemma HandedAndRemoved(es: Entries, i: nat, writes: bool)
    requires OneLeader(es) && i < |es|
    ensures OneLeader(Erase(Handed(es, i, writes), i)) <==>
            es[i].firstDs || !HasFollower(es, es[i].name) || HandsOn(es[i])
  {
    var e, h := es[i], Handed(es, i, writes);
    var t := Erase(h, i);
    HandedRows(es, i, writes);
    AfterRemoval(es, i, writes, e.name);
    assert e in es;
    if e.firstDs || !HasFollower(es, e.name) || HandsOn(e) {
      forall x | x in t ensures Leaders(t, x.name) == 1 {
        RemovedLeads(es, i, writes, x);
      }
    } else {
      var f :| f in es && Follows(f, e.name);
      ErasedMember(es, i, f);
      assert t == Erase(es, i) && Leaders(t, f.name) == 0;
    }
  }

  /** A queue that still has an entry after the removal has one leader. */
  lemma RemovedLeads(es: Entries, i: nat, writes: bool, x: Entry)
    requires OneLeader(es) && i < |es|
    requires es[i].firstDs || !HasFollower(es, es[i].name) || HandsOn(es[i])
    requires x in Erase(Handed(es, i, writes), i)
    ensures Leaders(Erase(Handed(es, i, writes), i), x.name) == 1
  {
    var h := Handed(es, i, writes);
    HandedRows(es, i, writes);
    AfterRemoval(es, i, writes, x.name);
    ErasedMember(h, i, x);
    var y := MemberName(es, h, x);
    if x.name == es[i].name && !es[i].firstDs {
      StillFollower(es, h, i, x);
    }
  }

  lemma StillFollower(es: Entries, h: Entries, i: nat, x: Entry)
    requires OneLeader(es) && SameRows(es, h) && i < |es| && !es[i].firstDs
    requires x in Erase(h, i) && x.name == es[i].name
    ensures HasFollower(es, es[i].name)
  {
    hide Row, OneLeader, HasFollower;
    var t := Erase(h, i);
    var k :| 0 <= k < |t| && t[k] == x;
    var j := if k < i then k else k + 1;
    SameRow(es[j], h[j]);
    assert es[j] == Erase(es, i)[k];
    OthersFollow(es, i, es[j]);
  }

  /** removeDestinationSet keeps one leader per queue exactly under LeaderStays, whatever it answers. */
  lemma RemovalKeepsLeaderExactly(es: Entries, name: string, dest: string, writes: bool, known: bool)
    requires OneLeader(es)
    ensures OneLeader(RemoveDest(es, name, dest, writes, known)) <==> LeaderStays(es, name, dest, writes)
  {
    var i := FindKey(es, name + "_" + dest);
    if Defined(es, name) && i >= 0 {
      HandedNotRemoved(es, i, writes);
      HandedAndRemoved(es, i, writes);
      hide Handed, Erase, OneLeader, HasFollower;
    }
  }

  /** A leader that goes hands its number on unchanged, and 0 when there is none in its persist.nr. */
  lemma NumberHandedOver(es: Entries, name: string, dest: string, known: bool, writes: bool) returns (e: Entry)
    requires OneLeader(es) && RemoveCode(es, name, dest, writes, known) == NoError
    requires var i := FindKey(es, name + "_" + dest);
             i >= 0 && HandsOn(es[i]) && HasFollower(es, es[i].name)
    ensures var t, gone := RemoveDest(es, name, dest, writes, known), es[FindKey(es, name + "_" + dest)];
            && e in t && Leads(e, gone.name) && Leaders(t, gone.name) == 1
            && e.world.persist == Number(match gone.world.persist case Number(n) => n case _ => 0)
  {
    var i := FindKey(es, name + "_" + dest);
    var j := RetainHands(es, es[i].name, Read(es[i].world.persist));
    var h := Handed(es, i, writes);
    e := h[j];
    assert j != i;
    ErasedMember(h, i, e);
    assert h[j] == Erase(h, i)[if j < i then j else j - 1];
    HandedAndRemoved(es, i, writes);
  }

  /** The entries of all other queues. */
  function Others(es: Entries, name: string): Entries {
    if es == [] then es
    else if es[0].name == name then Others(es[1..], name)
    else [es[0]] + Others(es[1..], name)
  }

  /** Without a refusal everything of the name goes and nothing else does. */
  lemma {:induction false} SweepAll(es: Entries, name: string)
    requires forall e :: e in es && e.name == name ==> e.world.removal == RemoveOk
    ensures Sweep(es, name) == Others(es, name)
    decreases |es|
  {
    if es != [] {
      assert es == [es[0]] + es[1..];
      SweepAll(es[1..], name);
    }
  }

  lemma {:induction false} SweepFewer(es: Entries, name: string, m: string)
    ensures Leaders(Sweep(es, name), m) <= Leaders(es, m)
    ensures m != name ==> Leaders(Sweep(es, name), m) == Leaders(es, m)
    ensures forall e :: e in Sweep(es, name) ==> e in es
    decreases |es|
  {
    if es != [] {
      SweepFewer(es[1..], name, m);
      assert es == [es[0]] + es[1..];
    }
  }

  /** The entry at i is left by a removal of its queue: it is protected, or an error has stopped the removal. */
  predicate Survives(es: Entries, name: string, i: nat)
    requires i < |es|
  {
    es[i].world.removal == RemoveProtected ||
    exists j :: 0 <= j <= i && es[j].name == name && es[j].world.removal == RemoveError
  }

  predicate LeaderLeft(es: Entries, name: string) {
    exists i :: 0 <= i < |es| && Leads(es[i], name) && Survives(es, name, i)
  }

  predicate AllGo(es: Entries, name: string) {
    forall e :: e in es && e.name == name ==> e.world.removal == RemoveOk
  }

  lemma LeftNext(es: Entries, name: string)
    requires es != [] && !(es[0].name == name && es[0].world.removal == RemoveError)
    ensures LeaderLeft(es, name) <==>
            (Leads(es[0], name) && es[0].world.removal == RemoveProtected) || LeaderLeft(es[1..], name)
  {
    forall i | 0 < i < |es| ensures Survives(es, name, i) <==> Survives(es[1..], name, i - 1) {
      if j :| 0 <= j <= i && es[j].name == name && es[j].world.removal == RemoveError { assert es[1..][j - 1] == es[j]; }
      if j :| 0 <= j <= i - 1 && es[1..][j].name == name && es[1..][j].world.removal == RemoveError {
        assert es[j + 1] == es[1..][j];
      }
    }
    hide Survives;
    if LeaderLeft(es, name) {
      var i :| 0 <= i < |es| && Leads(es[i], name) && Survives(es, name, i);
      if i > 0 { assert es[1..][i - 1] == es[i]; }
      if i == 0 { LeftFirst(es, name); }
    }
    if LeaderLeft(es[1..], name) {
      var i :| 0 <= i < |es[1..]| && Leads(es[1..][i], name) && Survives(es[1..], name, i);
      assert es[i + 1] == es[1..][i];
    }
    LeftFirst(es, name);
  }

  lemma LeftFirst(es: Entries, name: string)
    requires es != []
    ensures Survives(es, name, 0) <==>
            es[0].world.removal == RemoveProtected || (es[0].name == name && es[0].world.removal == RemoveError)
  {
  }

  /** What a removal leaves: a leader, and anything at all. */
  lemma {:induction false} SweepLeaves(es: Entries, name: string)
    ensures Leaders(Sweep(es, name), name) > 0 <==> LeaderLeft(es, name)
    ensures Defined(Sweep(es, name), name) <==> !AllGo(es, name)
    decreases |es|
  {
    hide LeaderLeft;
    if es == [] {
      assert !LeaderLeft(es, name) by { NoLeaderLeft(name); }
    } else {
      assert es == [es[0]] + es[1..];
      if es[0].name == name && es[0].world.removal == RemoveError {
        assert es[0] in es;
        LeaderExists(es, name);
        AllLeft(es, name);
      } else {
        SweepLeaves(es[1..], name);
        LeftNext(es, name);
        SweptTail(es, name);
      }
    }
  }

  lemma SweptTail(es: Entries, name: string)
    requires es != [] && !(es[0].name == name && es[0].world.removal == RemoveError)
    ensures var t := Sweep(es[1..], name);
            if es[0].name == name && es[0].world.removal == RemoveOk then Sweep(es, name) == t
            else && Sweep(es, name) == [es[0]] + t
                 && Leaders(Sweep(es, name), name) == Leaders(t, name) + (if Leads(es[0], name) then 1 else 0)
                 && (Defined(Sweep(es, name), name) <==> es[0].name == name || Defined(t, name))
  {
    hide Leads;
    var t := Sweep(es[1..], name);
    assert ([es[0]] + t)[1..] == t;
  }

  lemma NoLeaderLeft(name: string)
    ensures !LeaderLeft([], name)
  {
  }

  lemma AllLeft(es: Entries, name: string)
    requires es != [] && es[0].name == name && es[0].world.removal == RemoveError
    ensures LeaderLeft(es, name) <==> exists e :: e in es && Leads(e, name)
  {
    if e :| e in es && Leads(e, name) {
      var i :| 0 <= i < |es| && es[i] == e;
      assert Survives(es, name, i);
    }
  }

  /** A removal, complete or stopped by an error, leaves one leader per queue exactly when it leaves nothing of
      the queue or the leader, which is protected or not before the first error. */
  lemma SweepKeepsLeaderExactly(es: Entries, name: string)
    requires OneLeader(es)
    ensures OneLeader(Sweep(es, name)) <==> AllGo(es, name) || LeaderLeft(es, name)
  {
    hide LeaderLeft, AllGo, Sweep;
    var t := Sweep(es, name);
    SweepLeaves(es, name);
    if OneLeader(t) {
      if Defined(t, name) { var e :| e in t && e.name == name; }
    } else {
      var x :| x in t && Leaders(t, x.name) != 1;
      SweepFewer(es, name, x.name);
      assert x in es;
    }
  }

  // runs

  /** Removals meet the condition under which the leader stays. */
  predicate Completes(es: Entries, op: Op) {
    match op
    case RemoveOp(name) => AllGo(es, name) || LeaderLeft(es, name)
    case RemoveDestOp(name, dest, writes, _) => LeaderStays(es, name, dest, writes)
    case _ => true
  }

  /** Lists with the same names and flags. */
  predicate SameFlags(es: Entries, fs: Entries) {
    |fs| == |es| && forall i :: 0 <= i < |es| ==> fs[i].name == es[i].name && fs[i].firstDs == es[i].firstDs
  }

  lemma {:induction false} SameLeaders(es: Entries, fs: Entries, m: string)
    requires SameFlags(es, fs)
    ensures Leaders(fs, m) == Leaders(es, m)
    decreases |es|
  {
    if es != [] { SameLeaders(es[1..], fs[1..], m); }
  }

  lemma SameFlagsLead(es: Entries, fs: Entries)
    requires SameFlags(es, fs) && OneLeader(es)
    ensures OneLeader(fs)
  {
    forall f | f in fs ensures Leaders(fs, f.name) == 1 {
      var i :| 0 <= i < |fs| && fs[i] == f;
      SameLeaders(es, fs, f.name);
      assert es[i] in es;
    }
  }

  lemma SetLeads(es: Entries, name: string, dest: string, a: Attrs, change: bool, blades: bool)
    requires OneLeader(es)
    ensures OneLeader(SetAttributes(es, name, dest, a, change, blades))
  {
    var fs := SetAttributes(es, name, dest, a, change, blades);
    SetAllUpTo(es, name, a, change, blades);
    forall i | 0 <= i < |es| ensures fs[i].name == es[i].name && fs[i].firstDs == es[i].firstDs {
      SetFlags(es[i], a, change, blades);
    }
    hide SetAll, SetEntry, OneLeader;
    SameFlagsLead(es, fs);
  }

  lemma SetFlags(e: Entry, a: Attrs, change: bool, blades: bool)
    ensures var f := SetEntry(e, a, change, blades); f.name == e.name && f.firstDs == e.firstDs
  {
  }

  lemma StepLeads(es: Entries, op: Op)
    requires OneLeader(es) && Table(es) && Allowed(es, op) && Completes(es, op)
    ensures OneLeader(Perform(es, op))
  {
    hide OneLeader, Create, RemoveDest, Sweep, SetAttributes, Sorted, LeaderStays, LeaderLeft, AllGo, Keeps;
    match op
    case CreateOp(name, dest, a, up, blades) => CreateLeads(es, name, dest, a, up, blades);
    case RemoveOp(name) => SweepKeepsLeaderExactly(es, name);
    case RemoveDestOp(name, dest, writes, known) => RemovalKeepsLeaderExactly(es, name, dest, writes, known);
    case SetOp(name, dest, a, change, blades) => SetLeads(es, name, dest, a, change, blades);
    case WorldOp(worlds) => SameFlagsLead(es, Faced(es, worlds));
  }

  ghost predicate CompletedRun(es: Entries, ops: seq<Op>)
    decreases |ops|
  {
    ops == [] || (Allowed(es, ops[0]) && Completes(es, ops[0]) && CompletedRun(Perform(es, ops[0]), ops[1..]))
  }

  lemma {:induction false} RunLeads(es: Entries, ops: seq<Op>)
    requires Table(es) && OneLeader(es) && CompletedRun(es, ops)
    ensures AllowedRun(es, ops) && OneLeader(Performed(es, ops)) && Table(Performed(es, ops))
    decreases |ops|
  {
    hide Table, OneLeader, Perform, Completes, Keeps;
    if ops != [] {
      StepKeeps(es, ops[0]);
      StepLeads(es, ops[0]);
      RunLeads(Perform(es, ops[0]), ops[1..]);
    }
  }

  /** From an empty database, in every run of operations that meet their conditions, succeeding or not: each
      defined queue has exactly one leader, its entries agree, and no destination carries more than 32 queues. */
  lemma DatabaseInvariants(ops: seq<Op>)
    requires CompletedRun([], ops)
    ensures AllowedRun([], ops)
    ensures var es := Performed([], ops);
            && (forall name :: Defined(es, name) ==> Leaders(es, name) == 1)
            && Agreement(es) && forall dest :: ToDest(es, dest) <= MaxDestinations
  {
    RunLeads([], ops);
  }

  // sendFile

  /** All entries of the queue take files and rename locally. */
  predicate LocalQueue(es: Entries, name: string) {
    forall e :: e in es && e.name == name ==> !e.manual && e.attrs.rename == Local
  }

  /** Keys of the queue's entries. */
  function Keys(es: Entries, name: string): seq<string> {
    if es == [] then [] else (if es[0].name == name then [es[0].key] else []) + Keys(es[1..], name)
  }

  lemma {:induction false} RenamedOnce(es: Entries, name: string, file: string, tmp: string, once: bool)
    requires LocalQueue(es, name)
    ensures FileName(es, name, file, tmp, once) ==
            if once && Renamer(es, name).Some? then Renamer(es, name).value.world.nextName else tmp
    ensures RenamedBy(es, name, once) ==
            if once && Renamer(es, name).Some? then [Renamer(es, name).value.key] else []
    decreases |es|
  {
    if es != [] {
      assert es == [es[0]] + es[1..];
      var first := once && Renames(es[0], name);
      RenamedOnce(es[1..], name, file, if first then es[0].world.nextName else tmp, once && !first);
    }
  }

  lemma {:induction false} GivenAll(es: Entries, name: string, file: string)
    requires LocalQueue(es, name)
    ensures Given(es, name, file) == seq(|Keys(es, name)|, i requires 0 <= i < |Keys(es, name)| => (Keys(es, name)[i], file))
    decreases |es|
  {
    if es != [] {
      assert es == [es[0]] + es[1..];
      GivenAll(es[1..], name, file);
    }
  }

  /** With local rename and no manual entries sendFile renames the file exactly once, by the leader, and
      every destination is given the leader's name; without a leader nobody renames it and every
      destination is given the empty name. */
  lemma SendsOneName(es: Entries, name: string, file: string)
    requires LocalQueue(es, name)
    ensures var sent, leader := Sent(es, name, file), Renamer(es, name);
            && (leader.Some? <==> Leaders(es, name) > 0)
            && (OneLeader(es) && Defined(es, name) ==> leader.Some?)
            && sent.renamedBy == (if leader.Some? then [leader.value.key] else [])
            && sent.given == seq(|Keys(es, name)|, i requires 0 <= i < |Keys(es, name)| =>
                 (Keys(es, name)[i], if leader.Some? then leader.value.world.nextName else ""))
  {
    RenamedOnce(es, name, file, "", true);
    GivenAll(es, name, FileName(es, name, file, "", true));
    LeaderExists(es, name);
    if e :| e in es && Leads(e, name) { assert Renames(e, name); }
  }

  predicate Gives(e: Entry, name: string, answer: Taking) {
    Takes(e, name) && e.world.taking == answer
  }

  lemma {:induction false} TakenLast(es: Entries, name: string, ok: bool)
    ensures Taken(es, name, ok) <==>
            && (ok || exists i :: 0 <= i < |es| && Gives(es[i], name, Accepts))
            && forall i :: 0 <= i < |es| && Gives(es[i], name, Rejects) ==>
                 exists j :: i < j < |es| && Gives(es[j], name, Accepts)
    decreases |es|
  {
    if es != [] {
      var t := es[1..];
      var next := if Takes(es[0], name) && es[0].world.taking != Silent then es[0].world.taking.Accepts? else ok;
      TakenLast(t, name, next);
      assert forall i :: 0 <= i < |t| ==> t[i] == es[i + 1];
      if j :| 0 < j < |es| && Gives(es[j], name, Accepts) { assert Gives(t[j - 1], name, Accepts); }
      forall i | 0 < i < |es| && Gives(es[i], name, Rejects)
        ensures (exists j :: i < j < |es| && Gives(es[j], name, Accepts)) <==>
                exists j :: i - 1 < j < |t| && Gives(t[j], name, Accepts)
      {
        if j :| i < j < |es| && Gives(es[j], name, Accepts) { assert Gives(t[j - 1], name, Accepts); }
        if j :| i - 1 < j < |t| && Gives(t[j], name, Accepts) { assert Gives(es[j + 1], name, Accepts); }
      }
    }
  }

  /** sendFile answers OK exactly when the queue has a destination and every destination that rejects the file
      is followed by one that accepts it: the last answer counts. */
  lemma SendAnswersLast(es: Entries, name: string, file: string)
    ensures Sent(es, name, file).ok <==>
            && (exists e :: e in es && Takes(e, name))
            && forall i :: 0 <= i < |es| && Gives(es[i], name, Rejects) ==>
                 exists j :: i < j < |es| && Gives(es[j], name, Accepts)
  {
    TakenLast(es, name, true);
  }
}
