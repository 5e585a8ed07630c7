/** Abort after a whole queue was created or deleted. */
module CcbAbortQueue {
  import opened Options
  import opened Text
  import opened TemplateGrammar
  import opened QueueEntries
  import opened QueueOrder
  import opened QueueInvariants
  import opened QueueLeader
  import opened CcbUndo
  import opened CcbListing

  // ---------------------------------------------------------------- creation

  predicate Removable(es: Entries, name: string) {
    forall e :: e in es && e.name == name ==> e.world.removal == RemoveOk
  }

  lemma {:induction false} OthersInsert(es: Entries, e: Entry)
    ensures Others(Insert(es, e), e.name) == Others(es, e.name)
    decreases |es|
  {
    if es == [] {
      assert [e][1..] == [];
    } else if Less(e.key, es[0].key) {
      assert ([e] + es)[1..] == es;
    } else {
      OthersInsert(es[1..], e);
      assert Insert(es, e)[1..] == Insert(es[1..], e);
    }
  }

  lemma CreateOthers(es: Entries, name: string, dest: string, a: Attrs, up: bool, blades: bool)
    ensures Others(Create(es, name, dest, a, up, blades), name) == Others(es, name)
    ensures Removable(es, name) ==> Removable(Create(es, name, dest, a, up, blades), name)
  {
    var c := Created(es, name, dest, a);
    assert c.name == name && c.world.removal == RemoveOk by { hide Adopt, Built, Key; }
    hide Refusal, Created, Insert, Others;
    OthersInsert(es, c);
    InsertMembers(es, c);
  }

  /** Creation grows the table by one entry per destination, all of the queue. */
  lemma {:induction false} CreateEachOthers(es: Entries, name: string, dests: seq<string>, a: Attrs, env: Env)
    ensures var r := CreateEach(es, name, dests, a, env);
            && r.1 <= |dests| && |r.0| == |es| + r.1 && Others(r.0, name) == Others(es, name)
            && (Removable(es, name) ==> Removable(r.0, name))
    decreases |dests|
  {
    hide Refusal, Others, Removable;
    if dests != [] && Refusal(es, name, dests[0], a, env.up, env.blades) == NoError {
      CreateOthers(es, name, dests[0], a, env.up, env.blades);
      InsertLength(es, Created(es, name, dests[0], a));
      CreateEachOthers(Create(es, name, dests[0], a, env.up, env.blades), name, dests[1..], a, env);
    }
  }

  lemma {:induction false} InsertLength(es: Entries, e: Entry)
    ensures |Insert(es, e)| == |es| + 1
    decreases |es|
  {
    if es != [] && !Less(e.key, es[0].key) { InsertLength(es[1..], e); }
  }

  lemma {:induction false} OthersOthers(es: Entries, name: string)
    ensures Others(Others(es, name), name) == Others(es, name) && Removable(Others(es, name), name)
    ensures |Others(es, name)| <= |es| && (|Others(es, name)| == |es| <==> !Defined(es, name))
    ensures !Defined(es, name) ==> Others(es, name) == es
    decreases |es|
  {
    if es != [] {
      OthersOthers(es[1..], name);
      assert es == [es[0]] + es[1..];
    }
  }

  lemma SweepOthers(es: Entries, name: string)
    requires Removable(es, name)
    ensures Sweep(es, name) == Others(es, name) && Sweep(Others(es, name), name) == Others(es, name)
  {
    SweepAll(es, name);
    OthersOthers(es, name);
    SweepAll(Others(es, name), name);
  }

  lemma {:induction false} SweepBlocksOthers(es: Entries, blocks: seq<Block>, name: string, env: Env)
    requires Removable(es, name) && !env.referred && forall b :: b in blocks ==> b.name == name
    ensures SweepBlocks(es, blocks, env) == if blocks == [] then es else Others(es, name)
    decreases |blocks|
  {
    hide Removable, Others;
    if blocks != [] {
      SweepOthers(es, name);
      OthersOthers(es, name);
      SweepBlocksOthers(Others(es, name), blocks[1..], name, env);
    }
  }

  lemma {:induction false} OthersListing(es: Entries, fs: Entries, name: string)
    requires Listing(es) == Listing(fs)
    ensures Listing(Others(es, name)) == Listing(Others(fs, name))
    decreases |es|
  {
    if es != [] {
      assert LineOf(es[0]) == Listing(es)[0] == Listing(fs)[0] == LineOf(fs[0]);
      assert Listing(es[1..]) == Listing(es)[1..] && Listing(fs[1..]) == Listing(fs)[1..];
      OthersListing(es[1..], fs[1..], name);
      ListingAppend([es[0]], Others(es[1..], name));
      ListingAppend([fs[0]], Others(fs[1..], name));
      assert Listing([es[0]]) == Listing([fs[0]]);
    }
  }

  /** When the entries of a created queue all let themselves be removed, abort leaves those of all other queues:
      the listing is restored exactly when the name was new. */
  lemma CreateAbortedFreely(es: Entries, name: string, dests: seq<string>, a: Attrs, env: Env,
                            worlds: seq<World>, env': Env)
    requires dests != [] && !env'.referred
    requires var (t, undo) := CompleteCreate(es, name, dests, a, env);
             undo != Nothing && |worlds| == |t| && Removable(Faced(t, worlds), name)
    ensures var (t, undo) := CompleteCreate(es, name, dests, a, env);
            && Listing(Replay(Faced(t, worlds), undo, env')) == Listing(Others(es, name))
            && (Listing(Replay(Faced(t, worlds), undo, env')) == Listing(es) <==> !Defined(es, name))
  {
    var t := CreateEach(es, name, dests, a, env).0;
    CreateEachOthers(es, name, dests, a, env);
    hide CreateEach, Removable, Others, Faced, Defined;
    var blocks := Blocks(name, dests, a);
    SweepBlocksOthers(Faced(t, worlds), blocks, name, env');
    ListingFaced(t, worlds);
    OthersListing(Faced(t, worlds), t, name);
    OthersOthers(es, name);
  }

  // ---------------------------------------------------------------- deletion

  /** removal reaches entry i and takes it. */
  predicate Goes(es: Entries, name: string, i: nat, env: Env)
    requires i < |es|
  {
    && !env.referred && es[i].name == name && es[i].world.removal == RemoveOk
    && forall k :: 0 <= k < i ==> es[k].name != name || es[k].world.removal != RemoveError
  }

  /** What removal leaves of the entries from k on. */
  function Left(es: Entries, name: string, k: nat, env: Env): Entries
    requires k <= |es|
    decreases |es| - k
  {
    if k == |es| then [] else (if Goes(es, name, k, env) then [] else [es[k]]) + Left(es, name, k + 1, env)
  }

  predicate Unstopped(es: Entries, name: string, k: nat)
    requires k <= |es|
  {
    forall j :: 0 <= j < k ==> es[j].name != name || es[j].world.removal != RemoveError
  }

  lemma {:induction false} StoppedLeft(es: Entries, name: string, k: nat, env: Env)
    requires k <= |es| && (!Unstopped(es, name, k) || env.referred)
    ensures Left(es, name, k, env) == es[k..]
    decreases |es| - k
  {
    if k < |es| { StoppedLeft(es, name, k + 1, env); }
  }

  lemma {:induction false} SweepLeft(es: Entries, name: string, k: nat, env: Env)
    requires k <= |es| && Unstopped(es, name, k) && !env.referred
    ensures Left(es, name, k, env) == Sweep(es[k..], name)
    decreases |es| - k
  {
    if k < |es| {
      var e := es[k];
      assert es[k..][0] == e && es[k..][1..] == es[k + 1..];
      if e.name == name && e.world.removal == RemoveError {
        StoppedLeft(es, name, k + 1, env);
      } else {
        SweepLeft(es, name, k + 1, env);
      }
    }
  }

  // ---------------------------------------------------------------- abort of a creation

  lemma {:induction false} SweepTwice(es: Entries, name: string)
    ensures Sweep(Sweep(es, name), name) == Sweep(es, name)
    decreases |es|
  {
    if es != [] {
      SweepTwice(es[1..], name);
      var t := Sweep(es[1..], name);
      assert ([es[0]] + t)[1..] == t;
    }
  }

  /** Removing a queue again takes nothing more. */
  lemma {:induction false} SweepBlocksOnce(es: Entries, blocks: seq<Block>, name: string, env: Env)
    requires !env.referred && forall b :: b in blocks ==> b.name == name
    ensures SweepBlocks(es, blocks, env) == if blocks == [] then es else Sweep(es, name)
    decreases |blocks|
  {
    hide Sweep;
    if blocks != [] {
      SweepTwice(es, name);
      assert blocks[0] in blocks && forall b :: b in blocks[1..] ==> b in blocks;
      SweepBlocksOnce(Sweep(es, name), blocks[1..], name, env);
    }
  }

  lemma {:induction false} ReferredBlocks(es: Entries, blocks: seq<Block>, env: Env)
    requires env.referred
    ensures SweepBlocks(es, blocks, env) == es
    decreases |blocks|
  {
    if blocks != [] { ReferredBlocks(es, blocks[1..], env); }
  }

  /** t has the entries of es and others under new keys. */
  predicate Grown(es: Entries, t: Entries) {
    && Sorted(t) && (forall e :: e in es ==> e in t)
    && forall e :: e in t && FindKey(es, e.key) >= 0 ==> e in es
  }

  lemma GrownMore(es: Entries, t: Entries, u: Entries)
    requires Grown(es, t) && Grown(t, u)
    ensures Grown(es, u)
  {
    hide Sorted;
    forall e | e in u && FindKey(es, e.key) >= 0 ensures e in es {
      var x := es[FindKey(es, e.key)];
      assert x in es && x in t;
      assert FindKey(t, e.key) >= 0;
    }
  }

  lemma GrownItself(es: Entries)
    requires Sorted(es)
    ensures Grown(es, es)
  {
  }

  lemma CreateGrows(es: Entries, name: string, dest: string, a: Attrs, up: bool, blades: bool)
    requires Sorted(es) && Refusal(es, name, dest, a, up, blades) == NoError
    ensures Grown(es, Create(es, name, dest, a, up, blades))
  {
    var p := CreateSplices(es, name, dest, a, up, blades);
    Accepted(es, name, dest, a, up, blades);
    var c := Created(es, name, dest, a);
    assert c.key == Key(name, dest) by { hide Adopt, Built, Key; }
    hide Refusal, Created, Create, Sorted, Key;
    assert es == es[..p] + es[p..];
  }

  lemma {:induction false} CreateEachGrows(es: Entries, name: string, dests: seq<string>, a: Attrs, env: Env)
    requires Sorted(es)
    ensures Grown(es, CreateEach(es, name, dests, a, env).0)
    decreases |dests|
  {
    hide Grown, Refusal, Create, Sorted;
    GrownItself(es);
    if dests != [] && Refusal(es, name, dests[0], a, env.up, env.blades) == NoError {
      var t := Create(es, name, dests[0], a, env.up, env.blades);
      CreateGrows(es, name, dests[0], a, env.up, env.blades);
      assert Sorted(t) by { GrownSorted(es, t); }
      CreateEachGrows(t, name, dests[1..], a, env);
      GrownMore(es, t, CreateEach(t, name, dests[1..], a, env).0);
    }
  }

  lemma GrownSorted(es: Entries, t: Entries)
    requires Grown(es, t)
    ensures Sorted(t)
  {
  }

  predicate SameLines(a: Entries, b: Entries) {
    && (forall e :: e in a ==> LineOf(e) in Listing(b))
    && (forall e :: e in b ==> LineOf(e) in Listing(a))
  }

  lemma LinesSymmetric(a: Entries, b: Entries)
    requires SameLines(a, b)
    ensures SameLines(b, a)
  {
  }

  lemma TailsSame(a: Entries, b: Entries)
    requires forall e :: e in a ==> LineOf(e) in Listing(b)
    requires forall e :: e in b ==> LineOf(e) in Listing(a)
    ensures SameLines(a, b)
  {
  }

  lemma LineAt(es: Entries, l: Line) returns (i: nat)
    requires l in Listing(es)
    ensures i < |es| && LineOf(es[i]) == l
  {
    i :| 0 <= i < |Listing(es)| && Listing(es)[i] == l;
  }

  lemma InListing(es: Entries, i: nat)
    requires i < |es|
    ensures LineOf(es[i]) in Listing(es)
  {
    assert Listing(es)[i] == LineOf(es[i]);
  }

  /** Sorted lists with the same lines are the same listing. */
  lemma {:induction false} ListingOfLines(a: Entries, b: Entries)
    requires Sorted(a) && Sorted(b) && SameLines(a, b)
    ensures Listing(a) == Listing(b)
    decreases |a|
  {
    if a == [] {
      if b != [] { assert b[0] in b; }
    } else {
      hide Sorted, Listing, SameLines;
      FirstLines(a, b);
      LinesSymmetric(a, b);
      TailLines(a, b);
      TailLines(b, a);
      TailsSame(a[1..], b[1..]);
      SortedTail(a);
      SortedTail(b);
      ListingOfLines(a[1..], b[1..]);
      ListingCons(a, b);
    }
  }

  lemma ListingCons(a: Entries, b: Entries)
    requires a != [] && b != [] && LineOf(a[0]) == LineOf(b[0]) && Listing(a[1..]) == Listing(b[1..])
    ensures Listing(a) == Listing(b)
  {
    ListingAppend([a[0]], a[1..]);
    ListingAppend([b[0]], b[1..]);
    assert a == [a[0]] + a[1..] && b == [b[0]] + b[1..] && Listing([a[0]]) == Listing([b[0]]);
  }

  lemma SortedTail(a: Entries)
    requires Sorted(a) && a != []
    ensures Sorted(a[1..])
  {
  }

  lemma FirstLines(a: Entries, b: Entries)
    requires Sorted(a) && Sorted(b) && SameLines(a, b) && a != []
    ensures b != [] && LineOf(a[0]) == LineOf(b[0])
  {
    hide Listing, Less;
    assert a[0] in a;
    var j := LineAt(b, LineOf(a[0]));
    assert b[0] in b;
    var i := LineAt(a, LineOf(b[0]));
    if j > 0 {
      if i > 0 { LessAsymmetric(b[0].key, b[j].key); } else { LessIrreflexive(b[0].key); }
    }
  }

  lemma TailLines(a: Entries, b: Entries)
    requires Sorted(a) && Sorted(b) && SameLines(a, b) && a != [] && b != [] && LineOf(a[0]) == LineOf(b[0])
    ensures forall e :: e in a[1..] ==> LineOf(e) in Listing(b[1..])
  {
    hide Listing, Less;
    assert Sorted(b);
    forall e | e in a[1..] ensures LineOf(e) in Listing(b[1..]) {
      var i :| 0 <= i < |a[1..]| && a[1..][i] == e;
      assert e in a && a[i + 1] == e;
      var j := LineAt(b, LineOf(e));
      if j == 0 { LessIrreflexive(e.key); }
      InListing(b[1..], j - 1);
      assert b[1..][j - 1] == b[j];
    }
  }

  lemma {:induction false} LeftIs(es: Entries, name: string, k: nat, env: Env)
    requires k <= |es|
    ensures forall x :: x in Left(es, name, k, env) <==> exists i :: k <= i < |es| && es[i] == x && !Goes(es, name, i, env)
    decreases |es| - k
  {
    hide Goes;
    if k < |es| { LeftIs(es, name, k + 1, env); }
  }

  lemma {:induction false} LeftSorted(es: Entries, name: string, k: nat, env: Env)
    requires k <= |es| && Sorted(es)
    ensures Sorted(Left(es, name, k, env))
    decreases |es| - k
  {
    hide Goes, Less;
    if k < |es| && !Goes(es, name, k, env) {
      LeftSorted(es, name, k + 1, env);
      LeftIs(es, name, k + 1, env);
      var t := Left(es, name, k + 1, env);
      forall j | 0 <= j < |t| ensures Less(es[k].key, t[j].key) {
        assert t[j] in t;
      }
    } else if k < |es| {
      LeftSorted(es, name, k + 1, env);
    }
  }

  /** What the removal of the queue leaves of the grown table is the table before exactly when it takes the new
      entries and no others. */
  lemma LeftOfGrown(es: Entries, t: Entries, name: string, worlds: seq<World>, env: Env)
    requires Sorted(es) && Grown(es, t) && |worlds| == |t|
    ensures var fs := Faced(t, worlds);
            Listing(Left(fs, name, 0, env)) == Listing(es) <==>
            forall i :: 0 <= i < |t| ==> (Goes(fs, name, i, env) <==> FindKey(es, t[i].key) < 0)
  {
    hide Goes, Left, Listing, Less, Grown;
    var fs := Faced(t, worlds);
    var left := Left(fs, name, 0, env);
    assert Sorted(fs) by { GrownSorted(es, t); SortedSame(t, fs); }
    LeftIs(fs, name, 0, env);
    LeftSorted(fs, name, 0, env);
    if Listing(left) == Listing(es) {
      forall i | 0 <= i < |t| ensures Goes(fs, name, i, env) <==> FindKey(es, t[i].key) < 0 {
        SameWhenListed(es, t, fs, left, name, env, i);
      }
    } else if forall i :: 0 <= i < |t| ==> (Goes(fs, name, i, env) <==> FindKey(es, t[i].key) < 0) {
      GrownLines(es, t, worlds, name, env);
      ListingOfLines(left, es);
    }
  }

  lemma SameWhenListed(es: Entries, t: Entries, fs: Entries, left: Entries, name: string, env: Env, i: nat)
    requires Listing(left) == Listing(es) && SameKeys(t, fs) && Sorted(fs) && i < |t|
    requires forall x :: x in left <==> exists i :: 0 <= i < |fs| && fs[i] == x && !Goes(fs, name, i, env)
    ensures Goes(fs, name, i, env) <==> FindKey(es, t[i].key) < 0
  {
    hide Goes, Less, Listing;
    var k := FindKey(es, t[i].key);
    if !Goes(fs, name, i, env) {
      assert fs[i] in left;
      var p :| 0 <= p < |left| && left[p] == fs[i];
      InListing(left, p);
      var j := LineAt(es, LineOf(left[p]));
      assert es[j] in es && es[j].key == t[i].key;
    } else if k >= 0 {
      InListing(es, k);
      var p := LineAt(left, LineOf(es[k]));
      assert left[p] in left;
      var m :| 0 <= m < |fs| && fs[m] == left[p] && !Goes(fs, name, m, env);
      DistinctKeys(fs, i, m);
    }
  }

  lemma GrownLines(es: Entries, t: Entries, worlds: seq<World>, name: string, env: Env)
    requires Grown(es, t) && |worlds| == |t|
    requires var fs := Faced(t, worlds);
             forall i :: 0 <= i < |t| ==> (Goes(fs, name, i, env) <==> FindKey(es, t[i].key) < 0)
    ensures SameLines(Left(Faced(t, worlds), name, 0, env), es)
  {
    hide Goes, Left, Listing, Sorted;
    var fs := Faced(t, worlds);
    var left := Left(fs, name, 0, env);
    LeftIs(fs, name, 0, env);
    forall x | x in left ensures LineOf(x) in Listing(es) {
      var i :| 0 <= i < |fs| && fs[i] == x && !Goes(fs, name, i, env);
      assert t[i] in t && t[i] in es;
      var j :| 0 <= j < |es| && es[j] == t[i];
      InListing(es, j);
    }
    forall x | x in es ensures LineOf(x) in Listing(left) {
      var i :| 0 <= i < |t| && t[i] == x;
      assert FindKey(es, x.key) >= 0 && fs[i] in left;
      var j :| 0 <= j < |left| && left[j] == fs[i];
      InListing(left, j);
    }
  }

  /** Abort of a creation restores the listing exactly when the removal of the queue takes the new entries and no
      others. */
  lemma CreateAborted(es: Entries, name: string, dests: seq<string>, a: Attrs, env: Env, worlds: seq<World>, env': Env)
    requires Sorted(es) && dests != []
    requires var (t, undo) := CompleteCreate(es, name, dests, a, env); undo != Nothing && |worlds| == |t|
    ensures var (t, undo) := CompleteCreate(es, name, dests, a, env);
            var fs := Faced(t, worlds);
            Listing(Replay(fs, undo, env')) == Listing(es) <==>
            forall i :: 0 <= i < |t| ==> (Goes(fs, name, i, env') <==> FindKey(es, t[i].key) < 0)
  {
    var t := CreateEach(es, name, dests, a, env).0;
    CreateEachGrows(es, name, dests, a, env);
    hide CreateEach, Sorted, Goes, Left, Sweep, Grown, Listing;
    var fs, blocks := Faced(t, worlds), Blocks(name, dests, a);
    if env'.referred {
      ReferredBlocks(fs, blocks, env');
      StoppedLeft(fs, name, 0, env');
    } else {
      SweepBlocksOnce(fs, blocks, name, env');
      SweepLeft(fs, name, 0, env');
    }
    assert fs[0..] == fs;
    LeftOfGrown(es, t, name, worlds, env');
  }

  // ---------------------------------------------------------------- a creation that fails

  /** The first and the second destination of a creation are accepted. */
  predicate FirstAccepted(es: Entries, name: string, dests: seq<string>, a: Attrs, env: Env) {
    dests != [] && Refusal(es, name, dests[0], a, env.up, env.blades) == NoError
  }

  predicate SecondAccepted(es: Entries, name: string, dests: seq<string>, a: Attrs, env: Env) {
    && FirstAccepted(es, name, dests, a, env)
    && FirstAccepted(Create(es, name, dests[0], a, env.up, env.blades), name, dests[1..], a, env)
  }

  lemma HowMany(es: Entries, name: string, dests: seq<string>, a: Attrs, env: Env)
    ensures var n := CreateEach(es, name, dests, a, env).1;
            && (n > 0 <==> FirstAccepted(es, name, dests, a, env))
            && (n > 1 <==> SecondAccepted(es, name, dests, a, env))
            && (n == 0 ==> CreateEach(es, name, dests, a, env).0 == es)
  {
    hide Refusal, Create;
  }

  lemma {:induction false} SweepTimesOnce(es: Entries, name: string, n: nat)
    ensures SweepTimes(es, name, n, false) == if n == 0 then es else Sweep(es, name)
    decreases n
  {
    hide Sweep;
    if n > 0 {
      SweepTwice(es, name);
      SweepTimesOnce(Sweep(es, name), name, n - 1);
    }
  }

  lemma {:induction false} SweepTimesReferred(es: Entries, name: string, n: nat)
    ensures SweepTimes(es, name, n, true) == es
    decreases n
  {
    if n > 0 { SweepTimesReferred(es, name, n - 1); }
  }

  /** The removal of the queue takes the entries created so far and no others. */
  predicate TakesNew(es: Entries, name: string, dests: seq<string>, a: Attrs, env: Env) {
    var t := CreateEach(es, name, dests, a, env).0;
    forall i :: 0 <= i < |t| ==> (Goes(t, name, i, env) <==> FindKey(es, t[i].key) < 0)
  }

  lemma RollBackIs(es: Entries, name: string, dests: seq<string>, a: Attrs, env: Env)
    requires CompleteCreate(es, name, dests, a, env).1 == Nothing
    ensures var t := CreateEach(es, name, dests, a, env).0;
            CompleteCreate(es, name, dests, a, env) ==
            (if SecondAccepted(es, name, dests, a, env) then Left(t, name, 0, env) else t, Nothing)
  {
    var r := CreateEach(es, name, dests, a, env);
    HowMany(es, name, dests, a, env);
    hide CreateEach, SecondAccepted, FirstAccepted, Left, Goes, Sweep, SweepTimes;
    var n := if r.1 < 2 then 0 else r.1 - 1;
    assert r.0[0..] == r.0;
    if env.referred {
      SweepTimesReferred(r.0, name, n);
      StoppedLeft(r.0, name, 0, env);
    } else {
      SweepTimesOnce(r.0, name, n);
      SweepLeft(r.0, name, 0, env);
    }
  }

  /** A creation that fails is rolled back on the spot, and abort has nothing to do. The listing is as before
      exactly when the first destination is refused, or the second is accepted and the removal of the queue takes
      the new entries and no others. */
  lemma HalfCreated(es: Entries, name: string, dests: seq<string>, a: Attrs, env: Env, worlds: seq<World>, env': Env)
    requires Sorted(es) && CompleteCreate(es, name, dests, a, env).1 == Nothing
    requires |worlds| == |CompleteCreate(es, name, dests, a, env).0|
    ensures var (t, undo) := CompleteCreate(es, name, dests, a, env);
            Listing(Replay(Faced(t, worlds), undo, env')) == Listing(es) <==>
            || !FirstAccepted(es, name, dests, a, env)
            || (SecondAccepted(es, name, dests, a, env) && TakesNew(es, name, dests, a, env))
  {
    var r, t := CreateEach(es, name, dests, a, env), CompleteCreate(es, name, dests, a, env).0;
    hide CreateEach, SecondAccepted, FirstAccepted, TakesNew, Left, Sorted, Others, Removable, Listing, Faced;
    CreateEachOthers(es, name, dests, a, env);
    HowMany(es, name, dests, a, env);
    RollBackIs(es, name, dests, a, env);
    hide CompleteCreate;
    ListingFaced(t, worlds);
    LeftOfTable(es, name, dests, a, env);
    assert |Listing(r.0)| == |r.0| && |Listing(es)| == |es|;
  }

  lemma LeftOfTable(es: Entries, name: string, dests: seq<string>, a: Attrs, env: Env)
    requires Sorted(es)
    ensures Listing(Left(CreateEach(es, name, dests, a, env).0, name, 0, env)) == Listing(es) <==>
            TakesNew(es, name, dests, a, env)
  {
    hide CreateEach, Left, Goes, Grown, Sorted, Listing;
    var t := CreateEach(es, name, dests, a, env).0;
    CreateEachGrows(es, name, dests, a, env);
    var worlds := seq(|t|, i requires 0 <= i < |t| => t[i].world);
    assert Faced(t, worlds) == t;
    LeftOfGrown(es, t, name, worlds, env);
  }

  /** For a new name: exactly when the first destination is refused, or the second is accepted and no other
      function refers to the queue. */
  lemma HalfCreatedNew(es: Entries, name: string, dests: seq<string>, a: Attrs, env: Env, worlds: seq<World>, env': Env)
    requires !Defined(es, name) && CompleteCreate(es, name, dests, a, env).1 == Nothing
    requires |worlds| == |CompleteCreate(es, name, dests, a, env).0|
    ensures var (t, undo) := CompleteCreate(es, name, dests, a, env);
            Listing(Replay(Faced(t, worlds), undo, env')) == Listing(es) <==>
            || !FirstAccepted(es, name, dests, a, env)
            || (SecondAccepted(es, name, dests, a, env) && !env.referred)
  {
    var r, t := CreateEach(es, name, dests, a, env), CompleteCreate(es, name, dests, a, env).0;
    CreateEachOthers(es, name, dests, a, env);
    assert Removable(es, name);
    HowMany(es, name, dests, a, env);
    RollBackIs(es, name, dests, a, env);
    hide CreateEach, SecondAccepted, FirstAccepted, Left, Goes, Others, Removable, Listing, Sweep;
    ListingFaced(t, worlds);
    assert r.0[0..] == r.0;
    if env.referred { StoppedLeft(r.0, name, 0, env); } else { SweepLeft(r.0, name, 0, env); SweepOthers(r.0, name); }
    OthersOthers(es, name);
    OthersOthers(r.0, name);
    assert |Listing(r.0)| == |r.0| && |Listing(es)| == |es|;
  }

  /** The line of entry i after deletion and replay: f is the first entry of the queue. */
  function Healed(es: Entries, name: string, f: Entry, i: nat, env: Env): Line
    requires i < |es|
  {
    if Goes(es, name, i, env) then Line(es[i].key, es[i].name, es[i].dest, f.attrs.(kind := es[i].attrs.kind))
    else LineOf(es[i])
  }

  function AllHealed(es: Entries, name: string, f: Entry, k: nat, env: Env): (r: seq<Line>)
    requires k <= |es|
    ensures |r| == k
  {
    seq(k, i requires 0 <= i < k => Healed(es, name, f, i, env))
  }

  /** The table has the first k entries, healed, and what removal left from m on. */
  predicate Replayed(es: Entries, name: string, f: Entry, k: nat, m: nat, env: Env, cur: Entries)
    requires k <= m <= |es|
  {
    Listing(cur) == AllHealed(es, name, f, k, env) + Listing(Left(es, name, m, env))
  }

  lemma {:induction false} LeftMembers(es: Entries, name: string, k: nat, env: Env, x: Entry)
    returns (j: nat)
    requires k <= |es| && x in Left(es, name, k, env)
    ensures k <= j < |es| && es[j] == x
    decreases |es| - k
  {
    if !Goes(es, name, k, env) && x == es[k] { j := k; } else { j := LeftMembers(es, name, k + 1, env, x); }
  }

  /** Where a line of the replayed table comes from. */
  lemma Origin(es: Entries, name: string, f: Entry, k: nat, m: nat, env: Env, cur: Entries, p: nat)
    returns (j: nat)
    requires k <= m <= |es| && Replayed(es, name, f, k, m, env, cur) && p < |cur|
    ensures j < |es| && (if p < k then j == p else j >= m)
    ensures cur[p].key == es[j].key && cur[p].name == es[j].name && cur[p].dest == es[j].dest
    ensures cur[p].attrs == es[j].attrs || (es[j].name == name && cur[p].attrs == f.attrs.(kind := es[j].attrs.kind))
  {
    var left := Left(es, name, m, env);
    assert LineOf(cur[p]) == Listing(cur)[p];
    if p < k {
      j := p;
      assert Listing(cur)[p] == Healed(es, name, f, p, env);
    } else {
      assert Listing(cur)[p] == Listing(left)[p - k] == LineOf(left[p - k]);
      j := LeftMembers(es, name, m, env, left[p - k]);
    }
  }

  lemma HealsNext(es: Entries, name: string, f: Entry, k: nat, env: Env)
    requires k < |es|
    ensures AllHealed(es, name, f, k + 1, env) == AllHealed(es, name, f, k, env) + [Healed(es, name, f, k, env)]
  {
  }

  /** An entry that stayed is still there. */
  lemma Stays(es: Entries, name: string, f: Entry, k: nat, env: Env, cur: Entries)
    requires k < |es| && !Goes(es, name, k, env) && Replayed(es, name, f, k, k, env, cur)
    ensures Replayed(es, name, f, k + 1, k + 1, env, cur)
    ensures k < |cur| && LineOf(cur[k]) == LineOf(es[k])
  {
    var rest := Left(es, name, k + 1, env);
    assert Left(es, name, k, env) == [es[k]] + rest;
    ListingAppend([es[k]], rest);
    assert Listing([es[k]]) == [LineOf(es[k])];
    HealsNext(es, name, f, k, env);
    assert LineOf(cur[k]) == Listing(cur)[k];
  }

  /** The place of a missing key is between the healed entries and the rest. */
  lemma Missing(es: Entries, name: string, f: Entry, k: nat, env: Env, cur: Entries)
    requires Sorted(es) && k < |es| && Replayed(es, name, f, k, k + 1, env, cur)
    ensures k <= |cur| && Between(cur[..k], es[k].key, cur[k..]) && FindKey(cur, es[k].key) < 0
  {
    hide Replayed, Less, FindKey, Sorted, Between;
    ReplayedLength(es, name, f, k, k + 1, env, cur);
    SortedAround(es, k);
    forall x | x in cur[..k] ensures Less(x.key, es[k].key) {
      var p :| 0 <= p < k && cur[p] == x;
      var j := Origin(es, name, f, k, k + 1, env, cur, p);
    }
    forall x | x in cur[k..] ensures Less(es[k].key, x.key) {
      var p :| k <= p < |cur| && cur[p] == x;
      var j := Origin(es, name, f, k, k + 1, env, cur, p);
    }
    IsBetween(cur[..k], es[k].key, cur[k..]);
    NotBetween(cur[..k], es[k].key, cur[k..], cur);
  }

  lemma ReplayedLength(es: Entries, name: string, f: Entry, k: nat, m: nat, env: Env, cur: Entries)
    requires k <= m <= |es| && Replayed(es, name, f, k, m, env, cur)
    ensures |cur| == k + |Left(es, name, m, env)|
  {
    hide Left;
    assert |cur| == |Listing(cur)|;
  }

  lemma SortedAround(es: Entries, k: nat)
    requires Sorted(es) && k < |es|
    ensures forall j :: 0 <= j < k ==> Less(es[j].key, es[k].key)
    ensures forall j :: k < j < |es| ==> Less(es[k].key, es[j].key)
  {
    hide Less;
  }

  lemma IsBetween(a: Entries, key: string, b: Entries)
    requires (forall e :: e in a ==> Less(e.key, key)) && (forall e :: e in b ==> Less(key, e.key))
    ensures Between(a, key, b)
  {
    hide Less;
  }

  lemma NotBetween(a: Entries, key: string, b: Entries, cur: Entries)
    requires Between(a, key, b) && cur == a + b
    ensures FindKey(cur, key) < 0
  {
    forall x | x in cur ensures x.key != key {
      LessIrreflexive(key);
      assert x in a || x in b;
    }
  }

  lemma {:induction false} LeftToDest(es: Entries, name: string, k: nat, env: Env, dest: string)
    requires k <= |es|
    ensures ToDest(Left(es, name, k, env), dest) <= ToDest(es[k..], dest)
    decreases |es| - k
  {
    if k < |es| {
      LeftToDest(es, name, k + 1, env, dest);
      var rest := Left(es, name, k + 1, env);
      assert es[k..] == [es[k]] + es[k + 1..];
      ToDestAppend([es[k]], es[k + 1..], dest);
      ToDestAppend([es[k]], rest, dest);
      assert Left(es, name, k, env) == if Goes(es, name, k, env) then rest else [es[k]] + rest;
    }
  }

  lemma SameDests(es: Entries, fs: Entries, dest: string)
    requires |es| == |fs| && forall i :: 0 <= i < |es| ==> es[i].dest == fs[i].dest
    ensures ToDest(es, dest) == ToDest(fs, dest)
    decreases |es|
  {
    if es != [] { SameDests(es[1..], fs[1..], dest); }
  }

  /** There is room for a missing destination. */
  lemma Room(es: Entries, name: string, f: Entry, k: nat, env: Env, cur: Entries)
    requires Capped(es) && k < |es| && Replayed(es, name, f, k, k + 1, env, cur)
    ensures ToDest(cur, es[k].dest) < MaxDestinations
  {
    hide Replayed, Left, Goes;
    var d := es[k].dest;
    ReplayedDests(es, name, f, k, env, cur, d);
    LeftToDest(es, name, k + 1, env, d);
    ToDestSplice(es[..k], es[k], es[k + 1..], d);
    ToDestAppend(es[..k], es[k + 1..], d);
    assert es == es[..k] + [es[k]] + es[k + 1..];
    assert ToDest(es, d) <= MaxDestinations;
  }

  lemma ReplayedDests(es: Entries, name: string, f: Entry, k: nat, env: Env, cur: Entries, d: string)
    requires k < |es| && Replayed(es, name, f, k, k + 1, env, cur)
    ensures ToDest(cur, d) == ToDest(es[..k], d) + ToDest(Left(es, name, k + 1, env), d)
  {
    var rest := Left(es, name, k + 1, env);
    ReplayedLength(es, name, f, k, k + 1, env, cur);
    hide Left, Goes, ToDest;
    var a, b := cur[..k], cur[k..];
    assert Listing(b) == Listing(rest) by { assert Listing(b) == Listing(cur)[k..]; }
    SameDest(b, rest, d);
    forall p | 0 <= p < k ensures a[p].dest == es[..k][p].dest {
      assert LineOf(cur[p]) == Listing(cur)[p] == Healed(es, name, f, p, env);
    }
    SameDests(a, es[..k], d);
    ToDestAppend(a, b, d);
    assert cur == a + b;
  }

  lemma AgreesKind(a: Attrs, b: Attrs, kind: int)
    requires Agrees(a, b)
    ensures Agrees(a.(kind := kind), b) && Agrees(a, b.(kind := kind))
  {
  }

  /** What the table has of the queue agrees with the first entry. */
  lemma ReplayAgrees(es: Entries, name: string, f: Entry, k: nat, env: Env, cur: Entries, kind: int, x: Entry)
    requires Agreement(es) && f in es && f.name == name && k < |es| && Replayed(es, name, f, k, k + 1, env, cur)
    requires x in cur && x.name == name
    ensures Agrees(x.attrs, f.attrs.(kind := kind))
  {
    var p :| 0 <= p < |cur| && cur[p] == x;
    hide Replayed, Agrees;
    var j := Origin(es, name, f, k, k + 1, env, cur, p);
    assert es[j] in es && Agrees(es[j].attrs, f.attrs);
    AgreesItself(f.attrs);
    AgreesKind(f.attrs, f.attrs, es[j].attrs.kind);
    AgreesKind(x.attrs, f.attrs, kind);
  }

  /** An entry that went comes back, with the attributes of the first. */
  lemma ComesBack(es: Entries, name: string, f: Entry, k: nat, env: Env, cur: Entries, env': Env)
    requires Table(es) && k < |es| && Goes(es, name, k, env) && Replayed(es, name, f, k, k, env, cur)
    requires f in es && f.name == name && InitOk(f.attrs, env'.up, env'.blades)
    ensures var a := f.attrs.(kind := es[k].attrs.kind);
            Replayed(es, name, f, k + 1, k + 1, env, Create(cur, name, es[k].dest, a, env'.up, env'.blades))
  {
    var a, e := f.attrs.(kind := es[k].attrs.kind), es[k];
    assert Left(es, name, k, env) == Left(es, name, k + 1, env) && Replayed(es, name, f, k, k + 1, env, cur);
    assert e in es && Filed(e) && e.name == name;
    FiledKey(e);
    Missing(es, name, f, k, env, cur);
    Room(es, name, f, k, env, cur);
    hide Filed, AllFiled, Agreement, Capped, InitOk, ToDest, FindKey, Refusal, Created, Key, Agrees, Left, Sorted, Insert;
    forall x | x in cur && x.name == name ensures Agrees(x.attrs, a) {
      ReplayAgrees(es, name, f, k, env, cur, es[k].attrs.kind, x);
    }
    hide Replayed;
    CreatesWhen(cur, name, e.dest, a, env'.up, env'.blades);
    CreatesLine(cur, name, e.dest, a);
    InitSame(f.attrs, a, env'.up, env'.blades);
    InsertsHealed(es, name, f, k, env, cur, Created(cur, name, e.dest, a));
  }

  lemma InsertsHealed(es: Entries, name: string, f: Entry, k: nat, env: Env, cur: Entries, c: Entry)
    requires k < |es| && Replayed(es, name, f, k, k + 1, env, cur) && Goes(es, name, k, env)
    requires k <= |cur| && Between(cur[..k], c.key, cur[k..])
    requires LineOf(c) == Healed(es, name, f, k, env)
    ensures Replayed(es, name, f, k + 1, k + 1, env, Insert(cur, c))
  {
    hide Left, Goes, Healed;
    InsertBetween(cur[..k], c, cur[k..]);
    assert cur == cur[..k] + cur[k..];
    ListingSplice(cur[..k], c, cur[k..]);
    ListingAppend(cur[..k], cur[k..]);
    HealsNext(es, name, f, k, env);
    var l, h := Listing(cur), AllHealed(es, name, f, k, env);
    assert Listing(cur[..k]) == l[..k] == h && Listing(cur[k..]) == l[k..] == Listing(Left(es, name, k + 1, env));
  }

  /** The log from entry k on. */
  function LogFrom(es: Entries, name: string, f: Entry, k: nat): seq<Block>
    requires k <= |es|
    decreases |es| - k
  {
    if k == |es| then []
    else (if es[k].name == name then [Block(name, es[k].dest, f.attrs.(kind := es[k].attrs.kind))] else [])
         + LogFrom(es, name, f, k + 1)
  }

  /** Replaying the rest of the log heals the rest of the table. */
  lemma {:induction false} ReplayHeals(es: Entries, name: string, f: Entry, k: nat, env: Env, cur: Entries, env': Env)
    requires Table(es) && k <= |es| && Replayed(es, name, f, k, k, env, cur)
    requires f in es && f.name == name && InitOk(f.attrs, env'.up, env'.blades)
    ensures Listing(CreateBlocks(cur, LogFrom(es, name, f, k), env')) == AllHealed(es, name, f, |es|, env)
    decreases |es| - k
  {
    if k == |es| {
      hide Table;
      assert Left(es, name, k, env) == [];
    } else {
      hide CreateBlocks, LogFrom, Create, Table, InitOk, Replayed, AllHealed;
      var next := if es[k].name == name
                  then Create(cur, name, es[k].dest, f.attrs.(kind := es[k].attrs.kind), env'.up, env'.blades)
                  else cur;
      LogStep(es, name, f, k, cur, env');
      NextHeals(es, name, f, k, env, cur, env', next);
      ReplayHeals(es, name, f, k + 1, env, next, env');
    }
  }

  lemma LogStep(es: Entries, name: string, f: Entry, k: nat, cur: Entries, env: Env)
    requires k < |es|
    ensures CreateBlocks(cur, LogFrom(es, name, f, k), env) ==
            CreateBlocks(if es[k].name == name
                         then Create(cur, name, es[k].dest, f.attrs.(kind := es[k].attrs.kind), env.up, env.blades)
                         else cur, LogFrom(es, name, f, k + 1), env)
  {
    hide Create;
    var log, rest := LogFrom(es, name, f, k), LogFrom(es, name, f, k + 1);
    if es[k].name == name { assert log[1..] == rest; } else { assert log == rest; }
  }

  lemma NextHeals(es: Entries, name: string, f: Entry, k: nat, env: Env, cur: Entries, env': Env, next: Entries)
    requires Table(es) && k < |es| && Replayed(es, name, f, k, k, env, cur)
    requires f in es && f.name == name && InitOk(f.attrs, env'.up, env'.blades)
    requires next == if es[k].name == name
                     then Create(cur, name, es[k].dest, f.attrs.(kind := es[k].attrs.kind), env'.up, env'.blades)
                     else cur
    ensures Replayed(es, name, f, k + 1, k + 1, env, next)
  {
    hide Table, Replayed, InitOk, Create, Sorted;
    if Goes(es, name, k, env) {
      ComesBack(es, name, f, k, env, cur, env');
    } else {
      Stays(es, name, f, k, env, cur);
      if es[k].name == name { Rejected(es, name, f, k, cur, env'); }
    }
  }

  lemma Rejected(es: Entries, name: string, f: Entry, k: nat, cur: Entries, env': Env)
    requires Table(es) && k < |es| && es[k].name == name && k < |cur| && LineOf(cur[k]) == LineOf(es[k])
    ensures Create(cur, name, es[k].dest, f.attrs.(kind := es[k].attrs.kind), env'.up, env'.blades) == cur
  {
    assert es[k] in es && Filed(es[k]);
    FiledKey(es[k]);
    assert cur[k] in cur && FindKey(cur, es[k].key) >= 0;
    hide InitOk, Misfit, Adopt, ToDest, FirstNamed;
  }

  lemma {:induction false} LogIs(es: Entries, name: string, f: Entry, k: nat)
    requires k <= |es|
    ensures var q := Named(es[k..], name);
            LogFrom(es, name, f, k) ==
            seq(|q|, i requires 0 <= i < |q| => Block(name, q[i].dest, f.attrs.(kind := q[i].attrs.kind)))
    decreases |es| - k
  {
    if k < |es| {
      LogIs(es, name, f, k + 1);
      assert es[k..][0] == es[k] && es[k..][1..] == es[k + 1..];
    }
  }

  /** A creation whose init fails adds nothing to a queue that agrees. */
  lemma FailsInit(cur: Entries, name: string, dest: string, a: Attrs, up: bool, blades: bool)
    requires '/' !in name && !InitOk(a, up, blades) && forall e :: e in cur && e.name == name ==> Agrees(e.attrs, a)
    ensures Create(cur, name, dest, a, up, blades) == cur
  {
    hide Agrees, Misfit, Adopt, InitOk, FindKey, ToDest, Key, BaseName;
    PlainName(name);
    AdoptOwn(FirstNamed(cur, name), a);
  }

  lemma NotBack(cur: Entries, name: string, f: Entry, dest: string, kind: int, env: Env)
    requires '/' !in name && !InitOk(f.attrs, env.up, env.blades)
    requires forall e :: e in cur && e.name == name ==> Agrees(e.attrs, f.attrs)
    ensures Create(cur, name, dest, f.attrs.(kind := kind), env.up, env.blades) == cur
  {
    hide Create, InitOk, Agrees;
    var a := f.attrs.(kind := kind);
    InitSame(f.attrs, a, env.up, env.blades);
    forall e | e in cur && e.name == name ensures Agrees(e.attrs, a) {
      AgreesKind(e.attrs, f.attrs, kind);
    }
    FailsInit(cur, name, dest, a, env.up, env.blades);
  }

  lemma {:induction false} NothingBack(cur: Entries, name: string, f: Entry, es: Entries, k: nat, env: Env)
    requires k <= |es| && '/' !in name && !InitOk(f.attrs, env.up, env.blades)
    requires forall e :: e in cur && e.name == name ==> Agrees(e.attrs, f.attrs)
    ensures CreateBlocks(cur, LogFrom(es, name, f, k), env) == cur
    decreases |es| - k
  {
    hide Create, InitOk, Agrees;
    if k < |es| {
      hide CreateBlocks, LogFrom;
      LogStep(es, name, f, k, cur, env);
      NothingBack(cur, name, f, es, k + 1, env);
      NotBack(cur, name, f, es[k].dest, es[k].attrs.kind, env);
    } else {
      assert LogFrom(es, name, f, k) == [];
    }
  }

  /** What removal left agrees with the first entry. */
  lemma LeftAgrees(es: Entries, name: string, f: Entry, env: Env, cur: Entries, e: Entry)
    requires Agreement(es) && f in es && f.name == name && Listing(cur) == Listing(Left(es, name, 0, env))
    requires e in cur && e.name == name
    ensures Agrees(e.attrs, f.attrs)
  {
    hide Left, Agrees;
    var left := Left(es, name, 0, env);
    var p :| 0 <= p < |cur| && cur[p] == e;
    assert LineOf(e) == Listing(cur)[p] == Listing(left)[p] == LineOf(left[p]);
    var j := LeftMembers(es, name, 0, env, left[p]);
    assert es[j] in es;
  }

  /** However far the deletion got, replaying its log gives every removed destination back, with the
      attributes of the first entry of the queue and its own type, if these can be set up again, and none
      otherwise; the others are as they were. */
  lemma DeleteHealed(es: Entries, name: string, env: Env, worlds: seq<World>, env': Env)
    requires Table(es) && Defined(es, name) && |worlds| == |Delete(es, name, env).0|
    ensures var (t, undo) := Delete(es, name, env);
            var f := FirstNamed(es, name).value;
            Listing(Replay(Faced(t, worlds), undo, env')) ==
            if InitOk(f.attrs, env'.up, env'.blades) then AllHealed(es, name, f, |es|, env)
            else Listing(Left(es, name, 0, env))
  {
    hide Delete, Table, InitOk, Left, CreateBlocks, Replayed, AllHealed, LogFrom, FirstNamed, Defined, Faced, Listing;
    var f := FirstNamed(es, name).value;
    DeleteLeaves(es, name, env);
    var t := Delete(es, name, env).0;
    ListingFaced(t, worlds);
    var cur := Faced(t, worlds);
    if InitOk(f.attrs, env'.up, env'.blades) {
      StartsReplay(es, name, f, env, cur);
      ReplayHeals(es, name, f, 0, env, cur, env');
    } else {
      InOrder(es, name, f);
      forall e | e in cur && e.name == name ensures Agrees(e.attrs, f.attrs) {
        LeftAgrees(es, name, f, env, cur, e);
      }
      NothingBack(cur, name, f, es, 0, env');
    }
  }

  lemma InOrder(es: Entries, name: string, f: Entry)
    requires Table(es) && f in es && f.name == name
    ensures Agreement(es) && '/' !in name
  {
    assert Filed(f);
  }

  lemma StartsReplay(es: Entries, name: string, f: Entry, env: Env, cur: Entries)
    requires Listing(cur) == Listing(Left(es, name, 0, env))
    ensures Replayed(es, name, f, 0, 0, env, cur)
  {
    hide Left;
    assert AllHealed(es, name, f, 0, env) == [];
  }

  lemma DeleteLeaves(es: Entries, name: string, env: Env)
    requires Defined(es, name)
    ensures var f := FirstNamed(es, name).value;
            && Delete(es, name, env) == (Left(es, name, 0, env), CreateTqRec(LogFrom(es, name, f, 0)))
            && f in es && f.name == name
  {
    assert es[0..] == es;
    if env.referred { StoppedLeft(es, name, 0, env); } else { SweepLeft(es, name, 0, env); }
    hide Sweep, Left, Goes;
    LogIs(es, name, FirstNamed(es, name).value, 0);
  }

  lemma {:induction false} LeftLength(es: Entries, name: string, k: nat, env: Env)
    requires k <= |es|
    ensures |Left(es, name, k, env)| <= |es| - k
    ensures |Left(es, name, k, env)| == |es| - k <==> forall i :: k <= i < |es| ==> !Goes(es, name, i, env)
    ensures |Left(es, name, k, env)| == |es| - k ==> Left(es, name, k, env) == es[k..]
    decreases |es| - k
  {
    hide Goes;
    if k < |es| {
      LeftLength(es, name, k + 1, env);
      assert es[k..] == [es[k]] + es[k + 1..];
    }
  }

  /** So the listing is restored exactly when the removed destinations had the attributes of the first and can
      be set up again. */
  lemma DeleteAborted(es: Entries, name: string, env: Env, worlds: seq<World>, env': Env)
    requires Table(es) && Defined(es, name) && |worlds| == |Delete(es, name, env).0|
    ensures var (t, undo) := Delete(es, name, env);
            var f := FirstNamed(es, name).value;
            Listing(Replay(Faced(t, worlds), undo, env')) == Listing(es) <==>
            forall i :: 0 <= i < |es| && Goes(es, name, i, env) ==>
              InitOk(f.attrs, env'.up, env'.blades) && es[i].attrs == f.attrs.(kind := es[i].attrs.kind)
  {
    DeleteHealed(es, name, env, worlds, env');
    hide Delete, Replay, Goes, Table, InitOk, Faced, Left, AllHealed, Listing;
    var f := FirstNamed(es, name).value;
    if InitOk(f.attrs, env'.up, env'.blades) {
      HealedListing(es, name, f, env);
    } else {
      NothingLeft(es, name, env);
    }
  }

  lemma HealedListing(es: Entries, name: string, f: Entry, env: Env)
    ensures AllHealed(es, name, f, |es|, env) == Listing(es) <==>
            forall i :: 0 <= i < |es| && Goes(es, name, i, env) ==> es[i].attrs == f.attrs.(kind := es[i].attrs.kind)
  {
    hide Goes;
    var h := AllHealed(es, name, f, |es|, env);
    forall i | 0 <= i < |es|
      ensures h[i] == Listing(es)[i] <==> (Goes(es, name, i, env) ==> es[i].attrs == f.attrs.(kind := es[i].attrs.kind))
    {
    }
  }

  lemma NothingLeft(es: Entries, name: string, env: Env)
    ensures Listing(Left(es, name, 0, env)) == Listing(es) <==> forall i :: 0 <= i < |es| ==> !Goes(es, name, i, env)
  {
    hide Goes, Left;
    LeftLength(es, name, 0, env);
    var left := Left(es, name, 0, env);
    assert |Listing(left)| == |left| && |Listing(es)| == |es| && es[0..] == es;
  }
}
