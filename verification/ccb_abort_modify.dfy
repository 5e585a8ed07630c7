/** Abort after the parameters of a queue were changed. */
module CcbAbortModify {
  import opened Options
  import opened Text
  import opened TemplateGrammar
  import opened QueueEntries
  import opened QueueOrder
  import opened QueueInvariants
  import opened QueueSettings
  import opened CcbUndo
  import opened CcbListing

  /** Entries of the queue are filed under its name. */
  predicate Keyed(es: Entries, name: string) {
    forall e :: e in es && e.name == name ==> e.key == name + "_" + e.dest
  }

  lemma DestsCons(es: Entries, name: string)
    requires es != []
    ensures Dests(es, name) == (if es[0].name == name then [es[0].dest] else []) + Dests(es[1..], name)
  {
  }

  /** Setting one destination changes the entry at its place. */
  lemma SetOneAt(pre: Entries, suf: Entries, name: string, a: Attrs, change: bool, blades: bool)
    requires suf != [] && Sorted(pre + suf) && suf[0].key == name + "_" + suf[0].dest
    ensures var e := SetEntry(suf[0], a, change, blades);
            && SetOne(pre + suf, name, suf[0].dest, a, change, blades) == pre + [e] + suf[1..]
            && SetOneCode(pre + suf, name, suf[0].dest, a, change, blades) == SetCode(suf[0], a, change, blades)
            && Sorted(pre + [e] + suf[1..])
  {
    var es, e := pre + suf, SetEntry(suf[0], a, change, blades);
    SetNames(suf[0], a, change, blades);
    hide SetEntry, SetCode, Sorted, FindKey;
    assert es[|pre|] == suf[0];
    FindAt(es, |pre|);
    assert es[|pre| := e] == pre + [e] + suf[1..];
    assert SameKeys(es, pre + [e] + suf[1..]);
    SortedSame(es, pre + [e] + suf[1..]);
  }

  /** Destination by destination is the same as all at once; m: up to there. */
  lemma {:induction false} SetEachIsSetAll(pre: Entries, suf: Entries, m: nat, name: string,
                                           a: Attrs, change: bool, blades: bool)
    requires m <= |suf| && Sorted(pre + suf) && Keyed(suf[..m], name)
    ensures var dests := Dests(suf[..m], name);
            var r := SetEach(pre + suf, name, dests, a, change, blades);
            && r.0 == pre + SetAll(suf[..m], name, a, change, blades) + suf[m..] && r.1 <= |dests|
            && (r.1 == |dests| <==> SetAllCode(suf[..m], name, a, change, blades) == NoError)
    decreases m
  {
    hide SetEntry, SetCode, SetOne, SetOneCode, Sorted, Dests;
    if m == 0 {
      NoDests(name);
      assert suf[..0] == [] && suf[0..] == suf && pre + [] == pre;
    } else {
      var mid, suf' := suf[..m], suf[1..];
      assert mid[0] == suf[0] && mid[1..] == suf'[..m - 1] && suf[m..] == suf'[m - 1..];
      DestsCons(mid, name);
      assert mid[0] in mid && Keyed(mid[1..], name);
      var dests := Dests(mid, name);
      var e := if suf[0].name == name then SetEntry(suf[0], a, change, blades) else suf[0];
      if suf[0].name == name {
        SetOneAt(pre, suf, name, a, change, blades);
        assert dests[0] == suf[0].dest && dests[1..] == Dests(mid[1..], name);
      } else {
        assert pre + suf == pre + [e] + suf' && dests == Dests(mid[1..], name);
      }
      SetEachIsSetAll(pre + [e], suf', m - 1, name, a, change, blades);
      SetSplice(pre, e, SetAll(mid[1..], name, a, change, blades), mid[1..], suf[m..], suf');
    }
  }

  lemma SetSplice(pre: Entries, e: Entry, rest: Entries, mid: Entries, post: Entries, suf: Entries)
    requires suf == mid + post
    ensures pre + [e] + rest + post == pre + ([e] + rest) + post
    ensures pre + [e] + suf == pre + ([e] + mid) + post
  {
  }

  lemma NoDests(name: string)
    ensures Dests([], name) == []
  {
  }

  /** Every entry of the queue set without a change of template, whatever the others answer. */
  function SetEvery(es: Entries, name: string, a: Attrs, blades: bool): Entries {
    if es == [] then []
    else [if es[0].name == name then SetEntry(es[0], a, false, blades) else es[0]] + SetEvery(es[1..], name, a, blades)
  }

  /** The replay of a log goes on after a failure. */
  lemma {:induction false} SetBlocksIs(pre: Entries, suf: Entries, m: nat, name: string, a: Attrs, env: Env)
    requires m <= |suf| && Sorted(pre + suf) && Keyed(suf[..m], name) && HaveDests(Dests(suf[..m], name))
    ensures SetBlocks(pre + suf, Blocks(name, Dests(suf[..m], name), a), env) ==
            pre + SetEvery(suf[..m], name, a, env.blades) + suf[m..]
    decreases m
  {
    hide SetEntry, SetCode, SetOne, Sorted, Dests;
    if m == 0 {
      NoDests(name);
      assert suf[..0] == [] && suf[0..] == suf && pre + [] == pre;
    } else {
      var mid, suf' := suf[..m], suf[1..];
      assert mid[0] == suf[0] && mid[1..] == suf'[..m - 1] && suf[m..] == suf'[m - 1..];
      DestsCons(mid, name);
      assert mid[0] in mid && Keyed(mid[1..], name);
      var dests, blocks := Dests(mid, name), Blocks(name, Dests(mid, name), a);
      var e := if suf[0].name == name then SetEntry(suf[0], a, false, env.blades) else suf[0];
      if suf[0].name == name {
        SetOneAt(pre, suf, name, a, false, env.blades);
        assert dests[0] == suf[0].dest && dests[1..] == Dests(mid[1..], name) && dests[0] in dests;
        assert blocks[1..] == Blocks(name, dests[1..], a);
      } else {
        assert pre + suf == pre + [e] + suf' && dests == Dests(mid[1..], name);
      }
      assert forall d :: d in Dests(mid[1..], name) ==> d in dests;
      SetBlocksIs(pre + [e], suf', m - 1, name, a, env);
      SetSplice(pre, e, SetEvery(mid[1..], name, a, env.blades), mid[1..], suf[m..], suf');
    }
  }

  // ---------------------------------------------------------------- how far the change got

  /** The first entry of the queue whose default status is refused, |es| when there is none. */
  function Reach(es: Entries, name: string, refuses: set<string>): (m: nat)
    ensures m <= |es|
  {
    if es == [] || (es[0].name == name && es[0].dest in refuses) then 0 else 1 + Reach(es[1..], name, refuses)
  }

  lemma {:induction false} ReachDests(es: Entries, name: string, refuses: set<string>)
    ensures var dests := Dests(es, name);
            Dests(es[..Reach(es, name, refuses)], name) == dests[..Checked(dests, refuses)]
    decreases |es|
  {
    hide Dests;
    if es == [] {
      NoDests(name);
    } else {
      DestsCons(es, name);
      var m := Reach(es, name, refuses);
      if m == 0 {
        NoDests(name);
      } else {
        ReachDests(es[1..], name, refuses);
        assert es[..m][1..] == es[1..][..m - 1];
        DestsCons(es[..m], name);
        var dests, rest := Dests(es, name), Dests(es[1..], name);
        var k := Checked(rest, refuses);
        if es[0].name == name {
          assert dests[1..] == rest && dests[0] == es[0].dest;
          assert dests[..k + 1] == [es[0].dest] + rest[..k];
        } else {
          assert dests == rest;
        }
      }
    }
  }

  lemma {:induction false} ReachAll(es: Entries, name: string, refuses: set<string>)
    requires Checked(Dests(es, name), refuses) == |Dests(es, name)|
    ensures Reach(es, name, refuses) == |es|
    decreases |es|
  {
    hide Dests;
    if es != [] {
      DestsCons(es, name);
      var dests, rest := Dests(es, name), Dests(es[1..], name);
      if es[0].name == name {
        assert dests[1..] == rest && dests[0] == es[0].dest;
      } else {
        assert dests == rest;
      }
      ReachAll(es[1..], name, refuses);
    }
  }

  lemma KeyedTable(es: Entries, name: string)
    requires AllFiled(es)
    ensures Keyed(es, name)
  {
    forall e | e in es && e.name == name ensures e.key == name + "_" + e.dest {
      assert Filed(e);
      FiledKey(e);
    }
  }

  /** A change of valid parameters sets the entries before the refused status, up to the first that fails, and
      logs them when none does. */
  lemma ModifyIs(es: Entries, name: string, a: Attrs, change: bool, env: Env)
    requires Sorted(es) && Keyed(es, name) && FirstNamed(es, name).Some? && env.valid
    ensures var m := Reach(es, name, env.refuses);
            CompleteModify(es, name, a, change, env) ==
            (SetAll(es[..m], name, a, change, env.blades) + es[m..],
             if SetAllCode(es[..m], name, a, change, env.blades) != NoError then Nothing
             else ModifyTq(Blocks(name, Dests(es[..m], name), FirstNamed(es, name).value.attrs)))
  {
    hide SetAll, SetAllCode, SetEach, Sorted, Dests, Reach, Checked, FirstNamed;
    var m := Reach(es, name, env.refuses);
    assert [] + es == es;
    assert Keyed(es[..m], name);
    ReachDests(es, name, env.refuses);
    SetEachIsSetAll([], es, m, name, a, change, env.blades);
    assert [] + SetAll(es[..m], name, a, change, env.blades) == SetAll(es[..m], name, a, change, env.blades);
  }

  /** A completed change is a successful setting of all destinations. */
  lemma CompletedIs(es: Entries, name: string, a: Attrs, change: bool, env: Env)
    requires Table(es) && ModifyCompletes(es, name, a, change, env)
    ensures CompleteModify(es, name, a, change, env).0 == SetAll(es, name, a, change, env.blades)
    ensures SetAllCode(es, name, a, change, env.blades) == NoError
  {
    hide SetAll, SetAllCode, Table, Keyed, Dests, Checked;
    ValidModify(es, name, a, change, env);
    TableKeyed(es, name);
    ReachAll(es, name, env.refuses);
    ModifyIs(es, name, a, change, env);
    assert es[..|es|] == es && es[|es|..] == [];
  }

  // ---------------------------------------------------------------- a change that fails

  /** The setting leaves the attributes of the entry as they were. */
  predicate Unaltered(e: Entry, a: Attrs, change: bool, blades: bool) {
    match OutcomeOf(e, a, change, blades)
    case Untouched => true
    case Broken => e.attrs.rename == NoRename
    case Rewritten => Written(e.attrs, a, TurnRename(Quiet(e, a, change, blades), e.attrs.rename)) == e.attrs
  }

  lemma UnalteredExactly(e: Entry, a: Attrs, change: bool, blades: bool)
    ensures LineOf(SetEntry(e, a, change, blades)) == LineOf(e) <==> Unaltered(e, a, change, blades)
  {
    TurnIsQuiet(e, a, change, blades);
    hide TemplateTurn, Quiet;
  }

  /** A change that fails at a destination forgets its log, and abort has nothing to do: the listing is as
      before exactly when the destinations set until then already had the values. */
  lemma HalfModified(es: Entries, name: string, a: Attrs, change: bool, env: Env, worlds: seq<World>, env': Env)
    requires Table(es) && FirstNamed(es, name).Some? && env.valid
    requires CompleteModify(es, name, a, change, env).1 == Nothing
    requires |worlds| == |CompleteModify(es, name, a, change, env).0|
    ensures var (t, undo) := CompleteModify(es, name, a, change, env);
            var i := Refuser(es[..Reach(es, name, env.refuses)], name, a, change, env.blades);
            && i >= 0
            && (Listing(Replay(Faced(t, worlds), undo, env')) == Listing(es) <==>
                forall j :: 0 <= j <= i && es[j].name == name ==> Unaltered(es[j], a, change, env.blades))
  {
    hide Refuser, SetAll, SetAllCode, SetEntry, Unaltered, Table, Reach, FirstNamed, CompleteModify, Keyed, Dests;
    TableKeyed(es, name);
    ModifyIs(es, name, a, change, env);
    var m := Reach(es, name, env.refuses);
    var mid := es[..m];
    RefuserExactly(mid, name, a, change, env.blades);
    SetAllUpTo(mid, name, a, change, env.blades);
    var i, t := Refuser(mid, name, a, change, env.blades), SetAll(mid, name, a, change, env.blades) + es[m..];
    ListingFaced(t, worlds);
    forall j | 0 <= j < |es|
      ensures Listing(t)[j] == Listing(es)[j] <==>
              (j <= i && es[j].name == name ==> Unaltered(es[j], a, change, env.blades))
    {
      UnalteredExactly(es[j], a, change, env.blades);
    }
  }

  lemma TableKeyed(es: Entries, name: string)
    requires Table(es)
    ensures Sorted(es) && Keyed(es, name)
  {
    KeyedTable(es, name);
  }

  // ---------------------------------------------------------------- abort

  /** Equal in the fields that destinations of one queue may differ in and setting overwrites. */
  predicate SameParams(a: Attrs, b: Attrs) {
    && a.retries == b.retries && a.removeDelay == b.removeDelay && a.status == b.status
    && a.retryDelay == b.retryDelay && a.removeBefore == b.removeBefore
  }

  /** The entry has its attributes again after change and abort: f is the first entry of the queue, writes says
      whether the record can be opened when the abort writes it. */
  predicate Returns(e: Entry, f: Entry, a: Attrs, change: bool, blades: bool, writes: bool) {
    var rename := TurnRename(TemplateTurn(e, a, change, blades), e.attrs.rename);
    if writes then SameParams(e.attrs, f.attrs) && rename == e.attrs.rename
    else Written(e.attrs, a, rename) == e.attrs
  }

  /** ... and its template object is the one of its record. */
  predicate RestoresTemplate(e: Entry, a: Attrs, change: bool, blades: bool, writes: bool) {
    Built(a) == Built(e.attrs) || if writes then TemplateTurn(e, a, change, blades) == Kept else change
  }

  /** Two settings of one entry, the second without a change of template. */
  lemma SetTwice(e: Entry, f: Entry, a: Attrs, change: bool, blades: bool, world: World, blades': bool)
    requires SetCode(e, a, change, blades) == NoError && Filed(e) && Agrees(e.attrs, f.attrs)
    ensures var e2 := SetEntry(SetEntry(e, a, change, blades).(world := world), f.attrs, false, blades');
            && (LineOf(e2) == LineOf(e) <==> Returns(e, f, a, change, blades, world.writing != WriteFails))
            && (e2.live == Built(e2.attrs) <==> RestoresTemplate(e, a, change, blades, world.writing != WriteFails))
  {
    SetEntryResult(e, a, change, blades);
    var e1 := SetEntry(e, a, change, blades).(world := world);
    assert TemplateTurn(e1, f.attrs, false, blades') == Kept;
    KeptOrNot(e, a, change, blades);
    hide SetCode, TemplateTurn, Key;
  }

  lemma KeptOrNot(e: Entry, a: Attrs, change: bool, blades: bool)
    ensures var turn := TemplateTurn(e, a, change, blades);
            && (!change ==> turn == Kept)
            && (change && turn == Kept ==> a.template == "" && e.live.None?)
            && (turn == Dropped ==> a.template == "")
            && (turn == Renewed ==> a.template != "")
  {
    hide Parse;
  }

  /** The table after change and abort. */
  lemma ModifyUndone(es: Entries, name: string, a: Attrs, change: bool, env: Env, worlds: seq<World>, env': Env)
    requires Table(es) && HaveDests(Dests(es, name)) && CompleteModify(es, name, a, change, env).1 != Nothing
    requires |worlds| == |CompleteModify(es, name, a, change, env).0|
    ensures FirstNamed(es, name).Some? && |worlds| == |es|
    ensures var (t, undo) := CompleteModify(es, name, a, change, env);
            var f, m := FirstNamed(es, name).value, Reach(es, name, env.refuses);
            var r := Replay(Faced(t, worlds), undo, env');
            && |r| == |es|
            && forall i :: 0 <= i < |es| ==>
                 && (es[i].name == name && i < m ==>
                       && SetCode(es[i], a, change, env.blades) == NoError
                       && r[i] == SetEntry(SetEntry(es[i], a, change, env.blades).(world := worlds[i]),
                                           f.attrs, false, env'.blades))
                 && ((es[i].name == name && i < m) || r[i] == es[i].(world := worlds[i]))
  {
    hide SetAll, SetAllCode, SetEntry, SetCode, Table, Reach, FirstNamed, Keyed, Dests, SetEvery, SetBlocks, HaveDests;
    ValidModify(es, name, a, change, env);
    TableKeyed(es, name);
    ModifyIs(es, name, a, change, env);
    hide CompleteModify;
    var f, m := FirstNamed(es, name).value, Reach(es, name, env.refuses);
    SomeDests(es, name, m, env.refuses);
    SetAndReset(es, m, name, a, change, env, worlds, f.attrs, env');
  }

  /** The first m entries set, and set back from a log. */
  lemma SetAndReset(es: Entries, m: nat, name: string, a: Attrs, change: bool, env: Env, worlds: seq<World>,
                    b: Attrs, env': Env)
    requires Sorted(es) && Keyed(es, name) && m <= |es| && HaveDests(Dests(es[..m], name))
    requires SetAllCode(es[..m], name, a, change, env.blades) == NoError
    requires |worlds| == |SetAll(es[..m], name, a, change, env.blades) + es[m..]|
    ensures |worlds| == |es|
    ensures var t := SetAll(es[..m], name, a, change, env.blades) + es[m..];
            var r := SetBlocks(Faced(t, worlds), Blocks(name, Dests(es[..m], name), b), env');
            && |r| == |es|
            && forall i :: 0 <= i < |es| ==>
                 && (es[i].name == name && i < m ==>
                       && SetCode(es[i], a, change, env.blades) == NoError
                       && r[i] == SetEntry(SetEntry(es[i], a, change, env.blades).(world := worlds[i]),
                                           b, false, env'.blades))
                 && ((es[i].name == name && i < m) || r[i] == es[i].(world := worlds[i]))
  {
    hide SetAll, SetAllCode, SetEntry, SetCode, Keyed, Dests, SetEvery, SetBlocks, HaveDests, Sorted;
    FirstSetting(es, m, name, a, change, env.blades, worlds);
    var fs := Faced(SetAll(es[..m], name, a, change, env.blades) + es[m..], worlds);
    hide Faced, Blocks;
    SameShape(es, fs, m, name);
    Reset(fs, m, name, b, env');
  }

  lemma Reset(fs: Entries, m: nat, name: string, b: Attrs, env: Env)
    requires m <= |fs| && Sorted(fs) && Keyed(fs[..m], name) && HaveDests(Dests(fs[..m], name))
    ensures var r := SetBlocks(fs, Blocks(name, Dests(fs[..m], name), b), env);
            && |r| == |fs|
            && forall i :: 0 <= i < |fs| ==>
                 r[i] == if fs[i].name == name && i < m then SetEntry(fs[i], b, false, env.blades) else fs[i]
  {
    hide SetEntry, Keyed, Dests, SetEvery, SetBlocks, HaveDests, Sorted, Blocks;
    assert [] + fs == fs;
    SetBlocksIs([], fs, m, name, b, env);
    var every := SetEvery(fs[..m], name, b, env.blades);
    assert [] + every + fs[m..] == every + fs[m..];
    EveryAt(fs, m, name, b, env.blades);
  }

  lemma EveryAt(fs: Entries, m: nat, name: string, b: Attrs, blades: bool)
    requires m <= |fs|
    ensures var r := SetEvery(fs[..m], name, b, blades) + fs[m..];
            && |r| == |fs|
            && forall i :: 0 <= i < |fs| ==>
                 r[i] == if fs[i].name == name && i < m then SetEntry(fs[i], b, false, blades) else fs[i]
  {
    SetEveryAt(fs[..m], name, b, blades);
    hide SetEntry, SetEvery;
  }

  lemma FirstSetting(es: Entries, m: nat, name: string, a: Attrs, change: bool, blades: bool, worlds: seq<World>)
    requires m <= |es| && SetAllCode(es[..m], name, a, change, blades) == NoError
    requires |worlds| == |SetAll(es[..m], name, a, change, blades) + es[m..]|
    ensures var fs := Faced(SetAll(es[..m], name, a, change, blades) + es[m..], worlds);
            && |fs| == |es| == |worlds|
            && forall i :: 0 <= i < |es| ==>
                 && fs[i].key == es[i].key && fs[i].name == es[i].name && fs[i].dest == es[i].dest
                 && fs[i] == (if es[i].name == name && i < m then SetEntry(es[i], a, change, blades) else es[i]).(
                      world := worlds[i])
                 && (es[i].name == name && i < m ==> SetCode(es[i], a, change, blades) == NoError)
  {
    hide SetAll, SetAllCode, SetEntry, SetCode;
    SetAllAt(es[..m], name, a, change, blades);
    var fs := Faced(SetAll(es[..m], name, a, change, blades) + es[m..], worlds);
    forall i | 0 <= i < |es| ensures fs[i].key == es[i].key && fs[i].name == es[i].name && fs[i].dest == es[i].dest {
      SetNames(es[i], a, change, blades);
    }
  }

  lemma ValidModify(es: Entries, name: string, a: Attrs, change: bool, env: Env)
    requires CompleteModify(es, name, a, change, env).1 != Nothing
    ensures FirstNamed(es, name).Some? && env.valid
  {
    hide SetEach, Dests;
  }

  lemma SomeDests(es: Entries, name: string, m: nat, refuses: set<string>)
    requires HaveDests(Dests(es, name)) && m == Reach(es, name, refuses)
    ensures HaveDests(Dests(es[..m], name))
  {
    hide Dests, Reach, Checked;
    ReachDests(es, name, refuses);
    var dests, k := Dests(es, name), Checked(Dests(es, name), refuses);
    assert forall d :: d in dests[..k] ==> d in dests;
  }

  lemma SameShape(es: Entries, fs: Entries, m: nat, name: string)
    requires |fs| == |es| && m <= |es| && Sorted(es) && Keyed(es, name)
    requires forall i :: 0 <= i < |es| ==> fs[i].key == es[i].key && fs[i].name == es[i].name && fs[i].dest == es[i].dest
    ensures Sorted(fs) && Keyed(fs[..m], name) && Dests(fs[..m], name) == Dests(es[..m], name)
  {
    hide Less, Dests, Sorted;
    SortedSame(es, fs);
    SameDestsOf(es[..m], fs[..m], name);
    forall e | e in fs[..m] && e.name == name ensures e.key == name + "_" + e.dest {
      var i :| 0 <= i < m && fs[i] == e;
      assert es[i] in es;
    }
  }

  lemma {:induction false} SameDestsOf(es: Entries, fs: Entries, name: string)
    requires |es| == |fs| && forall i :: 0 <= i < |es| ==> fs[i].name == es[i].name && fs[i].dest == es[i].dest
    ensures Dests(fs, name) == Dests(es, name)
    decreases |es|
  {
    if es == [] {
      NoDests(name);
    } else {
      DestsCons(es, name);
      DestsCons(fs, name);
      SameDestsOf(es[1..], fs[1..], name);
    }
  }

  lemma {:induction false} SetEveryAt(es: Entries, name: string, a: Attrs, blades: bool)
    ensures var fs := SetEvery(es, name, a, blades);
            && |fs| == |es|
            && forall i :: 0 <= i < |es| ==>
                 fs[i] == if es[i].name == name then SetEntry(es[i], a, false, blades) else es[i]
    decreases |es|
  {
    hide SetEntry;
    if es != [] { SetEveryAt(es[1..], name, a, blades); }
  }

  /** Abort of a change that was not refused by a destination restores the listing exactly when each destination
      it set has its attributes again. They all get those of the first, which is what the log has, and the rename
      type is not set back; one whose record cannot be opened keeps the change. */
  lemma ModifyAborted(es: Entries, name: string, a: Attrs, change: bool, env: Env, worlds: seq<World>, env': Env)
    requires Table(es) && HaveDests(Dests(es, name)) && CompleteModify(es, name, a, change, env).1 != Nothing
    requires |worlds| == |CompleteModify(es, name, a, change, env).0|
    ensures FirstNamed(es, name).Some? && |worlds| == |es|
    ensures var (t, undo) := CompleteModify(es, name, a, change, env);
            var f, m := FirstNamed(es, name).value, Reach(es, name, env.refuses);
            Listing(Replay(Faced(t, worlds), undo, env')) == Listing(es) <==>
            forall i :: 0 <= i < m && es[i].name == name ==>
              Returns(es[i], f, a, change, env.blades, worlds[i].writing != WriteFails)
  {
    hide CompleteModify, Replay, HaveDests, Faced, SetEntry, SetCode, Returns, Table, RestoresTemplate, Reach, FirstNamed;
    ModifyUndone(es, name, a, change, env, worlds, env');
    var (t, undo) := CompleteModify(es, name, a, change, env);
    var f, m, r := FirstNamed(es, name).value, Reach(es, name, env.refuses), Replay(Faced(t, worlds), undo, env');
    forall i | 0 <= i < |es|
      ensures Listing(r)[i] == Listing(es)[i] <==>
              (i < m && es[i].name == name ==> Returns(es[i], f, a, change, env.blades, worlds[i].writing != WriteFails))
    {
      if i < m && es[i].name == name {
        InTable(es, name, i, f);
        SetTwice(es[i], f, a, change, env.blades, worlds[i], env'.blades);
      }
    }
  }

  lemma InTable(es: Entries, name: string, i: nat, f: Entry)
    requires Table(es) && i < |es| && es[i].name == f.name == name && f in es
    ensures Filed(es[i]) && Agrees(es[i].attrs, f.attrs)
  {
    assert es[i] in es;
  }

  /** The template object in use is not restored either: after the abort it is the one the record describes
      exactly when the change had kept it or had built it from the same template, name tag and startup number. */
  lemma AbortLeavesTemplate(es: Entries, name: string, a: Attrs, change: bool, env: Env, worlds: seq<World>, env': Env,
                            i: nat)
    requires Table(es) && HaveDests(Dests(es, name)) && CompleteModify(es, name, a, change, env).1 != Nothing
    requires |worlds| == |CompleteModify(es, name, a, change, env).0|
    requires i < Reach(es, name, env.refuses) && es[i].name == name
    ensures var (t, undo) := CompleteModify(es, name, a, change, env);
            var fs := Replay(Faced(t, worlds), undo, env');
            && |worlds| == |es| == |fs|
            && (fs[i].live == Built(fs[i].attrs) <==>
                RestoresTemplate(es[i], a, change, env.blades, worlds[i].writing != WriteFails))
  {
    hide CompleteModify, Replay, HaveDests, Faced, SetEntry, SetCode, Returns, Table, RestoresTemplate, FirstNamed;
    ModifyUndone(es, name, a, change, env, worlds, env');
    InTable(es, name, i, FirstNamed(es, name).value);
    SetTwice(es[i], FirstNamed(es, name).value, a, change, env.blades, worlds[i], env'.blades);
  }
}
