/** The database object: the operations on the transfer queue map, proved against the functions of
    QueueEntries. */
module QueueDatabase {
  import opened Options
  import opened QueueEntries
  import opened QueueOrder
  import opened Text
  import opened TemplateGrammar

  /** No entry before i is one that removal takes or stops at. */
  predicate Passed(es: Entries, name: string, i: nat)
    requires i <= |es|
  {
    forall k :: 0 <= k < i ==> es[k].name != name || es[k].world.removal == RemoveProtected
  }

  lemma {:induction false} SweepPassed(es: Entries, name: string, i: nat)
    requires i <= |es| && Passed(es, name, i)
    ensures Sweep(es, name) == es[..i] + Sweep(es[i..], name)
    decreases i
  {
    hide Sweep;
    if i > 0 {
      var rest := es[1..];
      assert forall k :: 0 <= k < i - 1 ==> rest[k] == es[k + 1];
      SweepPassed(rest, name, i - 1);
      SweepKept(es, name);
      assert rest[i - 1..] == es[i..] && es[..i] == [es[0]] + rest[..i - 1];
    } else {
      assert es[0..] == es && es[..0] == [];
    }
  }

  lemma SweepKept(es: Entries, name: string)
    requires es != [] && (es[0].name != name || es[0].world.removal == RemoveProtected)
    ensures Sweep(es, name) == [es[0]] + Sweep(es[1..], name)
  {
  }

  /** Removing an entry that removal reaches does not change what it leaves. */
  lemma SweepErase(es: Entries, name: string, i: nat)
    requires i < |es| && Passed(es, name, i) && es[i].name == name && es[i].world.removal == RemoveOk
    ensures Sweep(Erase(es, i), name) == Sweep(es, name)
  {
    SweepPassed(es, name, i);
    SweepPassed(Erase(es, i), name, i);
    assert Erase(es, i)[..i] == es[..i] && Erase(es, i)[i..] == es[i..][1..];
  }

  lemma SweepStops(es: Entries, name: string, i: nat)
    requires i < |es| && Passed(es, name, i) && es[i].name == name && es[i].world.removal == RemoveError
    ensures Sweep(es, name) == es && Answers(es, name, RemoveError)
  {
    SweepPassed(es, name, i);
    assert es == es[..i] + es[i..] && es[i] in es;
  }

  lemma SweepDone(es: Entries, name: string)
    requires Passed(es, name, |es|)
    ensures Sweep(es, name) == es && !Answers(es, name, RemoveError)
  {
    SweepPassed(es, name, |es|);
    assert es[..|es|] == es && es[|es|..] == [];
  }

  lemma EraseShorter(es: Entries, i: nat)
    requires i < |es|
    ensures |Erase(es, i)| == |es| - 1
  {
  }

  lemma EraseAnswers(es: Entries, name: string, i: nat, r: Removal)
    requires i < |es| && es[i].world.removal != r
    ensures Answers(Erase(es, i), name, r) <==> Answers(es, name, r)
  {
    assert es == es[..i] + [es[i]] + es[i + 1..];
    if e :| e in es && e.name == name && e.world.removal == r { assert e in Erase(es, i); }
  }

  lemma {:induction false} RetainPassed(es: Entries, name: string, i: nat, number: nat, writes: bool)
    requires i <= |es| && forall k :: 0 <= k < i ==> !Follows(es[k], name)
    ensures Retain(es, name, number, writes) == es[..i] + Retain(es[i..], name, number, writes)
    decreases i
  {
    hide Retain, Follows;
    if i > 0 {
      var rest := es[1..];
      assert forall k :: 0 <= k < i - 1 ==> rest[k] == es[k + 1];
      RetainPassed(rest, name, i - 1, number, writes);
      RetainKept(es, name, number, writes);
      assert rest[i - 1..] == es[i..] && es[..i] == [es[0]] + rest[..i - 1];
    } else {
      assert es[0..] == es && es[..0] == [];
    }
  }

  lemma RetainKept(es: Entries, name: string, number: nat, writes: bool)
    requires es != [] && !Follows(es[0], name)
    ensures Retain(es, name, number, writes) == [es[0]] + Retain(es[1..], name, number, writes)
  {
  }

  lemma {:induction false} ToDestNext(es: Entries, dest: string, i: nat)
    requires i < |es|
    ensures ToDest(es[..i + 1], dest) == ToDest(es[..i], dest) + if es[i].dest == dest then 1 else 0
    decreases i
  {
    if i == 0 {
      assert es[..1][1..] == [];
    } else {
      ToDestNext(es[1..], dest, i - 1);
      assert es[..i + 1][1..] == es[1..][..i] && es[..i][1..] == es[1..][..i - 1];
    }
  }

  lemma {:induction false} ToDestPrefix(es: Entries, dest: string, i: nat)
    requires i <= |es|
    ensures ToDest(es[..i], dest) <= ToDest(es, dest)
    decreases |es| - i
  {
    if i == |es| {
      assert es[..i] == es;
    } else {
      ToDestNext(es, dest, i);
      ToDestPrefix(es, dest, i + 1);
    }
  }

  /** Every entry of the queue among the first i is set without a failure. */
  predicate SetsAll(es: Entries, name: string, i: nat, a: Attrs, change: bool, blades: bool)
    requires i <= |es|
  {
    forall k :: 0 <= k < i && es[k].name == name ==> SetCode(es[k], a, change, blades) == NoError
  }

  lemma {:induction false} SetAllSplit(es: Entries, name: string, i: nat, a: Attrs, change: bool, blades: bool)
    requires i <= |es| && SetsAll(es, name, i, a, change, blades)
    ensures SetAll(es, name, a, change, blades) ==
            SetAll(es[..i], name, a, change, blades) + SetAll(es[i..], name, a, change, blades)
    ensures SetAllCode(es, name, a, change, blades) == SetAllCode(es[i..], name, a, change, blades)
    decreases i
  {
    hide SetEntry, SetCode, SetAll, SetAllCode;
    if i == 0 {
      SetAllNone(es, name, a, change, blades);
      assert es[0..] == es && es[..0] == [];
    } else {
      assert forall k :: 0 <= k < i - 1 ==> es[1..][k] == es[k + 1];
      SetAllSplit(es[1..], name, i - 1, a, change, blades);
      SetAllCons(es, name, a, change, blades);
      SetAllCons(es[..i], name, a, change, blades);
      assert es[1..][i - 1..] == es[i..] && es[..i][1..] == es[1..][..i - 1];
    }
  }

  lemma SetAllCons(es: Entries, name: string, a: Attrs, change: bool, blades: bool)
    requires es != [] && (es[0].name == name ==> SetCode(es[0], a, change, blades) == NoError)
    ensures SetAll(es, name, a, change, blades) ==
            [if es[0].name == name then SetEntry(es[0], a, change, blades) else es[0]] +
            SetAll(es[1..], name, a, change, blades)
    ensures SetAllCode(es, name, a, change, blades) == SetAllCode(es[1..], name, a, change, blades)
  {
    hide SetEntry, SetCode;
  }

  /** One more entry set, or the failure at it. */
  lemma SetAllStep(es: Entries, name: string, i: nat, a: Attrs, change: bool, blades: bool, e: Entry)
    requires i < |es| && e == (if es[i].name == name then SetEntry(es[i], a, change, blades) else es[i])
    requires SetsAll(es, name, i, a, change, blades)
    ensures es[i].name != name || SetCode(es[i], a, change, blades) == NoError ==>
              SetsAll(es, name, i + 1, a, change, blades)
    ensures SetAll(es[..i + 1], name, a, change, blades) == SetAll(es[..i], name, a, change, blades) + [e]
    ensures es[i].name == name && SetCode(es[i], a, change, blades) != NoError ==>
              && SetAll(es, name, a, change, blades) == SetAll(es[..i], name, a, change, blades) + [e] + es[i + 1..]
              && SetAllCode(es, name, a, change, blades) == SetCode(es[i], a, change, blades)
  {
    hide SetEntry, SetCode, SetAll, SetAllCode;
    SetAllSplit(es, name, i, a, change, blades);
    SetAllSplit(es[..i + 1], name, i, a, change, blades);
    var one := es[..i + 1][i..];
    assert one == [es[i]] && one[1..] == [] && es[..i + 1][..i] == es[..i];
    SetAllHead(one, name, a, change, blades, e);
    SetAllHead(es[i..], name, a, change, blades, e);
    assert es[i..][1..] == es[i + 1..];
  }

  lemma SetAllHead(es: Entries, name: string, a: Attrs, change: bool, blades: bool, e: Entry)
    requires es != [] && e == (if es[0].name == name then SetEntry(es[0], a, change, blades) else es[0])
    ensures es[1..] == [] ==> SetAll(es, name, a, change, blades) == [e]
    ensures es[0].name == name && SetCode(es[0], a, change, blades) != NoError ==>
              && SetAll(es, name, a, change, blades) == [e] + es[1..]
              && SetAllCode(es, name, a, change, blades) == SetCode(es[0], a, change, blades)
  {
    hide SetEntry, SetCode;
  }

  lemma SetAllNone(es: Entries, name: string, a: Attrs, change: bool, blades: bool)
    ensures SetAll(es[..0], name, a, change, blades) == [] && SetsAll(es, name, 0, a, change, blades)
  {
  }

  lemma SpliceNext(done: Entries, es: Entries, i: nat, e: Entry)
    requires |done| == i < |es|
    ensures (done + es[i..])[i := e] == done + [e] + es[i + 1..]
    ensures e == es[i] ==> done + es[i..] == done + [e] + es[i + 1..]
  {
  }

  lemma SetAllDone(es: Entries, name: string, a: Attrs, change: bool, blades: bool)
    requires SetsAll(es, name, |es|, a, change, blades)
    ensures SetAllCode(es, name, a, change, blades) == NoError
  {
    SetAllSplit(es, name, |es|, a, change, blades);
  }

  class Database {
    var tqs: Entries

    constructor ()
      ensures tqs == []
    {
      tqs := [];
    }

    /** getName of each entry against name. */
    method IsDefined(name: string) returns (found: bool)
      ensures found <==> Defined(tqs, name)
    {
      found := false;
      for i := 0 to |tqs|
        invariant found ==> Defined(tqs, name)
        invariant !found ==> forall k :: 0 <= k < i ==> tqs[k].name != name
      {
        if tqs[i].name == name { found := true; }
      }
    }

    method GetTransferQueueAttributes(name: string, dest: string, known: bool) returns (r: Option<Entry>, code: Code)
      ensures r == Lookup(tqs, name, dest, known)
      ensures code == LookupCode(tqs, name, dest, known) && (r.Some? <==> code == NoError)
    {
      if tqs == [] { return None, NoProcOrder; }
      if dest == "" {
        for i := 0 to |tqs|
          invariant forall k :: 0 <= k < i ==> tqs[k].name != name
        {
          if tqs[i].name == name {
            FirstNamedAt(tqs, name, i);
            return Some(tqs[i]), NoError;
          }
        }
      } else if dest != "-" && !known {
        return None, NoDestination;
      } else {
        var i := FindKey(tqs, name + "_" + dest);
        if i >= 0 { return Some(tqs[i]), NoError; }
        var defined := IsDefined(name);
        if defined { return None, Combination; }
      }
      return None, NoProcOrder;
    }

    method CountDestination(dest: string) returns (full: bool)
      ensures full <==> ToDest(tqs, dest) >= MaxDestinations
    {
      var destCounter := 0;
      for i := 0 to |tqs|
        invariant destCounter == ToDest(tqs[..i], dest) && destCounter < MaxDestinations
      {
        ToDestNext(tqs, dest, i);
        if tqs[i].dest == dest {
          destCounter := destCounter + 1;
          if destCounter >= MaxDestinations {
            ToDestPrefix(tqs, dest, i + 1);
            return true;
          }
        }
      }
      assert tqs[..|tqs|] == tqs;
      return false;
    }

    /** The comparison stops at the first entry of the queue. */
    method Compare(order: string, a: Attrs) returns (adopted: Attrs, code: Code)
      ensures var first := FirstNamed(tqs, order);
              && code == (if first.Some? then Misfit(first.value, a) else NoError)
              && (code == NoError ==> adopted == Adopt(first, a))
    {
      adopted, code := a, NoError;
      for i := 0 to |tqs|
        invariant forall k :: 0 <= k < i ==> tqs[k].name != order
      {
        if tqs[i].name == order {
          FirstNamedAt(tqs, order, i);
          var e := tqs[i].attrs;
          if e.rename != a.rename { return a, WrongRenameType; }
          if e.template != a.template { return a, WrongTemplate; }
          if a.sourceDir == "" {
            adopted := adopted.(sourceDir := e.sourceDir);
          } else if e.sourceDir != a.sourceDir {
            return a, InconsistentDir;
          }
          if a.nameTag != "" {
            if e.nameTag != a.nameTag { return a, WrongNameTag; }
          } else {
            adopted := adopted.(nameTag := e.nameTag);
          }
          if e.startup != a.startup { return a, WrongStartup; }
          return adopted, NoError;
        }
      }
    }

    method CreateTransferQueue(name: string, dest: string, a: Attrs, up: bool, blades: bool)
      returns (result: bool, code: Code)
      modifies this
      ensures tqs == Create(old(tqs), name, dest, a, up, blades)
      ensures code == Refusal(old(tqs), name, dest, a, up, blades) && (result <==> code == NoError)
    {
      hide InitOk, Misfit, Adopt, Insert;
      if FindKey(tqs, Key(name, dest)) >= 0 { return false, ProcOrderExist; }
      var full := CountDestination(dest);
      if full { return false, TooManyTq; }
      var adopted;
      adopted, code := Compare(BaseName(name), a);
      if code != NoError { return false, code; }
      if !InitOk(adopted, up, blades) { return false, InitFailed; }
      var follows := IsDefined(name);
      tqs := Insert(tqs, NewEntry(name, dest, adopted, follows));
      return true, NoError;
    }

    /** The map is searched from the beginning again after each erasure. */
    method RemoveTransferQueue(name: string) returns (result: bool, code: Code)
      modifies this
      ensures tqs == Sweep(old(tqs), name)
      ensures code == SweepCode(old(tqs), name) && (result <==> code == NoError)
    {
      hide Sweep, Erase;
      var foundOne, fileIsProtected, i := false, false, 0;
      while i < |tqs|
        invariant i <= |tqs| && Passed(tqs, name, i)
        invariant Sweep(tqs, name) == Sweep(old(tqs), name)
        invariant Answers(tqs, name, RemoveError) <==> Answers(old(tqs), name, RemoveError)
        invariant Answers(tqs, name, RemoveProtected) <==> Answers(old(tqs), name, RemoveProtected)
        invariant foundOne ==> Defined(old(tqs), name)
        invariant !foundOne ==> tqs == old(tqs) && forall k :: 0 <= k < i ==> tqs[k].name != name
        invariant fileIsProtected ==> Answers(old(tqs), name, RemoveProtected)
        invariant !fileIsProtected ==> forall k :: 0 <= k < i ==> tqs[k].name != name
        decreases |tqs|, |tqs| - i
      {
        if tqs[i].name == name {
          foundOne := true;
          match tqs[i].world.removal {
            case RemoveProtected =>
              fileIsProtected := true;
              i := i + 1;
            case RemoveError =>
              SweepStops(tqs, name, i);
              return false, NotRemoved;
            case RemoveOk =>
              SweepErase(tqs, name, i);
              EraseShorter(tqs, i);
              EraseAnswers(tqs, name, i, RemoveError);
              EraseAnswers(tqs, name, i, RemoveProtected);
              tqs := Erase(tqs, i);
              i := 0;
          }
        } else {
          i := i + 1;
        }
      }
      SweepDone(tqs, name);
      code := if fileIsProtected then FileIsProtected else if foundOne then NoError else NoProcOrder;
      result := code == NoError;
    }

    method RetainPersistantNumber(number: nat, name: string, writes: bool) returns (result: bool)
      modifies this
      ensures tqs == Retain(old(tqs), name, number, writes)
      ensures result <==> writes || !HasFollower(old(tqs), name)
    {
      for i := 0 to |tqs|
        invariant tqs == old(tqs) && forall k :: 0 <= k < i ==> !Follows(tqs[k], name)
      {
        if tqs[i].name == name {
          if !tqs[i].firstDs { continue; }
          RetainPassed(tqs, name, i, number, writes);
          assert tqs[i] in tqs;
          tqs := tqs[i := tqs[i].(firstDs := false)];
          if !writes { return false; }
          tqs := tqs[i := tqs[i].(world := tqs[i].world.(persist := Number(number)))];
          return true;
        }
      }
      RetainPassed(tqs, name, |tqs|, number, writes);
      assert tqs[..|tqs|] == tqs;
      return true;
    }

    method RemoveDestinationSet(name: string, dest: string, writes: bool, known: bool)
      returns (result: bool, code: Code)
      modifies this
      ensures tqs == RemoveDest(old(tqs), name, dest, writes, known)
      ensures code == RemoveCode(old(tqs), name, dest, writes, known) && (result <==> code == NoError)
    {
      var orderFound := IsDefined(name);
      if !orderFound { return false, NoProcOrder; }
      var i := FindKey(tqs, name + "_" + dest);
      if i < 0 { return false, if known then Combination else NoDestination; }
      var e := tqs[i];
      if !e.firstDs && e.world.persist != Missing {
        var number := if e.world.persist.Number? then e.world.persist.value else 0;
        var retained := RetainPersistantNumber(number, e.name, writes);
        if !retained { return false, NotRetained; }
      }
      if e.world.removal != RemoveOk {
        return false, if e.world.removal == RemoveProtected then FileIsProtected else NotRemoved;
      }
      tqs := Erase(tqs, i);
      return true, NoError;
    }

    method SetAllAttributes(name: string, a: Attrs, change: bool, blades: bool) returns (code: Code)
      modifies this
      ensures tqs == SetAll(old(tqs), name, a, change, blades)
      ensures code == if Defined(old(tqs), name) then SetAllCode(old(tqs), name, a, change, blades) else NoProcOrder
    {
      hide SetEntry, SetCode, SetAll, SetAllCode, SetsAll;
      ghost var es, done := tqs, [];
      SetAllNone(es, name, a, change, blades);
      var foundOne := false;
      for i := 0 to |tqs|
        invariant |tqs| == |es| && |done| == i && tqs == done + es[i..]
        invariant done == SetAll(es[..i], name, a, change, blades) && SetsAll(es, name, i, a, change, blades)
        invariant foundOne <==> exists k :: 0 <= k < i && es[k].name == name
      {
        assert tqs[i] == es[i];
        ghost var e := if es[i].name == name then SetEntry(es[i], a, change, blades) else es[i];
        SetAllStep(es, name, i, a, change, blades, e);
        SpliceNext(done, es, i, e);
        if tqs[i].name == name {
          foundOne := true;
          code := SetCode(tqs[i], a, change, blades);
          tqs := tqs[i := SetEntry(tqs[i], a, change, blades)];
          if code != NoError {
            assert es[i] in es;
            return;
          }
        }
        done := done + [e];
      }
      assert es[..|es|] == es && es[|es|..] == [];
      SetAllDone(es, name, a, change, blades);
      code := if foundOne then NoError else NoProcOrder;
    }

    method SetTransferQueueAttributes(name: string, dest: string, a: Attrs, change: bool, blades: bool)
      returns (result: bool, code: Code)
      modifies this
      ensures tqs == SetAttributes(old(tqs), name, dest, a, change, blades)
      ensures code == SetAttributesCode(old(tqs), name, dest, a, change, blades) && (result <==> code == NoError)
    {
      hide SetEntry, SetCode;
      if dest == "" {
        code := SetAllAttributes(name, a, change, blades);
        SetUndefined(old(tqs), name, a, change, blades);
      } else {
        var i := FindKey(tqs, name + "_" + dest);
        if i < 0 { return false, NoProcOrder; }
        code := SetCode(tqs[i], a, change, blades);
        tqs := tqs[i := SetEntry(tqs[i], a, change, blades)];
      }
      result := code == NoError;
    }

    /** renamed: the entries whose localRenameFile was called; given: what each destination got. */
    method SendFile(name: string, file: string) returns (result: bool, renamed: seq<string>, given: seq<(string, string)>)
      ensures Sending(renamed, given, result) == Sent(tqs, name, file)
    {
      var doOnce, tmpFileName, foundOne, noError := true, "", false, true;
      renamed, given := [], [];
      for i := 0 to |tqs|
        invariant FileName(tqs, name, file, "", true) == FileName(tqs[i..], name, file, tmpFileName, doOnce)
        invariant RenamedBy(tqs, name, true) == renamed + RenamedBy(tqs[i..], name, doOnce)
        invariant foundOne <==> exists k :: 0 <= k < i && Takes(tqs[k], name)
      {
        assert tqs[i..][0] == tqs[i] && tqs[i..][1..] == tqs[i + 1..];
        if tqs[i].manual { continue; }
        if tqs[i].name == name {
          foundOne := true;
          if tqs[i].attrs.rename == Local {
            if doOnce && !tqs[i].firstDs {
              tmpFileName, doOnce := tqs[i].world.nextName, false;
              renamed := renamed + [tqs[i].key];
            }
          } else {
            tmpFileName := file;
          }
        }
      }
      assert tqs[|tqs|..] == [];
      for i := 0 to |tqs|
        invariant Given(tqs, name, tmpFileName) == given + Given(tqs[i..], name, tmpFileName)
        invariant Taken(tqs, name, true) == Taken(tqs[i..], name, noError)
      {
        assert tqs[i..][0] == tqs[i] && tqs[i..][1..] == tqs[i + 1..];
        if tqs[i].manual { continue; }
        if tqs[i].name == name {
          given := given + [(tqs[i].key, tmpFileName)];
          if tqs[i].world.taking != Silent { noError := tqs[i].world.taking.Accepts?; }
        }
      }
      result := foundOne && noError;
    }
  }

  lemma {:induction false} SetUndefined(es: Entries, name: string, a: Attrs, change: bool, blades: bool)
    ensures !Defined(es, name) ==> SetAll(es, name, a, change, blades) == es
    decreases |es|
  {
    if es != [] {
      assert es == [es[0]] + es[1..];
      if !Defined(es, name) { assert es[0] in es; }
      SetUndefined(es[1..], name, a, change, blades);
    }
  }
}
