/** What the operations on the transfer queue map answer, error by error, and the names files are sent under. The
    conditions are written out over the entries, without the predicates the operations test. */
module QueueAnswers {
  import opened Options
  import opened Text
  import opened TemplateGrammar
  import opened QueueEntries
  import opened QueueOrder
  import opened QueueInvariants

  predicate Known(es: Entries, name: string) {
    exists e :: e in es && e.name == name
  }

  // ---------------------------------------------------------------- creation

  function IndicesTo(es: Entries, dest: string): (s: set<int>) {
    set i | 0 <= i < |es| && es[i].dest == dest
  }

  lemma {:induction false} ToDestCounts(es: Entries, dest: string)
    ensures ToDest(es, dest) == |IndicesTo(es, dest)|
    decreases |es|
  {
    if es == [] {
      assert IndicesTo(es, dest) == {};
    } else {
      var most, last := es[..|es| - 1], |es| - 1;
      ToDestCounts(most, dest);
      ToDestLast(most, es[last], dest);
      assert es == most + [es[last]];
      hide ToDest;
      OneIndexMore(es, most, dest);
    }
  }

  lemma ToDestLast(es: Entries, e: Entry, dest: string)
    ensures ToDest(es + [e], dest) == ToDest(es, dest) + if e.dest == dest then 1 else 0
  {
    ToDestAppend(es, [e], dest);
    assert [e][1..] == [];
  }

  lemma OneIndexMore(es: Entries, most: Entries, dest: string)
    requires es != [] && most == es[..|es| - 1]
    ensures |IndicesTo(es, dest)| == |IndicesTo(most, dest)| + if es[|es| - 1].dest == dest then 1 else 0
  {
    var last := |es| - 1;
    assert IndicesTo(es, dest) == IndicesTo(most, dest) + if es[last].dest == dest then {last} else {};
    assert last !in IndicesTo(most, dest);
  }

  /** No two entries share a key, and a destination set has room for 32 transfer queues: the 32nd is accepted, the
      33rd refused. */
  lemma RefusedFirst(es: Entries, name: string, dest: string, a: Attrs, up: bool, blades: bool)
    ensures var code := Refusal(es, name, dest, a, up, blades);
            var taken := exists e :: e in es && e.key == BaseName(name) + "_" + dest;
            && (code == ProcOrderExist <==> taken)
            && (code == TooManyTq <==> !taken && |IndicesTo(es, dest)| >= 32)
  {
    ToDestCounts(es, dest);
    hide InitOk, Misfit, Adopt, BaseName, ToDest, IndicesTo, FindKey;
    if FindKey(es, Key(name, dest)) >= 0 { assert es[FindKey(es, Key(name, dest))] in es; }
    MisfitCodes(es, name, a);
  }

  lemma MisfitCodes(es: Entries, name: string, a: Attrs)
    ensures var first := FirstNamed(es, BaseName(name));
            first.None? || Misfit(first.value, a) in
              {NoError, WrongRenameType, WrongTemplate, InconsistentDir, WrongNameTag, WrongStartup}
  {
    hide BaseName;
  }

  /** Otherwise the attributes are compared with those of the first entry of the queue; a missing source directory
      or name tag fits. The startup number comes last. */
  lemma RefusedForAttributes(es: Entries, name: string, dest: string, a: Attrs, up: bool, blades: bool, j: nat)
    requires FirstOf(es, BaseName(name), j)
    requires !(Refusal(es, name, dest, a, up, blades) in {ProcOrderExist, TooManyTq})
    ensures var code, was := Refusal(es, name, dest, a, up, blades), es[j].attrs;
            var wrongType, wrongTemplate := a.rename != was.rename, a.template != was.template;
            var wrongDir := a.sourceDir != "" && a.sourceDir != was.sourceDir;
            var wrongTag := a.nameTag != "" && a.nameTag != was.nameTag;
            && (code == WrongRenameType <==> wrongType)
            && (code == WrongTemplate <==> !wrongType && wrongTemplate)
            && (code == InconsistentDir <==> !wrongType && !wrongTemplate && wrongDir)
            && (code == WrongNameTag <==> !wrongType && !wrongTemplate && !wrongDir && wrongTag)
            && (code == WrongStartup <==>
                  !wrongType && !wrongTemplate && !wrongDir && !wrongTag && a.startup != was.startup)
  {
    FirstNamedAt(es, BaseName(name), j);
    hide InitOk, Adopt, BaseName, ToDest, FindKey, Key;
  }

  /** The template an entry is given is one the parser accepts for its name tag. */
  lemma RefusedByInit(es: Entries, name: string, dest: string, a: Attrs, up: bool, blades: bool)
    requires FirstNamed(es, BaseName(name)).None?
    requires !(Refusal(es, name, dest, a, up, blades) in {ProcOrderExist, TooManyTq})
    ensures var code := Refusal(es, name, dest, a, up, blades);
            && (code == NoError <==> up && (a.template == "" || exists ts :: Parse(a.template, a.nameTag, blades) == Good(ts)))
            && (code == InitFailed <==> code != NoError)
  {
    hide BaseName, ToDest, FindKey, Key, Parse;
    var r := Parse(a.template, a.nameTag, blades);
    if r.Good? { assert r == Good(r.tokens); }
  }

  /** c is a, with a missing source directory and name tag taken from the first entry of the queue. */
  ghost predicate CompletedFrom(c: Attrs, a: Attrs, es: Entries, name: string) {
    && c.status == a.status && c.removeDelay == a.removeDelay && c.kind == a.kind && c.removeBefore == a.removeBefore
    && c.retryDelay == a.retryDelay && c.retries == a.retries && c.rename == a.rename && c.template == a.template
    && c.userGroup == a.userGroup && c.startup == a.startup
    && (a.sourceDir != "" || !Known(es, name) ==> c.sourceDir == a.sourceDir)
    && (a.nameTag != "" || !Known(es, name) ==> c.nameTag == a.nameTag)
    && forall j: nat :: FirstOf(es, name, j) ==>
         && (a.sourceDir == "" ==> c.sourceDir == es[j].attrs.sourceDir)
         && (a.nameTag == "" ==> c.nameTag == es[j].attrs.nameTag)
  }

  lemma AdoptCompletes(es: Entries, name: string, a: Attrs)
    ensures CompletedFrom(Adopt(FirstNamed(es, name), a), a, es, name)
  {
    forall j: nat | FirstOf(es, name, j) ensures FirstNamed(es, name) == Some(es[j]) {
      FirstNamedAt(es, name, j);
    }
  }

  /** What an accepted creation adds: one entry in key order, with the attributes given, a missing source directory
      and name tag taken from the first entry of the queue, a template object for its template, and a follower
      exactly when the queue had an entry. */
  lemma CreatedEntry(es: Entries, name: string, dest: string, a: Attrs, up: bool, blades: bool) returns (p: nat, c: Entry)
    requires Sorted(es) && Refusal(es, name, dest, a, up, blades) == NoError
    ensures p <= |es| && Create(es, name, dest, a, up, blades) == es[..p] + [c] + es[p..]
    ensures c.key == BaseName(name) + "_" + dest && c.name == name && c.dest == dest && !c.manual
    ensures c.firstDs <==> Known(es, name)
    ensures CompletedFrom(c.attrs, a, es, BaseName(name))
    ensures c.live == if a.template == "" then None else Some(Live(a.template, c.attrs.nameTag, a.startup))
  {
    p := CreateSplices(es, name, dest, a, up, blades);
    c := Created(es, name, dest, a);
    AdoptCompletes(es, BaseName(name), a);
    hide Create, Refusal, BaseName, Insert, Sorted, CompletedFrom;
  }

  // ---------------------------------------------------------------- the other answers

  /** removeTransferQueue: which error, an entry that cannot be removed counting more than a protected one. */
  lemma RemovalAnswers(es: Entries, name: string)
    ensures var code := SweepCode(es, name);
            && (code == NoProcOrder <==> forall e :: e in es ==> e.name != name)
            && (code == NotRemoved <==> exists e :: e in es && e.name == name && e.world.removal == RemoveError)
            && (code == FileIsProtected <==>
                  && (exists e :: e in es && e.name == name && e.world.removal == RemoveProtected)
                  && forall e :: e in es && e.name == name ==> e.world.removal != RemoveError)
            && (code == NoError <==>
                  && (exists e :: e in es && e.name == name)
                  && forall e :: e in es && e.name == name ==> e.world.removal == RemoveOk)
  {
  }

  predicate Keyed(es: Entries, key: string) {
    exists e :: e in es && e.key == key
  }

  lemma FoundKey(es: Entries, key: string)
    ensures FindKey(es, key) >= 0 <==> Keyed(es, key)
  {
    if FindKey(es, key) >= 0 { assert es[FindKey(es, key)] in es; }
  }

  /** removeDestinationSet: an unknown queue, an unknown destination set, one that the queue does not have, a
      hand-over that fails, a protected file, an entry that cannot be removed. */
  lemma DestRemovalAnswers(es: Entries, name: string, dest: string, writes: bool, known: bool)
    ensures var code, key := RemoveCode(es, name, dest, writes, known), name + "_" + dest;
            && (code == NoProcOrder <==> !Known(es, name))
            && (code == NoDestination <==> Known(es, name) && !Keyed(es, key) && !known)
            && (code == Combination <==> Known(es, name) && !Keyed(es, key) && known)
    ensures var code, i := RemoveCode(es, name, dest, writes, known), FindKey(es, name + "_" + dest);
            Known(es, name) && i >= 0 ==>
              && es[i].key == name + "_" + dest
              && var e := es[i];
                 var heirless := !e.firstDs && e.world.persist != Missing && !writes &&
                                 exists f :: f in es && f.name == e.name && f.firstDs;
                 && (code == NotRetained <==> heirless)
                 && (code == FileIsProtected <==> !heirless && e.world.removal == RemoveProtected)
                 && (code == NotRemoved <==> !heirless && e.world.removal == RemoveError)
                 && (code == NoError <==> !heirless && e.world.removal == RemoveOk)
  {
    FoundKey(es, name + "_" + dest);
    hide FindKey;
  }

  /** setAttributes of one entry: the record that cannot be written, the transfer in progress, the bad template. */
  lemma SettingAnswers(e: Entry, a: Attrs, change: bool, blades: bool)
    ensures var code := SetCode(e, a, change, blades);
            var touches := change && (a.template != "" || e.live.Some?);
            var bad := touches && a.template != "" && Parse(a.template, a.nameTag, blades) == Bad;
            && (code == TqIsOpen <==> e.world.writing != WriteFails && touches && e.world.busy)
            && (code == TemplateFault <==> e.world.writing != WriteFails && bad && !e.world.busy)
            && (code == NotWritten <==> || e.world.writing == WriteFails
                                        || (e.world.writing == WriteFailsLate && !(touches && e.world.busy) && !bad))
            && (code == NoError <==> e.world.writing == WriteOk && !(touches && e.world.busy) && !bad)
  {
    hide Parse;
  }

  /** getTransferQueueAttributes. */
  lemma LookupAnswers(es: Entries, name: string, dest: string, known: bool)
    ensures var code := LookupCode(es, name, dest, known);
            var asked := dest != "" && dest != "-";
            var found := if dest == "" then Known(es, name) else Keyed(es, name + "_" + dest) && (known || !asked);
            && (code == NoError <==> found)
            && (code == NoDestination <==> es != [] && asked && !known)
            && (code == Combination <==> dest != "" && !found && (known || !asked) && Known(es, name))
            && (code == NoProcOrder <==> es == [] || (!found && (known || !asked) && !Known(es, name)))
    ensures var r := Lookup(es, name, dest, known);
            && (r.Some? <==> LookupCode(es, name, dest, known) == NoError)
            && (r.Some? ==> r.value in es && (dest == "" ==> r.value.name == name)
                            && (dest != "" ==> r.value.key == name + "_" + dest))
            && (dest == "" ==> forall j: nat :: FirstOf(es, name, j) ==> r == Some(es[j]))
  {
    FoundKey(es, name + "_" + dest);
    if dest == "" {
      forall j: nat | FirstOf(es, name, j) ensures FirstNamed(es, name) == Some(es[j]) { FirstNamedAt(es, name, j); }
    }
    hide FindKey, FirstNamed;
  }

  // ---------------------------------------------------------------- sendFile

  /** Files are given to the entries of the queue that are not manual. */
  predicate Receives(e: Entry, name: string) {
    e.name == name && !e.manual
  }

  predicate Numbers(e: Entry, name: string) {
    Receives(e, name) && e.attrs.rename == Local && !e.firstDs
  }

  /** The i-th entry decides on the name: it does not rename locally, or it is the first that leads. */
  predicate Decides(es: Entries, name: string, i: nat, once: bool)
    requires i < |es|
  {
    && Receives(es[i], name)
    && (es[i].attrs.rename != Local ||
        (once && Numbers(es[i], name) && forall k :: 0 <= k < i ==> !Numbers(es[k], name)))
  }

  predicate LastToDecide(es: Entries, name: string, i: nat, once: bool)
    requires i < |es|
  {
    Decides(es, name, i, once) && forall j :: i < j < |es| ==> !Decides(es, name, j, once)
  }

  lemma DecidesTail(es: Entries, name: string, i: nat, once: bool)
    requires 0 < i < |es|
    ensures Decides(es, name, i, once) <==> Decides(es[1..], name, i - 1, once && !Numbers(es[0], name))
  {
    hide Receives;
    var t := es[1..];
    assert t[i - 1] == es[i];
    assert forall k :: 0 <= k < i - 1 ==> t[k] == es[k + 1];
    if forall k :: 0 <= k < i - 1 ==> !Numbers(t[k], name) {
      forall k | 0 < k < i ensures !Numbers(es[k], name) { assert es[k] == t[k - 1]; }
    }
  }

  lemma {:induction false} LastDecides(es: Entries, name: string, file: string, tmp: string, once: bool)
    ensures (forall i :: 0 <= i < |es| ==> !Decides(es, name, i, once)) ==> FileName(es, name, file, tmp, once) == tmp
    ensures forall i :: 0 <= i < |es| && LastToDecide(es, name, i, once) ==>
              FileName(es, name, file, tmp, once) == if es[i].attrs.rename == Local then es[i].world.nextName else file
    decreases |es|
  {
    if es != [] {
      var t, later := es[1..], once && !Numbers(es[0], name);
      var next := if !Decides(es, name, 0, once) then tmp
                  else if es[0].attrs.rename == Local then es[0].world.nextName else file;
      LastDecides(t, name, file, next, later);
      assert FileName(es, name, file, tmp, once) == FileName(t, name, file, next, later);
      hide FileName, Decides;
      forall i | 0 < i < |es| ensures Decides(es, name, i, once) <==> Decides(t, name, i - 1, later) {
        DecidesTail(es, name, i, once);
      }
      if forall i :: 0 <= i < |es| ==> !Decides(es, name, i, once) {
        forall i | 0 <= i < |t| ensures !Decides(t, name, i, later) { assert !Decides(es, name, i + 1, once); }
      }
      forall i | 0 <= i < |es| && LastToDecide(es, name, i, once)
        ensures FileName(t, name, file, next, later) == if es[i].attrs.rename == Local then es[i].world.nextName else file
      {
        if i > 0 {
          assert t[i - 1] == es[i];
          forall j | i - 1 < j < |t| ensures !Decides(t, name, j, later) { assert !Decides(es, name, j + 1, once); }
          assert LastToDecide(t, name, i - 1, later);
        } else {
          forall j | 0 <= j < |t| ensures !Decides(t, name, j, later) { assert !Decides(es, name, j + 1, once); }
        }
      }
    }
  }

  /** Keys of the entries that are given files, in order. */
  function ReceiverKeys(es: Entries, name: string): seq<string> {
    if es == [] then [] else (if Receives(es[0], name) then [es[0].key] else []) + ReceiverKeys(es[1..], name)
  }

  predicate AllGet(given: seq<(string, string)>, keys: seq<string>, file: string) {
    |given| == |keys| && forall i :: 0 <= i < |keys| ==> given[i] == (keys[i], file)
  }

  lemma {:induction false} GivenToAll(es: Entries, name: string, file: string)
    ensures AllGet(Given(es, name, file), ReceiverKeys(es, name), file)
    decreases |es|
  {
    if es != [] { GivenToAll(es[1..], name, file); }
  }

  predicate FirstToNumber(es: Entries, name: string, i: nat) {
    i < |es| && Numbers(es[i], name) && forall k :: 0 <= k < i ==> !Numbers(es[k], name)
  }

  lemma {:induction false} RenamedByFirst(es: Entries, name: string, i: nat)
    requires FirstToNumber(es, name, i)
    ensures RenamedBy(es, name, true) == [es[i].key]
    decreases |es|
  {
    RenamedByNone(es[1..], name);
    if i > 0 {
      assert !Numbers(es[0], name) && es[1..][i - 1] == es[i];
      assert forall k :: 0 <= k < i - 1 ==> es[1..][k] == es[k + 1];
      RenamedByFirst(es[1..], name, i - 1);
    }
  }

  lemma {:induction false} RenamedByNobody(es: Entries, name: string)
    requires forall e :: e in es ==> !Numbers(e, name)
    ensures RenamedBy(es, name, true) == []
    decreases |es|
  {
    if es != [] {
      assert es == [es[0]] + es[1..];
      assert es[0] in es;
      RenamedByNobody(es[1..], name);
    }
  }

  lemma {:induction false} RenamedByNone(es: Entries, name: string)
    ensures RenamedBy(es, name, false) == []
    decreases |es|
  {
    if es != [] { RenamedByNone(es[1..], name); }
  }

  /** Whatever the entries of a queue do with names, every one that is not manual is given the file, under one name:
      that of the last entry that decides, which is the file's own for an entry that does not rename locally and the
      next name of the first leader otherwise; the empty name when none decides. The first leader is asked for a
      name, and nobody else. */
  lemma SentUnder(es: Entries, name: string, file: string)
    ensures var sent := Sent(es, name, file);
            && ((forall e :: e in es ==> !Numbers(e, name)) ==> sent.renamedBy == [])
            && (forall i: nat :: FirstToNumber(es, name, i) ==> sent.renamedBy == [es[i].key])
            && (forall i :: 0 <= i < |es| && LastToDecide(es, name, i, true) ==>
                  AllGet(sent.given, ReceiverKeys(es, name), if es[i].attrs.rename == Local then es[i].world.nextName else file))
            && ((forall i :: 0 <= i < |es| ==> !Decides(es, name, i, true)) ==>
                  AllGet(sent.given, ReceiverKeys(es, name), ""))
  {
    LastDecides(es, name, file, "", true);
    GivenToAll(es, name, FileName(es, name, file, "", true));
    if forall e :: e in es ==> !Numbers(e, name) { RenamedByNobody(es, name); }
    forall i: nat | FirstToNumber(es, name, i) ensures RenamedBy(es, name, true) == [es[i].key] {
      RenamedByFirst(es, name, i);
    }
    hide FileName, Given, RenamedBy, Decides;
  }

  lemma {:induction false} LastOf(es: Entries, name: string) returns (i: nat)
    requires exists e :: e in es && Receives(e, name)
    ensures i < |es| && Receives(es[i], name) && forall j :: i < j < |es| ==> !Receives(es[j], name)
    decreases |es|
  {
    var last := |es| - 1;
    if Receives(es[last], name) {
      i := last;
    } else {
      assert es == es[..last] + [es[last]];
      i := LastOf(es[..last], name);
    }
  }

  /** So without local rename nobody renames, and everyone is given the file under its own name. */
  lemma SentAsItIs(es: Entries, name: string, file: string)
    requires forall e :: e in es && Receives(e, name) ==> e.attrs.rename != Local
    ensures Sent(es, name, file).renamedBy == []
    ensures AllGet(Sent(es, name, file).given, ReceiverKeys(es, name), file)
  {
    SentUnder(es, name, file);
    if e :| e in es && Receives(e, name) {
      var i := LastOf(es, name);
      assert es[i] in es && LastToDecide(es, name, i, true);
    } else {
      NobodyReceives(es, name);
      GivenToAll(es, name, FileName(es, name, file, "", true));
    }
  }

  lemma {:induction false} NobodyReceives(es: Entries, name: string)
    requires forall e :: e in es ==> !Receives(e, name)
    ensures ReceiverKeys(es, name) == []
    decreases |es|
  {
    if es != [] {
      assert es == [es[0]] + es[1..];
      NobodyReceives(es[1..], name);
    }
  }
}
