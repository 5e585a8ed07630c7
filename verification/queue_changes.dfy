/** What removals and settings leave in the transfer queue map, entry by entry. */
module QueueChanges {
  import opened Options
  import opened Text
  import opened TemplateGrammar
  import opened QueueEntries
  import opened QueueOrder
  import opened QueueInvariants
  import opened QueueAnswers

  // ---------------------------------------------------------------- a queue

  /** The k-th entry is the first of the queue that answers with an error, the end of the map if none does. */
  predicate StopsAt(es: Entries, name: string, k: nat) {
    && k <= |es|
    && (k < |es| ==> es[k].name == name && es[k].world.removal == RemoveError)
    && forall i :: 0 <= i < k ==> !(es[i].name == name && es[i].world.removal == RemoveError)
  }

  /** removeTransferQueue: up to an entry that answers with an error the removable ones are gone, and nothing else;
      behind it nothing changes. */
  lemma {:induction false} SweptUpTo(es: Entries, name: string, k: nat) returns (kept: Entries)
    requires Sorted(es) && StopsAt(es, name, k)
    ensures Sweep(es, name) == kept + es[k..]
    ensures forall e :: e in kept <==> e in es[..k] && !(e.name == name && e.world.removal == RemoveOk)
    ensures Sorted(kept)
    decreases |es|
  {
    if k == 0 {
      kept := [];
      assert es == [] || (es[0].name == name && es[0].world.removal == RemoveError);
      assert [] + es[0..] == es;
    } else {
      var head, t := es[0], es[1..];
      assert forall i :: 0 <= i < |t| ==> t[i] == es[i + 1];
      kept := SweptUpTo(t, name, k - 1);
      assert t[k - 1..] == es[k..] && es[..k] == [head] + t[..k - 1];
      assert head.name == name ==> head.world.removal != RemoveError;
      if !(head.name == name && head.world.removal == RemoveOk) {
        assert [head] + (kept + es[k..]) == [head] + kept + es[k..];
        forall e | e in kept ensures Less(head.key, e.key) {
          assert e in t;
          var i :| 0 <= i < |t| && t[i] == e;
          assert es[i + 1] == e;
        }
        SortedAhead(head, kept);
        kept := [head] + kept;
      }
    }
  }

  lemma SortedAhead(e: Entry, es: Entries)
    requires Sorted(es) && forall x :: x in es ==> Less(e.key, x.key)
    ensures Sorted([e] + es)
  {
    hide Less;
    var s := [e] + es;
    forall i, j | 0 <= i < j < |s| ensures Less(s[i].key, s[j].key) {
      assert s[j] == es[j - 1];
      if i > 0 { assert s[i] == es[i - 1]; } else { assert es[j - 1] in es; }
    }
  }

  // ---------------------------------------------------------------- a destination

  predicate FirstFollower(es: Entries, name: string, j: nat) {
    j < |es| && es[j].name == name && es[j].firstDs && forall k :: 0 <= k < j ==> !(es[k].name == name && es[k].firstDs)
  }

  /** The heir leads, and has the number if it can be written; every other entry is as it was. */
  predicate HandedTo(es: Entries, r: Entries, name: string, number: nat, writes: bool) {
    |r| == |es| && forall k: nat :: k < |es| ==>
      r[k] == if !FirstFollower(es, name, k) then es[k]
              else es[k].(firstDs := false,
                          world := es[k].world.(persist := if writes then Number(number) else es[k].world.persist))
  }

  lemma {:induction false} RetainHanded(es: Entries, name: string, number: nat, writes: bool)
    ensures HandedTo(es, Retain(es, name, number, writes), name, number, writes)
    decreases |es|
  {
    if es != [] {
      var t, r := es[1..], Retain(es, name, number, writes);
      RetainHanded(t, name, number, writes);
      hide Retain, Promote;
      forall k: nat | 0 < k < |es|
        ensures r[k] == if !FirstFollower(es, name, k) then es[k]
                        else es[k].(firstDs := false,
                                    world := es[k].world.(persist := if writes then Number(number) else es[k].world.persist))
      {
        FollowerTail(es, name, k);
        RetainTail(es, name, number, writes, k);
      }
      RetainFirst(es, name, number, writes);
    }
  }

  lemma FollowerTail(es: Entries, name: string, k: nat)
    requires 0 < k < |es|
    ensures FirstFollower(es, name, k) <==> !Follows(es[0], name) && FirstFollower(es[1..], name, k - 1)
  {
    var t := es[1..];
    assert t[k - 1] == es[k];
    if FirstFollower(t, name, k - 1) && !Follows(es[0], name) {
      forall i | 0 <= i < k ensures !(es[i].name == name && es[i].firstDs) {
        if i > 0 { assert es[i] == t[i - 1]; }
      }
    }
    if FirstFollower(es, name, k) {
      forall i | 0 <= i < k - 1 ensures !(t[i].name == name && t[i].firstDs) { assert t[i] == es[i + 1]; }
    }
  }

  lemma RetainTail(es: Entries, name: string, number: nat, writes: bool, k: nat)
    requires 0 < k < |es|
    ensures Retain(es, name, number, writes)[k] ==
            if Follows(es[0], name) then es[k] else Retain(es[1..], name, number, writes)[k - 1]
  {
    hide Promote;
  }

  lemma RetainFirst(es: Entries, name: string, number: nat, writes: bool)
    requires es != []
    ensures Retain(es, name, number, writes)[0] ==
            if Follows(es[0], name) then
              es[0].(firstDs := false,
                     world := es[0].world.(persist := if writes then Number(number) else es[0].world.persist))
            else es[0]
  {
  }

  /** removeDestinationSet. A leader whose number file can be opened hands over first, to the first follower of its
      queue, and a file without a number in it counts as 0; this stays so when the entry is not removed in the end.
      Then just the entry goes. */
  lemma DestRemoved(es: Entries, name: string, dest: string, writes: bool, known: bool, i: nat)
    requires Sorted(es) && i < |es| && es[i].key == name + "_" + dest && Known(es, name)
    ensures var e, r := es[i], RemoveDest(es, name, dest, writes, known);
            exists h: Entries ::
              && (if !e.firstDs && e.world.persist != Missing
                  then HandedTo(es, h, e.name, if e.world.persist.Number? then e.world.persist.value else 0, writes)
                  else h == es)
              && |h| == |es| && r == if RemoveCode(es, name, dest, writes, known) == NoError then h[..i] + h[i + 1..] else h
  {
    FindAt(es, i);
    var e := es[i];
    RetainHanded(es, e.name, Read(e.world.persist), writes);
    var h := Handed(es, i, writes);
    hide Retain, HandedTo, FindKey, RemoveCode;
    assert RemoveDest(es, name, dest, writes, known) ==
           if RemoveCode(es, name, dest, writes, known) == NoError then h[..i] + h[i + 1..] else h;
  }

  /** Without the queue or the entry nothing happens. */
  lemma NothingRemoved(es: Entries, name: string, dest: string, writes: bool, known: bool)
    requires !Known(es, name) || forall e :: e in es ==> e.key != name + "_" + dest
    ensures RemoveDest(es, name, dest, writes, known) == es
  {
    FoundKey(es, name + "_" + dest);
    hide FindKey, RemoveCode;
  }

  // ---------------------------------------------------------------- a setting

  /** The record after a setting that wrote it. */
  predicate Rewritten(was: Attrs, a: Attrs, r: Attrs) {
    && r.retries == a.retries && r.removeDelay == a.removeDelay && r.status == a.status
    && r.retryDelay == a.retryDelay && r.removeBefore == a.removeBefore && r.nameTag == a.nameTag
    && r.template == a.template && r.startup == a.startup
    && r.sourceDir == was.sourceDir && r.userGroup == was.userGroup && r.kind == was.kind
  }

  /** setAttributes of one entry, whatever it answers. A record that cannot be opened, or a transfer in progress when
      the template is concerned, leaves it as it is. A refused template costs it the one it had, and it renames no
      more. In all other cases the parameters are taken over, and the template object is replaced when the flag says
      so. */
  lemma EntryAfterSetting(e: Entry, a: Attrs, change: bool, blades: bool)
    ensures var r := SetEntry(e, a, change, blades);
            var touches := change && (a.template != "" || e.live.Some?);
            var refused := touches && a.template != "" && Parse(a.template, a.nameTag, blades) == Bad;
            if e.world.writing == WriteFails || (touches && e.world.busy) then r == e
            else if refused then r == e.(attrs := e.attrs.(rename := NoRename), live := None)
            else
              && r == e.(attrs := r.attrs, live := r.live) && Rewritten(e.attrs, a, r.attrs)
              && r.attrs.rename == (if !touches then e.attrs.rename else if a.template == "" then NoRename else Local)
              && r.live == (if !touches then e.live
                            else if a.template == "" then None else Some(Live(a.template, a.nameTag, a.startup)))
  {
    hide Parse;
  }

  /** setTransferQueueAttributes for a whole queue: the entries of the queue are set one after the other in key order,
      up to and including the first that answers with an error. */
  lemma {:induction false} QueueAfterSetting(es: Entries, name: string, a: Attrs, change: bool, blades: bool)
    ensures var fs := SetAll(es, name, a, change, blades);
            && |fs| == |es|
            && forall j :: 0 <= j < |es| ==>
                 fs[j] == if es[j].name == name && NoneFails(es[..j], name, a, change, blades)
                          then SetEntry(es[j], a, change, blades) else es[j]
    decreases |es|
  {
    hide SetEntry, SetCode;
    if es != [] {
      var t, fs := es[1..], SetAll(es, name, a, change, blades);
      QueueAfterSetting(t, name, a, change, blades);
      var fails := es[0].name == name && SetCode(es[0], a, change, blades) != NoError;
      var rest := if fails then t else SetAll(t, name, a, change, blades);
      assert fs == [if es[0].name == name then SetEntry(es[0], a, change, blades) else es[0]] + rest;
      hide SetAll;
      assert NoneFails(es[..0], name, a, change, blades);
      forall j | 0 < j < |es|
        ensures fs[j] == if es[j].name == name && NoneFails(es[..j], name, a, change, blades)
                         then SetEntry(es[j], a, change, blades) else es[j]
      {
        assert es[j] == t[j - 1] && fs[j] == rest[j - 1];
        assert es[..j] == [es[0]] + t[..j - 1];
        NoneFailsCons(es[0], t[..j - 1], name, a, change, blades);
      }
    }
  }

  predicate NoneFails(es: Entries, name: string, a: Attrs, change: bool, blades: bool) {
    forall e :: e in es && e.name == name ==> SetCode(e, a, change, blades) == NoError
  }

  lemma NoneFailsCons(e: Entry, es: Entries, name: string, a: Attrs, change: bool, blades: bool)
    ensures NoneFails([e] + es, name, a, change, blades) <==>
            (e.name == name ==> SetCode(e, a, change, blades) == NoError) && NoneFails(es, name, a, change, blades)
  {
    hide SetCode;
    assert e in [e] + es && forall x :: x in es ==> x in [e] + es;
  }
}
