/** What creations and removals keep of the transfer queue database: agreement, the cap, filing. */
module QueueInvariants {
  import opened Options
  import opened Text
  import opened TemplateGrammar
  import opened QueueEntries
  import opened QueueOrder

  /** The attributes all destinations of a queue have in common. */
  predicate Agrees(a: Attrs, b: Attrs) {
    && a.rename == b.rename && a.template == b.template && a.nameTag == b.nameTag
    && a.startup == b.startup && a.sourceDir == b.sourceDir
  }

  predicate Agreement(es: Entries) {
    forall e, f :: e in es && f in es && e.name == f.name ==> Agrees(e.attrs, f.attrs)
  }

  ghost predicate Capped(es: Entries) {
    forall dest :: ToDest(es, dest) <= MaxDestinations
  }

  /** The entry is filed under its own name, and its template object is the one its record describes. */
  predicate Filed(e: Entry) {
    '/' !in e.name && e.key == Key(e.name, e.dest) && e.live == Built(e.attrs)
  }

  predicate AllFiled(es: Entries) {
    forall e :: e in es ==> Filed(e)
  }

  ghost predicate Table(es: Entries) {
    Sorted(es) && AllFiled(es) && Agreement(es) && Capped(es)
  }

  function Faced(es: Entries, worlds: seq<World>): Entries
    requires |worlds| == |es|
  {
    seq(|es|, i requires 0 <= i < |es| => es[i].(world := worlds[i]))
  }

  lemma PlainName(name: string)
    requires '/' !in name
    ensures BaseName(name) == name
  {
  }

  lemma Accepted(es: Entries, name: string, dest: string, a: Attrs, up: bool, blades: bool)
    requires Refusal(es, name, dest, a, up, blades) == NoError
    ensures FindKey(es, Key(name, dest)) < 0 && ToDest(es, dest) < MaxDestinations
    ensures var first := FirstNamed(es, BaseName(name));
            (first.Some? ==> Misfit(first.value, a) == NoError) && InitOk(Adopt(first, a), up, blades)
  {
    hide InitOk, Misfit, Adopt, FindKey, ToDest, FirstNamed, Key, BaseName;
  }

  /** A successful createTransferQueue adds exactly one entry, of a key that was free. */
  lemma CreateSplices(es: Entries, name: string, dest: string, a: Attrs, up: bool, blades: bool)
    returns (p: nat)
    requires Sorted(es) && Refusal(es, name, dest, a, up, blades) == NoError
    ensures p <= |es|
    ensures Create(es, name, dest, a, up, blades) == es[..p] + [Created(es, name, dest, a)] + es[p..]
    ensures Sorted(Create(es, name, dest, a, up, blades)) && ToDest(es, dest) < MaxDestinations
  {
    Accepted(es, name, dest, a, up, blades);
    hide Refusal, Adopt, Key;
    p := InsertSplice(es, Created(es, name, dest, a));
  }

  lemma AgreesSymmetric(a: Attrs, b: Attrs)
    requires Agrees(a, b)
    ensures Agrees(a, a) && Agrees(b, a)
  {
  }

  lemma AgreesItself(a: Attrs)
    ensures Agrees(a, a)
  {
  }

  lemma AgreesThrough(a: Attrs, b: Attrs, c: Attrs)
    requires Agrees(b, c)
    ensures Agrees(a, b) <==> Agrees(a, c)
  {
  }

  /** One more entry: the table agrees exactly when it fits its queue. */
  lemma AgreementAdds(es: Entries, c: Entry, t: Entries)
    requires Agreement(es) && forall x :: x in t <==> x == c || x in es
    ensures Agreement(t) <==> forall e :: e in es && e.name == c.name ==> Agrees(c.attrs, e.attrs)
  {
    hide Agrees;
    AgreesItself(c.attrs);
    if forall e :: e in es && e.name == c.name ==> Agrees(c.attrs, e.attrs) {
      forall e, f | e in t && f in t && e.name == f.name ensures Agrees(e.attrs, f.attrs) {
        if f == c && e != c { AgreesSymmetric(c.attrs, e.attrs); }
      }
    }
  }

  /** Since the queue agreed, fitting one entry of it is fitting all. */
  lemma FitsAll(es: Entries, f: Entry, a: Attrs)
    requires Agreement(es) && f in es
    ensures (forall e :: e in es && e.name == f.name ==> Agrees(a, e.attrs)) <==> Agrees(a, f.attrs)
  {
    hide Agrees;
    forall e | e in es && e.name == f.name ensures Agrees(a, e.attrs) <==> Agrees(a, f.attrs) {
      AgreesThrough(a, e.attrs, f.attrs);
    }
  }

  /** The new attributes fit the queue: they are compared with, and completed from, the queue that the part after
      the last slash names, but the entry belongs to the queue that the whole name names. */
  predicate CreationFits(es: Entries, name: string, a: Attrs) {
    var queue, compared := FirstNamed(es, name), FirstNamed(es, BaseName(name));
    queue.Some? ==> Agrees(Adopt(compared, a), queue.value.attrs)
  }

  /** For every name, createTransferQueue keeps agreement exactly when it refuses or the new attributes fit the
      first entry of the queue. */
  lemma CreateAgreesExactly(es: Entries, name: string, dest: string, a: Attrs, up: bool, blades: bool)
    requires Sorted(es) && Agreement(es)
    ensures Agreement(Create(es, name, dest, a, up, blades)) <==>
            Refusal(es, name, dest, a, up, blades) != NoError || CreationFits(es, name, a)
  {
    hide Refusal, Agrees, Sorted, Insert, Agreement, Adopt, Key, Built, BaseName;
    if Refusal(es, name, dest, a, up, blades) == NoError {
      var p := CreateSplices(es, name, dest, a, up, blades);
      var c, first := Created(es, name, dest, a), FirstNamed(es, name);
      hide Create, Created;
      assert c.name == name && c.attrs == Adopt(FirstNamed(es, BaseName(name)), a) by { CreatedIs(es, name, dest, a); }
      assert es == es[..p] + es[p..];
      AgreementAdds(es, c, es[..p] + [c] + es[p..]);
      if first.Some? { FitsAll(es, first.value, c.attrs); }
    }
  }

  lemma CreatedIs(es: Entries, name: string, dest: string, a: Attrs)
    ensures var c := Created(es, name, dest, a);
            c.name == name && c.dest == dest && c.attrs == Adopt(FirstNamed(es, BaseName(name)), a)
  {
    hide Adopt, Built, Key, BaseName;
  }

  /** Comparing with the first entry is enough: what is created agrees with it. */
  lemma FitAgrees(first: Entry, a: Attrs)
    requires Misfit(first, a) == NoError
    ensures Agrees(Adopt(Some(first), a), first.attrs)
  {
  }

  /** So a name without a slash keeps agreement: the compared queue is the entry's own. */
  lemma PlainFits(es: Entries, name: string, dest: string, a: Attrs, up: bool, blades: bool)
    requires '/' !in name && Refusal(es, name, dest, a, up, blades) == NoError
    ensures CreationFits(es, name, a)
  {
    PlainName(name);
    Accepted(es, name, dest, a, up, blades);
    hide Refusal, InitOk, Misfit, Adopt, Key, BaseName, Agrees;
    if FirstNamed(es, name).Some? { FitAgrees(FirstNamed(es, name).value, a); }
  }

  /** What is known of a new entry without looking at the table. */
  lemma CreatedFiled(es: Entries, name: string, dest: string, a: Attrs)
    requires '/' !in name
    ensures var c := Created(es, name, dest, a); c.name == name && c.dest == dest && Filed(c)
  {
    PlainName(name);
  }

  lemma FiledAdds(es: Entries, c: Entry, t: Entries)
    requires AllFiled(es) && Filed(c) && forall x :: x in t <==> x == c || x in es
    ensures AllFiled(t)
  {
    hide Filed;
  }

  lemma CapAdds(a: Entries, c: Entry, b: Entries)
    requires Capped(a + b) && ToDest(a + b, c.dest) < MaxDestinations
    ensures Capped(a + [c] + b)
  {
    forall d ensures ToDest(a + [c] + b, d) <= MaxDestinations {
      ToDestSplice(a, c, b, d);
    }
  }

  lemma CreateKeeps(es: Entries, name: string, dest: string, a: Attrs, up: bool, blades: bool)
    requires Table(es) && '/' !in name
    ensures Table(Create(es, name, dest, a, up, blades))
  {
    hide Refusal, Created, Agreement, Filed, ToDest, Sorted, Insert, CreationFits, AllFiled;
    if Refusal(es, name, dest, a, up, blades) == NoError {
      PlainFits(es, name, dest, a, up, blades);
      CreateAgreesExactly(es, name, dest, a, up, blades);
      var p := CreateSplices(es, name, dest, a, up, blades);
      var c := Created(es, name, dest, a);
      CreatedFiled(es, name, dest, a);
      hide Create;
      assert es == es[..p] + es[p..];
      FiledAdds(es, c, es[..p] + [c] + es[p..]);
      CapAdds(es[..p], c, es[p..]);
    }
  }

  // removals

  /** Fewer entries, none new. */
  ghost predicate Within(t: Entries, es: Entries) {
    (forall e :: e in t ==> e in es) && forall d :: ToDest(t, d) <= ToDest(es, d)
  }

  lemma WithinKeeps(t: Entries, es: Entries)
    requires Table(es) && Within(t, es) && Sorted(t)
    ensures Table(t)
  {
    hide Sorted, Filed, Agrees;
    forall d ensures ToDest(t, d) <= MaxDestinations {
      assert ToDest(t, d) <= ToDest(es, d) <= MaxDestinations;
    }
  }

  lemma SortedCons(e: Entry, t: Entries, es: Entries)
    requires Sorted([e] + es) && Sorted(t) && forall x :: x in t ==> x in es
    ensures Sorted([e] + t)
  {
    var s := [e] + t;
    forall i, j | 0 <= i < j < |s| ensures Less(s[i].key, s[j].key) {
      if i == 0 {
        assert t[j - 1] in es;
        var k :| 0 <= k < |es| && es[k] == t[j - 1];
        assert ([e] + es)[0] == e && ([e] + es)[k + 1] == s[j];
      } else {
        assert s[i] == t[i - 1] && s[j] == t[j - 1];
      }
    }
  }

  lemma {:induction false} SweepWithin(es: Entries, name: string)
    requires Sorted(es)
    ensures Within(Sweep(es, name), es) && Sorted(Sweep(es, name))
    decreases |es|
  {
    if es != [] {
      assert es == [es[0]] + es[1..];
      SweepWithin(es[1..], name);
      SortedCons(es[0], Sweep(es[1..], name), es[1..]);
    }
  }

  lemma EraseWithin(es: Entries, i: nat)
    requires Sorted(es) && i < |es|
    ensures Within(Erase(es, i), es) && Sorted(Erase(es, i))
  {
    SortedErase(es, i);
    forall d ensures ToDest(Erase(es, i), d) <= ToDest(es, d) {
      ToDestSplice(es[..i], es[i], es[i + 1..], d);
      assert es[..i] + [es[i]] + es[i + 1..] == es;
    }
  }

  // changes of leadership and of the world

  /** An entry without its leadership and its world. */
  function Row(e: Entry): Entry {
    e.(firstDs := false, world := NewWorld)
  }

  predicate SameRows(es: Entries, fs: Entries) {
    |es| == |fs| && forall i :: 0 <= i < |es| ==> Row(fs[i]) == Row(es[i])
  }

  lemma {:induction false} SameToDest(es: Entries, fs: Entries, dest: string)
    requires SameRows(es, fs)
    ensures ToDest(fs, dest) == ToDest(es, dest)
    decreases |es|
  {
    if es != [] {
      assert Row(fs[0]) == Row(es[0]);
      SameToDest(es[1..], fs[1..], dest);
    }
  }

  lemma SameRow(e: Entry, f: Entry)
    requires Row(e) == Row(f)
    ensures e.key == f.key && e.name == f.name && e.dest == f.dest && e.attrs == f.attrs
    ensures e.live == f.live && e.manual == f.manual && (Filed(e) <==> Filed(f))
  {
  }

  lemma SameRowsKeep(es: Entries, fs: Entries)
    requires Table(es) && SameRows(es, fs)
    ensures Table(fs) && SameKeys(es, fs)
  {
    hide Filed, Agrees, Row;
    forall i | 0 <= i < |es| ensures fs[i].key == es[i].key {
      SameRow(es[i], fs[i]);
    }
    forall e | e in fs ensures Filed(e) {
      var i :| 0 <= i < |fs| && fs[i] == e;
      SameRow(es[i], e);
      assert Filed(es[i]);
    }
    forall e, f | e in fs && f in fs && e.name == f.name ensures Agrees(e.attrs, f.attrs) {
      var i :| 0 <= i < |fs| && fs[i] == e;
      var j :| 0 <= j < |fs| && fs[j] == f;
      SameRow(es[i], e);
      SameRow(es[j], f);
      assert es[i] in es && es[j] in es;
    }
    forall d ensures ToDest(fs, d) <= MaxDestinations {
      SameToDest(es, fs, d);
    }
  }

  lemma {:induction false} RetainRows(es: Entries, name: string, number: nat, writes: bool)
    ensures SameRows(es, Retain(es, name, number, writes))
    decreases |es|
  {
    if es != [] && !Follows(es[0], name) {
      RetainRows(es[1..], name, number, writes);
      var fs := Retain(es, name, number, writes);
      assert fs[1..] == Retain(es[1..], name, number, writes);
      forall i | 0 <= i < |es| ensures Row(fs[i]) == Row(es[i]) {
        if i > 0 { assert fs[i] == fs[1..][i - 1] && es[i] == es[1..][i - 1]; }
      }
    }
  }

  lemma HandedRows(es: Entries, i: nat, writes: bool)
    requires i < |es|
    ensures SameRows(es, Handed(es, i, writes))
  {
    if HandsOn(es[i]) { RetainRows(es, es[i].name, Read(es[i].world.persist), writes); }
  }

  lemma RemoveDestKeeps(es: Entries, name: string, dest: string, writes: bool, known: bool)
    requires Table(es)
    ensures Table(RemoveDest(es, name, dest, writes, known))
  {
    var i := FindKey(es, name + "_" + dest);
    if i >= 0 {
      HandedRows(es, i, writes);
      var h := Handed(es, i, writes);
      SameRowsKeep(es, h);
      EraseWithin(h, i);
      WithinKeeps(Erase(h, i), h);
      hide Handed, Erase, Table, RemoveCode;
    }
  }

  lemma FacedKeeps(es: Entries, worlds: seq<World>)
    requires Table(es) && |worlds| == |es|
    ensures Table(Faced(es, worlds))
  {
    SameRowsKeep(es, Faced(es, worlds));
  }

  lemma SweepKeeps(es: Entries, name: string)
    requires Table(es)
    ensures Table(Sweep(es, name))
  {
    SweepWithin(es, name);
    WithinKeeps(Sweep(es, name), es);
  }

  lemma BaseNamePlain(name: string)
    ensures '/' !in BaseName(name)
  {
    var base := BaseName(name);
    assert forall k :: 0 <= k < |base| ==> base[k] == name[LastSlash(name) + 1 + k];
  }

  /** Under a name with a slash no queue is found to compare with. */
  lemma FreeSecond(e: Entry, name: string, dest: string, dest': string, b: Attrs, blades: bool)
    requires '/' in name && dest != dest' && b.template == "" && e.name == name && e.key == Key(name, dest)
    ensures FirstNamed([e], BaseName(name)).None? && Refusal([e], name, dest', b, true, blades) == NoError
  {
    hide Parse;
    BaseNamePlain(name);
    var x := BaseName(name) + "_";
    assert Key(name, dest) == x + dest && Key(name, dest') == x + dest';
    assert (x + dest)[|x|..] == dest && (x + dest')[|x|..] == dest';
    hide BaseName, Key;
    assert ToDest([e], dest') <= 1 by { assert ToDest([], dest') == 0; }
  }

  lemma FreeFirst(name: string, dest: string, a: Attrs, blades: bool)
    requires a.template == ""
    ensures Refusal([], name, dest, a, true, blades) == NoError
    ensures var e := Created([], name, dest, a);
            && Create([], name, dest, a, true, blades) == [e]
            && e.name == name && e.key == Key(name, dest) && e.attrs == a
  {
    hide Parse, Key, BaseName;
  }

  /** Every name with a slash breaks it: the two creations are accepted although their startup numbers differ. */
  lemma SlashNameDisagrees(name: string, dest: string, dest': string, a: Attrs, blades: bool)
    requires '/' in name && dest != dest' && a.template == ""
    ensures var b := a.(startup := a.startup + 1);
            var es := Create([], name, dest, a, true, blades);
            && Refusal([], name, dest, a, true, blades) == NoError
            && Refusal(es, name, dest', b, true, blades) == NoError
            && Agreement(es) && !Agreement(Create(es, name, dest', b, true, blades))
  {
    FreeFirst(name, dest, a, blades);
    var e, b := Created([], name, dest, a), a.(startup := a.startup + 1);
    hide Create, Created, Refusal, BaseName, Key;
    FreeSecond(e, name, dest, dest', b, blades);
    AgreesItself(e.attrs);
    CreateAgreesExactly([e], name, dest', b, true, blades);
  }
}
