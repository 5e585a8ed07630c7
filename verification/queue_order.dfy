/** Insertion, search and removal in a map kept in key order. */
module QueueOrder {
  import opened Options
  import opened Text
  import opened QueueEntries

  predicate Sorted(es: Entries) {
    forall i, j :: 0 <= i < j < |es| ==> Less(es[i].key, es[j].key)
  }

  lemma DistinctKeys(es: Entries, i: nat, j: nat)
    requires Sorted(es) && i < |es| && j < |es| && es[i].key == es[j].key
    ensures i == j
  {
    LessIrreflexive(es[i].key);
  }

  /** find returns the entry with the key. */
  lemma FindAt(es: Entries, i: nat)
    requires Sorted(es) && i < |es|
    ensures FindKey(es, es[i].key) == i
  {
    if FindKey(es, es[i].key) >= 0 { DistinctKeys(es, FindKey(es, es[i].key), i); }
  }

  /** Keys before a new entry are less, keys after it greater. */
  predicate Between(a: Entries, key: string, b: Entries) {
    && (forall e :: e in a ==> Less(e.key, key))
    && (forall e :: e in b ==> Less(key, e.key))
  }

  lemma {:induction false} InsertBetween(a: Entries, e: Entry, b: Entries)
    requires Between(a, e.key, b)
    ensures Insert(a + b, e) == a + [e] + b
    decreases |a|
  {
    if a == [] {
      assert a + b == b && a + [e] + b == [e] + b;
      if b != [] { assert b[0] in b; }
    } else {
      assert a[0] in a;
      LessAsymmetric(a[0].key, e.key);
      assert forall x :: x in a[1..] ==> x in a;
      InsertBetween(a[1..], e, b);
      assert (a + b)[1..] == a[1..] + b;
      assert a + [e] + b == [a[0]] + (a[1..] + [e] + b);
    }
  }

  /** Where a new key goes. */
  lemma {:induction false} Place(es: Entries, key: string) returns (p: nat)
    requires Sorted(es) && forall e :: e in es ==> e.key != key
    ensures p <= |es| && Between(es[..p], key, es[p..])
    decreases |es|
  {
    if es == [] {
      p := 0;
    } else {
      LessTotal(key, es[0].key);
      if Less(key, es[0].key) {
        p := 0;
        forall e | e in es ensures Less(key, e.key) {
          var j :| 0 <= j < |es| && es[j] == e;
          if j > 0 { LessTransitive(key, es[0].key, e.key); }
        }
      } else {
        p := Place(es[1..], key);
        p := p + 1;
        assert es[..p] == [es[0]] + es[1..][..p - 1] && es[p..] == es[1..][p - 1..];
      }
    }
  }

  lemma SortedBetween(a: Entries, e: Entry, b: Entries)
    requires Between(a, e.key, b) && Sorted(a + b)
    ensures Sorted(a + [e] + b)
  {
    var s := a + [e] + b;
    forall i, j | 0 <= i < j < |s| ensures Less(s[i].key, s[j].key) {
      if j < |a| {
        assert (a + b)[i] == s[i] && (a + b)[j] == s[j];
      } else if i < |a| && j == |a| {
        assert a[i] in a;
      } else if i == |a| {
        assert b[j - |a| - 1] in b;
      } else {
        assert (a + b)[if i < |a| then i else i - 1] == s[i] && (a + b)[j - 1] == s[j];
      }
    }
  }

  /** An insertion seen as a splice. */
  lemma InsertSplice(es: Entries, e: Entry) returns (p: nat)
    requires Sorted(es) && forall x :: x in es ==> x.key != e.key
    ensures p <= |es| && Between(es[..p], e.key, es[p..])
    ensures Insert(es, e) == es[..p] + [e] + es[p..] && Sorted(Insert(es, e))
  {
    p := Place(es, e.key);
    assert es[..p] + es[p..] == es;
    InsertBetween(es[..p], e, es[p..]);
    SortedBetween(es[..p], e, es[p..]);
  }

  lemma InsertMembers(es: Entries, e: Entry)
    ensures forall x :: x in Insert(es, e) <==> x == e || x in es
  {
    if es != [] && !Less(e.key, es[0].key) {
      InsertMembers(es[1..], e);
      assert es == [es[0]] + es[1..];
    }
  }

  /** Inserting an entry with the key of one that was erased. */
  lemma InsertErased(es: Entries, i: nat, e: Entry)
    requires Sorted(es) && i < |es| && e.key == es[i].key
    ensures Insert(Erase(es, i), e) == es[i := e]
    ensures FindKey(Erase(es, i), e.key) < 0
  {
    var a, b := es[..i], es[i + 1..];
    forall x | x in a ensures Less(x.key, e.key) {
      var j :| 0 <= j < |a| && a[j] == x;
      assert es[j] == x;
    }
    forall x | x in b ensures Less(e.key, x.key) {
      var j :| 0 <= j < |b| && b[j] == x;
      assert es[i + 1 + j] == x;
    }
    InsertBetween(a, e, b);
    assert a + [e] + b == es[i := e];
    forall x | x in a + b ensures x.key != e.key {
      LessIrreflexive(e.key);
    }
  }

  lemma SortedErase(es: Entries, i: nat)
    requires Sorted(es) && i < |es|
    ensures Sorted(Erase(es, i))
  {
    var s := Erase(es, i);
    forall j, k | 0 <= j < k < |s| ensures Less(s[j].key, s[k].key) {
      assert s[j] == es[if j < i then j else j + 1] && s[k] == es[if k < i then k else k + 1];
    }
  }

  /** Lists with the same keys are equally sorted and searched. */
  predicate SameKeys(es: Entries, fs: Entries) {
    |fs| == |es| && forall i :: 0 <= i < |es| ==> fs[i].key == es[i].key
  }

  lemma {:induction false} FindSame(es: Entries, fs: Entries, key: string)
    requires SameKeys(es, fs)
    ensures FindKey(fs, key) == FindKey(es, key)
    decreases |es|
  {
    if es != [] { FindSame(es[1..], fs[1..], key); }
  }

  lemma SortedSame(es: Entries, fs: Entries)
    requires SameKeys(es, fs) && Sorted(es)
    ensures Sorted(fs)
  {
  }

  lemma {:induction false} ToDestAppend(a: Entries, b: Entries, dest: string)
    ensures ToDest(a + b, dest) == ToDest(a, dest) + ToDest(b, dest)
    decreases |a|
  {
    if a == [] {
      assert a + b == b;
    } else {
      ToDestAppend(a[1..], b, dest);
      assert (a + b)[1..] == a[1..] + b;
    }
  }

  lemma ToDestSplice(a: Entries, e: Entry, b: Entries, dest: string)
    ensures ToDest(a + [e] + b, dest) == ToDest(a + b, dest) + if e.dest == dest then 1 else 0
  {
    ToDestAppend(a + [e], b, dest);
    ToDestAppend(a, [e], dest);
    ToDestAppend(a, b, dest);
    assert [e][1..] == [];
  }

  /** The j-th entry is the first of the queue. */
  predicate FirstOf(es: Entries, name: string, j: nat) {
    j < |es| && es[j].name == name && forall k :: 0 <= k < j ==> es[k].name != name
  }

  lemma {:induction false} FirstNamedAt(es: Entries, name: string, j: nat)
    requires FirstOf(es, name, j)
    ensures FirstNamed(es, name) == Some(es[j])
    decreases j
  {
    if j > 0 {
      assert forall k :: 0 <= k < j - 1 ==> es[1..][k] == es[k + 1];
      FirstNamedAt(es[1..], name, j - 1);
    }
  }
}
