/** Finding the one destination set that a modified list has more or less than the current one. */
module DestinationDiffer {
  import opened Options
  import opened Text

  datatype Change = Added(name: string) | Removed(name: string) | NoneGiven | Replaced | Several

  /** Ascending, as std::sort leaves a vector of strings. */
  predicate Ascending(s: seq<string>) {
    forall i, j :: 0 <= i < j < |s| ==> !Less(s[j], s[i])
  }

  function Place(s: seq<string>, x: string): (r: seq<string>)
    ensures multiset(r) == multiset(s) + multiset{x}
  {
    if s == [] then [x]
    else if Less(s[0], x) then
      assert s == [s[0]] + s[1..];
      [s[0]] + Place(s[1..], x)
    else [x] + s
  }

  function Sort(s: seq<string>): (r: seq<string>)
    ensures multiset(r) == multiset(s)
  {
    if s == [] then [] else
      assert s == [s[0]] + s[1..];
      Place(Sort(s[1..]), s[0])
  }

  lemma NotLessTransitive(a: string, b: string, c: string)
    requires !Less(b, a) && !Less(c, b)
    ensures !Less(c, a)
  {
    hide Less;
    if Less(c, a) {
      LessTotal(a, b);
      if a == b {
      } else {
        LessTransitive(c, a, b);
      }
    }
  }

  lemma {:induction false} PlaceAscends(s: seq<string>, x: string)
    requires Ascending(s)
    ensures Ascending(Place(s, x))
    decreases |s|
  {
    hide Less;
    if s == [] {
    } else if Less(s[0], x) {
      PlaceAscends(s[1..], x);
      var t := Place(s[1..], x);
      forall j | 0 <= j < |t| ensures !Less(t[j], s[0]) {
        assert t[j] in multiset(t);
        if t[j] == x { LessAsymmetric(s[0], x); } else { assert t[j] in s[1..]; }
      }
      Prepend(s[0], t);
    } else {
      forall j | 0 <= j < |s| ensures !Less(s[j], x) {
        if j > 0 { NotLessTransitive(x, s[0], s[j]); }
      }
      Prepend(x, s);
    }
  }

  lemma Prepend(x: string, t: seq<string>)
    requires Ascending(t) && forall j :: 0 <= j < |t| ==> !Less(t[j], x)
    ensures Ascending([x] + t)
  {
    hide Less;
  }

  lemma {:induction false} SortAscends(s: seq<string>)
    ensures Ascending(Sort(s))
    decreases |s|
  {
    if s != [] {
      SortAscends(s[1..]);
      PlaceAscends(Sort(s[1..]), s[0]);
    }
  }

  /** A multiset has one ascending order. */
  lemma {:induction false} AscendingUnique(s: seq<string>, t: seq<string>)
    requires Ascending(s) && Ascending(t) && multiset(s) == multiset(t)
    ensures s == t
    decreases |s|
  {
    hide Less;
    SameMembers(s, t);
    if s != [] {
      assert s[0] in t && t[0] in s;
      LessTotal(s[0], t[0]);
      var i :| 0 <= i < |t| && t[i] == s[0];
      var j :| 0 <= j < |s| && s[j] == t[0];
      assert s[0] == t[0];
      TailMultiset(s);
      TailMultiset(t);
      AscendingUnique(s[1..], t[1..]);
      assert s == [s[0]] + s[1..] && t == [t[0]] + t[1..];
    }
  }

  lemma TailMultiset(s: seq<string>)
    requires s != []
    ensures multiset(s[1..]) == multiset(s) - multiset{s[0]}
  {
    assert s == [s[0]] + s[1..];
  }

  /** larger is smaller with x put in before position p. */
  predicate Splices(larger: seq<string>, smaller: seq<string>, p: nat, x: string) {
    p <= |smaller| && larger == smaller[..p] + [x] + smaller[p..]
  }

  lemma {:induction false} PlaceSplices(s: seq<string>, x: string) returns (p: nat)
    ensures Splices(Place(s, x), s, p, x)
    decreases |s|
  {
    p := 0;
    hide Less;
    if s != [] && Less(s[0], x) {
      var q := PlaceSplices(s[1..], x);
      p := q + 1;
      assert Place(s, x) == [s[0]] + (s[1..][..q] + [x] + s[1..][q..]);
      assert s[..p] == [s[0]] + s[1..][..q] && s[p..] == s[1..][q..];
    }
  }

  /** Ascending lists whose multisets differ by x differ by one splice. */
  lemma DifferBySplice(larger: seq<string>, smaller: seq<string>, x: string) returns (p: nat)
    requires Ascending(larger) && Ascending(smaller) && multiset(larger) == multiset(smaller) + multiset{x}
    ensures Splices(larger, smaller, p, x)
  {
    PlaceAscends(smaller, x);
    AscendingUnique(larger, Place(smaller, x));
    p := PlaceSplices(smaller, x);
  }

  lemma SpliceMultiset(larger: seq<string>, smaller: seq<string>, p: nat, x: string)
    requires Splices(larger, smaller, p, x)
    ensures multiset(larger) == multiset(smaller) + multiset{x}
  {
    assert smaller == smaller[..p] + smaller[p..];
  }

  /** Up to the splice the lists match, from there on they match with a shift. */
  lemma SpliceMatches(larger: seq<string>, smaller: seq<string>, p: nat, x: string)
    requires Splices(larger, smaller, p, x)
    ensures forall i :: 0 <= i < p ==> larger[i] == smaller[i]
    ensures forall i :: p <= i < |smaller| ==> larger[i + 1] == smaller[i]
  {
    forall i | p <= i < |smaller| ensures larger[i + 1] == smaller[i] {
      assert smaller[p..][i - p] == smaller[i];
    }
  }

  /** Two mismatches leave no splice. */
  lemma NoExtra(larger: seq<string>, smaller: seq<string>, q: nat, m: nat)
    requires q <= m < |smaller| && |larger| == |smaller| + 1 && Ascending(larger) && Ascending(smaller)
    requires larger[q] != smaller[q] && larger[m + 1] != smaller[m]
    ensures forall x :: multiset(larger) != multiset(smaller) + multiset{x}
  {
    forall x ensures multiset(larger) != multiset(smaller) + multiset{x} {
      if multiset(larger) == multiset(smaller) + multiset{x} {
        var p := DifferBySplice(larger, smaller, x);
        SpliceMatches(larger, smaller, p, x);
        assert false;
      }
    }
  }

  /** The loop both branches of modify run, with the two lists swapped: it gives x exactly when the larger
      list is the smaller one and x, and nothing exactly when there is no such x. */
  method FindExtra(larger: seq<string>, smaller: seq<string>) returns (extra: Option<string>)
    requires Ascending(larger) && Ascending(smaller) && |larger| == |smaller| + 1
    requires forall x :: x in larger || x in smaller ==> x != ""
    ensures extra.Some? ==> multiset(larger) == multiset(smaller) + multiset{extra.value} && extra.value in larger
    ensures extra.None? ==> forall x :: multiset(larger) != multiset(smaller) + multiset{x}
  {
    hide Less, Ascending, Splices;
    var modified := "";
    var currCnt, modCnt, mismatch := 0, 0, false;
    ghost var q := 0;
    while modCnt < |smaller|
      invariant modCnt <= |smaller| && currCnt == if mismatch then modCnt + 1 else modCnt
      invariant !mismatch ==> modified == "" && forall i :: 0 <= i < modCnt ==> larger[i] == smaller[i]
      invariant mismatch ==> q <= modCnt && q < |smaller| && modified == larger[q] != smaller[q] && modified != ""
      invariant mismatch ==> forall i :: 0 <= i < q ==> larger[i] == smaller[i]
      invariant mismatch ==> forall i :: q <= i < modCnt ==> larger[i + 1] == smaller[i]
      decreases |smaller| - modCnt, mismatch == false
    {
      assert larger[currCnt] in larger;
      if larger[currCnt] != smaller[modCnt] {
        if mismatch {
          NoExtra(larger, smaller, q, modCnt);
          return None;
        }
        q, modified := modCnt, larger[currCnt];
        currCnt := currCnt + 1;
        mismatch := true;
      } else {
        modCnt, currCnt := modCnt + 1, currCnt + 1;
      }
    }
    if modified == "" { modified, q := larger[currCnt], currCnt; }
    IsSplice(larger, smaller, q);
    SpliceMultiset(larger, smaller, q, modified);
    return Some(modified);
  }

  lemma IsSplice(larger: seq<string>, smaller: seq<string>, q: nat)
    requires |larger| == |smaller| + 1 && q <= |smaller|
    requires forall i :: 0 <= i < q ==> larger[i] == smaller[i]
    requires forall i :: q <= i < |smaller| ==> larger[i + 1] == smaller[i]
    ensures Splices(larger, smaller, q, larger[q]) && larger[q] in larger
  {
  }

  /** The change of one attribute's list; the lists come in any order. */
  method Difference(current: seq<string>, modified: seq<string>) returns (c: Change)
    requires forall x :: x in current || x in modified ==> x != ""
    ensures forall x :: c == Added(x) ==> multiset(modified) == multiset(current) + multiset{x}
    ensures forall x :: c == Removed(x) ==> multiset(current) == multiset(modified) + multiset{x}
    ensures c.Several? ==> |current| != |modified|
    ensures c.Several? ==> forall x :: multiset(modified) != multiset(current) + multiset{x}
    ensures c.Several? ==> forall x :: multiset(current) != multiset(modified) + multiset{x}
    ensures c.Replaced? || c.NoneGiven? <==> |current| == |modified|
    ensures c.NoneGiven? <==> current == [] && modified == []
  {
    var numDestsetModified := |current| - |modified|;
    assert |multiset(current)| == |current| && |multiset(modified)| == |modified|;
    if numDestsetModified > 1 || numDestsetModified < -1 {
      SizesDiffer(current, modified);
      return Several;
    }
    if numDestsetModified == 0 { return if current == [] then NoneGiven else Replaced; }
    var cur, mod := Sort(current), Sort(modified);
    SortedLists(current, modified, cur, mod);
    if numDestsetModified == 1 {
      var extra := FindExtra(cur, mod);
      OtherWay(modified, current);
      return if extra.Some? then Removed(extra.value) else Several;
    } else {
      var extra := FindExtra(mod, cur);
      OtherWay(current, modified);
      return if extra.Some? then Added(extra.value) else Several;
    }
  }

  lemma SortedLists(current: seq<string>, modified: seq<string>, cur: seq<string>, mod: seq<string>)
    requires cur == Sort(current) && mod == Sort(modified)
    requires forall x :: x in current || x in modified ==> x != ""
    ensures Ascending(cur) && Ascending(mod) && |cur| == |current| && |mod| == |modified|
    ensures forall x :: x in cur || x in mod ==> x != ""
  {
    SortAscends(current);
    SortAscends(modified);
    SameMembers(cur, current);
    SameMembers(mod, modified);
    hide Ascending, Sort;
  }

  lemma SameMembers(s: seq<string>, t: seq<string>)
    requires multiset(s) == multiset(t)
    ensures |s| == |t| && forall x :: x in s <==> x in t
  {
    assert |multiset(s)| == |s| && |multiset(t)| == |t|;
    forall x ensures x in s <==> x in t {
      assert x in s <==> x in multiset(s);
      assert x in t <==> x in multiset(t);
    }
  }

  lemma SizesDiffer(s: seq<string>, t: seq<string>)
    requires |s| > |t| + 1 || |t| > |s| + 1
    ensures forall x :: multiset(s) != multiset(t) + multiset{x} && multiset(t) != multiset(s) + multiset{x}
  {
    forall x ensures multiset(s) != multiset(t) + multiset{x} && multiset(t) != multiset(s) + multiset{x} {
      assert |multiset(s)| == |s| && |multiset(t)| == |t|;
      assert |multiset(t) + multiset{x}| == |t| + 1 && |multiset(s) + multiset{x}| == |s| + 1;
    }
  }

  lemma OtherWay(s: seq<string>, t: seq<string>)
    requires |t| == |s| + 1
    ensures forall x :: multiset(s) != multiset(t) + multiset{x}
  {
    forall x ensures multiset(s) != multiset(t) + multiset{x} {
      assert |multiset(s)| == |s| && |multiset(t)| == |t| && |multiset(t) + multiset{x}| == |t| + 1;
    }
  }
}
