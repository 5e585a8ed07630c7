/** Time stamps with a sequence number within the second, and the order of files by them. */
module Timestamps {
  import opened Text

  /** The fields of localtime. */
  datatype DateTime = DateTime(year: nat, month: nat, day: nat, hour: nat, minute: nat, second: nat)

  predicate Printable(d: DateTime) {
    d.year < 10000 && d.month < 100 && d.day < 100 && d.hour < 100 && d.minute < 100 && d.second < 100
  }

  /** One look at the clock: seconds and the local time they stand for. */
  datatype Reading = Reading(sec: int, local: DateTime)

  predicate Before(a: DateTime, b: DateTime) {
    || a.year < b.year
    || (a.year == b.year &&
        (|| a.month < b.month
         || (a.month == b.month &&
             (|| a.day < b.day
              || (a.day == b.day &&
                  (|| a.hour < b.hour
                   || (a.hour == b.hour &&
                       (a.minute < b.minute || (a.minute == b.minute && a.second < b.second)))))))))
  }

  /** The clock does not go back, and local time follows it. */
  predicate Forward(rs: seq<Reading>) {
    && (forall i :: 0 <= i < |rs| ==> Printable(rs[i].local))
    && (forall i, j :: 0 <= i < j < |rs| ==> rs[i].sec <= rs[j].sec)
    && (forall i, j :: 0 <= i < j < |rs| && rs[i].sec == rs[j].sec ==> rs[i].local == rs[j].local)
    && (forall i, j :: 0 <= i < j < |rs| && rs[i].sec < rs[j].sec ==> Before(rs[i].local, rs[j].local))
  }

  /** The part before the sequence number: 14 characters. */
  function DateText(d: DateTime): string {
    Pad(d.year, 4) + (Pad(d.month, 2) + (Pad(d.day, 2) + (Pad(d.hour, 2) + (Pad(d.minute, 2) + Pad(d.second, 2)))))
  }

  function StampText(d: DateTime, n: nat): string {
    DateText(d) + Pad(n, 3)
  }

  lemma Powers()
    ensures Pow10(2) == 100 && Pow10(3) == 1000 && Pow10(4) == 10000
  {
    assert Pow10(2) == 10 * Pow10(1) && Pow10(1) == 10 * Pow10(0);
  }

  lemma DateLength(d: DateTime)
    requires Printable(d)
    ensures |DateText(d)| == 14
  {
    Powers();
    PadLength(d.year, 4);
    PadLength(d.month, 2);
    PadLength(d.day, 2);
    PadLength(d.hour, 2);
    PadLength(d.minute, 2);
    PadLength(d.second, 2);
  }

  /** A field of fixed width decides before what follows it. */
  lemma FieldOrder(n: nat, m: nat, w: nat, u: string, v: string)
    requires n < Pow10(w) && m < Pow10(w)
    ensures Less(Pad(n, w) + u, Pad(m, w) + v) <==> n < m || (n == m && Less(u, v))
  {
    PadLength(n, w);
    PadLength(m, w);
    PadMonotone(n, m, w);
    LessAppend(Pad(n, w), u, Pad(m, w), v);
    if Pad(n, w) == Pad(m, w) { PadInjective(n, m, w); }
  }

  /** The text of dates orders as they do. */
  lemma DateOrder(a: DateTime, b: DateTime)
    requires Printable(a) && Printable(b)
    ensures Less(DateText(a), DateText(b)) <==> Before(a, b)
  {
    Powers();
    hide Less, Pad;
    var s1, t1 := Pad(a.minute, 2) + Pad(a.second, 2), Pad(b.minute, 2) + Pad(b.second, 2);
    var s2, t2 := Pad(a.hour, 2) + s1, Pad(b.hour, 2) + t1;
    var s3, t3 := Pad(a.day, 2) + s2, Pad(b.day, 2) + t2;
    var s4, t4 := Pad(a.month, 2) + s3, Pad(b.month, 2) + t3;
    PadMonotone(a.second, b.second, 2);
    FieldOrder(a.minute, b.minute, 2, Pad(a.second, 2), Pad(b.second, 2));
    FieldOrder(a.hour, b.hour, 2, s1, t1);
    FieldOrder(a.day, b.day, 2, s2, t2);
    FieldOrder(a.month, b.month, 2, s3, t3);
    FieldOrder(a.year, b.year, 4, s4, t4);
  }

  /** ... and the text of stamps, by the number within one date. */
  lemma StampOrder(a: DateTime, b: DateTime, n: nat, m: nat)
    requires Printable(a) && Printable(b) && n < 1000 && m < 1000
    ensures Before(a, b) ==> Less(StampText(a, n), StampText(b, m))
    ensures a == b ==> (Less(StampText(a, n), StampText(b, m)) <==> n < m)
  {
    Powers();
    DateLength(a);
    DateLength(b);
    DateOrder(a, b);
    PadMonotone(n, m, 3);
    LessAppend(DateText(a), Pad(n, 3), DateText(b), Pad(m, 3));
    if a == b { LessIrreflexive(DateText(a)); }
  }

  lemma FieldReads(n: nat, w: nat, u: string)
    requires n < Pow10(w)
    ensures var s := Pad(n, w) + u;
            |s| == w + |u| && Digits(s[..w]) && Value(s[..w]) == n && s[w..] == u
  {
    PadLength(n, w);
    PadReads(n, w);
    hide Pad, Value;
    assert (Pad(n, w) + u)[..w] == Pad(n, w);
  }

  /** A decimal of w digits for n from the i-th character on. */
  predicate ReadsAt(s: string, i: nat, w: nat, n: nat) {
    i + w <= |s| && Digits(s[i..i + w]) && Value(s[i..i + w]) == n
  }

  /** A stamp has 17 digits: year, month, day, hour, minute, second and the number within the second. */
  lemma StampReads(d: DateTime, n: nat)
    requires Printable(d) && n < 1000
    ensures var s := StampText(d, n);
            && |s| == 17
            && ReadsAt(s, 0, 4, d.year) && ReadsAt(s, 4, 2, d.month) && ReadsAt(s, 6, 2, d.day)
            && ReadsAt(s, 8, 2, d.hour) && ReadsAt(s, 10, 2, d.minute) && ReadsAt(s, 12, 2, d.second)
            && ReadsAt(s, 14, 3, n)
  {
    Powers();
    hide Pad, Value, Pow10, ReadsAt;
    var s7 := Pad(n, 3) + "";
    var s6 := Pad(d.second, 2) + s7;
    var s5 := Pad(d.minute, 2) + s6;
    var s4 := Pad(d.hour, 2) + s5;
    var s3 := Pad(d.day, 2) + s4;
    var s2 := Pad(d.month, 2) + s3;
    var s := Pad(d.year, 4) + s2;
    assert StampText(d, n) == s;
    FieldAhead(n, 3, "", s7, 0, s7);
    FieldAhead(d.second, 2, s7, s6, 0, s6);
    FieldAhead(d.minute, 2, s6, s5, 0, s5);
    FieldAhead(d.hour, 2, s5, s4, 0, s4);
    FieldAhead(d.day, 2, s4, s3, 0, s3);
    FieldAhead(d.month, 2, s3, s2, 0, s2);
    FieldAhead(d.year, 4, s2, s, 0, s);
    FieldAhead(d.month, 2, s3, s2, 4, s);
    FieldAhead(d.day, 2, s4, s3, 6, s);
    FieldAhead(d.hour, 2, s5, s4, 8, s);
    FieldAhead(d.minute, 2, s6, s5, 10, s);
    FieldAhead(d.second, 2, s7, s6, 12, s);
    FieldAhead(n, 3, "", s7, 14, s);
  }

  lemma FieldAhead(n: nat, w: nat, u: string, t: string, i: nat, s: string)
    requires n < Pow10(w) && t == Pad(n, w) + u && i <= |s| && s[i..] == t
    ensures |t| == w + |u| && t[w..] == u && i + w <= |s| && s[i + w..] == u && ReadsAt(s, i, w, n)
  {
    FieldReads(n, w, u);
    hide Pad, Value, Pow10;
    assert s[i..i + w] == t[..w];
    assert s[i + w..] == t[w..];
  }

  /** removeSequenceNumber */
  function RemoveSequenceNumber(stamp: string): string {
    if |stamp| > 14 then stamp[..14] else stamp
  }

  lemma SequenceNumberRemoved(d: DateTime, n: nat)
    requires Printable(d)
    ensures RemoveSequenceNumber(StampText(d, n)) == DateText(d)
  {
    DateLength(d);
  }

  // ---------------------------------------------------------------- the sequence number

  function Bump(n: nat): nat {
    if n + 1 > 999 then 0 else n + 1
  }

  /** The number of the i-th stamp, the first second being a new one. */
  function NumberAt(rs: seq<Reading>, i: nat): (n: nat)
    requires i < |rs|
    ensures n < 1000
  {
    if i == 0 || rs[i - 1].sec != rs[i].sec then 0 else Bump(NumberAt(rs, i - 1))
  }

  /** Within one second the numbers count on, modulo 1000. */
  lemma {:induction false} CountsOn(rs: seq<Reading>, i: nat, j: nat)
    requires Forward(rs) && i <= j < |rs| && rs[i].sec == rs[j].sec
    ensures NumberAt(rs, j) == (NumberAt(rs, i) + (j - i)) % 1000
    decreases j - i
  {
    if i < j {
      assert rs[i].sec <= rs[j - 1].sec <= rs[j].sec;
      CountsOn(rs, i, j - 1);
    }
  }

  /** The first stamp of a second. */
  lemma {:induction false} FirstOfSecond(rs: seq<Reading>, i: nat) returns (f: nat)
    requires Forward(rs) && i < |rs|
    ensures f <= i && rs[f].sec == rs[i].sec && NumberAt(rs, f) == 0 && (f == 0 || rs[f - 1].sec < rs[f].sec)
    decreases i
  {
    f := i;
    if i > 0 && rs[i - 1].sec == rs[i].sec { f := FirstOfSecond(rs, i - 1); }
  }

  function Stamp(rs: seq<Reading>, i: nat): string
    requires i < |rs|
  {
    StampText(rs[i].local, NumberAt(rs, i))
  }

  predicate Increasing(rs: seq<Reading>) {
    forall i, j :: 0 <= i < j < |rs| ==> Less(Stamp(rs, i), Stamp(rs, j))
  }

  /** No second has more than 1000 stamps. */
  ghost predicate Sparse(rs: seq<Reading>) {
    forall i, j :: 0 <= i < j < |rs| && j == i + 1000 ==> rs[i].sec != rs[j].sec
  }

  lemma SparseNumber(rs: seq<Reading>, f: nat, j: nat)
    requires Forward(rs) && Sparse(rs) && f <= j < |rs| && rs[f].sec == rs[j].sec && NumberAt(rs, f) == 0
    ensures NumberAt(rs, j) == j - f
  {
    CountsOn(rs, f, j);
    ShortSecond(rs, f, j);
  }

  lemma ShortSecond(rs: seq<Reading>, i: nat, j: nat)
    requires Forward(rs) && Sparse(rs) && i <= j < |rs| && rs[i].sec == rs[j].sec
    ensures j < i + 1000
  {
    var k := if i + 1000 <= j then i + 1000 else j;
    assert rs[i].sec <= rs[k].sec <= rs[j].sec;
  }

  /** Stamps increase exactly while no second has more than 1000 of them. */
  lemma StampsIncreaseExactly(rs: seq<Reading>)
    requires Forward(rs)
    ensures Increasing(rs) <==> Sparse(rs)
  {
    hide Less, StampText, NumberAt, Before, Printable;
    if Sparse(rs) {
      forall i, j | 0 <= i < j < |rs| ensures Less(Stamp(rs, i), Stamp(rs, j)) {
        StampOrder(rs[i].local, rs[j].local, NumberAt(rs, i), NumberAt(rs, j));
        if rs[i].sec == rs[j].sec {
          var f := FirstOfSecond(rs, i);
          SparseNumber(rs, f, i);
          SparseNumber(rs, f, j);
        }
      }
    } else {
      var i, j :| 0 <= i < j < |rs| && j == i + 1000 && rs[i].sec == rs[j].sec;
      CountsOn(rs, i, j);
      assert Stamp(rs, i) == Stamp(rs, j);
      LessIrreflexive(Stamp(rs, i));
    }
  }

  // ---------------------------------------------------------------- the objects

  class Timestamp {
    var timeValue: int
    var seqCounter: nat
    var savedTime: DateTime
    var savedSeq: nat

    constructor ()
      ensures timeValue == 0 && seqCounter == 0
    {
      timeValue, seqCounter := 0, 0;
      savedTime, savedSeq := DateTime(0, 0, 0, 0, 0, 0), 0;
    }

    method GetTimeStamp(r: Reading)
      modifies this
      ensures timeValue == r.sec && savedTime == r.local && savedSeq == seqCounter
      ensures seqCounter == if old(timeValue) == r.sec then Bump(old(seqCounter)) else 0
    {
      savedTime := r.local;
      if timeValue == r.sec {
        seqCounter := seqCounter + 1;
        if seqCounter > 999 { seqCounter := 0; }
        savedSeq := seqCounter;
      } else {
        timeValue := r.sec;
        seqCounter := 0;
        savedSeq := 0;
      }
    }

    method GetTimeChar(r: Reading) returns (timeBuf: string)
      modifies this
      ensures timeValue == r.sec && timeBuf == StampText(r.local, seqCounter)
      ensures seqCounter == if old(timeValue) == r.sec then Bump(old(seqCounter)) else 0
    {
      GetTimeStamp(r);
      var t := savedTime;
      timeBuf := Pad(t.year, 4) + (Pad(t.month, 2) + (Pad(t.day, 2) + (Pad(t.hour, 2) +
                 (Pad(t.minute, 2) + Pad(t.second, 2))))) + Pad(savedSeq, 3);
    }

    /** Successive calls on a clock that has left the second of the object. */
    method Serve(rs: seq<Reading>) returns (stamps: seq<string>)
      requires rs != [] ==> timeValue != rs[0].sec
      modifies this
      ensures |stamps| == |rs| && forall i :: 0 <= i < |rs| ==> stamps[i] == Stamp(rs, i)
    {
      hide StampText;
      stamps := [];
      for k := 0 to |rs|
        invariant |stamps| == k && forall i :: 0 <= i < k ==> stamps[i] == Stamp(rs, i)
        invariant k > 0 ==> timeValue == rs[k - 1].sec && seqCounter == NumberAt(rs, k - 1)
        invariant k == 0 ==> timeValue == old(timeValue)
      {
        var s := GetTimeChar(rs[k]);
        stamps := stamps + [s];
      }
    }
  }

  /** creationDate_: a stamp in a buffer of 21 characters. */
  predicate Dated(buffer: array<char>, stamp: string)
    reads buffer
  {
    buffer.Length == 21 && |stamp| == 17 && buffer[..17] == stamp && buffer[17] == '\0'
  }

  /** isYounger compares 18 characters: the stamp and its terminator. */
  method IsYounger(mine: array<char>, other: array<char>, ghost s: string, ghost t: string) returns (younger: bool)
    requires Dated(mine, s) && Dated(other, t)
    ensures younger <==> Less(t, s)
  {
    var i := 0;
    while i < 18
      invariant i <= 18 && forall k :: 0 <= k < i ==> mine[k] == other[k]
      decreases 18 - i
    {
      if mine[i] == other[i] {
        i := i + 1;
        continue;
      }
      assert i < 17 && s[i] == mine[i] && t[i] == other[i];
      FirstDifference(s, t, i);
      return mine[i] > other[i];
    }
    assert s == t;
    LessIrreflexive(s);
    return false;
  }

  lemma FirstDifference(s: string, t: string, i: nat)
    requires i < |s| && i < |t| && s[i] != t[i] && forall k :: 0 <= k < i ==> s[k] == t[k]
    ensures Less(t, s) <==> t[i] < s[i]
  {
    assert t == t[..i] + t[i..] && s == s[..i] + s[i..] && s[..i] == t[..i];
    LessAppend(t[..i], t[i..], s[..i], s[i..]);
    LessIrreflexive(s[..i]);
  }

  /** Files created one after the other: the later one is younger, and the order is strict and total. */
  lemma LaterIsYounger(rs: seq<Reading>, i: nat, j: nat)
    requires Forward(rs) && Sparse(rs) && i < |rs| && j < |rs|
    ensures Less(Stamp(rs, i), Stamp(rs, j)) <==> i < j
    ensures |Stamp(rs, i)| == 17
  {
    StampsIncreaseExactly(rs);
    hide Less, Forward;
    if j < i { LessAsymmetric(Stamp(rs, j), Stamp(rs, i)); }
    if i == j { LessIrreflexive(Stamp(rs, i)); }
    StampLength(rs, i);
  }

  lemma StampLength(rs: seq<Reading>, i: nat)
    requires Forward(rs) && i < |rs|
    ensures |Stamp(rs, i)| == 17
  {
    Powers();
    DateLength(rs[i].local);
    PadLength(NumberAt(rs, i), 3);
  }
}
