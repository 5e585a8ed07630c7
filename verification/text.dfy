/** Byte-wise string order, the decimal formats of sprintf, and path splitting. */
module Text {

  /** std::string operator<, which is also what strcmp orders by. */
  predicate Less(a: string, b: string) {
    b != [] && (a == [] || a[0] < b[0] || (a[0] == b[0] && Less(a[1..], b[1..])))
  }

  lemma LessIrreflexive(a: string)
    ensures !Less(a, a)
  {
  }

  lemma LessTransitive(a: string, b: string, c: string)
    requires Less(a, b) && Less(b, c)
    ensures Less(a, c)
  {
  }

  lemma LessAsymmetric(a: string, b: string)
    requires Less(a, b)
    ensures !Less(b, a)
  {
    if Less(b, a) {
      LessTransitive(a, b, a);
      LessIrreflexive(a);
    }
  }

  lemma LessTotal(a: string, b: string)
    ensures a == b || Less(a, b) || Less(b, a)
  {
    if a != [] && b != [] && a[0] == b[0] {
      LessTotal(a[1..], b[1..]);
      assert a == [a[0]] + a[1..] && b == [b[0]] + b[1..];
    }
  }

  /** Strings that start with equally long parts compare by those parts first. */
  lemma {:induction false} LessAppend(x: string, u: string, y: string, v: string)
    requires |x| == |y|
    ensures Less(x + u, y + v) <==> Less(x, y) || (x == y && Less(u, v))
  {
    if x == [] {
      assert x + u == u && y + v == v;
    } else {
      LessAppend(x[1..], u, y[1..], v);
      assert (x + u)[1..] == x[1..] + u && (y + v)[1..] == y[1..] + v;
      assert x == [x[0]] + x[1..] && y == [y[0]] + y[1..];
      if x[0] == y[0] && x[1..] == y[1..] { LessIrreflexive(x[1..]); }
    }
  }

  function Digit(d: nat): char
    requires d < 10
  {
    ('0' as int + d) as char
  }

  /** sprintf with "%0<w>lu": at least w digits, more when n needs them; w = 1 is plain "%lu". */
  function Pad(n: nat, w: nat): string
    decreases n + w
  {
    if n == 0 && w == 0 then "" else Pad(n / 10, if w == 0 then 0 else w - 1) + [Digit(n % 10)]
  }

  predicate IsDigit(c: char) {
    '0' <= c <= '9'
  }

  predicate Digits(s: string) {
    forall i :: 0 <= i < |s| ==> IsDigit(s[i])
  }

  /** The number a decimal stands for. */
  function Value(s: string): nat
    requires Digits(s)
  {
    if s == "" then 0 else 10 * Value(s[..|s| - 1]) + (s[|s| - 1] as int - '0' as int)
  }

  lemma {:induction false} PadDigits(n: nat, w: nat)
    ensures Digits(Pad(n, w))
    decreases n + w
  {
    if n != 0 || w != 0 { PadDigits(n / 10, if w == 0 then 0 else w - 1); }
  }

  /** What is printed reads back. */
  lemma {:induction false} PadReads(n: nat, w: nat)
    ensures Digits(Pad(n, w)) && Value(Pad(n, w)) == n
    decreases n + w
  {
    PadDigits(n, w);
    if n != 0 || w != 0 {
      PadReads(n / 10, if w == 0 then 0 else w - 1);
      var p := Pad(n, w);
      assert p[..|p| - 1] == Pad(n / 10, if w == 0 then 0 else w - 1) && p[|p| - 1] == Digit(n % 10);
    }
  }

  /** At least w characters, and no leading zero beyond them. */
  lemma {:induction false} PadShape(n: nat, w: nat)
    ensures |Pad(n, w)| >= w && (|Pad(n, w)| > w ==> Pad(n, w)[0] != '0')
    decreases n + w
  {
    if n != 0 || w != 0 { PadShape(n / 10, if w == 0 then 0 else w - 1); }
  }

  function Pow10(w: nat): (p: nat)
    ensures p > 0
  {
    if w == 0 then 1 else 10 * Pow10(w - 1)
  }

  lemma {:induction false} PadLength(n: nat, w: nat)
    requires n < Pow10(w)
    ensures |Pad(n, w)| == w
    decreases w
  {
    if w > 0 { PadLength(n / 10, w - 1); }
  }

  lemma {:induction false} PadInjective(n: nat, m: nat, w: nat)
    requires Pad(n, w) == Pad(m, w)
    ensures n == m
    decreases n + m + w
  {
    if !(n == 0 && w == 0) && !(m == 0 && w == 0) {
      var p, q := Pad(n, w), Pad(m, w);
      var v := if w == 0 then 0 else w - 1;
      assert p[..|p| - 1] == Pad(n / 10, v) && q[..|q| - 1] == Pad(m / 10, v);
      assert p[|p| - 1] == Digit(n % 10) && q[|q| - 1] == Digit(m % 10);
      PadInjective(n / 10, m / 10, v);
    }
  }

  /** Equal-width decimals order as the numbers do. */
  lemma {:induction false} PadMonotone(n: nat, m: nat, w: nat)
    requires n < Pow10(w) && m < Pow10(w)
    ensures Less(Pad(n, w), Pad(m, w)) <==> n < m
    decreases w
  {
    if w > 0 {
      PadLength(n / 10, w - 1);
      PadLength(m / 10, w - 1);
      PadMonotone(n / 10, m / 10, w - 1);
      LessAppend(Pad(n / 10, w - 1), [Digit(n % 10)], Pad(m / 10, w - 1), [Digit(m % 10)]);
      if Pad(n / 10, w - 1) == Pad(m / 10, w - 1) { PadInjective(n / 10, m / 10, w - 1); }
      assert Less([Digit(n % 10)], [Digit(m % 10)]) <==> n % 10 < m % 10;
    }
  }

  /** find_last_of('/'), -1 when there is none. */
  function LastSlash(s: string): (i: int)
    ensures -1 <= i < |s|
    ensures i >= 0 ==> s[i] == '/'
    ensures forall k :: i < k < |s| ==> s[k] != '/'
  {
    if s == [] then -1
    else if s[|s| - 1] == '/' then |s| - 1
    else LastSlash(s[..|s| - 1])
  }

  function BaseName(s: string): string {
    s[LastSlash(s) + 1..]
  }

  /** The part before the last slash, empty when there is no slash. */
  function DirName(s: string): string {
    if LastSlash(s) < 0 then "" else s[..LastSlash(s)]
  }

  lemma SplitPath(dir: string, name: string)
    requires '/' !in name
    ensures DirName(dir + "/" + name) == dir && BaseName(dir + "/" + name) == name
  {
    var p := dir + "/" + name;
    assert p[|dir|] == '/' && forall k :: |dir| < k < |p| ==> p[k] == name[k - |dir| - 1];
  }
}
