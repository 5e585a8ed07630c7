/** When the number of a name can be read back from it, for templates without the b token: the condition, and
    that it is enough. */
module NumberReading {
  import opened TemplateGrammar
  import opened TemplateNames
  import opened Text

  /** Tokens whose text comes from the file and has no fixed length. */
  predicate Variable(t: Token) {
    t.FileSize? || t.Original? || t.Bid?
  }

  /** The first index from which on nothing variable stands before k. */
  function GapStart(ts: seq<Token>, k: nat): (a: nat)
    requires k <= |ts|
    ensures a <= k && (a > 0 ==> Variable(ts[a - 1])) && forall x :: a <= x < k ==> !Variable(ts[x])
  {
    if k == 0 || Variable(ts[k - 1]) then k else GapStart(ts, k - 1)
  }

  /** The first index from i on with something variable. */
  function GapEnd(ts: seq<Token>, i: nat): (b: nat)
    requires i <= |ts|
    ensures i <= b <= |ts| && (b < |ts| ==> Variable(ts[b])) && forall x :: i <= x < b ==> !Variable(ts[x])
    decreases |ts| - i
  {
    if i == |ts| || Variable(ts[i]) then i else GapEnd(ts, i + 1)
  }

  /** A name tag of the stretch has a character that is not a digit. */
  predicate Marked(ts: seq<Token>, a: nat, b: nat, nameTag: string)
    requires a <= b <= |ts|
  {
    exists x :: a <= x < b && ts[x].NameTag? && !Digits(TagText(nameTag, Tags(ts[..x])))
  }

  /** Accepted tokens with a number at k, and no blade id. */
  predicate Numbered(ts: seq<Token>, k: nat) {
    k < |ts| && IsNumber(ts[k]) && Tokens(ts, false)
  }

  /** A stretch of dates and name tags. */
  predicate Steady(ts: seq<Token>, a: nat, b: nat) {
    a <= b <= |ts| && forall x :: a <= x < b ==> ValidToken(ts[x]) && !Variable(ts[x]) && !IsNumber(ts[x])
  }

  /** Its text, which depends on the time only. */
  function GapText(ts: seq<Token>, a: nat, b: nat, st: Stamp, nameTag: string): string
    requires a <= b <= |ts| && Civil(st)
  {
    Render(ts, a, b, Source(st, "", 0), nameTag, 0)
  }

  /** One stretch before the number, at two times and with two numbers: the one text ends with the other. */
  predicate ShiftLeft(ts: seq<Token>, a: nat, k: nat, nameTag: string, st: Stamp, n: nat, st': Stamp, n': nat)
    requires a <= k <= |ts|
  {
    && Civil(st) && Civil(st') && n <= 9999 && n' <= 9999 && n != n'
    && var u, v := GapText(ts, a, k, st, nameTag) + Pad(n, 1), GapText(ts, a, k, st', nameTag) + Pad(n', 1);
       |v| <= |u| && u[|u| - |v|..] == v
  }

  ghost predicate ShiftsLeft(ts: seq<Token>, a: nat, k: nat, nameTag: string)
    requires a <= k <= |ts|
  {
    exists st, n, st', n' :: ShiftLeft(ts, a, k, nameTag, st, n, st', n')
  }

  /** A size 0 after the shifted text: what follows it fits before the original name. */
  predicate PastZero(ts: seq<Token>, b: nat, nameTag: string, rest: string, st: Stamp, st': Stamp, z: nat)
    requires b < |ts| && Civil(st) && Civil(st')
  {
    var c := GapEnd(ts, b + 1);
    c < |ts| && GapText(ts, b + 1, c, st', nameTag) <= rest + Pad(z, 1) + GapText(ts, b + 1, c, st, nameTag)
  }

  /** One stretch after the number: the one text begins with the other, and the rest can be the start of what
      follows, a size having no leading zeros. */
  predicate ShiftRight(ts: seq<Token>, k: nat, b: nat, nameTag: string, st: Stamp, n: nat, st': Stamp, n': nat, z: nat)
    requires k < b < |ts|
  {
    && Civil(st) && Civil(st') && n <= 9999 && n' <= 9999 && n != n'
    && var u := Pad(n, 1) + GapText(ts, k + 1, b, st, nameTag);
       var v := Pad(n', 1) + GapText(ts, k + 1, b, st', nameTag);
       && v < u
       && (ts[b].Original? || u[|v|] != '0' || PastZero(ts, b, nameTag, u[|v| + 1..], st, st', z))
  }

  ghost predicate ShiftsRight(ts: seq<Token>, k: nat, b: nat, nameTag: string)
    requires k < b < |ts|
  {
    exists st, n, st', n', z :: ShiftRight(ts, k, b, nameTag, st, n, st', n', z)
  }

  /** The template lets two numbers share a name: size and original name stand on both sides of the number
      with nothing but digits between them; or the number has no fixed width and its digits can be read at
      two places against the text of a neighbouring size or name. Only tokens, name tag, dates and numbers up to
      9999 are looked at, no file. */
  ghost predicate Clash(ts: seq<Token>, k: nat, nameTag: string)
    requires k < |ts|
  {
    var a, b := GapStart(ts, k), GapEnd(ts, k + 1);
    var left, right := a > 0 && !Marked(ts, a, k, nameTag), b < |ts| && !Marked(ts, k + 1, b, nameTag);
    || (left && right)
    || (ts[k] == Ners(1) && left && ShiftsLeft(ts, a, k, nameTag))
    || (ts[k] == Ners(1) && right && ShiftsRight(ts, k, b, nameTag))
  }

  // ---------------------------------------------------------------- texts of stretches

  lemma OtherTokens(ts: seq<Token>, k: nat, x: nat)
    requires Numbered(ts, k) && x < |ts| && x != k
    ensures ValidToken(ts[x]) && !IsNumber(ts[x]) && !ts[x].Bid?
  {
    assert ts[x] in ts;
    assert Slot(ts[x]) != Slot(ts[k]) || ts[x].NameTag?;
  }

  /** A stretch without size and name is steady on either side of the number. */
  lemma GapSteady(ts: seq<Token>, k: nat, a: nat, b: nat)
    requires Numbered(ts, k) && a <= b <= |ts| && (b <= k || k < a)
    requires forall x :: a <= x < b ==> !Variable(ts[x])
    ensures Steady(ts, a, b)
  {
    forall x | a <= x < b ensures ValidToken(ts[x]) && !IsNumber(ts[x]) {
      OtherTokens(ts, k, x);
    }
  }

  lemma {:induction false} SteadyText(ts: seq<Token>, a: nat, b: nat, src: Source, nameTag: string, n: nat)
    requires Steady(ts, a, b) && Civil(src.stamp)
    ensures Render(ts, a, b, src, nameTag, n) == GapText(ts, a, b, src.stamp, nameTag)
    decreases b - a
  {
    if a < b { SteadyText(ts, a + 1, b, src, nameTag, n); }
  }

  lemma SteadyPiece(t: Token, st: Stamp, nameTag: string, nth: nat)
    requires !Variable(t) && !IsNumber(t) && Civil(st)
    ensures !t.NameTag? ==> Digits(Piece(t, Source(st, "", 0), nameTag, nth, 0))
  {
    hide Pad;
    match t
    case TwoYear => PadDigits(st.year - 2000, 2);
    case FourYear => PadDigits(st.year, 4);
    case Month => PadDigits(st.month, 2);
    case Day => PadDigits(st.day, 2);
    case Hour => PadDigits(st.hour, 2);
    case Minute => PadDigits(st.minute, 2);
    case Second => PadDigits(st.second, 2);
    case NameTag =>
  }

  lemma {:induction false} UnmarkedDigits(ts: seq<Token>, a: nat, b: nat, st: Stamp, nameTag: string)
    requires Steady(ts, a, b) && Civil(st) && !Marked(ts, a, b, nameTag)
    ensures Digits(GapText(ts, a, b, st, nameTag))
    decreases b - a
  {
    if a < b {
      UnmarkedDigits(ts, a + 1, b, st, nameTag);
      SteadyPiece(ts[a], st, nameTag, Tags(ts[..a]));
    }
  }

  lemma {:induction false} GapLength(ts: seq<Token>, a: nat, b: nat, st: Stamp, st': Stamp, nameTag: string)
    requires Steady(ts, a, b) && Civil(st) && Civil(st')
    ensures |GapText(ts, a, b, st, nameTag)| == |GapText(ts, a, b, st', nameTag)|
    decreases b - a
  {
    if a < b {
      GapLength(ts, a + 1, b, st, st', nameTag);
      PieceLength(ts[a], Source(st, "", 0), Source(st', "", 0), nameTag, Tags(ts[..a]), 0, 0);
    }
  }

  /** The index of the first character that is not a digit. */
  function FirstMark(s: string): (i: nat)
    requires !Digits(s)
    ensures i < |s| && !IsDigit(s[i]) && forall j :: 0 <= j < i ==> IsDigit(s[j])
  {
    if !IsDigit(s[0]) then 0 else
      assert !Digits(s[1..]) by { var j :| 0 <= j < |s| && !IsDigit(s[j]); assert s[1..][j - 1] == s[j]; }
      1 + FirstMark(s[1..])
  }

  /** How many characters follow the last one that is not a digit. */
  function AfterMark(s: string): (i: nat)
    requires !Digits(s)
    ensures i < |s| && !IsDigit(s[|s| - i - 1]) && forall j :: |s| - i <= j < |s| ==> IsDigit(s[j])
  {
    var last := |s| - 1;
    if !IsDigit(s[last]) then 0 else
      assert !Digits(s[..last]) by { var j :| 0 <= j < |s| && !IsDigit(s[j]); assert s[..last][j] == s[j]; }
      1 + AfterMark(s[..last])
  }

  lemma FirstMarkIs(s: string, i: nat)
    requires i < |s| && !IsDigit(s[i]) && forall j :: 0 <= j < i ==> IsDigit(s[j])
    ensures !Digits(s) && FirstMark(s) == i
  {
    assert !Digits(s);
  }

  lemma AfterMarkIs(s: string, i: nat)
    requires i < |s| && !IsDigit(s[|s| - i - 1]) && forall j :: |s| - i <= j < |s| ==> IsDigit(s[j])
    ensures !Digits(s) && AfterMark(s) == i
  {
    assert !Digits(s);
    var j := AfterMark(s);
    assert IsDigit(s[|s| - j - 1]) == IsDigit(s[|s| - i - 1]);
  }

  lemma FirstMarkAppend(s: string, t: string)
    ensures !Digits(s) ==> !Digits(s + t) && FirstMark(s + t) == FirstMark(s)
    ensures Digits(s) && !Digits(t) ==> !Digits(s + t) && FirstMark(s + t) == |s| + FirstMark(t)
  {
    if !Digits(s) {
      FirstMarkIs(s + t, FirstMark(s));
    } else if !Digits(t) {
      FirstMarkIs(s + t, |s| + FirstMark(t));
    }
  }

  lemma AfterMarkAppend(s: string, t: string)
    ensures !Digits(t) ==> !Digits(s + t) && AfterMark(s + t) == AfterMark(t)
    ensures !Digits(s) && Digits(t) ==> !Digits(s + t) && AfterMark(s + t) == AfterMark(s) + |t|
  {
    if !Digits(t) {
      AfterMarkIs(s + t, AfterMark(t));
    } else if !Digits(s) {
      AfterMarkIs(s + t, AfterMark(s) + |t|);
    }
  }

  /** Where a marked stretch has its first and last mark does not depend on the time. */
  lemma {:induction false} MarksStay(ts: seq<Token>, a: nat, b: nat, st: Stamp, st': Stamp, nameTag: string)
    requires Steady(ts, a, b) && Civil(st) && Civil(st') && Marked(ts, a, b, nameTag)
    ensures var g, h := GapText(ts, a, b, st, nameTag), GapText(ts, a, b, st', nameTag);
            !Digits(g) && !Digits(h) && FirstMark(g) == FirstMark(h) && AfterMark(g) == AfterMark(h)
    decreases b - a
  {
    var nth := Tags(ts[..a]);
    var p, q := Piece(ts[a], Source(st, "", 0), nameTag, nth, 0), Piece(ts[a], Source(st', "", 0), nameTag, nth, 0);
    var r, s := GapText(ts, a + 1, b, st, nameTag), GapText(ts, a + 1, b, st', nameTag);
    SteadyPiece(ts[a], st, nameTag, nth);
    SteadyPiece(ts[a], st', nameTag, nth);
    PieceLength(ts[a], Source(st, "", 0), Source(st', "", 0), nameTag, nth, 0, 0);
    GapLength(ts, a + 1, b, st, st', nameTag);
    hide Piece, Digits, Tags, TagText;
    if Marked(ts, a + 1, b, nameTag) {
      MarksStay(ts, a + 1, b, st, st', nameTag);
    } else {
      UnmarkedDigits(ts, a + 1, b, st, nameTag);
      UnmarkedDigits(ts, a + 1, b, st', nameTag);
    }
    FirstMarkAppend(p, r);
    FirstMarkAppend(q, s);
    AfterMarkAppend(p, r);
    AfterMarkAppend(q, s);
    MarkedHead(ts, a, b, nameTag, p, q, st, st');
  }

  lemma MarkedHead(ts: seq<Token>, a: nat, b: nat, nameTag: string, p: string, q: string, st: Stamp, st': Stamp)
    requires a < b <= |ts| && Marked(ts, a, b, nameTag) && Civil(st) && Civil(st')
    requires p == Piece(ts[a], Source(st, "", 0), nameTag, Tags(ts[..a]), 0)
    requires q == Piece(ts[a], Source(st', "", 0), nameTag, Tags(ts[..a]), 0)
    ensures ts[a].NameTag? ==> p == q
    ensures Marked(ts, a + 1, b, nameTag) || (ts[a].NameTag? && !Digits(p))
  {
  }

  // ---------------------------------------------------------------- the parts of a name

  function Before(ts: seq<Token>, k: nat, src: Source, nameTag: string, n: nat): string
    requires k <= |ts| && Civil(src.stamp)
  {
    Render(ts, 0, GapStart(ts, k), src, nameTag, n)
  }

  function Behind(ts: seq<Token>, k: nat, src: Source, nameTag: string, n: nat): string
    requires k < |ts| && Civil(src.stamp)
  {
    Render(ts, GapEnd(ts, k + 1), |ts|, src, nameTag, n)
  }

  function GapBefore(ts: seq<Token>, k: nat, st: Stamp, nameTag: string): string
    requires k <= |ts| && Civil(st)
  {
    GapText(ts, GapStart(ts, k), k, st, nameTag)
  }

  function GapBehind(ts: seq<Token>, k: nat, st: Stamp, nameTag: string): string
    requires k < |ts| && Civil(st)
  {
    GapText(ts, k + 1, GapEnd(ts, k + 1), st, nameTag)
  }

  lemma FiveParts(ts: seq<Token>, k: nat, nameTag: string, src: Source, n: nat)
    requires Numbered(ts, k) && Civil(src.stamp)
    ensures Name(ts, src, nameTag, n) ==
            Before(ts, k, src, nameTag, n) + (GapBefore(ts, k, src.stamp, nameTag) +
            (Pad(n, Width(ts[k])) + (GapBehind(ts, k, src.stamp, nameTag) + Behind(ts, k, src, nameTag, n))))
  {
    hide Pad, Tokens, Tags;
    var a, b := GapStart(ts, k), GapEnd(ts, k + 1);
    NameParts(ts, k, nameTag, src, n) by { assert Numbered(ts, k); }
    RenderSplit(ts, 0, a, k, src, nameTag, n);
    RenderSplit(ts, k + 1, b, |ts|, src, nameTag, n);
    GapSteady(ts, k, a, k);
    GapSteady(ts, k, k + 1, b);
    SteadyText(ts, a, k, src, nameTag, n);
    SteadyText(ts, k + 1, b, src, nameTag, n);
    hide Render, GapText, Width;
    Regroup(Before(ts, k, src, nameTag, n), GapBefore(ts, k, src.stamp, nameTag), Pad(n, Width(ts[k])),
            GapBehind(ts, k, src.stamp, nameTag) + Behind(ts, k, src, nameTag, n));
  }

  lemma Regroup(x: string, p: string, n: string, r: string)
    ensures (x + p) + (n + r) == x + (p + (n + r))
  {
  }

  // ---------------------------------------------------------------- reading the number back

  /** The part behind the number has one length in both names. */
  lemma RightAnchored(ts: seq<Token>, k: nat, nameTag: string, x: string, x': string,
                      st: Stamp, st': Stamp, n: nat, n': nat)
    requires Numbered(ts, k) && Civil(st) && Civil(st') && n <= Top(ts[k]) && n' <= Top(ts[k])
    requires !Clash(ts, k, nameTag) && (GapStart(ts, k) == 0 ==> |x| == |x'|)
    requires |Pad(n, Width(ts[k]))| >= |Pad(n', Width(ts[k]))|
    requires x + (GapBefore(ts, k, st, nameTag) + Pad(n, Width(ts[k]))) ==
             x' + (GapBefore(ts, k, st', nameTag) + Pad(n', Width(ts[k])))
    ensures n == n'
  {
    hide Pad, Render, GapText, ShiftsLeft, ShiftsRight, Marked, Tokens, Digits, Tags, TagText, Piece;
    var a, w := GapStart(ts, k), Width(ts[k]);
    var p, p', d, d' := GapBefore(ts, k, st, nameTag), GapBefore(ts, k, st', nameTag), Pad(n, w), Pad(n', w);
    GapSteady(ts, k, a, k);
    GapLength(ts, a, k, st, st', nameTag);
    if ts[k] != Ners(1) {
      FixedWidth(ts, k, n, n');
    } else if a == 0 {
      assert |x + (p + d)| == |x' + (p' + d')|;
    } else if Marked(ts, a, k, nameTag) {
      MarksStay(ts, a, k, st, st', nameTag);
      PadDigits(n, w);
      PadDigits(n', w);
      SameAfterMark(x, p, d, x', p', d');
    } else if |d| != |d'| && n != n' {
      EndShift(x, p + d, x', p' + d');
      IsShift(ts, a, k, nameTag, st, n, st', n');
      assert false;
    }
    EndsEqual(x, p, d, x', p', d');
    PadInjective(n, n', w);
  }

  lemma IsShift(ts: seq<Token>, a: nat, k: nat, nameTag: string, st: Stamp, n: nat, st': Stamp, n': nat)
    requires a <= k <= |ts| && ShiftLeft(ts, a, k, nameTag, st, n, st', n')
    ensures ShiftsLeft(ts, a, k, nameTag)
  {
  }

  lemma SameAfterMark(x: string, p: string, d: string, x': string, p': string, d': string)
    requires !Digits(p) && !Digits(p') && Digits(d) && Digits(d') && AfterMark(p) == AfterMark(p')
    requires x + (p + d) == x' + (p' + d')
    ensures |d| == |d'|
  {
    AfterMarkAppend(p, d);
    AfterMarkAppend(p', d');
    AfterMarkAppend(x, p + d);
    AfterMarkAppend(x', p' + d');
  }

  lemma EndsEqual(x: string, p: string, d: string, x': string, p': string, d': string)
    requires |p| == |p'| && |d| == |d'| && x + (p + d) == x' + (p' + d')
    ensures d == d'
  {
    SplitEqual(x, p + d, x', p' + d');
    SplitEqual(p, d, p', d');
  }

  /** Of two texts with one end the longer ends with the shorter. */
  lemma EndShift(x: string, u: string, x': string, v: string)
    requires x + u == x' + v && |v| <= |u|
    ensures u[|u| - |v|..] == v
  {
    var s, i := x + u, |x'|;
    assert s[i..] == v;
    assert s[i..] == u[i - |x|..];
  }

  /** The part before the gap after the number has one length in both names. */
  lemma LeftAnchored(ts: seq<Token>, k: nat, nameTag: string, src: Source, src': Source, n: nat, n': nat)
    requires Numbered(ts, k) && Civil(src.stamp) && Civil(src'.stamp) && n <= Top(ts[k]) && n' <= Top(ts[k])
    requires !Clash(ts, k, nameTag)
    requires |Pad(n, Width(ts[k]))| >= |Pad(n', Width(ts[k]))|
    requires Pad(n, Width(ts[k])) + (GapBehind(ts, k, src.stamp, nameTag) + Behind(ts, k, src, nameTag, n)) ==
             Pad(n', Width(ts[k])) + (GapBehind(ts, k, src'.stamp, nameTag) + Behind(ts, k, src', nameTag, n'))
    ensures n == n'
  {
    hide Pad, Render, GapText, ShiftsRight, Marked, Tokens, Digits, Tags, TagText, ShiftsLeft, Piece;
    var b, w, st, st' := GapEnd(ts, k + 1), Width(ts[k]), src.stamp, src'.stamp;
    var d, d', q, q' := Pad(n, w), Pad(n', w), GapBehind(ts, k, st, nameTag), GapBehind(ts, k, st', nameTag);
    var y, y' := Behind(ts, k, src, nameTag, n), Behind(ts, k, src', nameTag, n');
    GapSteady(ts, k, k + 1, b);
    GapLength(ts, k + 1, b, st, st', nameTag);
    if ts[k] != Ners(1) {
      FixedWidth(ts, k, n, n');
    } else if b == |ts| {
      NothingBehind(ts, k, src, nameTag, n);
      NothingBehind(ts, k, src', nameTag, n');
      assert |d + (q + y)| == |d' + (q' + y')|;
    } else if Marked(ts, k + 1, b, nameTag) {
      MarksStay(ts, k + 1, b, st, st', nameTag);
      PadDigits(n, w);
      PadDigits(n', w);
      SameFirstMark(d, q, y, d', q', y');
    } else if |d| != |d'| && n != n' {
      assert d + q + y == d + (q + y) && d' + q' + y' == d' + (q' + y');
      StartShift(d + q, y, d' + q', y');
      RestFits(ts, k, nameTag, src, src', n, n');
      assert false;
    }
    SplitEqual(d, q + y, d', q' + y');
    PadInjective(n, n', w);
  }

  lemma FixedWidth(ts: seq<Token>, k: nat, n: nat, n': nat)
    requires Numbered(ts, k) && ts[k] != Ners(1) && n <= Top(ts[k]) && n' <= Top(ts[k])
    ensures |Pad(n, Width(ts[k]))| == |Pad(n', Width(ts[k]))|
  {
    assert ts[k] in ts;
    var st := Stamp(2000, 1, 1, 0, 0, 0);
    PieceLength(ts[k], Source(st, "", 0), Source(st, "", 0), "", 0, n, n');
  }

  lemma NothingBehind(ts: seq<Token>, k: nat, src: Source, nameTag: string, n: nat)
    requires k < |ts| && GapEnd(ts, k + 1) == |ts| && Civil(src.stamp)
    ensures Behind(ts, k, src, nameTag, n) == ""
  {
  }

  lemma SameFirstMark(d: string, q: string, y: string, d': string, q': string, y': string)
    requires !Digits(q) && !Digits(q') && Digits(d) && Digits(d') && FirstMark(q) == FirstMark(q')
    requires d + (q + y) == d' + (q' + y')
    ensures |d| == |d'|
  {
    FirstMarkAppend(q, y);
    FirstMarkAppend(q', y');
    FirstMarkAppend(d, q + y);
    FirstMarkAppend(d', q' + y');
  }

  /** Of two texts with one start the longer starts with the shorter. */
  lemma StartShift(u: string, y: string, v: string, y': string)
    requires u + y == v + y' && |v| <= |u|
    ensures u[..|v|] == v && u[|v|..] + y == y'
  {
    var s := u + y;
    assert s[..|v|] == v == u[..|v|];
    assert s[|v|..] == y' == u[|v|..] + y;
  }

  /** Then what is left over of the longer text starts the other's size or name. */
  lemma RestFits(ts: seq<Token>, k: nat, nameTag: string, src: Source, src': Source, n: nat, n': nat)
    requires Numbered(ts, k) && ts[k] == Ners(1) && n <= 9999 && n' <= 9999 && n != n'
    requires Civil(src.stamp) && Civil(src'.stamp) && GapEnd(ts, k + 1) < |ts|
    requires !Marked(ts, k + 1, GapEnd(ts, k + 1), nameTag)
    requires var u, v := Pad(n, 1) + GapBehind(ts, k, src.stamp, nameTag),
                         Pad(n', 1) + GapBehind(ts, k, src'.stamp, nameTag);
             && |v| < |u| && u[..|v|] == v
             && u[|v|..] + Behind(ts, k, src, nameTag, n) == Behind(ts, k, src', nameTag, n')
    ensures ShiftsRight(ts, k, GapEnd(ts, k + 1), nameTag)
  {
    hide Pad, Tokens, GapText, Render, PastZero;
    var b, st, st' := GapEnd(ts, k + 1), src.stamp, src'.stamp;
    var u, v := Pad(n, 1) + GapBehind(ts, k, st, nameTag), Pad(n', 1) + GapBehind(ts, k, st', nameTag);
    var rest, z := u[|v| + 1..], src.sizeKb;
    OtherTokens(ts, k, b);
    if ts[b].FileSize? && u[|v|] == '0' {
      SizeZero(ts, k, b, nameTag, src, src', n, n', u[|v|..]);
    }
    assert ShiftRight(ts, k, b, nameTag, st, n, st', n', z);
  }

  lemma {:induction false} NoLeadingZero(n: nat)
    ensures |Pad(n, 0)| > 0 <==> n > 0
    ensures n > 0 ==> Pad(n, 0)[0] != '0'
  {
    if n > 0 { NoLeadingZero(n / 10); }
  }

  lemma SizeText(n: nat)
    ensures |Pad(n, 1)| > 0 && (Pad(n, 1)[0] == '0' ==> n == 0)
    ensures Pad(0, 1) == "0"
  {
    NoLeadingZero(n / 10);
    NoLeadingZero(n);
  }

  /** A size whose text begins with 0 is 0. */
  lemma SizeZero(ts: seq<Token>, k: nat, b: nat, nameTag: string, src: Source, src': Source, n: nat, n': nat, s: string)
    requires Numbered(ts, k) && k < b < |ts| && ts[b].FileSize? && Civil(src.stamp) && Civil(src'.stamp)
    requires s != "" && s[0] == '0'
    requires s + Render(ts, b, |ts|, src, nameTag, n) == Render(ts, b, |ts|, src', nameTag, n')
    ensures PastZero(ts, b, nameTag, s[1..], src.stamp, src'.stamp, src.sizeKb)
  {
    var c := GapEnd(ts, b + 1);
    AfterSize(ts, k, b, c, nameTag, src, n);
    AfterSize(ts, k, b, c, nameTag, src', n');
    GapSteady(ts, k, b + 1, c);
    GapLength(ts, b + 1, c, src.stamp, src'.stamp, nameTag);
    var z, z' := Pad(src.sizeKb, 1), Pad(src'.sizeKb, 1);
    var r, r' := GapText(ts, b + 1, c, src.stamp, nameTag), GapText(ts, b + 1, c, src'.stamp, nameTag);
    var y, y' := Render(ts, c, |ts|, src, nameTag, n), Render(ts, c, |ts|, src', nameTag, n');
    SizeText(src.sizeKb);
    SizeText(src'.sizeKb);
    ZeroFirst(s, z, r, y, z', r', y');
  }

  lemma ZeroFirst(s: string, z: string, r: string, y: string, z': string, r': string, y': string)
    requires s != "" && s[0] == '0' && z != "" && z' != "" && (z'[0] == '0' ==> z' == "0") && |r| == |r'|
    requires s + (z + (r + y)) == z' + (r' + y')
    ensures r' <= s[1..] + z + r && |s[1..] + z + r| + |y| == |r'| + |y'|
  {
    assert (s + (z + (r + y)))[0] == s[0] && (z' + (r' + y'))[0] == z'[0];
    var long := s[1..] + z + r;
    assert (s + (z + (r + y)))[1..] == long + y;
    assert (z' + (r' + y'))[1..] == r' + y';
    StartShift(long, y, r', y');
  }

  lemma AfterSize(ts: seq<Token>, k: nat, b: nat, c: nat, nameTag: string, src: Source, n: nat)
    requires Numbered(ts, k) && k < b < |ts| && ts[b].FileSize? && Civil(src.stamp) && c == GapEnd(ts, b + 1)
    ensures Render(ts, b, |ts|, src, nameTag, n) ==
            Pad(src.sizeKb, 1) + (GapText(ts, b + 1, c, src.stamp, nameTag) + Render(ts, c, |ts|, src, nameTag, n))
    ensures c == |ts| ==> Render(ts, c, |ts|, src, nameTag, n) == ""
  {
    hide Numbered, Tags, GapStart, Steady, Pad, Tokens, Piece, GapText, GapEnd, Civil, Render;
    GapSteady(ts, k, b + 1, c);
    FromEnd(ts, c, src, nameTag, n);
    RenderSplit(ts, b + 1, c, |ts|, src, nameTag, n);
    SteadyText(ts, b + 1, c, src, nameTag, n);
    FirstPiece(ts, b, src, nameTag, n);
    SizePiece(src, nameTag, Tags(ts[..b]), n);
  }

  lemma FromEnd(ts: seq<Token>, c: nat, src: Source, nameTag: string, n: nat)
    requires c <= |ts| && Civil(src.stamp)
    ensures c == |ts| ==> Render(ts, c, |ts|, src, nameTag, n) == ""
  {
  }

  lemma SizePiece(src: Source, nameTag: string, nth: nat, n: nat)
    requires Civil(src.stamp)
    ensures Piece(FileSize, src, nameTag, nth, n) == Pad(src.sizeKb, 1)
  {
  }

  lemma FirstPiece(ts: seq<Token>, a: nat, src: Source, nameTag: string, n: nat)
    requires a < |ts| && Civil(src.stamp)
    ensures Render(ts, a, |ts|, src, nameTag, n) ==
            Piece(ts[a], src, nameTag, Tags(ts[..a]), n) + Render(ts, a + 1, |ts|, src, nameTag, n)
  {
  }

  // ---------------------------------------------------------------- finding the number between two files' texts

  /** With a size on one side and a name on the other, only dates and tags stand outside them. */
  lemma Outside(ts: seq<Token>, k: nat)
    requires Numbered(ts, k) && GapStart(ts, k) > 0 && GapEnd(ts, k + 1) < |ts|
    ensures var a, b := GapStart(ts, k) - 1, GapEnd(ts, k + 1);
            && ts[a] != ts[b] && ts[a] in {FileSize, Original} && ts[b] in {FileSize, Original}
            && Steady(ts, 0, a) && Steady(ts, b + 1, |ts|)
  {
    var a, b := GapStart(ts, k) - 1, GapEnd(ts, k + 1);
    OtherTokens(ts, k, a);
    OtherTokens(ts, k, b);
    assert Slot(ts[a]) != Slot(ts[b]);
    forall x | 0 <= x < |ts| && x != a && x != b && x != k
      ensures ValidToken(ts[x]) && !IsNumber(ts[x]) && !Variable(ts[x])
    {
      OtherTokens(ts, k, x);
      assert Slot(ts[x]) != Slot(ts[a]) || ts[x].NameTag?;
      assert Slot(ts[x]) != Slot(ts[b]) || ts[x].NameTag?;
    }
  }

  lemma OutsideText(ts: seq<Token>, k: nat, nameTag: string, src: Source, n: nat)
    requires Numbered(ts, k) && Civil(src.stamp) && GapStart(ts, k) > 0 && GapEnd(ts, k + 1) < |ts|
    ensures var a, b := GapStart(ts, k) - 1, GapEnd(ts, k + 1);
            && Before(ts, k, src, nameTag, n) ==
               GapText(ts, 0, a, src.stamp, nameTag) + Piece(ts[a], src, nameTag, Tags(ts[..a]), n)
            && Behind(ts, k, src, nameTag, n) ==
               Piece(ts[b], src, nameTag, Tags(ts[..b]), n) + GapText(ts, b + 1, |ts|, src.stamp, nameTag)
  {
    hide Render, GapText, Piece, Tags, Numbered, Steady, Fixed;
    Outside(ts, k);
    SteadyThen(ts, GapStart(ts, k) - 1, src, nameTag, n);
    ThenSteady(ts, GapEnd(ts, k + 1), src, nameTag, n);
  }

  lemma SteadyThen(ts: seq<Token>, a: nat, src: Source, nameTag: string, n: nat)
    requires a < |ts| && Civil(src.stamp) && Steady(ts, 0, a)
    ensures Render(ts, 0, a + 1, src, nameTag, n) ==
            GapText(ts, 0, a, src.stamp, nameTag) + Piece(ts[a], src, nameTag, Tags(ts[..a]), n)
  {
    hide Piece, Tags, Steady;
    SteadyText(ts, 0, a, src, nameTag, n);
    LastPiece(ts, a, src, nameTag, n);
    RenderSplit(ts, 0, a, a + 1, src, nameTag, n);
    hide Render, GapText;
  }

  lemma ThenSteady(ts: seq<Token>, b: nat, src: Source, nameTag: string, n: nat)
    requires b < |ts| && Civil(src.stamp) && Steady(ts, b + 1, |ts|)
    ensures Render(ts, b, |ts|, src, nameTag, n) ==
            Piece(ts[b], src, nameTag, Tags(ts[..b]), n) + GapText(ts, b + 1, |ts|, src.stamp, nameTag)
  {
    hide Piece, Tags, Steady;
    SteadyText(ts, b + 1, |ts|, src, nameTag, n);
    FirstPiece(ts, b, src, nameTag, n);
    hide Render, GapText;
  }

  lemma LastPiece(ts: seq<Token>, a: nat, src: Source, nameTag: string, n: nat)
    requires a < |ts| && Civil(src.stamp)
    ensures Render(ts, a, a + 1, src, nameTag, n) == Piece(ts[a], src, nameTag, Tags(ts[..a]), n)
  {
    assert Render(ts, a + 1, a + 1, src, nameTag, n) == "";
  }

  /** Size, gap, number, gap: a mark in either gap tells the lengths before or behind the number. */
  lemma SizeFirst(o: string, z: string, p: string, d: string, q: string, y: string,
                  o': string, z': string, p': string, d': string, q': string, y': string)
    requires (o + z) + (p + (d + (q + y))) == (o' + z') + (p' + (d' + (q' + y')))
    requires Digits(z) && Digits(d) && Digits(z') && Digits(d') && |o| == |o'| && |p| == |p'| && |q| == |q'|
    requires (!Digits(p) && !Digits(p') && FirstMark(p) == FirstMark(p')) ||
             (Digits(p) && Digits(p') && !Digits(q) && !Digits(q') && FirstMark(q) == FirstMark(q'))
    ensures |o + z| == |o' + z'| || |y| == |y'|
  {
    hide Digits, FirstMark;
    Regroup(o, z, p, d + (q + y));
    Regroup(o', z', p', d' + (q' + y'));
    SplitEqual(o, z + (p + (d + (q + y))), o', z' + (p' + (d' + (q' + y'))));
    if !Digits(p) {
      SameFirstMark(z, p, d + (q + y), z', p', d' + (q' + y'));
    } else {
      MarkBehind(z, p, d, q, y, z', p', d', q', y');
    }
  }

  lemma Grouped(z: string, p: string, d: string, r: string)
    ensures z + (p + (d + r)) == (z + p + d) + r
    ensures Digits(z) && Digits(p) && Digits(d) ==> Digits(z + p + d)
  {
  }

  lemma MarkBehind(z: string, p: string, d: string, q: string, y: string,
                   z': string, p': string, d': string, q': string, y': string)
    requires z + (p + (d + (q + y))) == z' + (p' + (d' + (q' + y')))
    requires Digits(z) && Digits(p) && Digits(d) && Digits(z') && Digits(p') && Digits(d')
    requires |q| == |q'| && !Digits(q) && !Digits(q') && FirstMark(q) == FirstMark(q')
    ensures |y| == |y'|
  {
    hide Digits, FirstMark;
    Grouped(z, p, d, q + y);
    Grouped(z', p', d', q' + y');
    SameFirstMark(z + p + d, q, y, z' + p' + d', q', y');
    assert |z + (p + (d + (q + y)))| == |z' + (p' + (d' + (q' + y')))|;
  }

  /** The same with the size at the end, read backwards. */
  lemma SizeLast(x: string, p: string, d: string, q: string, z: string, o: string,
                 x': string, p': string, d': string, q': string, z': string, o': string)
    requires x + (p + (d + (q + (z + o)))) == x' + (p' + (d' + (q' + (z' + o'))))
    requires Digits(z) && Digits(d) && Digits(z') && Digits(d') && |o| == |o'| && |p| == |p'| && |q| == |q'|
    requires (!Digits(q) && !Digits(q') && AfterMark(q) == AfterMark(q')) ||
             (Digits(q) && Digits(q') && !Digits(p) && !Digits(p') && AfterMark(p) == AfterMark(p'))
    ensures |x| == |x'| || |z + o| == |z' + o'|
  {
    hide Digits, AfterMark;
    StripLast(x, p, d, q, z, o);
    StripLast(x', p', d', q', z', o');
    SplitEqual(x + (p + (d + (q + z))), o, x' + (p' + (d' + (q' + z'))), o');
    if !Digits(q) {
      Grouped(x, p, d, q + z);
      Grouped(x', p', d', q' + z');
      SameAfterMark(x + p + d, q, z, x' + p' + d', q', z');
    } else {
      DigitsTogether(d, q, z);
      DigitsTogether(d', q', z');
      SameAfterMark(x, p, d + (q + z), x', p', d' + (q' + z'));
    }
  }

  lemma StripLast(x: string, p: string, d: string, q: string, z: string, o: string)
    ensures x + (p + (d + (q + (z + o)))) == (x + (p + (d + (q + z)))) + o
  {
    assert q + (z + o) == (q + z) + o;
    assert d + ((q + z) + o) == (d + (q + z)) + o;
    assert p + ((d + (q + z)) + o) == (p + (d + (q + z))) + o;
  }

  lemma DigitsTogether(d: string, q: string, z: string)
    requires Digits(d) && Digits(q) && Digits(z)
    ensures Digits(d + (q + z))
  {
  }

  /** Equal names agree in the length before or in the length behind the gaps around the number. */
  lemma Anchored(ts: seq<Token>, k: nat, nameTag: string, src: Source, src': Source, n: nat, n': nat)
    requires Numbered(ts, k) && Civil(src.stamp) && Civil(src'.stamp) && !Clash(ts, k, nameTag)
    requires Name(ts, src, nameTag, n) == Name(ts, src', nameTag, n')
    ensures |Before(ts, k, src, nameTag, n)| == |Before(ts, k, src', nameTag, n')| ||
            |Behind(ts, k, src, nameTag, n)| == |Behind(ts, k, src', nameTag, n')|
  {
    hide Name, Clash, ShiftsLeft, ShiftsRight, Tokens, Pad, GapText, Digits, TagText, Marked;
    var a, b := GapStart(ts, k), GapEnd(ts, k + 1);
    if a > 0 && b < |ts| {
      OneMark(ts, k, nameTag);
      AnchoredBetween(ts, k, nameTag, src, src', n, n');
    }
  }

  lemma OneMark(ts: seq<Token>, k: nat, nameTag: string)
    requires k < |ts| && GapStart(ts, k) > 0 && GapEnd(ts, k + 1) < |ts| && !Clash(ts, k, nameTag)
    ensures Marked(ts, GapStart(ts, k), k, nameTag) || Marked(ts, k + 1, GapEnd(ts, k + 1), nameTag)
  {
  }

  lemma GapMarks(ts: seq<Token>, k: nat, a: nat, b: nat, st: Stamp, st': Stamp, nameTag: string)
    requires Steady(ts, a, b) && Civil(st) && Civil(st')
    ensures var g, h := GapText(ts, a, b, st, nameTag), GapText(ts, a, b, st', nameTag);
            && |g| == |h| && Digits(g) == Digits(h) == !Marked(ts, a, b, nameTag)
            && (!Digits(g) ==> FirstMark(g) == FirstMark(h) && AfterMark(g) == AfterMark(h))
  {
    GapLength(ts, a, b, st, st', nameTag);
    if Marked(ts, a, b, nameTag) {
      MarksStay(ts, a, b, st, st', nameTag);
    } else {
      UnmarkedDigits(ts, a, b, st, nameTag);
      UnmarkedDigits(ts, a, b, st', nameTag);
    }
  }

  lemma AnchoredBetween(ts: seq<Token>, k: nat, nameTag: string, src: Source, src': Source, n: nat, n': nat)
    requires Numbered(ts, k) && Civil(src.stamp) && Civil(src'.stamp)
    requires GapStart(ts, k) > 0 && GapEnd(ts, k + 1) < |ts|
    requires Marked(ts, GapStart(ts, k), k, nameTag) || Marked(ts, k + 1, GapEnd(ts, k + 1), nameTag)
    requires Name(ts, src, nameTag, n) == Name(ts, src', nameTag, n')
    ensures |Before(ts, k, src, nameTag, n)| == |Before(ts, k, src', nameTag, n')| ||
            |Behind(ts, k, src, nameTag, n)| == |Behind(ts, k, src', nameTag, n')|
  {
    hide Name, Tokens, Pad, Digits, TagText, Marked, Render, GapStart, GapEnd, Tags, GapText;
    var a, b, w, st, st' := GapStart(ts, k), GapEnd(ts, k + 1), Width(ts[k]), src.stamp, src'.stamp;
    FiveParts(ts, k, nameTag, src, n);
    FiveParts(ts, k, nameTag, src', n');
    Outside(ts, k);
    OutsideText(ts, k, nameTag, src, n);
    OutsideText(ts, k, nameTag, src', n');
    GapSteady(ts, k, a, k);
    GapSteady(ts, k, k + 1, b);
    GapMarks(ts, k, a, k, st, st', nameTag);
    GapMarks(ts, k, k + 1, b, st, st', nameTag);
    GapLength(ts, 0, a - 1, st, st', nameTag);
    GapLength(ts, b + 1, |ts|, st, st', nameTag);
    PadDigits(n, w);
    PadDigits(n', w);
    PadDigits(src.sizeKb, 1);
    PadDigits(src'.sizeKb, 1);
    if ts[a - 1].FileSize? {
      SizeFirst(GapText(ts, 0, a - 1, st, nameTag), Pad(src.sizeKb, 1), GapBefore(ts, k, st, nameTag), Pad(n, w),
                GapBehind(ts, k, st, nameTag), Behind(ts, k, src, nameTag, n),
                GapText(ts, 0, a - 1, st', nameTag), Pad(src'.sizeKb, 1), GapBefore(ts, k, st', nameTag), Pad(n', w),
                GapBehind(ts, k, st', nameTag), Behind(ts, k, src', nameTag, n'));
    } else {
      SizeLast(Before(ts, k, src, nameTag, n), GapBefore(ts, k, st, nameTag), Pad(n, w),
               GapBehind(ts, k, st, nameTag), Pad(src.sizeKb, 1), GapText(ts, b + 1, |ts|, st, nameTag),
               Before(ts, k, src', nameTag, n'), GapBefore(ts, k, st', nameTag), Pad(n', w),
               GapBehind(ts, k, st', nameTag), Pad(src'.sizeKb, 1), GapText(ts, b + 1, |ts|, st', nameTag));
    }
  }

  /** Then different numbers give different names, whatever the files and the dates are. */
  lemma NumberReads(ts: seq<Token>, k: nat, nameTag: string, src: Source, src': Source, n: nat, n': nat)
    requires Numbered(ts, k) && Civil(src.stamp) && Civil(src'.stamp) && n <= Top(ts[k]) && n' <= Top(ts[k])
    requires !Clash(ts, k, nameTag)
    requires Name(ts, src, nameTag, n) == Name(ts, src', nameTag, n')
    ensures n == n'
  {
    if |Pad(n, Width(ts[k]))| >= |Pad(n', Width(ts[k]))| {
      NumberReadsFrom(ts, k, nameTag, src, src', n, n');
    } else {
      NumberReadsFrom(ts, k, nameTag, src', src, n', n);
    }
  }

  lemma NumberReadsFrom(ts: seq<Token>, k: nat, nameTag: string, src: Source, src': Source, n: nat, n': nat)
    requires Numbered(ts, k) && Civil(src.stamp) && Civil(src'.stamp) && n <= Top(ts[k]) && n' <= Top(ts[k])
    requires !Clash(ts, k, nameTag) && |Pad(n, Width(ts[k]))| >= |Pad(n', Width(ts[k]))|
    requires Name(ts, src, nameTag, n) == Name(ts, src', nameTag, n')
    ensures n == n'
  {
    hide Name, Clash, Tokens, Pad, Render, Tags, GapText, Before, Behind, Top;
    var a, b, w, st, st' := GapStart(ts, k), GapEnd(ts, k + 1), Width(ts[k]), src.stamp, src'.stamp;
    Anchored(ts, k, nameTag, src, src', n, n');
    FiveParts(ts, k, nameTag, src, n);
    FiveParts(ts, k, nameTag, src', n');
    GapSteady(ts, k, a, k);
    GapSteady(ts, k, k + 1, b);
    GapLength(ts, a, k, st, st', nameTag);
    GapLength(ts, k + 1, b, st, st', nameTag);
    var x, x' := Before(ts, k, src, nameTag, n), Before(ts, k, src', nameTag, n');
    var y, y' := Behind(ts, k, src, nameTag, n), Behind(ts, k, src', nameTag, n');
    var p, p', q, q' := GapBefore(ts, k, st, nameTag), GapBefore(ts, k, st', nameTag),
                        GapBehind(ts, k, st, nameTag), GapBehind(ts, k, st', nameTag);
    var d, d' := Pad(n, w), Pad(n', w);
    if |x| == |x'| {
      SplitEqual(x, p + (d + (q + y)), x', p' + (d' + (q' + y')));
      SplitEqual(p, d + (q + y), p', d' + (q' + y'));
      LeftAnchored(ts, k, nameTag, src, src', n, n');
    } else {
      Regroup(x, p, d, q + y);
      assert x + (p + (d + (q + y))) == (x + (p + d)) + (q + y);
      assert x' + (p' + (d' + (q' + y'))) == (x' + (p' + d')) + (q' + y');
      SplitEqual(x + (p + d), q + y, x' + (p' + d'), q' + y');
      assert a > 0 by { NothingBefore(ts, k, nameTag, src, n); NothingBefore(ts, k, nameTag, src', n'); }
      RightAnchored(ts, k, nameTag, x, x', st, st', n, n');
    }
  }

  lemma NothingBefore(ts: seq<Token>, k: nat, nameTag: string, src: Source, n: nat)
    requires k <= |ts| && Civil(src.stamp)
    ensures GapStart(ts, k) == 0 ==> Before(ts, k, src, nameTag, n) == ""
  {
  }
}
