/** Templates that let two numbers share a name: the two names, for templates without the b token. */
module NumberCollisions {
  import opened TemplateGrammar
  import opened TemplateNames
  import opened NumberReading
  import opened Text

  /** Two different numbers and two files that give one name. */
  predicate Collision(ts: seq<Token>, k: nat, nameTag: string, src: Source, n: nat, src': Source, n': nat)
    requires k < |ts| && IsNumber(ts[k])
  {
    && Civil(src.stamp) && Civil(src'.stamp) && n <= Top(ts[k]) && n' <= Top(ts[k]) && n != n'
    && Name(ts, src, nameTag, n) == Name(ts, src', nameTag, n')
  }

  ghost predicate Collides(ts: seq<Token>, k: nat, nameTag: string)
    requires k < |ts| && IsNumber(ts[k])
  {
    exists src, n, src', n' :: Collision(ts, k, nameTag, src, n, src', n')
  }

  /** ... even when the files' names are digits only. */
  ghost predicate CollidesPlainly(ts: seq<Token>, k: nat, nameTag: string)
    requires k < |ts| && IsNumber(ts[k])
  {
    exists src, n, src', n' ::
      Collision(ts, k, nameTag, src, n, src', n') && Digits(src.original) && Digits(src'.original)
  }

  // ---------------------------------------------------------------- sizes

  lemma {:induction false} ValueText(s: string)
    requires Digits(s) && (s != "" ==> s[0] != '0')
    ensures Pad(Value(s), 0) == s && (s != "" ==> Value(s) > 0)
    decreases |s|
  {
    if s != "" {
      var most, d := s[..|s| - 1], s[|s| - 1] as int - '0' as int;
      if most != "" { assert most[0] == s[0]; }
      ValueText(most);
      assert Value(s) / 10 == Value(most) && Value(s) % 10 == d;
      assert Digit(d) == s[|s| - 1];
      assert s == most + [s[|s| - 1]];
    }
  }

  /** Every text of digits without a leading zero is the text of a size. */
  lemma SizeOf(s: string)
    requires Digits(s) && s != "" && s[0] != '0'
    ensures Pad(Value(s), 1) == s
  {
    ValueText(s);
    assert Pad(Value(s), 1) == Pad(Value(s) / 10, 0) + [Digit(Value(s) % 10)];
  }

  /** The file with the text s for the token t, and other text or size for the other. */
  function With(t: Token, st: Stamp, s: string, other: string): Source
    requires Digits(s) && Digits(other)
  {
    if t.FileSize? then Source(st, other, Value(s)) else Source(st, s, Value(other))
  }

  // ---------------------------------------------------------------- names that differ in few pieces

  lemma {:induction false} SameRender(ts: seq<Token>, a: nat, b: nat, nameTag: string,
                                      src: Source, n: nat, src': Source, n': nat)
    requires a <= b <= |ts| && Civil(src.stamp) && Civil(src'.stamp)
    requires forall x :: a <= x < b ==>
               Piece(ts[x], src, nameTag, Tags(ts[..x]), n) == Piece(ts[x], src', nameTag, Tags(ts[..x]), n')
    ensures Render(ts, a, b, src, nameTag, n) == Render(ts, a, b, src', nameTag, n')
    decreases b - a
  {
    if a < b { SameRender(ts, a + 1, b, nameTag, src, n, src', n'); }
  }

  predicate Has(ts: seq<Token>, a: nat, b: nat, t: Token)
    requires a <= b <= |ts|
  {
    t in ts[a..b]
  }

  /** The date of the tokens a..b-1 from st, everything else from the first of January 2000. */
  function Pick(ts: seq<Token>, a: nat, b: nat, st: Stamp): Stamp
    requires a <= b <= |ts|
  {
    Stamp(if Has(ts, a, b, TwoYear) || Has(ts, a, b, FourYear) then st.year else 2000,
          if Has(ts, a, b, Month) then st.month else 1,
          if Has(ts, a, b, Day) then st.day else 1,
          if Has(ts, a, b, Hour) then st.hour else 0,
          if Has(ts, a, b, Minute) then st.minute else 0,
          if Has(ts, a, b, Second) then st.second else 0)
  }

  lemma PickCivil(ts: seq<Token>, a: nat, b: nat, st: Stamp)
    requires a <= b <= |ts| && Civil(st)
    ensures Civil(Pick(ts, a, b, st))
  {
  }

  lemma PickInside(ts: seq<Token>, a: nat, b: nat, st: Stamp, x: nat, nameTag: string, nth: nat)
    requires a <= x < b <= |ts| && Civil(st) && !Variable(ts[x]) && !IsNumber(ts[x])
    ensures Civil(Pick(ts, a, b, st))
    ensures Piece(ts[x], Source(Pick(ts, a, b, st), "", 0), nameTag, nth, 0) ==
            Piece(ts[x], Source(st, "", 0), nameTag, nth, 0)
  {
    PickCivil(ts, a, b, st);
    assert ts[x] == ts[a..b][x - a];
    hide Pad, TagText, BladeText;
  }

  lemma {:induction false} PickGap(ts: seq<Token>, a: nat, b: nat, c: nat, d: nat, st: Stamp, nameTag: string)
    requires a <= c <= d <= b <= |ts| && Civil(st) && Steady(ts, c, d)
    ensures Civil(Pick(ts, a, b, st)) && GapText(ts, c, d, Pick(ts, a, b, st), nameTag) == GapText(ts, c, d, st, nameTag)
    decreases d - c
  {
    PickCivil(ts, a, b, st);
    hide Pick, Piece;
    if c < d {
      PickGap(ts, a, b, c + 1, d, st, nameTag);
      PickInside(ts, a, b, st, c, nameTag, Tags(ts[..c]));
    }
  }

  /** Outside a..b-1 nothing of the two dates is printed. */
  lemma PickOutside(ts: seq<Token>, k: nat, a: nat, b: nat, st: Stamp, st': Stamp, x: nat,
                    nameTag: string, nth: nat, src: Source, src': Source, n: nat, n': nat)
    requires Numbered(ts, k) && a <= b <= |ts| && x < |ts| && !(a <= x < b) && x != k && Civil(st) && Civil(st')
    requires src.stamp == Pick(ts, a, b, st) && src'.stamp == Pick(ts, a, b, st')
    requires ts[x].Original? ==> src.original == src'.original
    requires ts[x].FileSize? ==> src.sizeKb == src'.sizeKb
    ensures Civil(src.stamp) && Civil(src'.stamp)
    ensures Piece(ts[x], src, nameTag, nth, n) == Piece(ts[x], src', nameTag, nth, n')
  {
    PickCivil(ts, a, b, st);
    PickCivil(ts, a, b, st');
    OtherTokens(ts, k, x);
    assert forall y :: a <= y < b ==> Slot(ts[y]) != Slot(ts[x]) || ts[x].NameTag?;
    hide Pad, TagText, BladeText, Numbered;
  }

  lemma WithText(t: Token, st: Stamp, s: string, other: string, nameTag: string, nth: nat, n: nat)
    requires (t.FileSize? || t.Original?) && Civil(st) && Digits(s) && Digits(other)
    requires t.FileSize? ==> s != "" && s[0] != '0'
    ensures Piece(t, With(t, st, s, other), nameTag, nth, n) == s
  {
    if t.FileSize? { SizeOf(s); }
  }

  /** Two files that differ in the dates of a..b-1 and the text of v agree everywhere else. */
  lemma Elsewhere(ts: seq<Token>, k: nat, a: nat, b: nat, v: nat, st: Stamp, st': Stamp, s: string, s': string,
                  other: string, nameTag: string, n: nat, n': nat, c: nat, d: nat)
    requires Numbered(ts, k) && a <= b <= |ts| && v < |ts| && Variable(ts[v]) && Civil(st) && Civil(st')
    requires Digits(s) && Digits(s') && Digits(other)
    requires c <= d <= |ts| && (d <= a || b <= c || a == b) && !(c <= k < d) && !(c <= v < d)
    ensures Civil(Pick(ts, a, b, st)) && Civil(Pick(ts, a, b, st'))
    ensures Render(ts, c, d, With(ts[v], Pick(ts, a, b, st), s, other), nameTag, n) ==
            Render(ts, c, d, With(ts[v], Pick(ts, a, b, st'), s', other), nameTag, n')
  {
    PickCivil(ts, a, b, st);
    PickCivil(ts, a, b, st');
    var src, src' := With(ts[v], Pick(ts, a, b, st), s, other), With(ts[v], Pick(ts, a, b, st'), s', other);
    assert v != k;
    OtherTokens(ts, k, v);
    forall x | c <= x < d
      ensures Piece(ts[x], src, nameTag, Tags(ts[..x]), n) == Piece(ts[x], src', nameTag, Tags(ts[..x]), n')
    {
      assert Slot(ts[x]) != Slot(ts[v]) || ts[x].NameTag?;
      PickOutside(ts, k, a, b, st, st', x, nameTag, Tags(ts[..x]), src, src', n, n');
    }
    SameRender(ts, c, d, nameTag, src, n, src', n');
  }

  // ---------------------------------------------------------------- the number against the text before it

  lemma FourParts(ts: seq<Token>, k: nat, a: nat, src: Source, nameTag: string, n: nat)
    requires Numbered(ts, k) && 0 < a <= k && Steady(ts, a, k) && Civil(src.stamp)
    ensures Name(ts, src, nameTag, n) ==
            Render(ts, 0, a - 1, src, nameTag, n) + (Piece(ts[a - 1], src, nameTag, Tags(ts[..a - 1]), n) +
            ((GapText(ts, a, k, src.stamp, nameTag) + Pad(n, Width(ts[k]))) + Render(ts, k + 1, |ts|, src, nameTag, n)))
  {
    hide Piece, Pad, Tokens, Steady, Render, GapText, Tags;
    RenderSplit(ts, 0, a - 1, |ts|, src, nameTag, n);
    FirstPiece(ts, a - 1, src, nameTag, n);
    RenderSplit(ts, a, k, |ts|, src, nameTag, n);
    NumberPiece(ts, k, src, nameTag, n);
    SteadyText(ts, a, k, src, nameTag, n);
    Together(GapText(ts, a, k, src.stamp, nameTag), Pad(n, Width(ts[k])), Render(ts, k + 1, |ts|, src, nameTag, n));
  }

  lemma Together(g: string, d: string, y: string)
    ensures g + (d + y) == (g + d) + y
  {
  }

  lemma NumberPiece(ts: seq<Token>, k: nat, src: Source, nameTag: string, n: nat)
    requires k < |ts| && IsNumber(ts[k]) && Civil(src.stamp)
    ensures Render(ts, k, |ts|, src, nameTag, n) == Pad(n, Width(ts[k])) + Render(ts, k + 1, |ts|, src, nameTag, n)
  {
  }

  lemma LeftCollides(ts: seq<Token>, k: nat, nameTag: string, st: Stamp, n: nat, st': Stamp, n': nat)
    requires Numbered(ts, k) && ts[k] == Ners(1) && GapStart(ts, k) > 0
    requires !Marked(ts, GapStart(ts, k), k, nameTag) && ShiftLeft(ts, GapStart(ts, k), k, nameTag, st, n, st', n')
    ensures CollidesPlainly(ts, k, nameTag)
  {
    hide Tokens, Marked, Piece, Pick, Render, Value, Pad, GapText, Name, Tags, TagText;
    var a := GapStart(ts, k);
    GapSteady(ts, k, a, k);
    var u, v := GapText(ts, a, k, st, nameTag) + Pad(n, 1), GapText(ts, a, k, st', nameTag) + Pad(n', 1);
    UnmarkedDigits(ts, a, k, st, nameTag);
    PadDigits(n, 1);
    var u0 := u[..|u| - |v|];
    assert u == u0 + v;
    assert Digits(u0) && Digits("1" + u0) && Digits("1");
    hide Digits, Steady;
    var p, p' := Pick(ts, a, k, st), Pick(ts, a, k, st');
    var src, src' := With(ts[a - 1], p, "1", "1"), With(ts[a - 1], p', "1" + u0, "1");
    PickGap(ts, a, k, a, k, st, nameTag);
    PickGap(ts, a, k, a, k, st', nameTag);
    FourParts(ts, k, a, src, nameTag, n);
    FourParts(ts, k, a, src', nameTag, n');
    OtherTokens(ts, k, a - 1);
    WithText(ts[a - 1], p, "1", "1", nameTag, Tags(ts[..a - 1]), n);
    WithText(ts[a - 1], p', "1" + u0, "1", nameTag, Tags(ts[..a - 1]), n');
    Elsewhere(ts, k, a, k, a - 1, st, st', "1", "1" + u0, "1", nameTag, n, n', 0, a - 1);
    Elsewhere(ts, k, a, k, a - 1, st, st', "1", "1" + u0, "1", nameTag, n, n', k + 1, |ts|);
    var y := Render(ts, k + 1, |ts|, src, nameTag, n);
    Grouped("1", u0, v, y);
    Together(u0, v, y);
    Together("1", u0, v + y);
    assert Collision(ts, k, nameTag, src, n, src', n');
  }

  // ---------------------------------------------------------------- the number against the text behind it

  lemma PartsBehind(ts: seq<Token>, k: nat, b: nat, src: Source, nameTag: string, n: nat)
    requires Numbered(ts, k) && k < b < |ts| && Steady(ts, k + 1, b) && Civil(src.stamp)
    ensures Name(ts, src, nameTag, n) ==
            Render(ts, 0, k, src, nameTag, n) + ((Pad(n, Width(ts[k])) + GapText(ts, k + 1, b, src.stamp, nameTag)) +
            (Piece(ts[b], src, nameTag, Tags(ts[..b]), n) + Render(ts, b + 1, |ts|, src, nameTag, n)))
  {
    hide Piece, Pad, Tokens, Steady, Render, GapText, Tags;
    RenderSplit(ts, 0, k, |ts|, src, nameTag, n);
    NumberPiece(ts, k, src, nameTag, n);
    RenderSplit(ts, k + 1, b, |ts|, src, nameTag, n);
    FirstPiece(ts, b, src, nameTag, n);
    SteadyText(ts, k + 1, b, src, nameTag, n);
    Together(Pad(n, Width(ts[k])), GapText(ts, k + 1, b, src.stamp, nameTag), Render(ts, b, |ts|, src, nameTag, n));
  }

  lemma RightCollides(ts: seq<Token>, k: nat, nameTag: string, st: Stamp, n: nat, st': Stamp, n': nat, z: nat)
    requires Numbered(ts, k) && ts[k] == Ners(1) && GapEnd(ts, k + 1) < |ts|
    requires var b := GapEnd(ts, k + 1);
             && !Marked(ts, k + 1, b, nameTag) && ShiftRight(ts, k, b, nameTag, st, n, st', n', z)
             && var u := Pad(n, 1) + GapText(ts, k + 1, b, st, nameTag);
                var v := Pad(n', 1) + GapText(ts, k + 1, b, st', nameTag);
                ts[b].Original? || u[|v|] != '0'
    ensures CollidesPlainly(ts, k, nameTag)
  {
    hide Tokens, Marked, Piece, Pick, Render, Value, Pad, GapText, Name, Tags, TagText, PastZero;
    var b := GapEnd(ts, k + 1);
    GapSteady(ts, k, k + 1, b);
    var u, v := Pad(n, 1) + GapText(ts, k + 1, b, st, nameTag), Pad(n', 1) + GapText(ts, k + 1, b, st', nameTag);
    UnmarkedDigits(ts, k + 1, b, st, nameTag);
    PadDigits(n, 1);
    var rest := u[|v|..];
    assert u == v + rest && rest[0] == u[|v|];
    assert Digits(rest) && Digits(rest + "1") && Digits("1") && (rest + "1")[0] == rest[0];
    hide Digits, Steady;
    OtherTokens(ts, k, b);
    var p, p' := Pick(ts, k + 1, b, st), Pick(ts, k + 1, b, st');
    var src, src' := With(ts[b], p, "1", "1"), With(ts[b], p', rest + "1", "1");
    PickGap(ts, k + 1, b, k + 1, b, st, nameTag);
    PickGap(ts, k + 1, b, k + 1, b, st', nameTag);
    PartsBehind(ts, k, b, src, nameTag, n);
    PartsBehind(ts, k, b, src', nameTag, n');
    WithText(ts[b], p, "1", "1", nameTag, Tags(ts[..b]), n);
    WithText(ts[b], p', rest + "1", "1", nameTag, Tags(ts[..b]), n');
    Elsewhere(ts, k, k + 1, b, b, st, st', "1", rest + "1", "1", nameTag, n, n', 0, k);
    Elsewhere(ts, k, k + 1, b, b, st, st', "1", rest + "1", "1", nameTag, n, n', b + 1, |ts|);
    var y := Render(ts, b + 1, |ts|, src, nameTag, n);
    Together(v, rest, "1" + y);
    Together(rest, "1", y);
    assert Collision(ts, k, nameTag, src, n, src', n');
  }

  /** Two files that differ in size, name and the dates of a..b-1 agree where none of these is printed. */
  lemma ElsewhereBoth(ts: seq<Token>, k: nat, a: nat, b: nat, v: nat, w: nat, st: Stamp, st': Stamp,
                      src: Source, src': Source, nameTag: string, n: nat, n': nat, c: nat, d: nat)
    requires Numbered(ts, k) && a <= b <= |ts| && v < |ts| && w < |ts| && ts[v].FileSize? && ts[w].Original?
    requires Civil(st) && Civil(st') && src.stamp == Pick(ts, a, b, st) && src'.stamp == Pick(ts, a, b, st')
    requires c <= d <= |ts| && (d <= a || b <= c) && !(c <= k < d) && !(c <= v < d) && !(c <= w < d)
    ensures Civil(src.stamp) && Civil(src'.stamp)
    ensures Render(ts, c, d, src, nameTag, n) == Render(ts, c, d, src', nameTag, n')
  {
    PickCivil(ts, a, b, st);
    PickCivil(ts, a, b, st');
    forall x | c <= x < d
      ensures Piece(ts[x], src, nameTag, Tags(ts[..x]), n) == Piece(ts[x], src', nameTag, Tags(ts[..x]), n')
    {
      assert Slot(ts[x]) != Slot(ts[v]) || ts[x].NameTag?;
      assert Slot(ts[x]) != Slot(ts[w]) || ts[x].NameTag?;
      PickOutside(ts, k, a, b, st, st', x, nameTag, Tags(ts[..x]), src, src', n, n');
    }
    SameRender(ts, c, d, nameTag, src, n, src', n');
  }

  lemma AfterName(ts: seq<Token>, k: nat, b: nat, src: Source, nameTag: string, n: nat)
    requires Numbered(ts, k) && k < b < |ts| && ts[b].FileSize? && Civil(src.stamp) && GapEnd(ts, b + 1) < |ts|
    ensures var c := GapEnd(ts, b + 1);
            && Steady(ts, b + 1, c) && ts[c].Original?
            && Render(ts, b + 1, |ts|, src, nameTag, n) ==
               GapText(ts, b + 1, c, src.stamp, nameTag) + (src.original + Render(ts, c + 1, |ts|, src, nameTag, n))
  {
    hide Tokens, Steady, Tags, Render, GapText;
    var c := GapEnd(ts, b + 1);
    NameAfterSize(ts, k, b, c);
    GapSteady(ts, k, b + 1, c);
    SteadyText(ts, b + 1, c, src, nameTag, n);
    RenderSplit(ts, b + 1, c, |ts|, src, nameTag, n);
    FirstPiece(ts, c, src, nameTag, n);
  }

  lemma NameAfterSize(ts: seq<Token>, k: nat, b: nat, c: nat)
    requires Numbered(ts, k) && k < b < c < |ts| && ts[b].FileSize? && Variable(ts[c])
    ensures ts[c].Original?
  {
    OtherTokens(ts, k, c);
    assert Slot(ts[c]) != Slot(ts[b]) || ts[b].NameTag?;
  }

  lemma ZeroCollides(ts: seq<Token>, k: nat, nameTag: string, st: Stamp, n: nat, st': Stamp, n': nat, z: nat)
    requires Numbered(ts, k) && ts[k] == Ners(1) && GapEnd(ts, k + 1) < |ts|
    requires var b := GapEnd(ts, k + 1);
             && !Marked(ts, k + 1, b, nameTag)
             && ts[b].FileSize? && ShiftRight(ts, k, b, nameTag, st, n, st', n', z)
             && var u := Pad(n, 1) + GapText(ts, k + 1, b, st, nameTag);
                var v := Pad(n', 1) + GapText(ts, k + 1, b, st', nameTag);
                u[|v|] == '0' && PastZero(ts, b, nameTag, u[|v| + 1..], st, st', z)
    ensures CollidesPlainly(ts, k, nameTag)
  {
    hide Tokens, Marked, Piece, Pick, Render, Pad, GapText, Name, Tags, TagText, Steady;
    var b := GapEnd(ts, k + 1);
    var c := GapEnd(ts, b + 1);
    GapSteady(ts, k, k + 1, b);
    var u, v := Pad(n, 1) + GapText(ts, k + 1, b, st, nameTag), Pad(n', 1) + GapText(ts, k + 1, b, st', nameTag);
    var rest := u[|v| + 1..];
    StripZero(u, v);
    var r, r' := GapText(ts, b + 1, c, st, nameTag), GapText(ts, b + 1, c, st', nameTag);
    var over := (rest + Pad(z, 1) + r)[|r'|..];
    Overhang(rest + Pad(z, 1) + r, r');
    OverDigits(ts, k, b, nameTag, rest, st, st', z) by { RestDigits(ts, k, b, nameTag, st, n, rest, |v| + 1); }
    var p, p' := Pick(ts, k + 1, c, st), Pick(ts, k + 1, c, st');
    var src, src' := Source(p, "", z), Source(p', over, 0);
    ZeroNames(ts, k, nameTag, st, st', src, src', n, n');
    SizeText(0);
    var y := Render(ts, c + 1, |ts|, src, nameTag, n);
    ZeroEqual(v, rest, Pad(z, 1), r, r', over, y);
    assert Collision(ts, k, nameTag, src, n, src', n');
  }

  lemma RestDigits(ts: seq<Token>, k: nat, b: nat, nameTag: string, st: Stamp, n: nat, rest: string, i: nat)
    requires k < b <= |ts| && Steady(ts, k + 1, b) && !Marked(ts, k + 1, b, nameTag) && Civil(st)
    requires var u := Pad(n, 1) + GapText(ts, k + 1, b, st, nameTag); i <= |u| && rest == u[i..]
    ensures Digits(rest)
  {
    hide Pad, GapText;
    UnmarkedDigits(ts, k + 1, b, st, nameTag);
    PadDigits(n, 1);
  }

  /** A text that fits behind a size has no mark, since marks stay at their places. */
  lemma OverDigits(ts: seq<Token>, k: nat, b: nat, nameTag: string, rest: string, st: Stamp, st': Stamp, z: nat)
    requires Numbered(ts, k) && k < b < |ts| && Civil(st) && Civil(st') && Digits(rest)
    requires PastZero(ts, b, nameTag, rest, st, st', z)
    ensures var c := GapEnd(ts, b + 1);
            Digits((rest + Pad(z, 1) + GapText(ts, b + 1, c, st, nameTag))[|GapText(ts, b + 1, c, st', nameTag)|..])
  {
    hide Pad, GapText, Marked, Steady, Tokens;
    var c := GapEnd(ts, b + 1);
    var r, r' := GapText(ts, b + 1, c, st, nameTag), GapText(ts, b + 1, c, st', nameTag);
    GapSteady(ts, k, b + 1, c);
    PadDigits(z, 1);
    SizeText(z);
    GapMarks(ts, k, b + 1, c, st, st', nameTag);
    GapMarks(ts, k, b + 1, c, st', st, nameTag);
    Unshifted(rest + Pad(z, 1), r, r');
  }

  lemma Unshifted(x: string, r: string, r': string)
    requires Digits(x) && x != "" && |r| == |r'| && r' <= x + r && Digits(r) == Digits(r')
    requires !Digits(r) ==> FirstMark(r) == FirstMark(r')
    ensures Digits((x + r)[|r'|..])
  {
    forall i | 0 <= i < |r'| ensures r'[i] == if i < |x| then x[i] else r[i - |x|] {
      assert r'[i] == (x + r)[i];
    }
    if !Digits(r) { assert false; }
  }

  lemma StripZero(u: string, v: string)
    requires v < u && u[|v|] == '0'
    ensures u == v + ("0" + u[|v| + 1..])
  {
  }

  lemma Overhang(s: string, t: string)
    requires t <= s
    ensures s == t + s[|t|..]
  {
  }

  lemma ZeroEqual(v: string, rest: string, z: string, r: string, r': string, over: string, y: string)
    requires rest + z + r == r' + over
    ensures (v + ("0" + rest)) + (z + (r + ("" + y))) == v + ("0" + (r' + (over + y)))
  {
    Together(v, "0" + rest, z + (r + y));
    Together("0", rest, z + (r + y));
    Together(z, r, y);
    Together(rest, z + r, y);
    assert rest + (z + r) == rest + z + r && "" + y == y;
    Together(r', over, y);
  }

  lemma ZeroNames(ts: seq<Token>, k: nat, nameTag: string, st: Stamp, st': Stamp, src: Source, src': Source, n: nat, n': nat)
    requires Numbered(ts, k) && ts[k] == Ners(1) && Civil(st) && Civil(st')
    requires var b := GapEnd(ts, k + 1);
             && b < |ts| && ts[b].FileSize? && GapEnd(ts, b + 1) < |ts|
             && src.stamp == Pick(ts, k + 1, GapEnd(ts, b + 1), st)
             && src'.stamp == Pick(ts, k + 1, GapEnd(ts, b + 1), st')
    ensures Civil(src.stamp) && Civil(src'.stamp)
    ensures var b := GapEnd(ts, k + 1);
            var c := GapEnd(ts, b + 1);
            var x, y := Render(ts, 0, k, src, nameTag, n), Render(ts, c + 1, |ts|, src, nameTag, n);
            && Name(ts, src, nameTag, n) == x + ((Pad(n, 1) + GapText(ts, k + 1, b, st, nameTag)) +
               (Pad(src.sizeKb, 1) + (GapText(ts, b + 1, c, st, nameTag) + (src.original + y))))
            && Name(ts, src', nameTag, n') == x + ((Pad(n', 1) + GapText(ts, k + 1, b, st', nameTag)) +
               (Pad(src'.sizeKb, 1) + (GapText(ts, b + 1, c, st', nameTag) + (src'.original + y))))
  {
    hide Tokens, Pick, Render, Pad, GapText, Name, Tags, Steady;
    var b := GapEnd(ts, k + 1);
    var c := GapEnd(ts, b + 1);
    GapSteady(ts, k, k + 1, b);
    PickCivil(ts, k + 1, c, st);
    PickCivil(ts, k + 1, c, st');
    AfterName(ts, k, b, src, nameTag, n);
    AfterName(ts, k, b, src', nameTag, n');
    PickGap(ts, k + 1, c, k + 1, b, st, nameTag);
    PickGap(ts, k + 1, c, k + 1, b, st', nameTag);
    PickGap(ts, k + 1, c, b + 1, c, st, nameTag);
    PickGap(ts, k + 1, c, b + 1, c, st', nameTag);
    PartsBehind(ts, k, b, src, nameTag, n);
    PartsBehind(ts, k, b, src', nameTag, n');
    ElsewhereBoth(ts, k, k + 1, c, b, c, st, st', src, src', nameTag, n, n', 0, k);
    ElsewhereBoth(ts, k, k + 1, c, b, c, st, st', src, src', nameTag, n, n', c + 1, |ts|);
  }

  // ---------------------------------------------------------------- size and name on both sides

  lemma BetweenCollides(ts: seq<Token>, k: nat, nameTag: string)
    requires Numbered(ts, k) && GapStart(ts, k) > 0 && GapEnd(ts, k + 1) < |ts|
    requires !Marked(ts, GapStart(ts, k), k, nameTag) && !Marked(ts, k + 1, GapEnd(ts, k + 1), nameTag)
    ensures CollidesPlainly(ts, k, nameTag)
  {
    hide Tokens, Marked, Piece, Render, Pad, GapText, Name, Tags, TagText, Value, Pow10;
    var a, b, w, st := GapStart(ts, k), GapEnd(ts, k + 1), Width(ts[k]), Stamp(2000, 1, 1, 0, 0, 0);
    GapSteady(ts, k, a, k);
    GapSteady(ts, k, k + 1, b);
    UnmarkedDigits(ts, a, k, st, nameTag);
    UnmarkedDigits(ts, k + 1, b, st, nameTag);
    PadDigits(0, w);
    PadDigits(1, w);
    var p, q := GapBefore(ts, k, st, nameTag), GapBehind(ts, k, st, nameTag);
    var long, long' := "1" + p + Pad(1, w) + q + "1", "1" + p + Pad(0, w) + q + "1";
    assert Digits(long) && Digits(long') && Digits("1");
    hide Digits, Steady;
    var src, src' := With(ts[a - 1], st, "1", long), With(ts[a - 1], st, long', "1");
    Outside(ts, k);
    BetweenName(ts, k, nameTag, st, "1", long, 0);
    BetweenName(ts, k, nameTag, st, long', "1", 1);
    var x, y := GapText(ts, 0, a - 1, st, nameTag), GapText(ts, b + 1, |ts|, st, nameTag);
    BetweenEqual(x, p, Pad(0, w), Pad(1, w), q, y);
    TopPositive(ts, k);
    assert Collision(ts, k, nameTag, src, 0, src', 1);
  }

  lemma TopPositive(ts: seq<Token>, k: nat)
    requires Numbered(ts, k)
    ensures Top(ts[k]) >= 1
  {
    assert ts[k] in ts;
    assert Pow10(4) == 10000 && Pow10(6) == 1000000 && Pow10(8) == 100000000;
  }

  lemma BetweenName(ts: seq<Token>, k: nat, nameTag: string, st: Stamp, l: string, r: string, n: nat)
    requires Numbered(ts, k) && GapStart(ts, k) > 0 && GapEnd(ts, k + 1) < |ts| && Civil(st)
    requires Digits(l) && Digits(r) && l != "" && r != "" && l[0] != '0' && r[0] != '0'
    ensures var a, b := GapStart(ts, k), GapEnd(ts, k + 1);
            Name(ts, With(ts[a - 1], st, l, r), nameTag, n) ==
            (GapText(ts, 0, a - 1, st, nameTag) + l) + (GapBefore(ts, k, st, nameTag) + (Pad(n, Width(ts[k])) +
            (GapBehind(ts, k, st, nameTag) + (r + GapText(ts, b + 1, |ts|, st, nameTag)))))
  {
    hide Tokens, Render, Pad, GapText, Name, Tags, Value, Digits, Width, GapStart, GapEnd, Piece;
    var a, b := GapStart(ts, k), GapEnd(ts, k + 1);
    var src := With(ts[a - 1], st, l, r);
    Outside(ts, k);
    assert src == With(ts[b], st, r, l);
    FiveParts(ts, k, nameTag, src, n);
    OutsideText(ts, k, nameTag, src, n);
    WithText(ts[a - 1], st, l, r, nameTag, Tags(ts[..a - 1]), n);
    WithText(ts[b], st, r, l, nameTag, Tags(ts[..b]), n);
  }

  lemma BetweenEqual(x: string, p: string, d: string, d': string, q: string, y: string)
    ensures (x + "1") + (p + (d + (q + (("1" + p + d' + q + "1") + y)))) ==
            (x + ("1" + p + d + q + "1")) + (p + (d' + (q + ("1" + y))))
  {
    var e := "1";
    Spread(p, d', q, y);
    Spread(p, d, q, p + (d' + (q + (e + y))));
    Together(x, "1" + p + d + q + "1", p + (d' + (q + (e + y))));
    Together(x, e, p + (d + (q + (e + (p + (d' + (q + (e + y))))))));
  }

  lemma Spread(p: string, d: string, q: string, y: string)
    ensures ("1" + p + d + q + "1") + y == "1" + (p + (d + (q + ("1" + y))))
  {
    Together("1" + p + d + q, "1", y);
    Together("1" + p + d, q, "1" + y);
    Together("1" + p, d, q + ("1" + y));
    Together("1", p, d + (q + ("1" + y)));
  }

  lemma OneAndEleven()
    ensures Pad(1, 1) == "1" && Pad(11, 1) == "11"
  {
    assert Pad(1, 0) == Pad(0, 0) + [Digit(1)] == "1";
    assert Pad(1, 1) == Pad(0, 0) + [Digit(1)] == "1" && Pad(11, 1) == Pad(1, 0) + [Digit(1)] == "11";
  }

  /** A number of no fixed width right beside a size or a name always clashes. */
  lemma AdjacentClashes(ts: seq<Token>, k: nat, nameTag: string)
    requires k < |ts| && ts[k] == Ners(1)
    requires (k > 0 && Variable(ts[k - 1])) || (k + 1 < |ts| && (ts[k + 1].FileSize? || ts[k + 1].Original?))
    ensures Clash(ts, k, nameTag)
  {
    hide Pad, Piece, PastZero;
    var st := Stamp(2000, 1, 1, 0, 0, 0);
    OneAndEleven();
    if k > 0 && Variable(ts[k - 1]) {
      assert GapStart(ts, k) == k && GapText(ts, k, k, st, nameTag) == "";
      assert ("" + Pad(11, 1))[1..] == "" + Pad(1, 1);
      assert ShiftLeft(ts, k, k, nameTag, st, 11, st, 1);
    } else {
      assert GapEnd(ts, k + 1) == k + 1 && GapText(ts, k + 1, k + 1, st, nameTag) == "";
      assert ShiftRight(ts, k, k + 1, nameTag, st, 11, st, 1, 0);
    }
  }

  // ---------------------------------------------------------------- exactly these templates

  lemma ClashCollides(ts: seq<Token>, k: nat, nameTag: string)
    requires Numbered(ts, k) && Clash(ts, k, nameTag)
    ensures CollidesPlainly(ts, k, nameTag)
  {
    hide Tokens, Marked, ShiftLeft, ShiftRight, CollidesPlainly;
    var a, b := GapStart(ts, k), GapEnd(ts, k + 1);
    var left, right := a > 0 && !Marked(ts, a, k, nameTag), b < |ts| && !Marked(ts, k + 1, b, nameTag);
    if left && right {
      BetweenCollides(ts, k, nameTag);
    } else if left {
      var st, n, st', n' :| ShiftLeft(ts, a, k, nameTag, st, n, st', n');
      LeftCollides(ts, k, nameTag, st, n, st', n');
    } else {
      var st, n, st', n', z :| ShiftRight(ts, k, b, nameTag, st, n, st', n', z);
      ShiftCollides(ts, k, nameTag, st, n, st', n', z);
    }
  }

  lemma ShiftCollides(ts: seq<Token>, k: nat, nameTag: string, st: Stamp, n: nat, st': Stamp, n': nat, z: nat)
    requires Numbered(ts, k) && ts[k] == Ners(1) && GapEnd(ts, k + 1) < |ts|
    requires !Marked(ts, k + 1, GapEnd(ts, k + 1), nameTag)
    requires ShiftRight(ts, k, GapEnd(ts, k + 1), nameTag, st, n, st', n', z)
    ensures CollidesPlainly(ts, k, nameTag)
  {
    hide Tokens, Marked, CollidesPlainly, Pad, GapText, PastZero;
    var b := GapEnd(ts, k + 1);
    var u := Pad(n, 1) + GapText(ts, k + 1, b, st, nameTag);
    var v := Pad(n', 1) + GapText(ts, k + 1, b, st', nameTag);
    if ts[b].Original? || u[|v|] != '0' {
      RightCollides(ts, k, nameTag, st, n, st', n', z);
    } else {
      OtherTokens(ts, k, b);
      ZeroCollides(ts, k, nameTag, st, n, st', n', z);
    }
  }

  /** A template keeps different numbers apart in all names, whatever the files and the dates, exactly when it
      does not clash. */
  lemma ReadableExactly(ts: seq<Token>, k: nat, nameTag: string)
    requires Numbered(ts, k)
    ensures Collides(ts, k, nameTag) <==> Clash(ts, k, nameTag)
  {
    hide Tokens, Clash;
    if Clash(ts, k, nameTag) {
      ClashCollides(ts, k, nameTag);
    } else {
      forall src, n, src', n' ensures !Collision(ts, k, nameTag, src, n, src', n') {
        if Collision(ts, k, nameTag, src, n, src', n') { NumberReads(ts, k, nameTag, src, src', n, n'); }
      }
    }
  }

  // ---------------------------------------------------------------- templates with a blade id

  lemma {:induction false} DigitsBlade(s: string)
    requires Digits(s)
    ensures BladeText(s) == ""
  {
    NoPlus(s);
  }

  lemma {:induction false} NoPlus(s: string)
    requires Digits(s)
    ensures FirstPlus(s) < 0
  {
    if s != "" {
      assert IsDigit(s[0]) && forall i :: 0 <= i < |s[1..]| ==> s[1..][i] == s[i + 1];
      NoPlus(s[1..]);
    }
  }

  /** The tokens without the one at x. */
  function Without(ts: seq<Token>, x: nat): seq<Token>
    requires x < |ts|
  {
    ts[..x] + ts[x + 1..]
  }

  function Place(k: nat, x: nat): nat
    requires k != x
  {
    if k < x then k else k - 1
  }

  lemma {:induction false} TagsWithout(ts: seq<Token>, x: nat, i: nat)
    requires x < i <= |ts| && !ts[x].NameTag?
    ensures Tags(ts[..i]) == Tags(Without(ts, x)[..i - 1])
    decreases i
  {
    var us := Without(ts, x);
    assert ts[..i] == ts[..i - 1] + [ts[i - 1]];
    TagsNext(ts[..i - 1], ts[i - 1]);
    if i - 1 == x {
      assert us[..x] == ts[..x];
    } else {
      TagsWithout(ts, x, i - 1);
      assert us[..i - 1] == us[..i - 2] + [us[i - 2]] && us[i - 2] == ts[i - 1];
      TagsNext(us[..i - 2], us[i - 2]);
    }
  }

  lemma {:induction false} RenderBefore(ts: seq<Token>, x: nat, a: nat, src: Source, nameTag: string, n: nat)
    requires a <= x < |ts| && Civil(src.stamp)
    ensures Render(ts, a, x, src, nameTag, n) == Render(Without(ts, x), a, x, src, nameTag, n)
    decreases x - a
  {
    if a < x {
      RenderBefore(ts, x, a + 1, src, nameTag, n);
      assert Without(ts, x)[..a] == ts[..a];
    }
  }

  lemma {:induction false} RenderAfter(ts: seq<Token>, x: nat, a: nat, src: Source, nameTag: string, n: nat)
    requires x < a <= |ts| && Civil(src.stamp) && !ts[x].NameTag?
    ensures Render(ts, a, |ts|, src, nameTag, n) == Render(Without(ts, x), a - 1, |ts| - 1, src, nameTag, n)
    decreases |ts| - a
  {
    if a < |ts| {
      RenderAfter(ts, x, a + 1, src, nameTag, n);
      TagsWithout(ts, x, a);
      var us := Without(ts, x);
      assert us[a - 1] == ts[a];
      FirstPiece(ts, a, src, nameTag, n);
      FirstPiece(us, a - 1, src, nameTag, n);
      hide Render, Piece, Tags;
    }
  }

  /** A blade id prints nothing for a file that is not from a blade. */
  lemma BladeIgnored(ts: seq<Token>, x: nat, src: Source, nameTag: string, n: nat)
    requires x < |ts| && ts[x].Bid? && Civil(src.stamp) && BladeText(src.original) == ""
    ensures Name(ts, src, nameTag, n) == Name(Without(ts, x), src, nameTag, n)
  {
    hide BladeText, Render, Tags;
    RenderSplit(ts, 0, x, |ts|, src, nameTag, n);
    FirstPiece(ts, x, src, nameTag, n);
    RenderBefore(ts, x, 0, src, nameTag, n);
    RenderAfter(ts, x, x + 1, src, nameTag, n);
    RenderSplit(Without(ts, x), 0, x, |ts| - 1, src, nameTag, n);
    Nothing(Render(ts, x + 1, |ts|, src, nameTag, n));
  }

  lemma Nothing(y: string)
    ensures "" + y == y
  {
  }

  /** A template with a blade id clashes at least when it does without it. */
  lemma BladeCollides(ts: seq<Token>, k: nat, x: nat, nameTag: string)
    requires Tokens(ts, true) && k < |ts| && IsNumber(ts[k]) && x < |ts| && ts[x].Bid?
    requires Clash(Without(ts, x), Place(k, x), nameTag)
    ensures Collides(ts, k, nameTag)
  {
    hide Clash, Name, Top;
    var us, j := Without(ts, x), Place(k, x);
    assert us[j] == ts[k];
    StillTokens(ts, x);
    ClashCollides(us, j, nameTag);
    var src, n, src', n' :|
      Collision(us, j, nameTag, src, n, src', n') && Digits(src.original) && Digits(src'.original);
    DigitsBlade(src.original);
    DigitsBlade(src'.original);
    BladeIgnored(ts, x, src, nameTag, n);
    BladeIgnored(ts, x, src', nameTag, n');
    assert Collision(ts, k, nameTag, src, n, src', n');
  }

  lemma StillTokens(ts: seq<Token>, x: nat)
    requires Tokens(ts, true) && x < |ts| && ts[x].Bid?
    ensures Tokens(Without(ts, x), false)
  {
    var us := Without(ts, x);
    forall i, j | 0 <= i < j < |us| ensures Slot(us[i]) != Slot(us[j]) || us[i].NameTag? {
      var a, b := if i < x then i else i + 1, if j < x then j else j + 1;
      assert us[i] == ts[a] && us[j] == ts[b] && a < b;
    }
    forall y | 0 <= y < |ts| && y != x ensures ValidToken(ts[y]) && !ts[y].Bid? {
      assert ts[y] in ts && (Slot(ts[y]) != Slot(ts[x]) || ts[y].NameTag?);
    }
    forall i | 0 <= i < |us| ensures us[i] == ts[if i < x then i else i + 1] {
    }
  }
}
