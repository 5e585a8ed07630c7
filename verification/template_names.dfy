/** The names createFileName builds and the numbers that go into them. */
module TemplateNames {
  import opened Options
  import opened TemplateGrammar
  import opened Text
  import opened Numbers

  /** The fields of the local time that are printed. */
  datatype Stamp = Stamp(year: nat, month: nat, day: nat, hour: nat, minute: nat, second: nat)

  function DaysIn(year: nat, month: nat): nat {
    if month == 2 then (if year % 4 == 0 then 29 else 28)
    else if month == 4 || month == 6 || month == 9 || month == 11 then 30 else 31
  }

  /** A local time of the years 2000 to 2099. */
  predicate Civil(t: Stamp) {
    && 2000 <= t.year < 2100 && 1 <= t.month <= 12 && 1 <= t.day <= DaysIn(t.year, t.month)
    && t.hour < 24 && t.minute < 60 && t.second <= 60
  }

  /** What a name takes from its file. */
  datatype Source = Source(stamp: Stamp, original: string, sizeKb: nat)

  /** find_first_of('+'), -1 when there is none. */
  function FirstPlus(s: string): (i: int)
    ensures -1 <= i < |s|
  {
    if s == "" then -1
    else if s[0] == '+' then 0
    else var i := FirstPlus(s[1..]); if i < 0 then -1 else i + 1
  }

  /** The text of the b token: two characters from the name of an RTR file of a blade, else nothing. */
  function BladeText(original: string): string {
    var plus := FirstPlus(original);
    if plus < 0 || !("RTR" <= original[plus + 1..]) then ""
    else
      var id := original[..plus];
      if "BC" <= id && |id| == 3 then "0" + id[2..]
      else if "BC" <= id && |id| == 4 then id[2..]
      else if "CP" <= id && |id| == 3 then "9" + id[2..]
      else ""
  }

  predicate IsNumber(t: Token) {
    t.Pers? || t.Ners?
  }

  /** Digits printed at least. */
  function Width(t: Token): nat
    requires IsNumber(t)
  {
    if t.Pers? && t.letters == 1 then 4 else t.letters
  }

  /** Largest number before it starts again. */
  function Top(t: Token): nat
    requires IsNumber(t)
  {
    if t.letters == 1 then 9999 else Pow10(t.letters) - 1
  }

  /** nameTagPart1_ and nameTagPart2_: the text around the first asterisk. */
  function Asterisk(nameTag: string): (i: nat)
    requires '*' in nameTag
    ensures i < |nameTag| && nameTag[i] == '*' && '*' !in nameTag[..i]
  {
    if nameTag[0] == '*' then 0 else 1 + Asterisk(nameTag[1..])
  }

  function TagText(nameTag: string, nth: nat): string {
    if '*' !in nameTag then nameTag
    else if nth == 0 then nameTag[..Asterisk(nameTag)]
    else if nth == 1 then nameTag[Asterisk(nameTag) + 1..]
    else ""
  }

  function Piece(t: Token, src: Source, nameTag: string, nth: nat, number: nat): string
    requires Civil(src.stamp)
  {
    match t
    case TwoYear => Pad(src.stamp.year - 2000, 2)
    case FourYear => Pad(src.stamp.year, 4)
    case Month => Pad(src.stamp.month, 2)
    case Day => Pad(src.stamp.day, 2)
    case Hour => Pad(src.stamp.hour, 2)
    case Minute => Pad(src.stamp.minute, 2)
    case Second => Pad(src.stamp.second, 2)
    case Pers(_) => Pad(number, Width(t))
    case Ners(_) => Pad(number, Width(t))
    case FileSize => Pad(src.sizeKb, 1)
    case Original => src.original
    case NameTag => TagText(nameTag, nth)
    case Bid => BladeText(src.original)
  }

  /** The text of the tokens a..b-1. */
  function Render(ts: seq<Token>, a: nat, b: nat, src: Source, nameTag: string, number: nat): string
    requires a <= b <= |ts| && Civil(src.stamp)
    decreases b - a
  {
    if a == b then ""
    else Piece(ts[a], src, nameTag, Tags(ts[..a]), number) + Render(ts, a + 1, b, src, nameTag, number)
  }

  function Name(ts: seq<Token>, src: Source, nameTag: string, number: nat): string
    requires Civil(src.stamp)
  {
    Render(ts, 0, |ts|, src, nameTag, number)
  }

  lemma {:induction false} RenderSplit(ts: seq<Token>, a: nat, b: nat, c: nat,
                                       src: Source, nameTag: string, number: nat)
    requires a <= b <= c <= |ts| && Civil(src.stamp)
    ensures Render(ts, a, c, src, nameTag, number) ==
            Render(ts, a, b, src, nameTag, number) + Render(ts, b, c, src, nameTag, number)
    decreases b - a
  {
    if a < b { RenderSplit(ts, a + 1, b, c, src, nameTag, number); }
  }

  /** Tokens whose text has one length, whatever the file, the date and the number. */
  predicate Fixed(t: Token) {
    !t.FileSize? && !t.Original? && !t.Bid? && t != Ners(1)
  }

  predicate AllFixed(ts: seq<Token>) {
    forall t :: t in ts ==> Fixed(t) && ValidToken(t)
  }

  /** Numbers that fit each number token of ts. */
  predicate Fits(ts: seq<Token>, number: nat) {
    forall t :: t in ts && IsNumber(t) ==> number <= Top(t)
  }

  lemma PieceLength(t: Token, src: Source, src': Source, nameTag: string, nth: nat, n: nat, n': nat)
    requires Fixed(t) && ValidToken(t) && Civil(src.stamp) && Civil(src'.stamp)
    requires IsNumber(t) ==> n <= Top(t) && n' <= Top(t)
    ensures |Piece(t, src, nameTag, nth, n)| == |Piece(t, src', nameTag, nth, n')|
  {
    assert Pow10(2) == 100 && Pow10(4) == 10000;
    match t
    case TwoYear => PadLength(src.stamp.year - 2000, 2); PadLength(src'.stamp.year - 2000, 2);
    case FourYear => PadLength(src.stamp.year, 4); PadLength(src'.stamp.year, 4);
    case Month => PadLength(src.stamp.month, 2); PadLength(src'.stamp.month, 2);
    case Day => PadLength(src.stamp.day, 2); PadLength(src'.stamp.day, 2);
    case Hour => PadLength(src.stamp.hour, 2); PadLength(src'.stamp.hour, 2);
    case Minute => PadLength(src.stamp.minute, 2); PadLength(src'.stamp.minute, 2);
    case Second => PadLength(src.stamp.second, 2); PadLength(src'.stamp.second, 2);
    case Pers(_) => PadLength(n, Width(t)); PadLength(n', Width(t));
    case Ners(_) => PadLength(n, Width(t)); PadLength(n', Width(t));
    case NameTag =>
  }

  lemma {:induction false} FixedLength(ts: seq<Token>, a: nat, b: nat, src: Source, src': Source,
                                       nameTag: string, n: nat, n': nat)
    requires a <= b <= |ts| && AllFixed(ts[a..b]) && Civil(src.stamp) && Civil(src'.stamp)
    requires Fits(ts, n) && Fits(ts, n')
    ensures |Render(ts, a, b, src, nameTag, n)| == |Render(ts, a, b, src', nameTag, n')|
    decreases b - a
  {
    if a < b {
      assert ts[a] in ts[a..b] && ts[a] in ts;
      assert forall t :: t in ts[a + 1..b] ==> t in ts[a..b];
      PieceLength(ts[a], src, src', nameTag, Tags(ts[..a]), n, n');
      FixedLength(ts, a + 1, b, src, src', nameTag, n, n');
    }
  }

  /** Nothing of variable length stands on one side of the number or, when its own length varies, on both. */
  predicate OneSideFixed(ts: seq<Token>, k: nat)
    requires k < |ts|
  {
    var before, after := AllFixed(ts[..k]), AllFixed(ts[k + 1..]);
    (before && after) || (Fixed(ts[k]) && (before || after))
  }

  /** Equal texts that agree in the length of a first part agree in both parts. */
  lemma SplitEqual(x: string, y: string, u: string, v: string)
    requires x + y == u + v && (|x| == |u| || |y| == |v|)
    ensures x == u && y == v
  {
    assert |x| == |u|;
    assert (x + y)[..|x|] == x && (u + v)[..|x|] == u;
    assert (x + y)[|x|..] == y && (u + v)[|x|..] == v;
  }

  lemma NumberPart(x: string, p: string, y: string, x': string, p': string, y': string)
    requires x + (p + y) == x' + (p' + y')
    requires (|x| == |x'| && (|y| == |y'| || |p| == |p'|)) || (|y| == |y'| && |p| == |p'|)
    ensures p == p'
  {
    SplitEqual(x, p + y, x', p' + y');
    SplitEqual(p, y, p', y');
  }

  lemma NameParts(ts: seq<Token>, k: nat, nameTag: string, src: Source, n: nat)
    requires k < |ts| && IsNumber(ts[k]) && Civil(src.stamp)
    ensures Name(ts, src, nameTag, n) ==
            Render(ts, 0, k, src, nameTag, n) +
            (Pad(n, Width(ts[k])) + Render(ts, k + 1, |ts|, src, nameTag, n))
  {
    RenderSplit(ts, 0, k, |ts|, src, nameTag, n);
  }

  lemma PartLengths(ts: seq<Token>, k: nat, nameTag: string, src: Source, src': Source, n: nat, n': nat)
    requires k < |ts| && IsNumber(ts[k]) && ValidToken(ts[k])
    requires Civil(src.stamp) && Civil(src'.stamp) && Fits(ts, n) && Fits(ts, n')
    ensures AllFixed(ts[..k]) ==>
              |Render(ts, 0, k, src, nameTag, n)| == |Render(ts, 0, k, src', nameTag, n')|
    ensures AllFixed(ts[k + 1..]) ==>
              |Render(ts, k + 1, |ts|, src, nameTag, n)| == |Render(ts, k + 1, |ts|, src', nameTag, n')|
    ensures Fixed(ts[k]) ==> |Pad(n, Width(ts[k]))| == |Pad(n', Width(ts[k]))|
  {
    hide Render, Piece, Pad, Civil, Width, ValidToken;
    if AllFixed(ts[..k]) {
      assert ts[0..k] == ts[..k];
      FixedLength(ts, 0, k, src, src', nameTag, n, n');
    }
    if AllFixed(ts[k + 1..]) {
      assert ts[k + 1..|ts|] == ts[k + 1..];
      FixedLength(ts, k + 1, |ts|, src, src', nameTag, n, n');
    }
    if Fixed(ts[k]) { NumberLength(ts, k, nameTag, src, src', n, n'); }
  }

  lemma NumberLength(ts: seq<Token>, k: nat, nameTag: string, src: Source, src': Source, n: nat, n': nat)
    requires k < |ts| && IsNumber(ts[k]) && ValidToken(ts[k]) && Fixed(ts[k])
    requires Civil(src.stamp) && Civil(src'.stamp) && Fits(ts, n) && Fits(ts, n')
    ensures |Pad(n, Width(ts[k]))| == |Pad(n', Width(ts[k]))|
  {
    assert ts[k] in ts;
    PieceLength(ts[k], src, src', nameTag, 0, n, n');
    hide Pad;
  }

  /** Then different numbers give different names, whatever the files and the dates are. */
  lemma FixedSideReads(ts: seq<Token>, k: nat, nameTag: string, src: Source, src': Source, n: nat, n': nat)
    requires k < |ts| && IsNumber(ts[k]) && ValidToken(ts[k]) && OneSideFixed(ts, k)
    requires Civil(src.stamp) && Civil(src'.stamp) && Fits(ts, n) && Fits(ts, n')
    requires Name(ts, src, nameTag, n) == Name(ts, src', nameTag, n')
    ensures n == n'
  {
    NameParts(ts, k, nameTag, src, n);
    NameParts(ts, k, nameTag, src', n');
    PartLengths(ts, k, nameTag, src, src', n, n');
    NumberPart(Render(ts, 0, k, src, nameTag, n), Pad(n, Width(ts[k])),
               Render(ts, k + 1, |ts|, src, nameTag, n),
               Render(ts, 0, k, src', nameTag, n'), Pad(n', Width(ts[k])),
               Render(ts, k + 1, |ts|, src', nameTag, n'));
    PadInjective(n, n', Width(ts[k]));
  }

  // ---------------------------------------------------------------- sequence numbers

  /** persistentNr_ and the content of persist.nr. */
  datatype Counter = Counter(mem: nat, disk: Option<nat>)

  datatype Op = Named | Commit | Restart

  /** A startup number that was never set is stored as -1. */
  function Startup(s: int): int {
    if s == -1 then 0 else s
  }

  /** The number the next name takes: the file wins over the member. */
  function Current(c: Counter): nat {
    match c.disk
    case Some(v) => v
    case None => c.mem
  }

  function After(n: nat, top: nat, s: nat): nat {
    if n + 1 > top then s else n + 1
  }

  /** A new object on the same directory. */
  function Open(disk: Option<nat>, s: nat): Counter {
    Counter(match disk case Some(v) => v case None => s, disk)
  }

  /** What becomes of writing persist.nr: when only the number cannot be written, the file is left empty. */
  datatype Write = Written | NotOpened | Emptied

  function Committing(c: Counter, w: Write): Counter {
    Counter(c.mem, match w case Written => Some(c.mem) case NotOpened => c.disk case Emptied => None)
  }

  function Step(c: Counter, op: Op, top: nat, s: nat): Counter {
    match op
    case Named => Counter(After(Current(c), top, s), c.disk)
    case Commit => Committing(c, Written)
    case Restart => Open(Some(c.mem), s)
  }

  /** The numbers that go into names. */
  function Used(c: Counter, ops: seq<Op>, top: nat, s: nat): seq<nat>
    decreases |ops|
  {
    if ops == [] then []
    else (if ops[0].Named? then [Current(c)] else []) + Used(Step(c, ops[0], top, s), ops[1..], top, s)
  }

  /** Each name is committed, or the object destroyed, before the next one. */
  predicate Committed(ops: seq<Op>) {
    forall i :: 0 <= i && i + 1 < |ops| && ops[i].Named? ==> !ops[i + 1].Named?
  }

  predicate Ready(c: Counter, ops: seq<Op>) {
    Committed(ops) && (c.disk == None || c.disk == Some(c.mem) || (ops != [] ==> !ops[0].Named?))
  }

  /** Numbers before the first one that starts again. */
  function Climb(m: nat, top: nat): nat {
    if m <= top then top - m else 0
  }

  /** The k-th number of a count that starts anywhere, climbs to top and then runs from s to top. */
  function Nth(m: nat, top: nat, s: nat, k: nat): nat
    requires s <= top
  {
    if k <= Climb(m, top) then m + k else s + (k - Climb(m, top) - 1) % (top + 1 - s)
  }

  predicate CountsFrom(used: seq<nat>, m: nat, top: nat, s: nat)
    requires s <= top
  {
    forall k :: 0 <= k < |used| ==> used[k] == Nth(m, top, s, k)
  }

  lemma NthNext(m: nat, top: nat, s: nat, k: nat)
    requires s <= top
    ensures Nth(m, top, s, k + 1) == Nth(After(m, top, s), top, s, k)
  {
    if m >= top {
      var d := top + 1 - s;
      assert Nth(m, top, s, k + 1) == s + k % d;
      NthFromStart(top, s, k);
    }
  }

  /** From the startup number on it is one modular count. */
  lemma NthFromStart(top: nat, s: nat, k: nat)
    requires s <= top
    ensures Nth(s, top, s, k) == s + k % (top + 1 - s)
  {
    var d := top + 1 - s;
    if k < d {
      QuotientIs(k, d, 0, k);
    } else {
      ModPlusDivisor(k - d, d);
    }
  }

  lemma ReadyNext(c: Counter, ops: seq<Op>, top: nat, s: nat)
    requires ops != [] && Ready(c, ops)
    ensures Ready(Step(c, ops[0], top, s), ops[1..])
  {
    var rest := ops[1..];
    forall i | 0 <= i && i + 1 < |rest| && rest[i].Named? ensures !rest[i + 1].Named? {
      assert rest[i] == ops[i + 1] && rest[i + 1] == ops[i + 2];
    }
    if rest != [] { assert rest[0] == ops[0 + 1]; }
  }

  /** However often the object is rebuilt, the k-th number continues the count from where it was opened,
      which may be below the startup number or above the top: no gap and no repeat. */
  lemma {:induction false} NumbersContinue(c: Counter, ops: seq<Op>, top: nat, s: nat)
    requires Ready(c, ops) && s <= top
    ensures CountsFrom(Used(c, ops, top, s), c.mem, top, s)
    decreases |ops|
  {
    if ops != [] {
      var next := Step(c, ops[0], top, s);
      ReadyNext(c, ops, top, s);
      NumbersContinue(next, ops[1..], top, s);
      assert Nth(c.mem, top, s, 0) == c.mem;
      hide Nth;
      var used, more := Used(c, ops, top, s), Used(next, ops[1..], top, s);
      if ops[0].Named? {
        forall k | 0 <= k < |used| ensures used[k] == Nth(c.mem, top, s, k) {
          if k > 0 {
            NthNext(c.mem, top, s, k - 1);
            assert used[k] == more[k - 1];
          }
        }
      }
    }
  }

  /** From a fresh directory: numbers s, s+1, ..., top, s, ... all in s..top. */
  lemma NumbersFromStart(ops: seq<Op>, top: nat, startup: int)
    requires startup >= -1 && Startup(startup) <= top && Committed(ops)
    ensures var s := if startup == -1 then 0 else startup;
            var used := Used(Open(None, s), ops, top, s);
            forall k :: 0 <= k < |used| ==> used[k] == s + k % (top + 1 - s) && s <= used[k] <= top
  {
    var s := Startup(startup);
    var used := Used(Open(None, s), ops, top, s);
    NumbersContinue(Open(None, s), ops, top, s);
    forall k | 0 <= k < |used| ensures used[k] == s + k % (top + 1 - s) {
      assert used[k] == Nth(s, top, s, k);
      NthFromStart(top, s, k);
    }
  }

  /** Less than a period apart two numbers of a count differ, wherever it started. */
  lemma NthDistinct(m: nat, top: nat, s: nat, i: nat, j: nat)
    requires s <= top && i < j < i + (top + 1 - s)
    ensures Nth(m, top, s, i) != Nth(m, top, s, j)
  {
    var c, d := Climb(m, top), top + 1 - s;
    if j <= c {
    } else if i <= c {
      QuotientIs(j - c - 1, d, 0, j - c - 1);
    } else {
      ModDistinct(i - c - 1, j - c - 1, d);
    }
  }

  /** Without the commit in between, a readable persist.nr gives its number out again. */
  lemma UncommittedRepeats(c: Counter, top: nat, s: nat)
    ensures var used := Used(c, [Named, Named], top, s);
            |used| == 2 && (used[0] == used[1] <==> c.disk.Some? || (c.mem == s && c.mem >= top))
  {
    assert [Named, Named][1..] == [Named];
    var d := Step(c, Named, top, s);
    assert Used(d, [Named], top, s) == [Current(d)] + Used(Step(d, Named, top, s), [], top, s);
  }

  // ---------------------------------------------------------------- transient numbers

  /** transientNr_: it is not written to persist.nr, and a new object starts again. */
  function TransientStep(n: nat, op: Op, top: nat, s: nat): nat {
    match op
    case Named => After(n, top, s)
    case Commit => n
    case Restart => s
  }

  function TransientUsed(n: nat, ops: seq<Op>, top: nat, s: nat): seq<nat>
    decreases |ops|
  {
    if ops == [] then []
    else (if ops[0].Named? then [n] else []) + TransientUsed(TransientStep(n, ops[0], top, s), ops[1..], top, s)
  }

  /** How many names the object had given before each name of a run; age: before the run. */
  function Ages(age: nat, ops: seq<Op>): seq<nat>
    decreases |ops|
  {
    if ops == [] then []
    else
      match ops[0]
      case Named => [age] + Ages(age + 1, ops[1..])
      case Commit => Ages(age, ops[1..])
      case Restart => Ages(0, ops[1..])
  }

  /** The number of the name an object gives after age others. */
  function Aged(age: nat, top: nat, s: nat): nat
    requires s <= top
  {
    s + age % (top + 1 - s)
  }

  lemma AgedStep(age: nat, op: Op, top: nat, s: nat)
    requires s <= top
    ensures TransientStep(Aged(age, top, s), op, top, s) ==
            Aged(if op.Named? then age + 1 else if op.Commit? then age else 0, top, s)
  {
    DivNext(age, top + 1 - s);
    QuotientIs(0, top + 1 - s, 0, 0);
  }

  /** A transient number is that of a count within one object. */
  lemma {:induction false} TransientCounts(age: nat, ops: seq<Op>, top: nat, s: nat)
    requires s <= top
    ensures var used, ages := TransientUsed(Aged(age, top, s), ops, top, s), Ages(age, ops);
            |used| == |ages| && forall i :: 0 <= i < |used| ==> used[i] == Aged(ages[i], top, s)
    decreases |ops|
  {
    hide Aged, TransientStep;
    if ops != [] {
      AgedStep(age, ops[0], top, s);
      TransientCounts(if ops[0].Named? then age + 1 else if ops[0].Commit? then age else 0, ops[1..], top, s);
    }
  }

  /** Two names of a run get one transient number exactly when their objects had given equally many names
      before them, up to whole periods. */
  lemma TransientRepeatsExactly(ops: seq<Op>, top: nat, s: nat, i: nat, j: nat)
    requires s <= top && i < |Ages(0, ops)| && j < |Ages(0, ops)|
    ensures |TransientUsed(s, ops, top, s)| == |Ages(0, ops)|
    ensures var used, ages, d := TransientUsed(s, ops, top, s), Ages(0, ops), top + 1 - s;
            used[i] == used[j] <==> ages[i] % d == ages[j] % d
  {
    QuotientIs(0, top + 1 - s, 0, 0);
    assert Aged(0, top, s) == s;
    TransientCounts(0, ops, top, s);
  }

  /** Without a rebuilt object the ages are 0, 1, 2, ... */
  lemma {:induction false} AgesWithoutRestart(age: nat, ops: seq<Op>)
    requires forall op :: op in ops ==> !op.Restart?
    ensures forall i :: 0 <= i < |Ages(age, ops)| ==> Ages(age, ops)[i] == age + i
    decreases |ops|
  {
    if ops != [] {
      assert ops[0] in ops && forall op :: op in ops[1..] ==> op in ops;
      AgesWithoutRestart(if ops[0].Named? then age + 1 else age, ops[1..]);
    }
  }
}
