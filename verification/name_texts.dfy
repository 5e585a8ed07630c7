/** What the letters of a template mean and what a name shows: each token read back from the text it printed. */
module NameTexts {
  import opened Options
  import opened TemplateGrammar
  import opened TemplateNames
  import opened Text

  // ---------------------------------------------------------------- letters

  /** The letters of the template language. */
  lemma LettersMean()
    ensures Spell(TwoYear) == "yy" && Spell(FourYear) == "yyyy" && Spell(Month) == "mm" && Spell(Day) == "dd"
    ensures Spell(Hour) == "HH" && Spell(Minute) == "MM" && Spell(Second) == "SS"
    ensures Spell(Pers(1)) == "p" && Spell(Pers(4)) == "pppp" && Spell(Pers(6)) == "pppppp" && Spell(Pers(8)) == "pppppppp"
    ensures Spell(Ners(1)) == "n" && Spell(Ners(4)) == "nnnn" && Spell(Ners(6)) == "nnnnnn" && Spell(Ners(8)) == "nnnnnnnn"
    ensures Spell(FileSize) == "z" && Spell(Original) == "f" && Spell(NameTag) == "F" && Spell(Bid) == "b"
  {
  }

  lemma {:induction false} TagsCounted(ts: seq<Token>)
    ensures Tags(ts) == multiset(ts)[NameTag]
    decreases |ts|
  {
    if ts != [] {
      TagsCounted(ts[..|ts| - 1]);
      assert ts == ts[..|ts| - 1] + [ts[|ts| - 1]];
    }
  }

  /** Which templates are accepted, by their tokens: one year, one number, everything else once, a number of 1, 4,
      6 or 8 letters, blade ids where they are allowed, and name tags as the name tag has parts: none for no tag,
      two for one with an asterisk, else one. */
  lemma AcceptedTemplates(text: string, ts: seq<Token>, nameTag: string, blades: bool)
    ensures Parse(text, nameTag, blades) == Good(ts) <==>
            && Spelling(ts) == text
            && (forall i, j :: 0 <= i < j < |ts| ==>
                  && (ts[i] == ts[j] ==> ts[i] == NameTag)
                  && !(ts[i] in {TwoYear, FourYear} && ts[j] in {TwoYear, FourYear})
                  && !((ts[i].Pers? || ts[i].Ners?) && (ts[j].Pers? || ts[j].Ners?)))
            && (forall t :: t in ts && (t.Pers? || t.Ners?) ==> t.letters in {1, 4, 6, 8})
            && (Bid in ts ==> blades)
            && multiset(ts)[NameTag] == (if nameTag == "" then 0 else if '*' in nameTag then 2 else 1)
  {
    ParseIsInverse(text, ts, nameTag, blades);
    TagsCounted(ts);
    hide Parse, Tags, Spelling;
    forall i, j | 0 <= i < j < |ts|
      ensures (Slot(ts[i]) == Slot(ts[j]) ==> ts[i].NameTag?) <==>
              && (ts[i] == ts[j] ==> ts[i] == NameTag)
              && !(ts[i] in {TwoYear, FourYear} && ts[j] in {TwoYear, FourYear})
              && !((ts[i].Pers? || ts[i].Ners?) && (ts[j].Pers? || ts[j].Ners?))
    {
      SlotsClash(ts[i], ts[j]);
    }
    forall t ensures ValidToken(t) <==> ((t.Pers? || t.Ners?) ==> t.letters in {1, 4, 6, 8}) {
    }
  }

  lemma SlotsClash(t: Token, u: Token)
    ensures Slot(t) == Slot(u) <==>
            || t == u || (t in {TwoYear, FourYear} && u in {TwoYear, FourYear})
            || ((t.Pers? || t.Ners?) && (u.Pers? || u.Ners?))
  {
  }

  // ---------------------------------------------------------------- texts

  /** text is n in decimal with at least w digits, and no more than n needs. */
  predicate Decimal(text: string, n: nat, w: nat) {
    Digits(text) && Value(text) == n && |text| >= w && (|text| > w ==> text[0] != '0')
  }

  /** The whole name tag, or what stands before its first asterisk for the first F and behind it for the second. */
  ghost predicate TagPart(text: string, nameTag: string, nth: nat) {
    if '*' !in nameTag then text == nameTag
    else exists first, second {:trigger first + "*" + second} ::
           && nameTag == first + "*" + second && '*' !in first
           && text == (if nth == 0 then first else if nth == 1 then second else "")
  }

  /** The file name starts with a blade id and a plus, and goes on with RTR. */
  predicate FromBlade(original: string, id: string) {
    '+' !in id && id + "+RTR" <= original
  }

  /** BCx prints 0x, BCxy prints xy, CPx prints 9x, any other blade id nothing. */
  predicate IdPrints(text: string, id: string) {
    if |id| == 3 && id[0] == 'B' && id[1] == 'C' then text == ['0', id[2]]
    else if |id| == 4 && id[0] == 'B' && id[1] == 'C' then text == [id[2], id[3]]
    else if |id| == 3 && id[0] == 'C' && id[1] == 'P' then text == ['9', id[2]]
    else text == ""
  }

  /** Files that are not from a blade show nothing. */
  ghost predicate BladePart(text: string, original: string) {
    if exists id :: FromBlade(original, id) then exists id :: FromBlade(original, id) && IdPrints(text, id)
    else text == ""
  }

  /** What the token shows of the file, the time, the name tag and the number; nth: name tags before it. */
  ghost predicate Prints(t: Token, text: string, src: Source, nameTag: string, nth: nat, number: nat)
    requires Civil(src.stamp)
  {
    match t
    case TwoYear => Decimal(text, src.stamp.year - 2000, 2)
    case FourYear => Decimal(text, src.stamp.year, 4)
    case Month => Decimal(text, src.stamp.month, 2)
    case Day => Decimal(text, src.stamp.day, 2)
    case Hour => Decimal(text, src.stamp.hour, 2)
    case Minute => Decimal(text, src.stamp.minute, 2)
    case Second => Decimal(text, src.stamp.second, 2)
    case Pers(letters) => Decimal(text, number, if letters == 1 then 4 else letters)
    case Ners(letters) => Decimal(text, number, letters)
    case FileSize => Decimal(text, src.sizeKb, 1)
    case Original => text == src.original
    case NameTag => TagPart(text, nameTag, nth)
    case Bid => BladePart(text, src.original)
  }

  lemma PadDecimal(n: nat, w: nat)
    ensures Decimal(Pad(n, w), n, w)
  {
    PadReads(n, w);
    PadShape(n, w);
  }

  lemma TagRead(nameTag: string, nth: nat)
    ensures TagPart(TagText(nameTag, nth), nameTag, nth)
  {
    if '*' in nameTag {
      var i := Asterisk(nameTag);
      var first, second := nameTag[..i], nameTag[i + 1..];
      assert nameTag == first + "*" + second;
    }
  }

  lemma FirstPlusAt(s: string, i: nat)
    requires i < |s| && s[i] == '+' && '+' !in s[..i]
    ensures FirstPlus(s) == i
  {
    if i > 0 {
      assert s[0] == s[..i][0];
      assert s[1..][..i - 1] == s[..i][1..];
      FirstPlusAt(s[1..], i - 1);
    }
  }

  lemma {:induction false} FirstPlusIs(s: string)
    ensures var i := FirstPlus(s); if i < 0 then '+' !in s else s[i] == '+' && '+' !in s[..i]
    decreases |s|
  {
    if s != "" && s[0] != '+' {
      FirstPlusIs(s[1..]);
      var i := FirstPlus(s[1..]);
      assert s == [s[0]] + s[1..];
      if i >= 0 { assert s[..i + 1] == [s[0]] + s[1..][..i]; }
    }
  }

  /** The blade id is what stands before the first plus. */
  lemma BladeIs(original: string, id: string)
    requires FromBlade(original, id)
    ensures FirstPlus(original) == |id| && original[..|id|] == id && "RTR" <= original[|id| + 1..]
  {
    var k := |id|;
    var head := id + "+RTR";
    assert original[k] == head[k] && original[..k] == head[..k] == id;
    FirstPlusAt(original, k);
    assert original[k + 1..][..3] == head[k + 1..] == "RTR";
  }

  lemma IsBlade(original: string, i: nat)
    requires i < |original| && i == FirstPlus(original) && "RTR" <= original[i + 1..]
    ensures FromBlade(original, original[..i])
  {
    hide FirstPlus;
    FirstPlusIs(original);
    RestOf("RTR", original[i + 1..]);
    AroundPlus(original, i);
    PlusRtr(original[..i], original[i + 1..][3..]);
  }

  lemma RestOf(p: string, s: string)
    requires p <= s
    ensures s == p + s[|p|..]
  {
  }

  lemma AroundPlus(s: string, i: nat)
    requires i < |s| && s[i] == '+'
    ensures s == s[..i] + ("+" + s[i + 1..])
  {
  }

  lemma PlusRtr(id: string, rest: string)
    ensures id + "+RTR" <= id + ("+" + ("RTR" + rest))
  {
    assert "+" + "RTR" == "+RTR";
    assert id + ("+" + ("RTR" + rest)) == (id + "+RTR") + rest;
  }

  lemma IdText(id: string)
    ensures IdPrints(if "BC" <= id && |id| == 3 then "0" + id[2..]
                     else if "BC" <= id && |id| == 4 then id[2..]
                     else if "CP" <= id && |id| == 3 then "9" + id[2..]
                     else "", id)
  {
    assert |id| >= 2 && id[0] == 'B' && id[1] == 'C' ==> id[..2] == "BC";
    assert |id| >= 2 && id[0] == 'C' && id[1] == 'P' ==> id[..2] == "CP";
  }

  lemma BladeRead(original: string)
    ensures BladePart(BladeText(original), original)
  {
    var i := FirstPlus(original);
    hide FirstPlus, FromBlade, IdPrints;
    if i >= 0 && "RTR" <= original[i + 1..] {
      IsBlade(original, i);
      IdText(original[..i]);
    } else if id :| FromBlade(original, id) {
      BladeIs(original, id);
      assert false;
    }
  }

  /** The text of a token shows what the token stands for. */
  lemma PieceRead(t: Token, src: Source, nameTag: string, nth: nat, number: nat)
    requires Civil(src.stamp)
    ensures Prints(t, Piece(t, src, nameTag, nth, number), src, nameTag, nth, number)
  {
    hide Decimal, Pad, BladePart, BladeText, TagPart, TagText;
    match t
    case TwoYear => PadDecimal(src.stamp.year - 2000, 2);
    case FourYear => PadDecimal(src.stamp.year, 4);
    case Month => PadDecimal(src.stamp.month, 2);
    case Day => PadDecimal(src.stamp.day, 2);
    case Hour => PadDecimal(src.stamp.hour, 2);
    case Minute => PadDecimal(src.stamp.minute, 2);
    case Second => PadDecimal(src.stamp.second, 2);
    case Pers(letters) => PadDecimal(number, if letters == 1 then 4 else letters);
    case Ners(letters) => PadDecimal(number, letters);
    case FileSize => PadDecimal(src.sizeKb, 1);
    case Original =>
    case NameTag => TagRead(nameTag, nth);
    case Bid => BladeRead(src.original);
  }

  function Joined(texts: seq<string>): string {
    if texts == [] then "" else texts[0] + Joined(texts[1..])
  }

  /** Tags among the tokens before the x-th. */
  function TagsBefore(ts: seq<Token>, x: nat): nat
    requires x <= |ts|
  {
    multiset(ts[..x])[NameTag]
  }

  ghost predicate AllPrint(ts: seq<Token>, texts: seq<string>, src: Source, nameTag: string, number: nat)
    requires Civil(src.stamp)
  {
    && |texts| == |ts|
    && forall x :: 0 <= x < |ts| ==> Prints(ts[x], texts[x], src, nameTag, TagsBefore(ts, x), number)
  }

  /** A name is the texts of its tokens, one after the other, each showing what its token stands for. */
  lemma NameSpelled(ts: seq<Token>, src: Source, nameTag: string, number: nat) returns (texts: seq<string>)
    requires Civil(src.stamp)
    ensures AllPrint(ts, texts, src, nameTag, number) && Name(ts, src, nameTag, number) == Joined(texts)
  {
    hide Prints, Piece, Tags;
    texts := seq(|ts|, x requires 0 <= x < |ts| => Piece(ts[x], src, nameTag, Tags(ts[..x]), number));
    forall x | 0 <= x < |ts| ensures Prints(ts[x], texts[x], src, nameTag, TagsBefore(ts, x), number) {
      TagsCounted(ts[..x]);
      PieceRead(ts[x], src, nameTag, Tags(ts[..x]), number);
    }
    RenderJoins(ts, 0, src, nameTag, number, texts);
    assert texts[0..] == texts;
  }

  lemma {:induction false} RenderJoins(ts: seq<Token>, a: nat, src: Source, nameTag: string, number: nat, texts: seq<string>)
    requires a <= |ts| == |texts| && Civil(src.stamp)
    requires forall x :: 0 <= x < |ts| ==> texts[x] == Piece(ts[x], src, nameTag, Tags(ts[..x]), number)
    ensures Render(ts, a, |ts|, src, nameTag, number) == Joined(texts[a..])
    decreases |ts| - a
  {
    hide Piece, Tags;
    if a < |ts| {
      RenderJoins(ts, a + 1, src, nameTag, number, texts);
      assert texts[a..][0] == texts[a] && texts[a..][1..] == texts[a + 1..];
    }
  }

  // ---------------------------------------------------------------- columns

  /** Columns of a token of fixed width: years 2 or 4, other dates 2, numbers as many as letters (p alone 4), name
      tags their text. */
  function Columns(t: Token, nameTag: string, nth: nat): nat {
    match t
    case FourYear => 4
    case Pers(letters) => if letters == 1 then 4 else letters
    case Ners(letters) => letters
    case NameTag => |TagText(nameTag, nth)|
    case _ => 2
  }

  /** Where the x-th token starts. */
  function Column(ts: seq<Token>, x: nat, nameTag: string): nat
    requires x <= |ts|
  {
    if x == 0 then 0 else Column(ts, x - 1, nameTag) + Columns(ts[x - 1], nameTag, TagsBefore(ts, x - 1))
  }

  lemma PieceColumns(t: Token, src: Source, nameTag: string, nth: nat, number: nat)
    requires Fixed(t) && ValidToken(t) && Civil(src.stamp) && (IsNumber(t) ==> number <= Top(t))
    ensures |Piece(t, src, nameTag, nth, number)| == Columns(t, nameTag, nth)
  {
    hide Pad, TagText;
    assert Pow10(2) == 100 && Pow10(4) == 10000;
    match t
    case TwoYear => PadLength(src.stamp.year - 2000, 2);
    case FourYear => PadLength(src.stamp.year, 4);
    case Month => PadLength(src.stamp.month, 2);
    case Day => PadLength(src.stamp.day, 2);
    case Hour => PadLength(src.stamp.hour, 2);
    case Minute => PadLength(src.stamp.minute, 2);
    case Second => PadLength(src.stamp.second, 2);
    case Pers(_) => PadLength(number, Width(t));
    case Ners(_) => PadLength(number, Width(t));
    case NameTag =>
  }

  lemma {:induction false} ColumnIs(ts: seq<Token>, x: nat, src: Source, nameTag: string, number: nat)
    requires x <= |ts| && AllFixed(ts[..x]) && Civil(src.stamp) && Fits(ts, number)
    ensures |Render(ts, 0, x, src, nameTag, number)| == Column(ts, x, nameTag)
    decreases x
  {
    if x > 0 {
      assert forall t :: t in ts[..x - 1] ==> t in ts[..x];
      assert ts[x - 1] in ts[..x] && ts[x - 1] in ts;
      hide Fixed, Piece, Columns, Top;
      ColumnIs(ts, x - 1, src, nameTag, number);
      RenderSplit(ts, 0, x - 1, x, src, nameTag, number);
      TagsCounted(ts[..x - 1]);
      PieceColumns(ts[x - 1], src, nameTag, Tags(ts[..x - 1]), number);
      assert Render(ts, x, x, src, nameTag, number) == "";
    }
  }

  /** In a name whose tokens before the x-th have a fixed width, the text of the x-th starts at its column and
      shows what it stands for: the date, the number, the size, the original name or the tag. */
  lemma FieldAtColumn(ts: seq<Token>, x: nat, src: Source, nameTag: string, number: nat) returns (text: string)
    requires x < |ts| && AllFixed(ts[..x]) && Civil(src.stamp) && Fits(ts, number)
    ensures var name, c := Name(ts, src, nameTag, number), Column(ts, x, nameTag);
            && c + |text| <= |name| && name[c..c + |text|] == text
            && Prints(ts[x], text, src, nameTag, TagsBefore(ts, x), number)
  {
    hide Piece, Prints, Column, Tags;
    text := Piece(ts[x], src, nameTag, Tags(ts[..x]), number);
    ColumnIs(ts, x, src, nameTag, number);
    RenderSplit(ts, 0, x, |ts|, src, nameTag, number);
    TagsCounted(ts[..x]);
    PieceRead(ts[x], src, nameTag, Tags(ts[..x]), number);
    var u, w := Render(ts, 0, x, src, nameTag, number), Render(ts, x + 1, |ts|, src, nameTag, number);
    assert Name(ts, src, nameTag, number) == u + (text + w);
  }

  // ---------------------------------------------------------------- numbers

  /** The largest numbers: 9999 for one letter, else as many nines as letters. */
  lemma LargestNumbers(t: Token)
    requires IsNumber(t) && ValidToken(t)
    ensures Top(t) == (match t.letters case 6 => 999999 case 8 => 99999999 case _ => 9999)
  {
    assert Pow10(4) == 10000 && Pow10(6) == 1000000 && Pow10(8) == 100000000;
  }

  /** When persist.nr cannot be opened the number in it stays, and the next object repeats names from there; when the
      number cannot be written the file is left without one, and the next object starts again. */
  lemma FailedCommits(c: Counter, top: nat, s: nat)
    ensures var kept, emptied := Committing(c, NotOpened), Committing(c, Emptied);
            && kept.mem == c.mem && kept.disk == c.disk
            && Used(Open(emptied.disk, s), [Named], top, s) == [s]
            && (c.disk.Some? ==> Used(Open(kept.disk, s), [Named], top, s) == [c.disk.value])
  {
    assert [Named][1..] == [];
  }
}
