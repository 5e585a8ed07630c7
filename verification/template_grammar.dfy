/** The rename-template language: tokens, spelling, and the scan that setTemplate performs. */
module TemplateGrammar {
  import opened Options

  /** Pers and Ners carry the number of letters: 1, 4, 6 or 8. */
  datatype Token =
    | TwoYear | FourYear | Month | Day | Hour | Minute | Second
    | Pers(letters: nat) | Ners(letters: nat)
    | FileSize | Original | NameTag | Bid

  predicate NumberLetters(n: nat) {
    n == 1 || n == 4 || n == 6 || n == 8
  }

  predicate ValidToken(t: Token) {
    (t.Pers? || t.Ners?) ==> NumberLetters(t.letters)
  }

  function Letter(t: Token): char {
    match t
    case TwoYear | FourYear => 'y'
    case Month => 'm'
    case Day => 'd'
    case Hour => 'H'
    case Minute => 'M'
    case Second => 'S'
    case Pers(_) => 'p'
    case Ners(_) => 'n'
    case FileSize => 'z'
    case Original => 'f'
    case NameTag => 'F'
    case Bid => 'b'
  }

  function Letters(t: Token): nat {
    match t
    case FourYear => 4
    case TwoYear | Month | Day | Hour | Minute | Second => 2
    case Pers(n) => n
    case Ners(n) => n
    case _ => 1
  }

  function Spell(t: Token): string {
    seq(Letters(t), _ => Letter(t))
  }

  /** Printing a token list. */
  function Spelling(ts: seq<Token>): string {
    if ts == [] then "" else Spell(ts[0]) + Spelling(ts[1..])
  }

  /** What may occur only once: the two years share a slot, and so do the two kinds of number. */
  function Slot(t: Token): char {
    if t.Ners? then 'p' else Letter(t)
  }

  predicate Uses(ts: seq<Token>, slot: char) {
    exists t :: t in ts && Slot(t) == slot
  }

  function Tags(ts: seq<Token>): nat {
    if ts == [] then 0 else Tags(ts[..|ts| - 1]) + if ts[|ts| - 1].NameTag? then 1 else 0
  }

  predicate DistinctSlots(ts: seq<Token>) {
    forall i, j :: 0 <= i < j < |ts| && Slot(ts[i]) == Slot(ts[j]) ==> ts[i].NameTag?
  }

  /** Tokens in any order, each slot used once, name tags apart; blade ids only where allowed. */
  predicate Tokens(ts: seq<Token>, blades: bool) {
    && DistinctSlots(ts)
    && (forall t :: t in ts ==> ValidToken(t) && (t.Bid? ==> blades))
  }

  /** A name tag with an asterisk counts as two tags. */
  function TagsIn(nameTag: string): nat {
    if nameTag == "" then 0 else if '*' in nameTag then 2 else 1
  }

  /** The templates that belong to a name tag. */
  predicate WellFormed(ts: seq<Token>, nameTag: string, blades: bool) {
    Tokens(ts, blades) && Tags(ts) == TagsIn(nameTag)
  }

  /** operator[] of a string, whose terminator may be read. */
  function At(s: string, i: nat): char
    requires i <= |s|
  {
    if i == |s| then '\0' else s[i]
  }

  /** How many letters of a number start at i: 0 when the run of c has no legal length. */
  function NumberAt(s: string, i: nat, c: char): (n: nat)
    requires i < |s| && s[i] == c && c != '\0'
    ensures n == 0 || (NumberLetters(n) && i + n <= |s|)
    ensures forall k :: i <= k < i + n ==> s[k] == c
  {
    if At(s, i + 1) != c then 1
    else if At(s, i + 2) != c || At(s, i + 3) != c then 0
    else if At(s, i + 4) != c then 4
    else if At(s, i + 5) != c then 0
    else if At(s, i + 6) != c then 6
    else if At(s, i + 7) != c then 0
    else if At(s, i + 8) != c then 8 else 0
  }

  function YearAt(s: string, i: nat): Option<Token>
    requires i < |s| && s[i] == 'y'
  {
    if At(s, i + 1) != 'y' then None
    else if At(s, i + 2) != 'y' then Some(TwoYear)
    else if At(s, i + 3) == 'y' then Some(FourYear) else None
  }

  function PairAt(s: string, i: nat, t: Token): Option<Token>
    requires i < |s| && s[i] == Letter(t)
  {
    if At(s, i + 1) == Letter(t) then Some(t) else None
  }

  /** The token at i by the letters alone. */
  function Lex(s: string, i: nat): (r: Option<Token>)
    requires i < |s|
    ensures r.Some? ==> ValidToken(r.value) && 0 < Letters(r.value) <= |s| - i
  {
    match s[i]
    case 'y' => YearAt(s, i)
    case 'm' => PairAt(s, i, Month)
    case 'd' => PairAt(s, i, Day)
    case 'H' => PairAt(s, i, Hour)
    case 'M' => PairAt(s, i, Minute)
    case 'S' => PairAt(s, i, Second)
    case 'p' => var n := NumberAt(s, i, 'p'); if n == 0 then None else Some(Pers(n))
    case 'n' => var n := NumberAt(s, i, 'n'); if n == 0 then None else Some(Ners(n))
    case 'z' => Some(FileSize)
    case 'f' => Some(Original)
    case 'F' => Some(NameTag)
    case 'b' => Some(Bid)
    case _ => None
  }

  datatype Scanned = Good(tokens: seq<Token>) | Bad | NoBlades

  /** A token that may follow ts. */
  predicate Fresh(ts: seq<Token>, t: Token, tagLimit: nat) {
    if t.NameTag? then Tags(ts) < tagLimit else !Uses(ts, Slot(t))
  }

  /** The loop of setTemplate from index i, ts being the tokens so far. */
  function Scan(s: string, i: nat, ts: seq<Token>, tagLimit: nat, blades: bool): Scanned
    requires i <= |s|
    decreases |s| - i
  {
    if i == |s| then Good(ts)
    else if s[i] == 'b' && !blades then NoBlades
    else
      match Lex(s, i)
      case None => Bad
      case Some(t) =>
        if Fresh(ts, t, tagLimit) then Scan(s, i + Letters(t), ts + [t], tagLimit, blades) else Bad
  }

  /** The letters read are the token's. */
  lemma LexSpells(s: string, i: nat)
    requires i < |s| && Lex(s, i).Some?
    ensures s[i..i + Letters(Lex(s, i).value)] == Spell(Lex(s, i).value)
  {
    var t := Lex(s, i).value;
    var read := s[i..i + Letters(t)];
    forall k | 0 <= k < Letters(t) ensures read[k] == Letter(t) {
      assert read[k] == s[i + k];
    }
  }

  lemma {:induction false} SpellingAppend(ts: seq<Token>, us: seq<Token>)
    ensures Spelling(ts + us) == Spelling(ts) + Spelling(us)
    decreases |ts|
  {
    if ts == [] {
      assert ts + us == us;
    } else {
      SpellingAppend(ts[1..], us);
      assert (ts + us)[1..] == ts[1..] + us;
    }
  }

  lemma SpellingOne(t: Token)
    ensures Spelling([t]) == Spell(t)
  {
    assert Spelling([t]) == Spell(t) + "";
  }

  lemma TagsNext(ts: seq<Token>, t: Token)
    ensures Tags(ts + [t]) == Tags(ts) + if t.NameTag? then 1 else 0
  {
    assert (ts + [t])[..|ts|] == ts;
  }

  /** What a successful scan returns spells the input. */
  lemma {:induction false} ScanSound(s: string, i: nat, ts: seq<Token>, tagLimit: nat, blades: bool)
    requires i <= |s| && Spelling(ts) == s[..i] && Tokens(ts, blades) && Tags(ts) <= tagLimit
    ensures var r := Scan(s, i, ts, tagLimit, blades);
            r.Good? ==> Spelling(r.tokens) == s && Tokens(r.tokens, blades) && Tags(r.tokens) <= tagLimit
    decreases |s| - i
  {
    hide Scan, Lex, Spell, Letters, Tokens, Fresh;
    if i == |s| {
      assert s[..i] == s;
      ScanEnd(s, ts, tagLimit, blades);
    } else if Scan(s, i, ts, tagLimit, blades).Good? {
      ScanGoesOn(s, i, ts, tagLimit, blades);
      var t := Lex(s, i).value;
      LexSpells(s, i);
      SpellingAppend(ts, [t]);
      SpellingOne(t);
      TagsNext(ts, t);
      assert s[..i] + s[i..i + Letters(t)] == s[..i + Letters(t)];
      FreshKeeps(ts, t, tagLimit, blades);
      ScanSound(s, i + Letters(t), ts + [t], tagLimit, blades);
    }
  }

  /** A scan that succeeds has read a token that may follow. */
  lemma ScanGoesOn(s: string, i: nat, ts: seq<Token>, tagLimit: nat, blades: bool)
    requires i < |s| && Scan(s, i, ts, tagLimit, blades).Good?
    ensures Lex(s, i).Some? && 0 < Letters(Lex(s, i).value) <= |s| - i
    ensures var t := Lex(s, i).value;
            && ValidToken(t) && Fresh(ts, t, tagLimit) && (t.Bid? ==> blades)
            && (t.NameTag? ==> Tags(ts) < tagLimit)
            && Scan(s, i, ts, tagLimit, blades) == Scan(s, i + Letters(t), ts + [t], tagLimit, blades)
  {
  }

  lemma FreshKeeps(ts: seq<Token>, t: Token, tagLimit: nat, blades: bool)
    requires Tokens(ts, blades) && Fresh(ts, t, tagLimit) && ValidToken(t) && (t.Bid? ==> blades)
    ensures Tokens(ts + [t], blades)
  {
    var us := ts + [t];
    forall i, j | 0 <= i < j < |us| && Slot(us[i]) == Slot(us[j]) ensures us[i].NameTag? {
      assert us[i] in ts;
    }
  }

  /** The letter after a token that looks ahead is another one. */
  lemma NextLetterDiffers(ts: seq<Token>, k: nat)
    requires DistinctSlots(ts) && k < |ts| && !ts[k].NameTag?
    requires forall t :: t in ts ==> ValidToken(t)
    ensures var rest := Spelling(ts[k + 1..]); rest == "" || rest[0] != Letter(ts[k])
  {
    var tail := ts[k + 1..];
    if tail != [] {
      assert tail[0] == ts[k + 1] && ts[k + 1] in ts && Slot(ts[k]) != Slot(ts[k + 1]);
      assert Spelling(tail)[0] == Spell(tail[0])[0] == Letter(tail[0]);
    }
  }

  /** Maximal munch reads back each token of a list with distinct slots. */
  lemma LexReadsBack(s: string, i: nat, t: Token, rest: string)
    requires i <= |s| && s[i..] == Spell(t) + rest && ValidToken(t)
    requires t.NameTag? || rest == "" || rest[0] != Letter(t)
    ensures i < |s| && Lex(s, i) == Some(t)
  {
    var n := Letters(t);
    assert forall k :: 0 <= k < n ==> s[i + k] == s[i..][k] == Letter(t);
    assert |s| == i + n + |rest|;
    if !t.NameTag? {
      assert At(s, i + n) != Letter(t) by {
        if rest != "" { assert s[i + n] == s[i..][n] == rest[0]; }
      }
    }
  }

  lemma FreshInList(ts: seq<Token>, k: nat, tagLimit: nat)
    requires k < |ts| && DistinctSlots(ts) && Tags(ts) <= tagLimit
    ensures Fresh(ts[..k], ts[k], tagLimit)
  {
    hide Slot, Tags;
    if ts[k].NameTag? {
      TagsPrefix(ts, k + 1);
      assert ts[..k + 1] == ts[..k] + [ts[k]];
      TagsNext(ts[..k], ts[k]);
    } else {
      SlotUnused(ts, k);
    }
  }

  lemma SlotUnused(ts: seq<Token>, k: nat)
    requires k < |ts| && DistinctSlots(ts) && !ts[k].NameTag?
    ensures !Uses(ts[..k], Slot(ts[k]))
  {
    forall j | 0 <= j < k ensures Slot(ts[j]) != Slot(ts[k]) {
      assert ts[j].NameTag? ==> Slot(ts[j]) == Slot(NameTag) != Slot(ts[k]);
    }
  }

  /** The text from the k-th token on. */
  lemma SpellingAt(ts: seq<Token>, k: nat)
    requires k < |ts|
    ensures var i := |Spelling(ts[..k])|;
            && i <= |Spelling(ts)|
            && Spelling(ts)[i..] == Spell(ts[k]) + Spelling(ts[k + 1..])
            && |Spelling(ts[..k + 1])| == i + Letters(ts[k])
  {
    SpellingAppend(ts[..k], ts[k..]);
    assert ts[..k] + ts[k..] == ts;
    assert ts[k..][1..] == ts[k + 1..];
    SpellingAppend(ts[..k], [ts[k]]);
    SpellingOne(ts[k]);
    assert ts[..k + 1] == ts[..k] + [ts[k]];
  }

  /** Every list whose tokens the language allows is what its own spelling scans to. */
  lemma {:induction false} ScanComplete(s: string, ts: seq<Token>, k: nat, tagLimit: nat, blades: bool)
    requires k <= |ts| && Spelling(ts) == s && Tokens(ts, blades) && Tags(ts) <= tagLimit
    ensures |Spelling(ts[..k])| <= |s|
    ensures Scan(s, |Spelling(ts[..k])|, ts[..k], tagLimit, blades) == Good(ts)
    decreases |ts| - k
  {
    hide Scan, Lex, Fresh, Tags, Spell;
    if k == |ts| {
      assert ts[..k] == ts;
      ScanEnd(s, ts, tagLimit, blades);
    } else {
      ScanComplete(s, ts, k + 1, tagLimit, blades);
      LexInList(s, ts, k, blades);
      FreshInList(ts, k, tagLimit);
      ScanStep(s, |Spelling(ts[..k])|, ts[..k], ts[k], tagLimit, blades);
      assert ts[..k + 1] == ts[..k] + [ts[k]];
    }
  }

  lemma LexInList(s: string, ts: seq<Token>, k: nat, blades: bool)
    requires k < |ts| && Spelling(ts) == s && Tokens(ts, blades)
    ensures var i := |Spelling(ts[..k])|;
            && i < |s| && Lex(s, i) == Some(ts[k])
            && |Spelling(ts[..k + 1])| == i + Letters(ts[k])
    ensures ts[k].Bid? ==> blades
  {
    SpellingAt(ts, k);
    assert ts[k] in ts;
    if !ts[k].NameTag? { NextLetterDiffers(ts, k); }
    LexReadsBack(s, |Spelling(ts[..k])|, ts[k], Spelling(ts[k + 1..]));
  }

  lemma ScanEnd(s: string, ts: seq<Token>, tagLimit: nat, blades: bool)
    ensures Scan(s, |s|, ts, tagLimit, blades) == Good(ts)
  {
  }

  lemma ScanStep(s: string, i: nat, ts: seq<Token>, t: Token, tagLimit: nat, blades: bool)
    requires i < |s| && Lex(s, i) == Some(t) && Fresh(ts, t, tagLimit) && (t.Bid? ==> blades)
    ensures Scan(s, i, ts, tagLimit, blades) == Scan(s, i + Letters(t), ts + [t], tagLimit, blades)
  {
  }

  lemma {:induction false} TagsPrefix(ts: seq<Token>, k: nat)
    requires k <= |ts|
    ensures Tags(ts[..k]) <= Tags(ts)
    decreases |ts| - k
  {
    if k == |ts| {
      assert ts[..k] == ts;
    } else {
      TagsPrefix(ts, k + 1);
      assert ts[..k + 1] == ts[..k] + [ts[k]];
      TagsNext(ts[..k], ts[k]);
    }
  }

  /** The tests after the loop. */
  predicate TagsFit(nameTag: string, tags: nat) {
    && (nameTag != "" ==> tags >= 1)
    && ('*' in nameTag ==> tags >= 2)
    && (tags >= 1 ==> nameTag != "")
  }

  /** setTemplate as a function: what the parser accepts. */
  function Parse(s: string, nameTag: string, blades: bool): Scanned {
    var r := Scan(s, 0, [], if '*' in nameTag then 2 else 1, blades);
    if r.Good? && !TagsFit(nameTag, Tags(r.tokens)) then Bad else r
  }

  /** Parser and printer are inverse: a template is accepted exactly when it spells a well-formed token
      list, the list it yields is that one, and every well-formed list is accepted. */
  lemma ParseIsInverse(s: string, ts: seq<Token>, nameTag: string, blades: bool)
    ensures Parse(s, nameTag, blades) == Good(ts) <==>
            WellFormed(ts, nameTag, blades) && Spelling(ts) == s
  {
    var limit := if '*' in nameTag then 2 else 1;
    ScanSound(s, 0, [], limit, blades);
    if WellFormed(ts, nameTag, blades) && Spelling(ts) == s {
      ScanComplete(s, ts, 0, limit, blades);
      assert ts[..0] == [];
    }
  }

  /** So no template text has two readings. */
  lemma SpellingInjective(ts: seq<Token>, us: seq<Token>, nameTag: string, blades: bool)
    requires WellFormed(ts, nameTag, blades) && WellFormed(us, nameTag, blades)
    requires Spelling(ts) == Spelling(us)
    ensures ts == us
  {
    ParseIsInverse(Spelling(ts), ts, nameTag, blades);
    ParseIsInverse(Spelling(ts), us, nameTag, blades);
  }
}
