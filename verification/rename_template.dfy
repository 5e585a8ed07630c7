/** The template object: an index-jumping scanner, a renderer and a number kept in persist.nr. */
module RenameTemplate {
  import opened Options
  import opened TemplateGrammar
  import opened TemplateNames
  import opened Text

  /** persist.nr of one transfer queue directory; None when it cannot be read. */
  class PersistFile {
    var content: Option<nat>
  }

  /** The number token of a template. */
  function NumberOf(ts: seq<Token>): Option<Token> {
    if ts == [] then None
    else if IsNumber(ts[|ts| - 1]) then Some(ts[|ts| - 1])
    else NumberOf(ts[..|ts| - 1])
  }

  predicate UsesPers(ts: seq<Token>) {
    NumberOf(ts).Some? && NumberOf(ts).value.Pers?
  }

  lemma NumberNext(ts: seq<Token>, t: Token)
    ensures NumberOf(ts + [t]) == if IsNumber(t) then Some(t) else NumberOf(ts)
  {
    assert (ts + [t])[..|ts|] == ts;
  }

  lemma {:induction false} NumberIn(ts: seq<Token>)
    ensures NumberOf(ts).Some? ==> NumberOf(ts).value in ts && IsNumber(NumberOf(ts).value)
    decreases |ts|
  {
    if ts != [] { NumberIn(ts[..|ts| - 1]); }
  }

  /** The only number of a list with distinct slots, seen from its position. */
  lemma {:induction false} NumberAtIndex(ts: seq<Token>, k: nat)
    requires k < |ts| && DistinctSlots(ts) && IsNumber(ts[k])
    ensures NumberOf(ts[..k]) == None && NumberOf(ts) == Some(ts[k])
    decreases |ts|
  {
    var last := |ts| - 1;
    if k < last {
      assert Slot(ts[k]) != Slot(ts[last]);
      NumberAtIndex(ts[..last], k);
      assert ts[..last][..k] == ts[..k];
    } else {
      forall j | 0 <= j < k ensures !IsNumber(ts[j]) {
        assert Slot(ts[j]) != Slot(ts[k]);
      }
      NumberIn(ts[..k]);
      assert forall t :: t in ts[..k] ==> !IsNumber(t);
    }
  }

  lemma UsesNext(ts: seq<Token>, t: Token, slot: char)
    ensures Uses(ts + [t], slot) <==> Uses(ts, slot) || slot == Slot(t)
  {
    var us := ts + [t];
    assert forall u :: u in us <==> u in ts || u == t;
    if Uses(ts, slot) { var u :| u in ts && Slot(u) == slot; assert u in us; }
    assert t in us;
  }

  /** The flags of setTemplate. */
  datatype Seen = Seen(year: bool, month: bool, day: bool, hour: bool, min: bool, sec: bool,
                       pers: bool, ners: bool, fsiz: bool, orig: bool,
                       tagfirst: bool, tagsecond: bool, bladeid: bool)

  const Nothing := Seen(false, false, false, false, false, false, false, false, false, false,
                        false, false, false)

  function Marked(f: Seen, t: Token): Seen {
    Seen(f.year || t.TwoYear? || t.FourYear?, f.month || t.Month?, f.day || t.Day?,
         f.hour || t.Hour?, f.min || t.Minute?, f.sec || t.Second?,
         f.pers || t.Pers?, f.ners || t.Ners?, f.fsiz || t.FileSize?, f.orig || t.Original?,
         f.tagfirst || t.NameTag?, f.tagsecond || (t.NameTag? && f.tagfirst), f.bladeid || t.Bid?)
  }

  predicate Blocks(f: Seen, t: Token, multi: bool) {
    match t
    case TwoYear | FourYear => f.year
    case Month => f.month
    case Day => f.day
    case Hour => f.hour
    case Minute => f.min
    case Second => f.sec
    case Pers(_) => f.pers || f.ners
    case Ners(_) => f.pers || f.ners
    case FileSize => f.fsiz
    case Original => f.orig
    case NameTag => f.tagsecond || (f.tagfirst && !multi)
    case Bid => f.bladeid
  }

  function FlagOf(f: Seen, slot: char): bool {
    match slot
    case 'y' => f.year
    case 'm' => f.month
    case 'd' => f.day
    case 'H' => f.hour
    case 'M' => f.min
    case 'S' => f.sec
    case 'p' => f.pers || f.ners
    case 'z' => f.fsiz
    case 'f' => f.orig
    case 'F' => f.tagfirst
    case 'b' => f.bladeid
    case _ => false
  }

  /** The flags say which slots ts uses. */
  predicate Flags(f: Seen, ts: seq<Token>) {
    && (forall slot :: FlagOf(f, slot) <==> Uses(ts, slot))
    && (f.tagfirst <==> Tags(ts) >= 1) && (f.tagsecond <==> Tags(ts) >= 2)
  }

  lemma MarkedFlag(f: Seen, t: Token, slot: char)
    ensures FlagOf(Marked(f, t), slot) <==> FlagOf(f, slot) || slot == Slot(t)
  {
  }

  lemma FlagsNext(f: Seen, ts: seq<Token>, t: Token)
    requires Flags(f, ts)
    ensures Flags(Marked(f, t), ts + [t])
  {
    TagsNext(ts, t);
    forall slot ensures FlagOf(Marked(f, t), slot) <==> Uses(ts + [t], slot) {
      MarkedFlag(f, t, slot);
      UsesNext(ts, t, slot);
    }
  }

  lemma BlocksIsFresh(f: Seen, ts: seq<Token>, t: Token, multi: bool)
    requires Flags(f, ts) && Tags(ts) <= 2
    ensures Blocks(f, t, multi) <==> !Fresh(ts, t, if multi then 2 else 1)
  {
    assert FlagOf(f, Slot(t)) <==> Uses(ts, Slot(t));
  }

  /** The y branch; last is the index of the last letter it consumed. */
  method ScanYear(s: string, start: nat) returns (token: Option<Token>, last: nat)
    requires start < |s| && s[start] == 'y'
    ensures token == YearAt(s, start)
    ensures token.Some? ==> last + 1 == start + Letters(token.value)
  {
    var index := start + 1;
    last := start;
    if At(s, index) != 'y' { return None, last; }
    index := index + 1;
    if At(s, index) == 'y' {
      index := index + 1;
    } else {
      return Some(TwoYear), index - 1;
    }
    if At(s, index) != 'y' { return None, last; }
    return Some(FourYear), index;
  }

  /** The p and n branches: one, four, six or eight letters, each pair read only after the one before. */
  method ScanNumber(s: string, start: nat, c: char) returns (letters: nat, last: nat)
    requires start < |s| && s[start] == c && c != '\0'
    ensures letters == NumberAt(s, start, c)
    ensures letters > 0 ==> last + 1 == start + letters
  {
    var index := start + 1;
    last := start;
    if At(s, index) != c { return 1, index - 1; }
    index := index + 1;
    if At(s, index) != c { return 0, last; }
    index := index + 1;
    if At(s, index) != c { return 0, last; }
    if At(s, index + 1) != c { return 4, index; }
    index := index + 2;
    if At(s, index) != c { return 0, last; }
    if At(s, index + 1) != c { return 6, index; }
    index := index + 2;
    if At(s, index) != c || At(s, index + 1) == c { return 0, last; }
    return 8, index;
  }

  /** The letters that are wanted twice, with their flags. */
  function PairToken(c: char): Option<Token> {
    match c
    case 'm' => Some(Month)
    case 'd' => Some(Day)
    case 'H' => Some(Hour)
    case 'M' => Some(Minute)
    case 'S' => Some(Second)
    case _ => None
  }

  method ScanPair(s: string, start: nat, t: Token, seen: bool) returns (code: int, last: nat)
    requires start < |s| && s[start] == Letter(t)
    ensures code == if !seen && At(s, start + 1) == Letter(t) then 1 else 0
    ensures code == 1 ==> last == start + 1
  {
    if seen { return 0, start; }
    last := start + 1;
    code := if At(s, last) == s[start] then 1 else 0;
  }

  /** The branches of one letter; the blade id may be unavailable. */
  method ScanSingle(c: char, f: Seen, multi: bool, blades: bool) returns (code: int, token: Token)
    requires c == 'z' || c == 'f' || c == 'F' || c == 'b'
    ensures Letter(token) == c && (token.FileSize? || token.Original? || token.NameTag? || token.Bid?)
    ensures code == if c == 'b' && !blades then 8 else if Blocks(f, token, multi) then 0 else 1
  {
    match c {
      case 'z' =>
        return if f.fsiz then 0 else 1, FileSize;
      case 'f' =>
        return if f.orig then 0 else 1, Original;
      case 'F' =>
        if f.tagsecond { return 0, NameTag; }
        if f.tagfirst && !multi { return 0, NameTag; }
        return 1, NameTag;
      case _ =>
        if !blades { return 8, Bid; }
        return if f.bladeid then 0 else 1, Bid;
    }
  }

  lemma LexBranch(s: string, i: nat)
    requires i < |s|
    ensures s[i] == 'y' ==> Lex(s, i) == YearAt(s, i)
    ensures PairToken(s[i]).Some? ==>
              var t := PairToken(s[i]).value; Letter(t) == s[i] && Lex(s, i) == PairAt(s, i, t)
    ensures s[i] == 'p' || s[i] == 'n' ==>
              var n := NumberAt(s, i, s[i]);
              Lex(s, i) == if n == 0 then None else Some(if s[i] == 'p' then Pers(n) else Ners(n))
    ensures Lex(s, i).Some? ==> Letter(Lex(s, i).value) == s[i]
  {
  }

  lemma LexSingle(s: string, i: nat, t: Token)
    requires i < |s| && s[i] == Letter(t) && (t.FileSize? || t.Original? || t.NameTag? || t.Bid?)
    ensures Lex(s, i) == Some(t)
  {
  }

  /** One pass through the switch. code 1: token read, 0: reject, 8: blade ids are not available. */
  method NextToken(s: string, start: nat, f: Seen, multi: bool, blades: bool)
    returns (code: int, token: Token, last: nat)
    requires start < |s|
    ensures code == 1 || code == 0 || code == 8
    ensures code == 8 <==> s[start] == 'b' && !blades
    ensures code == 1 ==>
              Lex(s, start) == Some(token) && !Blocks(f, token, multi) && last + 1 == start + Letters(token)
    ensures code == 0 ==> Lex(s, start) == None || Blocks(f, Lex(s, start).value, multi)
  {
    hide Lex, NumberAt;
    LexBranch(s, start);
    code, token, last := 0, FileSize, start;
    var c := s[start];
    if c == 'y' {
      if f.year { return; }
      var r;
      r, last := ScanYear(s, start);
      if r == None { return; }
      code, token := 1, r.value;
    } else if PairToken(c).Some? {
      token := PairToken(c).value;
      code, last := ScanPair(s, start, token, Blocks(f, token, multi));
    } else if c == 'p' || c == 'n' {
      if f.pers || f.ners { return; }
      var letters;
      letters, last := ScanNumber(s, start, c);
      if letters == 0 { return; }
      code, token := 1, if c == 'p' then Pers(letters) else Ners(letters);
    } else if c == 'z' || c == 'f' || c == 'F' || c == 'b' {
      code, token := ScanSingle(c, f, multi, blades);
      LexSingle(s, start, token);
    }
  }

  lemma NothingSeen()
    ensures Flags(Nothing, []) && NumberFlags(Nothing, [])
  {
  }

  /** What one pass means for the scan. */
  lemma StepScans(s: string, index: nat, f: Seen, ts: seq<Token>, multi: bool, blades: bool,
                  step: int, token: Token)
    requires index < |s| && Flags(f, ts)
    requires (step == 8 <==> s[index] == 'b' && !blades) && (step == 0 || step == 1 || step == 8)
    requires step == 1 ==> Lex(s, index) == Some(token) && !Blocks(f, token, multi)
    requires step == 0 ==> Lex(s, index) == None || Blocks(f, Lex(s, index).value, multi)
    requires Tags(ts) <= if multi then 2 else 1
    ensures var limit := if multi then 2 else 1;
            Scan(s, index, ts, limit, blades) ==
            match step
            case 1 => Scan(s, index + Letters(token), ts + [token], limit, blades)
            case 0 => Bad
            case _ => NoBlades
    ensures step == 1 ==> Flags(Marked(f, token), ts + [token])
    ensures step == 1 ==> Tags(ts + [token]) <= if multi then 2 else 1
  {
    if Lex(s, index).Some? { BlocksIsFresh(f, ts, Lex(s, index).value, multi); }
    FlagsNext(f, ts, token);
    TagsNext(ts, token);
  }

  lemma RenderNext(ts: seq<Token>, k: nat, src: Source, nameTag: string, n: nat)
    requires k < |ts| && Civil(src.stamp)
    ensures Render(ts, 0, k + 1, src, nameTag, n) ==
            Render(ts, 0, k, src, nameTag, n) + Piece(ts[k], src, nameTag, Tags(ts[..k]), n)
  {
    RenderSplit(ts, 0, k, k + 1, src, nameTag, n);
    assert Render(ts, k, k + 1, src, nameTag, n) == Piece(ts[k], src, nameTag, Tags(ts[..k]), n) + "";
  }

  function Limit(t: Token): nat {
    if IsNumber(t) then Top(t) else 0
  }

  /** The number flags follow the number token. */
  predicate NumberFlags(f: Seen, ts: seq<Token>) {
    (f.pers <==> UsesPers(ts)) && (f.ners <==> NumberOf(ts).Some? && !f.pers)
  }

  lemma PersNext(ts: seq<Token>, t: Token, f: Seen, multi: bool)
    requires !Blocks(f, t, multi) && NumberFlags(f, ts)
    ensures NumberFlags(Marked(f, t), ts + [t]) && Marked(f, t).pers == (f.pers || t.Pers?)
  {
    NumberNext(ts, t);
  }

  class Template {
    const disk: PersistFile
    const nameTag: string
    const multiNameTag: bool
    const nameTagPart1: string
    const nameTagPart2: string
    const startup: nat
    var templateVector: seq<Token>
    var usePersNr: bool
    var persistentNr: nat
    var transientNr: nat
    var newFilename: string

    constructor (disk: PersistFile, nameTag: string, startupNr: int)
      requires startupNr >= -1
      ensures this.disk == disk && this.nameTag == nameTag && startup == Startup(startupNr)
      ensures multiNameTag <==> '*' in nameTag
      ensures multiNameTag ==> nameTagPart1 == TagText(nameTag, 0) && nameTagPart2 == TagText(nameTag, 1)
      ensures templateVector == [] && !usePersNr && forall n, top :: transientNr == TransientStep(n, Restart, top, startup)
      ensures Count() == Open(disk.content, startup)
    {
      this.disk, this.nameTag := disk, nameTag;
      var start: nat := if startupNr == -1 then 0 else startupNr;
      startup, transientNr := start, start;
      templateVector, usePersNr, newFilename := [], false, "";
      multiNameTag := '*' in nameTag;
      nameTagPart1 := if '*' in nameTag then nameTag[..Asterisk(nameTag)] else "";
      nameTagPart2 := if '*' in nameTag then nameTag[Asterisk(nameTag) + 1..] else "";
      persistentNr := match disk.content case Some(v) => v case None => start;
    }

    ghost function Count(): Counter
      reads this, disk
    {
      Counter(persistentNr, disk.content)
    }

    ghost predicate TagsSplit() {
      && (multiNameTag <==> '*' in nameTag)
      && (multiNameTag ==> nameTagPart1 == TagText(nameTag, 0) && nameTagPart2 == TagText(nameTag, 1))
    }

    /** 1: accepted, 0: rejected, 8: blade ids are not available. */
    method SetTemplate(s: string, blades: bool) returns (code: int)
      requires TagsSplit() && templateVector == [] && !usePersNr
      modifies this`templateVector, this`usePersNr
      ensures code == match Parse(s, nameTag, blades) case Good(_) => 1 case Bad => 0 case NoBlades => 8
      ensures code == 1 ==>
                && WellFormed(templateVector, nameTag, blades) && Spelling(templateVector) == s
                && OneNumber()
    {
      hide Scan, Lex, FlagOf, Uses, Marked, Blocks, NumberOf;
      NothingSeen();
      var f := Nothing;
      ghost var limit := if '*' in nameTag then 2 else 1;
      var index := 0;
      while index < |s|
        invariant index <= |s|
        invariant Scan(s, 0, [], limit, blades) == Scan(s, index, templateVector, limit, blades)
        invariant Flags(f, templateVector) && Tags(templateVector) <= limit
        invariant (usePersNr <==> f.pers) && NumberFlags(f, templateVector)
        decreases |s| - index
      {
        var step, token, last := NextToken(s, index, f, multiNameTag, blades);
        StepScans(s, index, f, templateVector, multiNameTag, blades, step, token);
        if step != 1 { return step; }
        PersNext(templateVector, token, f, multiNameTag);
        if token.Pers? { usePersNr := true; }
        f := Marked(f, token);
        templateVector := templateVector + [token];
        index := last + 1;
      }
      ScanEnd(s, templateVector, limit, blades);
      if nameTag != "" && !f.tagfirst { return 0; }
      if !f.tagsecond && multiNameTag { return 0; }
      if f.tagfirst && nameTag == "" { return 0; }
      ParseIsInverse(s, templateVector, nameTag, blades);
      return 1;
    }

    /** At most one number, as in every accepted template. */
    ghost predicate OneNumber()
      reads this
    {
      && Tokens(templateVector, true)
      && (usePersNr <==> UsesPers(templateVector))
    }

    /** The number the next name takes. */
    ghost function NextNumber(): nat
      reads this, disk
    {
      if UsesPers(templateVector) then Current(Count()) else transientNr
    }

    /** The number token's text; the counter moves on and starts again after Top. */
    method TakePersistent(t: Token) returns (text: string)
      requires t.Pers? && ValidToken(t)
      modifies this`persistentNr
      ensures text == Pad(old(Current(Count())), Width(t))
      ensures persistentNr == After(old(Current(Count())), Top(t), startup)
    {
      if disk.content.Some? { persistentNr := disk.content.value; }
      text := Pad(persistentNr, Width(t));
      persistentNr := persistentNr + 1;
      if persistentNr > Top(t) { persistentNr := startup; }
    }

    method TakeTransient(t: Token) returns (text: string)
      requires t.Ners? && ValidToken(t)
      modifies this`transientNr
      ensures text == Pad(old(transientNr), Width(t))
      ensures transientNr == After(old(transientNr), Top(t), startup)
    {
      text := Pad(transientNr, Width(t));
      transientNr := transientNr + 1;
      if transientNr > Top(t) { transientNr := startup; }
    }

    /** The text of token k, tags before it counted. */
    method PieceText(k: nat, src: Source, tags: nat, ghost n: nat) returns (text: string)
      requires k < |templateVector| && Civil(src.stamp) && TagsSplit() && OneNumber()
      requires tags == Tags(templateVector[..k])
      requires templateVector[k].Pers? ==> n == Current(Count())
      requires templateVector[k].Ners? ==> n == transientNr
      modifies this`persistentNr, this`transientNr
      ensures text == Piece(templateVector[k], src, nameTag, tags, n)
      ensures persistentNr ==
              if templateVector[k].Pers? then After(n, Top(templateVector[k]), startup) else old(persistentNr)
      ensures transientNr ==
              if templateVector[k].Ners? then After(n, Top(templateVector[k]), startup) else old(transientNr)
    {
      var t := templateVector[k];
      assert t in templateVector;
      match t {
        case TwoYear => text := Pad(src.stamp.year - 2000, 2);
        case FourYear => text := Pad(src.stamp.year, 4);
        case Month => text := Pad(src.stamp.month, 2);
        case Day => text := Pad(src.stamp.day, 2);
        case Hour => text := Pad(src.stamp.hour, 2);
        case Minute => text := Pad(src.stamp.minute, 2);
        case Second => text := Pad(src.stamp.second, 2);
        case Pers(_) => text := TakePersistent(t);
        case Ners(_) => text := TakeTransient(t);
        case FileSize => text := Pad(src.sizeKb, 1);
        case Original => text := src.original;
        case NameTag =>
          if !multiNameTag {
            text := nameTag;
          } else if tags >= 2 {
            text := "";
          } else if tags == 1 {
            text := nameTagPart2;
          } else {
            text := nameTagPart1;
          }
        case Bid => text := BladeText(src.original);
      }
    }

    /** The name is the rendering of the template with the next number, and only that number moves. */
    method CreateFileName(src: Source) returns (name: string)
      requires Civil(src.stamp) && TagsSplit() && OneNumber()
      modifies this`newFilename, this`persistentNr, this`transientNr
      ensures name == newFilename == Name(templateVector, src, nameTag, old(NextNumber()))
      ensures Moved(NumberOf(templateVector), old(NextNumber()), old(persistentNr), old(transientNr))
      ensures UsesPers(templateVector) ==>
                Count() == Step(old(Count()), Named, Limit(NumberOf(templateVector).value), startup)
      ensures NumberOf(templateVector).Some? && !UsesPers(templateVector) ==>
                transientNr == TransientStep(old(transientNr), Named, Limit(NumberOf(templateVector).value), startup)
    {
      newFilename := "";
      ghost var n := NextNumber();
      var tags := 0;
      for k := 0 to |templateVector|
        invariant tags == Tags(templateVector[..k])
        invariant newFilename == Render(templateVector, 0, k, src, nameTag, n)
        invariant Moved(NumberOf(templateVector[..k]), n, old(persistentNr), old(transientNr))
      {
        ghost var t, init := templateVector[k], templateVector[..k];
        assert templateVector[..k + 1] == init + [t];
        if IsNumber(t) { NumberAtIndex(templateVector, k); }
        NumberNext(init, t);
        TagsNext(init, t);
        RenderNext(templateVector, k, src, nameTag, n);
        var text := PieceText(k, src, tags, n);
        newFilename := newFilename + text;
        if templateVector[k].NameTag? { tags := tags + 1; }
      }
      assert templateVector[..|templateVector|] == templateVector;
      NumberIn(templateVector);
      name := newFilename;
    }

    /** Only the counter of the number token moved, from n to what follows it. */
    ghost predicate Moved(number: Option<Token>, n: nat, pers: nat, ners: nat)
      reads this
    {
      match number
      case Some(t) =>
        && persistentNr == (if t.Pers? then After(n, Limit(t), startup) else pers)
        && transientNr == (if t.Ners? then After(n, Limit(t), startup) else ners)
      case None => persistentNr == pers && transientNr == ners
    }

    /** Writes the number when the template uses it; the transient number is not written. */
    method CommitPersNr(w: Write)
      modifies disk
      ensures usePersNr ==> Count() == Committing(old(Count()), w)
      ensures !usePersNr ==> Count() == old(Count())
    {
      if usePersNr {
        match w {
          case Written => disk.content := Some(persistentNr);
          case NotOpened =>
          case Emptied => disk.content := None;
        }
      }
    }

    /** The destructor; an object opened afterwards counts on. */
    method Destroy(w: Write)
      modifies this`templateVector, disk
      ensures templateVector == []
      ensures usePersNr && w == Written ==> Open(disk.content, startup) == Step(old(Count()), Restart, 0, startup)
      ensures disk.content == if usePersNr then Committing(old(Count()), w).disk else old(disk.content)
    {
      templateVector := [];
      CommitPersNr(w);
    }
  }
}
