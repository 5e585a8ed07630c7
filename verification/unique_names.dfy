/** Names of a run: which are sure to differ. */
module UniqueNames {
  import opened Options
  import opened TemplateGrammar
  import opened TemplateNames
  import opened NumberReading
  import opened Numbers
  import opened Text

  /** The number of a name can be read back; with a blade id, whose text the original name decides, by fixed
      lengths only. */
  ghost predicate Readable(ts: seq<Token>, k: nat, nameTag: string)
    requires k < |ts|
  {
    if Bid in ts then OneSideFixed(ts, k) else !Clash(ts, k, nameTag)
  }

  lemma NumberReadsBack(ts: seq<Token>, k: nat, nameTag: string, src: Source, src': Source, n: nat, n': nat)
    requires k < |ts| && IsNumber(ts[k]) && Tokens(ts, true) && Readable(ts, k, nameTag)
    requires Civil(src.stamp) && Civil(src'.stamp) && n <= Top(ts[k]) && n' <= Top(ts[k]) && n != n'
    ensures Name(ts, src, nameTag, n) != Name(ts, src', nameTag, n')
  {
    hide Clash, Name;
    if Name(ts, src, nameTag, n) == Name(ts, src', nameTag, n') {
      if Bid in ts {
        OneNumber(ts, k, n);
        OneNumber(ts, k, n');
        FixedSideReads(ts, k, nameTag, src, src', n, n');
      } else {
        NumberReads(ts, k, nameTag, src, src', n, n');
      }
    }
  }

  /** A template has one number token. */
  lemma OneNumber(ts: seq<Token>, k: nat, n: nat)
    requires k < |ts| && IsNumber(ts[k]) && Tokens(ts, true) && n <= Top(ts[k])
    ensures Fits(ts, n) && ValidToken(ts[k])
  {
    assert ts[k] in ts;
    forall t | t in ts && IsNumber(t) ensures t == ts[k] {
      var x :| 0 <= x < |ts| && ts[x] == t;
      assert Slot(ts[x]) == Slot(ts[k]);
    }
  }

  lemma AcceptedTokens(text: string, nameTag: string, blades: bool, ts: seq<Token>)
    requires Parse(text, nameTag, blades) == Good(ts)
    ensures Tokens(ts, true)
  {
    ParseIsInverse(text, ts, nameTag, blades);
  }

  /** p: less than a period apart the names of a committed run differ, whatever the files and the dates are
      and however often the object is rebuilt; a number found above the top, which only the first name can
      have, does not fit the template. */
  lemma PersistentNamesDiffer(text: string, nameTag: string, blades: bool, ts: seq<Token>, k: nat,
                              c: Counter, ops: seq<Op>, s: nat, i: nat, j: nat, src: Source, src': Source)
    requires Parse(text, nameTag, blades) == Good(ts) && k < |ts| && ts[k].Pers? && Readable(ts, k, nameTag)
    requires s <= Top(ts[k]) && Ready(c, ops) && (c.mem <= Top(ts[k]) || i > 0)
    requires Civil(src.stamp) && Civil(src'.stamp)
    requires i < j < |Used(c, ops, Top(ts[k]), s)| && j - i < Top(ts[k]) + 1 - s
    ensures var used := Used(c, ops, Top(ts[k]), s);
            Name(ts, src, nameTag, used[i]) != Name(ts, src', nameTag, used[j])
  {
    hide Readable, Name, Used, Ready, Top, Parse, Nth;
    var top := Top(ts[k]);
    AcceptedTokens(text, nameTag, blades, ts);
    NumbersContinue(c, ops, top, s);
    NthDistinct(c.mem, top, s, i, j);
    NthFits(c.mem, top, s, i);
    NthFits(c.mem, top, s, j);
    NumberReadsBack(ts, k, nameTag, src, src', Used(c, ops, top, s)[i], Used(c, ops, top, s)[j]);
  }

  lemma NthFits(m: nat, top: nat, s: nat, i: nat)
    requires s <= top && (m <= top || i > 0)
    ensures Nth(m, top, s, i) <= top
  {
  }

  /** n: two names of a run differ for all files and dates unless their objects had given equally many names
      before them, up to whole periods; then they are equal for one file. */
  lemma TransientNamesDiffer(text: string, nameTag: string, blades: bool, ts: seq<Token>, k: nat,
                             ops: seq<Op>, s: nat, i: nat, j: nat, src: Source, src': Source)
    requires Parse(text, nameTag, blades) == Good(ts) && k < |ts| && ts[k].Ners? && Readable(ts, k, nameTag)
    requires s <= Top(ts[k]) && i < |Ages(0, ops)| && j < |Ages(0, ops)|
    requires Civil(src.stamp) && Civil(src'.stamp)
    ensures |TransientUsed(s, ops, Top(ts[k]), s)| == |Ages(0, ops)|
    ensures var used, ages, d := TransientUsed(s, ops, Top(ts[k]), s), Ages(0, ops), Top(ts[k]) + 1 - s;
            && (ages[i] % d != ages[j] % d ==> Name(ts, src, nameTag, used[i]) != Name(ts, src', nameTag, used[j]))
            && (ages[i] % d == ages[j] % d ==> Name(ts, src, nameTag, used[i]) == Name(ts, src, nameTag, used[j]))
  {
    hide Readable, Name, TransientUsed, Ages, Top, Parse;
    var top := Top(ts[k]);
    var used, ages, d := TransientUsed(s, ops, top, s), Ages(0, ops), top + 1 - s;
    AcceptedTokens(text, nameTag, blades, ts);
    TransientRepeatsExactly(ops, top, s, i, j);
    TransientCounts(0, ops, top, s) by { TransientStart(top, s); }
    TransientStart(top, s);
    if used[i] != used[j] { NumberReadsBack(ts, k, nameTag, src, src', used[i], used[j]); }
  }

  lemma TransientStart(top: nat, s: nat)
    requires s <= top
    ensures Aged(0, top, s) == s
  {
  }

  /** So within one object they differ less than a period apart. */
  lemma OneObjectsNamesDiffer(text: string, nameTag: string, blades: bool, ts: seq<Token>, k: nat,
                              ops: seq<Op>, s: nat, i: nat, j: nat, src: Source, src': Source)
    requires Parse(text, nameTag, blades) == Good(ts) && k < |ts| && ts[k].Ners? && Readable(ts, k, nameTag)
    requires s <= Top(ts[k]) && Restart !in ops && Civil(src.stamp) && Civil(src'.stamp)
    requires i < j < |Ages(0, ops)| && j - i < Top(ts[k]) + 1 - s
    ensures |TransientUsed(s, ops, Top(ts[k]), s)| == |Ages(0, ops)|
    ensures var used := TransientUsed(s, ops, Top(ts[k]), s);
            Name(ts, src, nameTag, used[i]) != Name(ts, src', nameTag, used[j])
  {
    hide Readable, Name, TransientUsed, Ages, Top, Parse;
    AgesWithoutRestart(0, ops);
    ModDistinct(i, j, Top(ts[k]) + 1 - s);
    TransientNamesDiffer(text, nameTag, blades, ts, k, ops, s, i, j, src, src');
  }

  /** A rebuilt object gives the first transient name again, although it was committed. */
  lemma RebuiltNameRepeats(src: Source)
    requires Civil(src.stamp)
    ensures Parse("nnnn", "", false) == Good([Ners(4)])
    ensures Committed([Named, Commit, Restart, Named])
    ensures var used := TransientUsed(0, [Named, Commit, Restart, Named], Top(Ners(4)), 0);
            |used| == 2 && Name([Ners(4)], src, "", used[0]) == Name([Ners(4)], src, "", used[1])
  {
    var ts, ops := [Ners(4)], [Named, Commit, Restart, Named];
    assert Spelling(ts) == Spell(Ners(4)) + Spelling([]) == "nnnn";
    assert Tags(ts) == Tags([]) by { assert ts[..0] == []; }
    ParseIsInverse("nnnn", ts, "", false);
    assert ops[1..] == [Commit, Restart, Named] && ops[1..][1..] == [Restart, Named] && ops[1..][1..][1..] == [Named];
    assert Ages(0, ops) == [0] + Ages(1, ops[1..]);
    assert Ages(1, ops[1..]) == Ages(0, [Named]) == [0];
    TransientRepeatsExactly(ops, Top(Ners(4)), 0, 0, 1);
  }
}
