/** Sending a list answer in buffers of at most 64000 characters, and putting it together again. */
module AnswerFragments {
  import opened Text

  const MAXBUFFER := 64000

  /** The numbers of the header: message kind, message type, error code, data flag. */
  datatype Header = Header(kind: nat, msgType: nat, errCode: nat, data: nat)

  const INTLIMIT := 0x8000_0000

  predicate Ints(h: Header) {
    h.kind < INTLIMIT && h.msgType < INTLIMIT && h.errCode < INTLIMIT && h.data < INTLIMIT
  }

  function Flag(end: bool): char {
    if end then '1' else '0'
  }

  function Number(n: nat): string {
    Pad(n, 1) + "\n"
  }

  function NextHeader(end: bool): string {
    "rpch" + [Flag(end)] + "\n"
  }

  function FirstHeader(end: bool, h: Header): string {
    NextHeader(end) + (Number(h.kind) + (Number(h.msgType) + (Number(h.errCode) + Number(h.data))))
  }

  function HeaderText(first: bool, end: bool, h: Header): string {
    if first then FirstHeader(end, h) else NextHeader(end)
  }

  lemma {:induction false} PadAtMost(n: nat, v: nat, w: nat)
    requires n < Pow10(w) && v <= w
    ensures |Pad(n, v)| <= w
    decreases w
  {
    if n != 0 || v != 0 {
      assert w > 0;
      PadAtMost(n / 10, if v == 0 then 0 else v - 1, w - 1);
    }
  }

  lemma NumberFits(n: nat)
    requires n < INTLIMIT
    ensures |Number(n)| <= 11
  {
    assert Pow10(10) == 10_000_000_000 by { assert Pow10(5) == 100000 && Pow10(10) == 100000 * Pow10(5); }
    PadAtMost(n, 1, 10);
  }

  /** The header leaves room, and the first one is the longer; its length does not depend on the flag. */
  lemma HeaderFits(first: bool, end: bool, h: Header)
    requires Ints(h)
    ensures 0 < |HeaderText(first, end, h)| <= |FirstHeader(false, h)| < MAXBUFFER
  {
    NumberFits(h.kind);
    NumberFits(h.msgType);
    NumberFits(h.errCode);
    NumberFits(h.data);
  }

  /** Whether the test header says that the rest is the last buffer. */
  predicate Last(rest: string, h: Header)
    requires Ints(h)
  {
    HeaderFits(true, false, h);
    |rest| <= MAXBUFFER - |FirstHeader(false, h)|
  }

  function Room(rest: string, first: bool, h: Header): (n: nat)
    requires Ints(h)
    ensures n <= |rest| && (Last(rest, h) ==> n == |rest|) && (!Last(rest, h) ==> n > 0)
  {
    HeaderFits(first, Last(rest, h), h);
    var room := MAXBUFFER - |HeaderText(first, Last(rest, h), h)|;
    if |rest| <= room then |rest| else room
  }

  /** The buffers that are sent. */
  function Fragments(rest: string, first: bool, h: Header): seq<string>
    requires Ints(h)
    decreases |rest|
  {
    var n := Room(rest, first, h);
    [HeaderText(first, Last(rest, h), h) + rest[..n]] +
    if Last(rest, h) then [] else Fragments(rest[n..], false, h)
  }

  // ---------------------------------------------------------------- the receiver

  /** The text after the first n lines. */
  function AfterLines(s: string, n: nat): string
    decreases n, |s|
  {
    if n == 0 || s == "" then s else if s[0] == '\n' then AfterLines(s[1..], n - 1) else AfterLines(s[1..], n)
  }

  function Reassembled(buffers: seq<string>, first: bool): string
    decreases |buffers|
  {
    if buffers == [] then ""
    else AfterLines(buffers[0], if first then 5 else 1) + Reassembled(buffers[1..], false)
  }

  lemma {:induction false} LineSkipped(line: string, rest: string, n: nat)
    requires '\n' !in line && n > 0
    ensures AfterLines(line + "\n" + rest, n) == AfterLines(rest, n - 1)
    decreases |line|
  {
    var s := line + "\n" + rest;
    if line == "" {
      assert s[1..] == rest;
    } else {
      assert s[0] == line[0] && line[0] in line && s[1..] == line[1..] + "\n" + rest;
      LineSkipped(line[1..], rest, n);
    }
  }

  lemma {:induction false} PadHasNoNewline(n: nat, w: nat)
    ensures '\n' !in Pad(n, w)
    decreases n + w
  {
    if n != 0 || w != 0 { PadHasNoNewline(n / 10, if w == 0 then 0 else w - 1); }
  }

  lemma NumberSkipped(k: nat, rest: string, n: nat)
    requires n > 0
    ensures AfterLines(Number(k) + rest, n) == AfterLines(rest, n - 1)
  {
    PadHasNoNewline(k, 1);
    LineSkipped(Pad(k, 1), rest, n);
    assert Number(k) + rest == Pad(k, 1) + "\n" + rest;
  }

  /** Whatever the payload is, the header is what the receiver takes off. */
  lemma HeaderSkipped(first: bool, end: bool, h: Header, payload: string)
    ensures AfterLines(HeaderText(first, end, h) + payload, if first then 5 else 1) == payload
  {
    var line := "rpch" + [Flag(end)];
    if first {
      var t4 := Number(h.data) + payload;
      var t3 := Number(h.errCode) + t4;
      var t2 := Number(h.msgType) + t3;
      var t1 := Number(h.kind) + t2;
      assert HeaderText(first, end, h) + payload == line + "\n" + t1;
      LineSkipped(line, t1, 5);
      NumberSkipped(h.kind, t2, 4);
      NumberSkipped(h.msgType, t3, 3);
      NumberSkipped(h.errCode, t4, 2);
      NumberSkipped(h.data, payload, 1);
    } else {
      assert HeaderText(first, end, h) + payload == line + "\n" + payload;
      LineSkipped(line, payload, 1);
    }
  }

  /** The first line of a text. */
  function Line(s: string): string {
    if s == "" || s[0] == '\n' then "" else [s[0]] + Line(s[1..])
  }

  lemma {:induction false} LineIs(line: string, rest: string)
    requires '\n' !in line
    ensures Line(line + "\n" + rest) == line
    decreases |line|
  {
    if line != "" {
      assert (line + "\n" + rest)[1..] == line[1..] + "\n" + rest && line[0] in line;
      LineIs(line[1..], rest);
    }
  }

  /** A line that is a decimal, without leading zeros, and the number it stands for. */
  predicate Says(line: string, n: nat) {
    Digits(line) && Value(line) == n && line != "" && (|line| > 1 ==> line[0] != '0')
  }

  lemma NumberLine(k: nat, rest: string, s: string)
    requires s == Number(k) + rest
    ensures Says(Line(s), k) && AfterLines(s, 1) == rest
  {
    PadHasNoNewline(k, 1);
    LineIs(Pad(k, 1), rest);
    PadReads(k, 1);
    PadShape(k, 1);
    NumberSkipped(k, rest, 1);
    assert Number(k) + rest == Pad(k, 1) + "\n" + rest;
    hide Pad;
  }

  /** The first buffer starts with a line for the end flag and one each for message kind, message type, error code
      and data flag; the others have the first line only. */
  lemma HeaderReads(end: bool, h: Header, payload: string)
    ensures Line(HeaderText(false, end, h) + payload) == "rpch" + if end then "1" else "0"
    ensures var l1 := HeaderText(true, end, h) + payload;
            var l2 := AfterLines(l1, 1);
            var l3 := AfterLines(l2, 1);
            var l4 := AfterLines(l3, 1);
            var l5 := AfterLines(l4, 1);
            && Line(l1) == "rpch" + (if end then "1" else "0")
            && Says(Line(l2), h.kind) && Says(Line(l3), h.msgType) && Says(Line(l4), h.errCode) && Says(Line(l5), h.data)
            && AfterLines(l5, 1) == payload
  {
    var line := "rpch" + [Flag(end)];
    hide Says, Line, AfterLines, Number;
    var t4 := Number(h.data) + payload;
    var t3 := Number(h.errCode) + t4;
    var t2 := Number(h.msgType) + t3;
    var t1 := Number(h.kind) + t2;
    assert HeaderText(true, end, h) + payload == line + "\n" + t1;
    assert HeaderText(false, end, h) + payload == line + "\n" + payload;
    LineIs(line, t1);
    LineIs(line, payload);
    LineSkipped(line, t1, 1);
    NothingSkipped(t1);
    NumberLine(h.kind, t2, t1);
    NumberLine(h.msgType, t3, t2);
    NumberLine(h.errCode, t4, t3);
    NumberLine(h.data, payload, t4);
  }

  lemma NothingSkipped(s: string)
    ensures AfterLines(s, 0) == s
  {
  }

  /** The end flag of a buffer. */
  predicate Ended(buffer: string) {
    |buffer| > 4 && buffer[4] == '1'
  }

  predicate WellSent(buffers: seq<string>) {
    && buffers != []
    && (forall i :: 0 <= i < |buffers| ==> |buffers[i]| <= 64000)
    && (forall i :: 0 <= i < |buffers| ==> (Ended(buffers[i]) <==> i == |buffers| - 1))
  }

  lemma OneBuffer(rest: string, first: bool, h: Header)
    requires Ints(h)
    ensures var n := Room(rest, first, h);
            var buffer := HeaderText(first, Last(rest, h), h) + rest[..n];
            |buffer| <= MAXBUFFER && (Ended(buffer) <==> Last(rest, h))
  {
    HeaderFits(first, Last(rest, h), h);
  }

  lemma SentCons(buffer: string, buffers: seq<string>)
    requires |buffer| <= MAXBUFFER && !Ended(buffer) && WellSent(buffers)
    ensures WellSent([buffer] + buffers)
  {
    hide Ended;
    var all := [buffer] + buffers;
    assert forall i :: 0 < i < |all| ==> all[i] == buffers[i - 1];
  }

  /** Every buffer fits, exactly the last one has the end flag, and the payloads give back the answer. */
  lemma {:induction false} FragmentsReassemble(rest: string, first: bool, h: Header)
    requires Ints(h)
    ensures WellSent(Fragments(rest, first, h)) && Reassembled(Fragments(rest, first, h), first) == rest
    decreases |rest|
  {
    var n := Room(rest, first, h);
    var buffer := HeaderText(first, Last(rest, h), h) + rest[..n];
    OneBuffer(rest, first, h);
    HeaderSkipped(first, Last(rest, h), h, rest[..n]);
    hide HeaderText, Room, AfterLines, Last;
    if Last(rest, h) {
      assert Fragments(rest, first, h) == [buffer];
      assert [buffer][1..] == [] && Reassembled([], false) == "";
    } else {
      var more := Fragments(rest[n..], false, h);
      FragmentsReassemble(rest[n..], false, h);
      hide Ended;
      assert ([buffer] + more)[1..] == more;
      SentCons(buffer, more);
      assert rest == rest[..n] + rest[n..];
    }
  }

  /** Every buffer but the last is full, except one before a last buffer without payload. */
  predicate Full(buffers: seq<string>) {
    forall i :: 0 <= i < |buffers| - 1 ==>
      |buffers[i]| == 64000 || (i == |buffers| - 2 && AfterLines(buffers[i + 1], 1) == "")
  }

  /** One buffer does exactly when the answer fits behind the first header; otherwise no buffer is wasted, but the
      test uses the long header for the short ones too, so the last buffer may be empty. */
  lemma {:induction false} FragmentsFull(rest: string, first: bool, h: Header)
    requires Ints(h)
    ensures var fs := Fragments(rest, first, h);
            Full(fs) && fs != [] && (|fs| == 1 <==> |HeaderText(true, false, h)| + |rest| <= 64000)
    ensures !first && rest == "" ==> AfterLines(Fragments(rest, first, h)[0], 1) == ""
    decreases |rest|
  {
    var n := Room(rest, first, h);
    var buffer := HeaderText(first, Last(rest, h), h) + rest[..n];
    BufferFull(rest, first, h);
    if !first && rest == "" { HeaderSkipped(false, true, h, ""); }
    hide HeaderText, Room, AfterLines, Last, Full;
    if Last(rest, h) {
      assert Fragments(rest, first, h) == [buffer];
      FullOne(buffer);
    } else {
      FragmentsFull(rest[n..], false, h);
      FullCons(buffer, Fragments(rest[n..], false, h));
    }
  }

  lemma BufferFull(rest: string, first: bool, h: Header)
    requires Ints(h)
    ensures var n := Room(rest, first, h);
            && (!Last(rest, h) ==> |HeaderText(first, false, h) + rest[..n]| == 64000 || rest[n..] == "")
            && (Last(rest, h) <==> |HeaderText(true, false, h)| + |rest| <= 64000)
            && (rest == "" ==> Last(rest, h))
            && (Last(rest, h) ==> rest[..n] == rest)
  {
    HeaderFits(first, Last(rest, h), h);
    HeaderFits(true, false, h);
  }

  lemma FullOne(buffer: string)
    ensures Full([buffer])
  {
  }

  lemma FullCons(buffer: string, more: seq<string>)
    requires more != [] && Full(more)
    requires |buffer| == 64000 || (|more| == 1 && AfterLines(more[0], 1) == "")
    ensures Full([buffer] + more)
  {
    hide AfterLines;
    var all := [buffer] + more;
    forall i | 0 <= i < |all| - 1
      ensures |all[i]| == 64000 || (i == |all| - 2 && AfterLines(all[i + 1], 1) == "")
    {
      if i > 0 { assert all[i] == more[i - 1] && all[i + 1] == more[i]; }
    }
  }

  /** What strcpy copies: the text before the first NUL. */
  function CString(s: string): string {
    if s == "" || s[0] == '\0' then "" else [s[0]] + CString(s[1..])
  }

  lemma {:induction false} CStringWhole(s: string)
    requires '\0' !in s
    ensures CString(s) == s
    decreases |s|
  {
    if s != "" {
      assert s[0] in s && forall c :: c in s[1..] ==> c in s;
      CStringWhole(s[1..]);
    }
  }

  /** The sending loop; sendable: how many buffers go out before the session fails. */
  method SendAnswer(answer: string, h: Header, sendable: nat) returns (sent: seq<string>, ok: bool)
    requires Ints(h) && '\0' !in answer
    ensures sent <= Fragments(answer, true, h)
    ensures ok <==> sent == Fragments(answer, true, h)
    ensures !ok ==> |sent| == sendable
  {
    hide HeaderText, Last, Fragments;
    ghost var all := Fragments(answer, true, h);
    var list, totlen, endFlag, firstBuffer := answer, |answer|, false, true;
    HeaderFits(true, false, h);
    var slasklen := |HeaderText(true, false, h)|;
    sent, ok := [], true;
    while !endFlag
      invariant totlen == |list| && '\0' !in list
      invariant !endFlag ==> all == sent + Fragments(list, firstBuffer, h)
      invariant endFlag ==> all == sent
      decreases !endFlag, totlen
    {
      LastIs(list, h);
      endFlag := !(totlen > MAXBUFFER - slasklen);
      var buf := HeaderText(firstBuffer, endFlag, h);
      HeaderFits(firstBuffer, endFlag, h);
      var room := MAXBUFFER - |buf|;
      var tmpStr := if |list| <= room then list else list[..room];
      var tmpbuff := CString(tmpStr);
      CStringWhole(tmpStr);
      ghost var rest := NextBuffer(list, firstBuffer, h, |tmpbuff|);
      assert tmpbuff == list[..|tmpbuff|];
      ghost var tail := list[|tmpbuff|..];
      list := if |list| <= room then "" else list[room..];
      assert list == tail;
      totlen := totlen - |tmpbuff|;
      firstBuffer := false;
      buf := buf + tmpbuff;
      Regroup(sent, buf, rest);
      if |sent| == sendable { return sent, false; }
      sent := sent + [buf];
    }
  }

  lemma Regroup(sent: seq<string>, buf: string, rest: seq<string>)
    ensures sent + ([buf] + rest) == sent + [buf] + rest
    ensures sent <= sent + ([buf] + rest) && sent != sent + ([buf] + rest)
    ensures sent + [buf] + [] == sent + [buf]
  {
    assert |sent + ([buf] + rest)| > |sent|;
  }

  lemma LastIs(list: string, h: Header)
    requires Ints(h)
    ensures Last(list, h) <==> !(|list| > MAXBUFFER - |HeaderText(true, false, h)|)
  {
  }

  lemma NextBuffer(list: string, first: bool, h: Header, n: nat) returns (rest: seq<string>)
    requires Ints(h)
    requires n == if |list| <= MAXBUFFER - |HeaderText(first, Last(list, h), h)| then |list|
                  else MAXBUFFER - |HeaderText(first, Last(list, h), h)|
    ensures n <= |list| && (!Last(list, h) ==> n > 0) && (Last(list, h) ==> n == |list|)
    ensures Fragments(list, first, h) == [HeaderText(first, Last(list, h), h) + list[..n]] + rest
    ensures rest == if Last(list, h) then [] else Fragments(list[n..], false, h)
  {
    assert n == Room(list, first, h);
    rest := if Last(list, h) then [] else Fragments(list[n..], false, h);
  }
}
