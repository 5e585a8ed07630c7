/** What single events and messages do to the file in transfer, code by code, and what the loop makes of a retry, a
    stop and a lost server. */
module TransferSteps {
  import opened TransferProtocol
  import opened TransferSafety

  /** Retries are left to the file in transfer. */
  predicate RetriesLeft(s: Loop) {
    s.item.retries == -1 || s.retryNo < s.item.retries
  }

  function Marks(s: Loop, v: Verdict): seq<Mark> {
    match v
    case Delivered => [Mark(s.item.name, Deleted)]
    case Retryable => if RetriesLeft(s) then [] else [Mark(s.item.name, Failed)]
    case Refused | ServerGone => [Mark(s.item.name, Failed)]
    case TaskGone | Halted | Ignored => []
  }

  function Out(s: Loop, v: Verdict): seq<ManageMsg> {
    match v
    case Delivered | Refused | TaskGone => [Finished(false)]
    case Retryable => [if RetriesLeft(s) then SendRetry else Finished(false)]
    case ServerGone => [Finished(true), Reopen]
    case Halted => [CdhStopped]
    case Ignored => []
  }

  /** What one Emit adds, with the fields it leaves. */
  lemma Emits(s: Loop, m: ManageMsg)
    ensures var t, out := Emit(s, m), if s.destShutdown then [] else [m];
            && t.manage == s.manage + out && t.log.emitted == s.log.emitted + out && t.log.marks == s.log.marks
            && t.retryNo == (if m.Finished? then 0 else s.retryNo)
            && t.outstanding == s.outstanding && t.item == s.item && t.files == s.files
            && t.log.offers == s.log.offers && t.destShutdown == s.destShutdown
  {
  }

  predicate Adds(s: Loop, t: Loop, marks: seq<Mark>, out: seq<ManageMsg>, retryNo: int) {
    && t.log.marks == s.log.marks + marks
    && t.manage == (if s.destShutdown then s.manage else s.manage + out)
    && t.log.emitted == (if s.destShutdown then s.log.emitted else s.log.emitted + out)
    && t.retryNo == retryNo && t.item == s.item && t.files == s.files && t.log.offers == s.log.offers
  }

  lemma OneMessage(s: Loop, t: Loop, marks: seq<Mark>, m: ManageMsg)
    requires Adds(s, t, marks, [], s.retryNo) && t.destShutdown == s.destShutdown
    ensures Adds(s, Emit(t, m), marks, [m], if m.Finished? then 0 else s.retryNo)
    ensures Emit(t, m).destShutdown == s.destShutdown && Emit(t, m).outstanding == t.outstanding
  {
    hide Emit;
    Emits(t, m);
  }

  lemma TwoMessages(s: Loop, t: Loop, marks: seq<Mark>)
    requires Adds(s, t, marks, [], s.retryNo) && t.destShutdown == s.destShutdown
    ensures var u := Emit(Emit(t, Finished(true)), Reopen);
            Adds(s, u, marks, [Finished(true), Reopen], 0) && u.outstanding == t.outstanding
  {
    hide Emit;
    Emits(t, Finished(true));
    Emits(Emit(t, Finished(true)), Reopen);
    assert [Finished(true)] + [Reopen] == [Finished(true), Reopen];
    assert t.manage + [Finished(true)] + [Reopen] == t.manage + [Finished(true), Reopen];
    assert t.log.emitted + [Finished(true)] + [Reopen] == t.log.emitted + [Finished(true), Reopen];
  }

  lemma Marked(s: Loop, status: FileStatus)
    ensures var t := EndTask(s);
            && Adds(s, t, [], [], s.retryNo) && Adds(s, Marking(t, status), [Mark(s.item.name, status)], [], s.retryNo)
            && t.outstanding == (if s.outstanding == 0 then 0 else s.outstanding - 1)
            && Marking(t, status).outstanding == t.outstanding
            && t.destShutdown == s.destShutdown && Marking(t, status).destShutdown == s.destShutdown
  {
  }

  lemma Concludes(s: Loop, v: Verdict)
    ensures var t := Conclude(s, v);
            && Adds(s, t, Marks(s, v), Out(s, v),
                    match v
                    case Retryable =>
                      if !RetriesLeft(s) then 0 else if s.item.retries == -1 then s.retryNo else s.retryNo + 1
                    case Halted | Ignored => s.retryNo
                    case _ => 0)
            && t.outstanding == (if v.Halted? || v.Ignored? || s.outstanding == 0 then s.outstanding else s.outstanding - 1)
  {
    var t := EndTask(s);
    Marked(s, Failed);
    Marked(s, Deleted);
    hide Emit, Marking, EndTask;
    match v
    case Delivered => OneMessage(s, Marking(t, Deleted), [Mark(s.item.name, Deleted)], Finished(false));
    case Retryable =>
      assert RetriesLeft(s) <==> Retries(t) by { assert t.item == s.item && t.retryNo == s.retryNo; }
      OneMessage(s, t, [], SendRetry);
      OneMessage(s, Marking(t, Failed), [Mark(s.item.name, Failed)], Finished(false));
    case Refused => OneMessage(s, Marking(t, Failed), [Mark(s.item.name, Failed)], Finished(false));
    case ServerGone => TwoMessages(s, Marking(t, Failed), [Mark(s.item.name, Failed)]);
    case TaskGone => OneMessage(s, t, [], Finished(false));
    case Halted => assert Adds(s, s, [], [], s.retryNo); OneMessage(s, s, [], CdhStopped);
    case Ignored =>
  }

  /** A delivered file is marked for deletion; a file whose destination cannot be reached is marked failed once its
      retries are used up, any other error at once; a stopped or unknown task and news of the connection leave the
      mark alone. */
  lemma FileMarked(s: Loop, code: FileCode)
    ensures FileEvent(s, code).log.marks == s.log.marks +
            match code
            case Ok | FileAlreadySent => [Mark(s.item.name, Deleted)]
            case NoDest | FileErr | ConnectErr | SendErr | ConnectWarn | SendWarn | DataAreaErr =>
              if RetriesLeft(s) then [] else [Mark(s.item.name, Failed)]
            case Error | IncUsage | UnknownRc | Unreas | PhysFileErr | ProtectedDest | IntProgErr | NoTrans | NoServer
               | FileNameTooLong | TaskExists | OtherCode => [Mark(s.item.name, Failed)]
            case TaskStopped | NoTask | DestDef | EndOfStream | HandlerSet | HandlerSetErr | HandlerRem
               | HandlerRemErr | ConnectOk => []
  {
    hide Conclude;
    Concludes(s, Classify(code));
  }

  /** CDHSENDRETRY goes out for exactly seven codes while retries are left; CDHFINISHED for every other code that
      ends the task, followed by CDHREOPEN when the server is gone; CDHSTOPPED for a stopped task. Once shutdown has
      begun nothing goes out any more. */
  lemma FileAnswered(s: Loop, code: FileCode)
    ensures var t := FileEvent(s, code);
            var out := match code
              case NoDest | FileErr | ConnectErr | SendErr | ConnectWarn | SendWarn | DataAreaErr =>
                [if RetriesLeft(s) then SendRetry else Finished(false)]
              case Ok | FileAlreadySent | NoTask | Error | IncUsage | UnknownRc | Unreas | PhysFileErr
                 | ProtectedDest | IntProgErr | NoTrans | FileNameTooLong | TaskExists | OtherCode => [Finished(false)]
              case NoServer => [Finished(true), Reopen]
              case TaskStopped => [CdhStopped]
              case DestDef | EndOfStream | HandlerSet | HandlerSetErr | HandlerRem | HandlerRemErr | ConnectOk => [];
            && t.manage == (if s.destShutdown then s.manage else s.manage + out)
            && t.log.emitted == (if s.destShutdown then s.log.emitted else s.log.emitted + out)
            && t.retryNo == (if out != [] && out[0].Finished? then 0
                             else if out == [SendRetry] && s.item.retries != -1 then s.retryNo + 1 else s.retryNo)
            && t.outstanding == (if out == [] || out == [CdhStopped] || s.outstanding == 0 then s.outstanding
                                 else s.outstanding - 1)
            && t.item == s.item && t.files == s.files && t.log.offers == s.log.offers
  {
    hide Conclude;
    Concludes(s, Classify(code));
  }

  /** News of the destination set never touch the state of the file; only a lost server ends its transfer. */
  lemma SetAnswered(s: Loop, code: SetCode)
    ensures var t := SetEvent(s, code);
            var out := if s.destShutdown then [] else match code
              case SetNews => [Note]
              case SetQuiet => []
              case SetServerGone => [Finished(true), Reopen]
              case SetStopping => [CdhStopped];
            && t.manage == s.manage + out && t.log.emitted == s.log.emitted + out && t.log.marks == s.log.marks
            && t.item == s.item && t.outstanding == s.outstanding
  {
    hide Emit;
    assert Adds(s, s, [], [], s.retryNo);
    match code
    case SetNews => OneMessage(s, s, [], Note);
    case SetQuiet =>
    case SetServerGone => TwoMessages(s, s, []);
    case SetStopping => OneMessage(s, s, [], CdhStopped);
  }

  /** Requests from outside are handled before everything queued; files wait at the end. */
  lemma Arrives(s: Loop, m: ManageMsg, f: SendItem)
    requires Enabled(s, Post(m))
    ensures Apply(s, Post(m)).manage == [m] + s.manage
    ensures Apply(s, Submit(f)).files == if s.filesOpen then s.files + [f] else s.files
  {
  }

  // ---------------------------------------------------------------- messages

  /** Before the loop looks at m, the head of the manage queue. */
  predicate Reads(s: Loop, m: ManageMsg) {
    s.pc == Top && s.manage != [] && s.manage[0] == m
  }

  /** CDHREOPEN opens CDH again: it leads to CDHREATTACH, or to another attempt; when the program stops it leads to
      a HANGUP ahead of everything else. */
  lemma Reopened(s: Loop, w: Replies)
    requires Reads(s, Reopen) && !s.destShutdown
    ensures var t, rest := Apply(s, ManageNext(w)), s.manage[1..];
            && t.manage == (if w.afpStopping then [Hangup] + rest else rest + [if w.openOk then Reattach else Reopen])
            && t.files == s.files && t.item == s.item && t.log.offers == s.log.offers
  {
  }

  /** CDHREATTACH leads to CDHRESEND, or to another attempt. */
  lemma Reattached(s: Loop, w: Replies)
    requires Reads(s, Reattach) && !s.destShutdown
    ensures var t := Apply(s, ManageNext(w));
            && t.manage == s.manage[1..] + [if w.attachOk then Resend else Reattach]
            && t.files == s.files && t.item == s.item && t.log.offers == s.log.offers
  {
  }

  /** CDHRESEND puts the file of the destination at the head of the queue, if it is still in state sending. */
  lemma PutBackAgain(s: Loop, w: Replies)
    requires Reads(s, Resend)
    ensures var t := Apply(s, ManageNext(w));
            && t.manage == s.manage[1..]
            && t.files == (if s.item.name != "" && w.stillSending && s.filesOpen then [s.item] + s.files else s.files)
  {
  }

  /** CDHFINISHED frees the loop for the next file, and ends it during shutdown. */
  lemma Freed(s: Loop, w: Replies, lost: bool)
    requires Reads(s, Finished(lost))
    ensures var t := Apply(s, ManageNext(w));
            && t.manage == s.manage[1..] && !t.inTransfer && !t.resending && t.files == s.files
            && t.stopLoop == (s.stopLoop || s.shutdown) && t.pc == (if t.stopLoop then Done else AtFile)
  {
  }

  /** A request to stop one file reaches CDH exactly when it names the file in transfer; any other path is
      remembered. */
  lemma StopRequested(s: Loop, path: string, w: Replies)
    requires Reads(s, StopFile(path)) && !s.destShutdown
    ensures var t, rest := Apply(s, ManageNext(w)), s.manage[1..];
            && t.files == s.files && t.inTransfer == s.inTransfer && t.log.marks == s.log.marks
            && (if s.inTransfer && path == s.current
                then && t.manage == rest + [Finished(false)] && t.stopSet == s.stopSet && t.retryNo == 0
                     && t.outstanding == (if w.stop == StopOk && s.outstanding > 0 then s.outstanding - 1 else s.outstanding)
                else t.manage == rest && t.stopSet == s.stopSet + {path} && t.outstanding == s.outstanding)
  {
  }

  /** CDHSTOPSENDALL stops the file in transfer and takes every queued one away; the last of these is then the one
      that a stop request is compared with. */
  lemma AllStopped(s: Loop, w: Replies)
    requires Reads(s, StopAll) && !s.destShutdown
    ensures var t, rest := Apply(s, ManageNext(w)), s.manage[1..];
            && t.files == [] && t.filesOpen == s.filesOpen && t.inTransfer == s.inTransfer && t.stopSet == s.stopSet
            && t.current == (if s.files == [] then s.current else s.files[|s.files| - 1].path)
            && t.manage == (if s.inTransfer then rest + [Finished(false)] else rest)
            && t.outstanding == (if s.inTransfer && w.stop == StopOk && s.outstanding > 0 then s.outstanding - 1
                                 else s.outstanding)
  {
  }

  /** HANGUP ends the loop at once and closes the file queue, unless a file is in transfer and CDH lets it be
      stopped; then the loop waits for its CDHFINISHED. */
  lemma HungUp(s: Loop, w: Replies)
    requires Reads(s, Hangup) && !s.destShutdown && !s.stopLoop
    ensures var t, waits := Apply(s, ManageNext(w)), s.inTransfer && w.stop == StopOk;
            && t.shutdown && t.destShutdown && t.stopLoop == !waits
            && t.filesOpen == (waits && s.filesOpen) && t.files == (if waits then s.files else [])
            && t.manage == s.manage[1..] + (if s.inTransfer then [Finished(false)] else [])
  {
  }

  /** CDHSTOPPED closes the file queue during shutdown and does nothing else. */
  lemma CdhStops(s: Loop, w: Replies)
    requires Reads(s, CdhStopped)
    ensures var t := Apply(s, ManageNext(w));
            && t.files == (if s.shutdown then [] else s.files) && t.filesOpen == (s.filesOpen && !s.shutdown)
            && t.manage == s.manage[1..] && t.inTransfer == s.inTransfer && t.stopLoop == s.stopLoop
  {
  }

  // ---------------------------------------------------------------- taking a file

  /** The next file is the head of the queue: it is offered to CDH and marked as sent, or dropped when a stop
      request names it, which is then used up. */
  lemma FileTaken(s: Loop, accepted: bool)
    requires s.pc == AtFile && s.files != [] && !s.destShutdown
    ensures var t, f := Apply(s, FileNext(accepted)), s.files[0];
            && t.files == s.files[1..] && t.current == f.path
            && (if f.path in s.stopSet
                then && t.pc == Top && t.log.offers == s.log.offers && t.item == s.item && t.manage == s.manage
                     && t.log.taken == s.log.taken + [Taken(f, Dropped)]
                     && t.log.marks == s.log.marks && t.stopSet == s.stopSet - {f.path}
                else && t.pc == Sending && t.log.offers == s.log.offers + 1 && t.item == f && t.stopSet == s.stopSet
                     && t.outstanding == s.outstanding + (if accepted then 1 else 0)
                     && t.manage == s.manage + (if accepted then [] else [Finished(false)])
                     && (accepted ==> t.log.marks == s.log.marks + [Mark(f.name, Sent)]))
  {
    hide TakeFile;
    if s.files[0].path in s.stopSet { TakenDropped(s, accepted); } else { TakenOffered(s, accepted); }
  }

  lemma TakenDropped(s: Loop, accepted: bool)
    requires s.files != [] && s.files[0].path in s.stopSet
    ensures var t, f := TakeFile(s, accepted), s.files[0];
            && t.files == s.files[1..] && t.current == f.path
            && t.pc == Top && t.log.offers == s.log.offers && t.item == s.item && t.manage == s.manage
            && t.log.taken == s.log.taken + [Taken(f, Dropped)]
            && t.log.marks == s.log.marks && t.stopSet == s.stopSet - {f.path}
  {
    hide Offer;
  }

  lemma TakenOffered(s: Loop, accepted: bool)
    requires s.files != [] && s.files[0].path !in s.stopSet && !s.destShutdown
    ensures var t, f := TakeFile(s, accepted), s.files[0];
            && t.files == s.files[1..] && t.current == f.path
            && t.pc == Sending && t.log.offers == s.log.offers + 1 && t.item == f && t.stopSet == s.stopSet
            && t.outstanding == s.outstanding + (if accepted then 1 else 0)
            && t.manage == s.manage + (if accepted then [] else [Finished(false)])
            && (accepted ==> t.log.marks == s.log.marks + [Mark(f.name, Sent)])
  {
    hide Offer;
    var f := s.files[0];
    var t := Taking(s.(files := s.files[1..], current := f.path), [Taken(f, Offered)]).(item := f);
    Offers(t, accepted);
    Offers(Marking(t, Sent), accepted);
  }

  lemma Offers(s: Loop, accepted: bool)
    requires !s.destShutdown
    ensures var t := Offer(s, accepted);
            && t.files == s.files && t.current == s.current && t.item == s.item && t.stopSet == s.stopSet
            && t.log.offers == s.log.offers + 1 && t.outstanding == s.outstanding + (if accepted then 1 else 0)
            && t.manage == s.manage + (if accepted then [] else [Finished(false)])
            && (accepted ==> t.log.marks == s.log.marks)
            && t.log.taken == s.log.taken
  {
  }

  // ---------------------------------------------------------------- short runs

  /** A transfer is under way and nothing else is to be done. */
  predicate Sole(s: Loop) {
    && s.pc == Top && s.inTransfer && !s.resending && s.manage == [] && s.files == [] && s.filesOpen
    && !s.shutdown && !s.destShutdown && !s.stopLoop && s.item.name != "" && s.item.path !in s.stopSet
  }

  /** An error that may be retried: CDHSENDRETRY, the delay, and the same file is at CDH again. */
  lemma RetrySends(s: Loop, code: FileCode, w: Replies)
    requires Sole(s) && s.outstanding == 1 && RetriesLeft(s)
    requires code in {NoDest, FileErr, ConnectErr, SendErr, ConnectWarn, SendWarn, DataAreaErr}
    ensures var ls := [OnFile(code), ManageNext(w), ManageTimeout(true), ResendFlag];
            && Possible(s, ls)
            && var t := Run(s, ls);
               Sole(t) && t.item == s.item && t.outstanding == 1 && t.log.offers == s.log.offers + 1 &&
               t.log.marks == s.log.marks
  {
    var ls, t := RetryHeard(s, code, w);
    var t2;
    ls, t2 := Extend(s, ls, t, ManageTimeout(true));
    ls, t2 := Extend(s, ls, t2, ResendFlag);
    assert ls == [OnFile(code), ManageNext(w), ManageTimeout(true), ResendFlag];
  }

  /** The retry is due. */
  lemma RetryHeard(s: Loop, code: FileCode, w: Replies) returns (ls: seq<Label>, t: Loop)
    requires Sole(s) && s.outstanding == 1 && RetriesLeft(s)
    requires code in {NoDest, FileErr, ConnectErr, SendErr, ConnectWarn, SendWarn, DataAreaErr}
    ensures ls == [OnFile(code), ManageNext(w)] && Possible(s, ls) && t == Run(s, ls)
    ensures t == s.(resending := true, retryNo := t.retryNo, outstanding := 0, log := t.log)
    ensures t.log.marks == s.log.marks && t.log.offers == s.log.offers
  {
    ls, t := Extend(s, [], s, OnFile(code));
    hide Run, Possible;
    FileEventIs(s, code);
    ls, t := Extend(s, ls, t, ManageNext(w));
  }

  lemma FileEventIs(s: Loop, code: FileCode)
    requires Sole(s) && s.outstanding == 1 && RetriesLeft(s)
    requires code in {NoDest, FileErr, ConnectErr, SendErr, ConnectWarn, SendWarn, DataAreaErr}
    ensures var t := FileEvent(s, code);
            && t == s.(manage := [SendRetry], retryNo := t.retryNo, outstanding := 0, log := t.log)
            && t.log.marks == s.log.marks && t.log.offers == s.log.offers
  {
    assert Classify(code) == Retryable;
  }

  /** The server comes back: CDH is opened, the application attached and the file asked for. */
  function Recovery(l: Label, w: Replies): seq<Label> {
    [l, ManageNext(w), FileIdle, ManageNext(w), FileIdle, ManageNext(w), FileIdle, ManageNext(w)]
  }

  /** After the loss is reported the loop reaches CDHRESEND when all answers are good. */
  lemma Recovers(s: Loop, l: Label, w: Replies) returns (t: Loop)
    requires Sole(s) && l in {OnFile(NoServer), OnSet(SetServerGone)}
    requires !w.afpStopping && w.openOk && w.attachOk
    ensures Possible(s, Recovery(l, w)) && t == Run(s, Recovery(l, w))
    ensures t.pc == AtFile && t.manage == [] && !t.inTransfer && !t.resending && !t.destShutdown
    ensures t.item == s.item && t.stopSet == s.stopSet && t.log.offers == s.log.offers
    ensures t.files == if w.stillSending then [s.item] else []
    ensures t.log.marks == s.log.marks + if l.OnFile? then [Mark(s.item.name, Failed)] else []
  {
    hide Run, Possible;
    var ls;
    ls, t := OpensAgain(s, l, w);
    Reattached(t, w);
    ls, t := Extend(s, ls, t, ManageNext(w));
    ls, t := Extend(s, ls, t, FileIdle);
    ls, t := Extend(s, ls, t, ManageNext(w));
    assert ls == Recovery(l, w);
  }

  lemma OpensAgain(s: Loop, l: Label, w: Replies) returns (ls: seq<Label>, t: Loop)
    requires Sole(s) && l in {OnFile(NoServer), OnSet(SetServerGone)} && !w.afpStopping && w.openOk
    ensures ls == [l, ManageNext(w), FileIdle, ManageNext(w), FileIdle] && Possible(s, ls) && t == Run(s, ls)
    ensures t == s.(manage := [Reattach], pc := Top, inTransfer := false, retryNo := t.retryNo,
                    outstanding := t.outstanding, log := t.log)
    ensures t.log.offers == s.log.offers
    ensures t.log.marks == s.log.marks + if l.OnFile? then [Mark(s.item.name, Failed)] else []
  {
    ls, t := Lost(s, l);
    hide Run, Possible;
    ls, t := Extend(s, ls, t, ManageNext(w));
    ls, t := Extend(s, ls, t, FileIdle);
    Reopened(t, w);
    ls, t := Extend(s, ls, t, ManageNext(w));
    ls, t := Extend(s, ls, t, FileIdle);
  }

  lemma Lost(s: Loop, l: Label) returns (ls: seq<Label>, t: Loop)
    requires Sole(s) && l in {OnFile(NoServer), OnSet(SetServerGone)}
    ensures ls == [l] && Possible(s, ls) && t == Run(s, ls)
    ensures t == s.(manage := [Finished(true), Reopen], retryNo := t.retryNo, outstanding := t.outstanding, log := t.log)
    ensures t.log.offers == s.log.offers
    ensures t.log.marks == s.log.marks + if l.OnFile? then [Mark(s.item.name, Failed)] else []
  {
    ls, t := Extend(s, [], s, l);
    if l.OnFile? {
      FileMarked(s, NoServer);
      FileAnswered(s, NoServer);
    } else {
      SetAnswered(s, SetServerGone);
    }
  }

  /** A loss reported for the destination set leaves the file in state sending, so it is sent again. */
  lemma LostServerResends(s: Loop, w: Replies)
    requires Sole(s) && !w.afpStopping && w.openOk && w.attachOk && w.stillSending
    ensures var ls := Recovery(OnSet(SetServerGone), w) + [FileNext(true)];
            && Possible(s, ls)
            && var t := Run(s, ls);
               t.item == s.item && t.log.offers == s.log.offers + 1 && t.pc == Sending && t.files == [] &&
               t.log.marks == s.log.marks + [Mark(s.item.name, Sent)]
  {
    var t := Recovers(s, OnSet(SetServerGone), w);
    FileTaken(t, true);
    hide Run, Recovery;
    var ls, u := Extend(s, Recovery(OnSet(SetServerGone), w), t, FileNext(true));
  }

  /** A loss reported for the file itself marks it failed first: it is not in state sending any more, and not sent
      again. */
  lemma LostServerFails(s: Loop, w: Replies)
    requires Sole(s) && !w.afpStopping && w.openOk && w.attachOk
    ensures Possible(s, Recovery(OnFile(NoServer), w))
    ensures var t := Run(s, Recovery(OnFile(NoServer), w));
            && t.log.marks == s.log.marks + [Mark(s.item.name, Failed)]
            && (!w.stillSending ==> t.files == [] && t.log.offers == s.log.offers && t.manage == [])
  {
    var t := Recovers(s, OnFile(NoServer), w);
  }

  /** A queued file that a stop request names is dropped when its turn comes. */
  lemma StoppedInQueue(s: Loop, w: Replies, accepted: bool)
    requires s.pc == Top && s.files != [] && s.manage == [StopFile(s.files[0].path)] && s.files[0].path !in s.stopSet
    requires !s.inTransfer && !s.resending && !s.stopLoop && !s.destShutdown
    ensures var ls := [ManageNext(w), FileNext(accepted)];
            && Possible(s, ls)
            && var t := Run(s, ls);
               && t.files == s.files[1..] && t.stopSet == s.stopSet && t.log.offers == s.log.offers
               && t.log.marks == s.log.marks && t.log.taken == s.log.taken + [Taken(s.files[0], Dropped)]
  {
    StopRequested(s, s.files[0].path, w);
    var ls, t := Extend(s, [], s, ManageNext(w));
    FileTaken(t, accepted);
    ls, t := Extend(s, ls, t, FileNext(accepted));
  }
}
