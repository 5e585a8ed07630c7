/**
 The event loop of aes_afp_cdhtask and the CDH side of aes_afp_destination, as a labelled
 transition system. One label is one step of the loop thread between two accesses to state that
 the CDH callbacks share, or one action of the outside world.
 */
module TransferProtocol {

  /** What a CDHSENDFILE message carries: full path, file name, retry limit (-1: no limit). */
  datatype SendItem = SendItem(path: string, name: string, retries: int)

  /** Messages of the manage queue. Note stands for those that only inform the application. */
  datatype ManageMsg =
    | Finished(serverLost: bool) | SendRetry | Reopen | Reattach | Resend
    | StopFile(path: string) | StopAll | Hangup | CdhStopped | Note

  /** The result codes eventSendFile switches on. */
  datatype FileCode =
    | Ok | Error | IncUsage | UnknownRc | DestDef | Unreas | PhysFileErr | NoDest | ProtectedDest
    | IntProgErr | NoTrans | NoServer | FileErr | FileNameTooLong | ConnectErr | SendErr
    | EndOfStream | ConnectWarn | SendWarn | DataAreaErr | TaskStopped | TaskExists | NoTask
    | FileAlreadySent | HandlerSet | HandlerSetErr | HandlerRem | HandlerRemErr | ConnectOk
    | OtherCode

  datatype Verdict = Delivered | Retryable | Refused | ServerGone | TaskGone | Halted | Ignored

  function Classify(code: FileCode): Verdict {
    match code
    case Ok | FileAlreadySent => Delivered
    case NoDest | FileErr | ConnectErr | SendErr | ConnectWarn | SendWarn | DataAreaErr => Retryable
    case NoServer => ServerGone
    case NoTask => TaskGone
    case TaskStopped => Halted
    case DestDef | EndOfStream | HandlerSet | HandlerSetErr | HandlerRem | HandlerRemErr
       | ConnectOk => Ignored
    case _ => Refused
  }

  /** Events that end a task CDH has accepted. */
  predicate Completes(code: FileCode) {
    Ends(Classify(code))
  }

  predicate Ends(v: Verdict) {
    !v.Halted? && !v.Ignored?
  }

  /** Events of the destination set, grouped by the messages eventDestinationSet queues. */
  datatype SetCode = SetNews | SetQuiet | SetServerGone | SetStopping

  datatype FileStatus = Sent | Deleted | Failed
  datatype Mark = Mark(name: string, status: FileStatus)

  datatype Fate = Offered | Dropped | Discarded
  datatype Taken = Taken(file: SendItem, fate: Fate)

  datatype StopReply = StopOk | StopNoTask | StopNoServer | StopOther

  /** What the world answers while one manage message is handled. */
  datatype Replies = Replies(stop: StopReply, afpStopping: bool, openOk: bool, attachOk: bool,
                             stillSending: bool)

  /** Where the loop thread is: before handle_manageQueue, before handle_fileQueue, between the two
      statements that offer a file and set fileInTransfer_, between those that re-offer it and clear
      resendInProgress_, or out of the loop. */
  datatype Pc = Top | AtFile | Sending | Resending | Done

  /** Calls of sendFile; files queued, queued again by CDHRESEND and taken from the queue; entries made
      in the stop set; messages the destination queued; file states it set. */
  datatype History = History(
    offers: nat, enqueued: seq<SendItem>, requeued: seq<SendItem>, taken: seq<Taken>,
    stops: seq<string>, emitted: seq<ManageMsg>, marks: seq<Mark>)

  datatype Loop = Loop(
    pc: Pc,
    // aes_afp_cdhtask
    manage: seq<ManageMsg>, files: seq<SendItem>, filesOpen: bool,
    inTransfer: bool, resending: bool, shutdown: bool, stopLoop: bool,
    stopSet: set<string>, current: string,
    // aes_afp_destination
    item: SendItem, retryNo: int, destShutdown: bool,
    // CDH: tasks accepted and neither completed nor cancelled
    outstanding: nat,
    log: History)

  const Start := Loop(Top, [], [], true, false, false, false, false, {}, "",
                      SendItem("", "", 0), 0, false, 0,
                      History(0, [], [], [], [], [], []))

  datatype Label =
    | ManageNext(replies: Replies)
    | ManageTimeout(accepted: bool)
    | ResendFlag
    | FileNext(accepted: bool)
    | FileIdle
    | SetFlag
    | Submit(file: SendItem)
    | Post(msg: ManageMsg)
    | OnFile(code: FileCode)
    | OnSet(setCode: SetCode)

  /** sendMessageToCdhTask, the manage queue accepting the message. */
  function Emit(s: Loop, m: ManageMsg): Loop {
    s.(retryNo := if m.Finished? then 0 else s.retryNo,
       manage := if s.destShutdown then s.manage else s.manage + [m],
       log := s.log.(emitted := if s.destShutdown then s.log.emitted else s.log.emitted + [m]))
  }

  function Marking(s: Loop, status: FileStatus): Loop {
    s.(log := s.log.(marks := s.log.marks + [Mark(s.item.name, status)]))
  }

  function Fail(s: Loop): Loop {
    Emit(Marking(s, Failed), Finished(false))
  }

  /** sendFileToCdh: a refused file fails at once. */
  function Offer(s: Loop, accepted: bool): Loop {
    var silent := accepted || s.destShutdown;
    s.(outstanding := if accepted then s.outstanding + 1 else s.outstanding,
       retryNo := if accepted then s.retryNo else 0,
       manage := if silent then s.manage else s.manage + [Finished(false)],
       log := s.log.(
         offers := s.log.offers + 1,
         emitted := if silent then s.log.emitted else s.log.emitted + [Finished(false)],
         marks := if accepted then s.log.marks else s.log.marks + [Mark(s.item.name, Failed)]))
  }

  function EndTask(s: Loop): Loop {
    s.(outstanding := if s.outstanding > 0 then s.outstanding - 1 else 0)
  }

  predicate Retries(s: Loop) {
    s.item.retries == -1 || s.retryNo < s.item.retries
  }

  /** eventSendFile */
  function FileEvent(s: Loop, code: FileCode): Loop {
    Conclude(s, Classify(code))
  }

  /** The branches of eventSendFile, its codes grouped. */
  function Conclude(s: Loop, v: Verdict): Loop {
    match v
    case Delivered => Emit(Marking(EndTask(s), Deleted), Finished(false))
    case Retryable =>
      if Retries(s) then
        Emit(EndTask(s), SendRetry).(
          retryNo := if s.item.retries == -1 then s.retryNo else s.retryNo + 1)
      else Fail(EndTask(s))
    case Refused => Fail(EndTask(s))
    case ServerGone => Emit(Emit(Marking(EndTask(s), Failed), Finished(true)), Reopen)
    case TaskGone => Emit(EndTask(s), Finished(false))
    case Halted => Emit(s, CdhStopped)
    case Ignored => s
  }

  /** eventDestinationSet */
  function SetEvent(s: Loop, code: SetCode): Loop {
    match code
    case SetNews => Emit(s, Note)
    case SetQuiet => s
    case SetServerGone => Emit(Emit(s, Finished(true)), Reopen)
    case SetStopping => Emit(s, CdhStopped)
  }

  /** stopFileTransfer; it returns 0 exactly when CDH answers StopOk. */
  function StopTransfer(s: Loop, reply: StopReply): Loop {
    Emit(s.(outstanding := if reply == StopOk && s.outstanding > 0 then s.outstanding - 1
                           else s.outstanding,
            retryNo := 0),
         Finished(false))
  }

  function Discard(files: seq<SendItem>): (r: seq<Taken>) {
    seq(|files|, i requires 0 <= i < |files| => Taken(files[i], Discarded))
  }

  function Taking(s: Loop, taken: seq<Taken>): Loop {
    s.(log := s.log.(taken := s.log.taken + taken))
  }

  /** Closing the file queue releases what it holds. */
  function CloseFiles(s: Loop): Loop {
    Taking(s, Discard(s.files)).(filesOpen := false, files := [])
  }

  /** setQueuedFilesToStopped */
  function FlushFiles(s: Loop): Loop {
    Taking(s, Discard(s.files)).(
      files := [],
      current := if s.files == [] then s.current else s.files[|s.files| - 1].path)
  }

  /** CDHRESEND puts the current file at the head of the file queue. */
  function PutBack(s: Loop): Loop {
    s.(files := [s.item] + s.files, log := s.log.(requeued := s.log.requeued + [s.item]))
  }

  /** A stop request that reaches stopFileTransfer. */
  predicate StopsTransfer(s: Loop, m: ManageMsg) {
    s.inTransfer && (m.StopAll? || m.Hangup? || (m.StopFile? && m.path == s.current))
  }

  /** The switch of handle_manageQueue, m already dequeued. */
  function Handle(s: Loop, m: ManageMsg, w: Replies): Loop {
    match m
    case Finished(_) =>
      s.(inTransfer := false, resending := false, stopLoop := s.stopLoop || s.shutdown)
    case Resend => if s.item.name != "" && w.stillSending && s.filesOpen then PutBack(s) else s
    case Reopen =>
      if w.afpStopping then s.(manage := [Hangup] + s.manage)
      else Emit(s, if w.openOk then Reattach else Reopen)
    case Reattach => Emit(s, if w.attachOk then Resend else Reattach)
    case StopFile(p) =>
      if StopsTransfer(s, m) then StopTransfer(s, w.stop)
      else s.(stopSet := s.stopSet + {p}, log := s.log.(stops := s.log.stops + [p]))
    case StopAll => FlushFiles(if s.inTransfer then StopTransfer(s, w.stop) else s)
    case Hangup =>
      var t := if s.inTransfer then StopTransfer(s, w.stop) else s;
      (if s.inTransfer && w.stop == StopOk then t else CloseFiles(t).(stopLoop := true)).(
        shutdown := true, destShutdown := true)
    case CdhStopped => if s.shutdown then CloseFiles(s) else s
    case SendRetry => s.(resending := true)
    case Note => s
  }

  /** The tests of svc after handle_manageQueue. */
  function AfterManage(s: Loop): Loop {
    s.(pc := if s.stopLoop then Done else if s.resending || s.inTransfer then Top else AtFile)
  }

  /** handle_fileQueue with a file dequeued. When the stop set is empty the file is marked as sent
      before it is offered, otherwise after. */
  function TakeFile(s: Loop, accepted: bool): Loop
    requires s.files != []
  {
    var f := s.files[0];
    var t := s.(files := s.files[1..], current := f.path);
    if f.path in s.stopSet then
      Taking(t, [Taken(f, Dropped)]).(stopSet := s.stopSet - {f.path}, pc := Top)
    else
      HandOver(Taking(t, [Taken(f, Offered)]), f, accepted, s.stopSet == {}).(pc := Sending)
  }

  function HandOver(s: Loop, f: SendItem, accepted: bool, sentFirst: bool): Loop {
    var t := s.(item := f);
    if sentFirst then Offer(Marking(t, Sent), accepted) else Marking(Offer(t, accepted), Sent)
  }

  /** The dequeue without time limit waits on an empty queue. */
  predicate Waits(s: Loop) {
    s.manage == [] && s.inTransfer && !s.resending
  }

  predicate Enabled(s: Loop, l: Label) {
    match l
    case ManageNext(_) => s.pc == Top && s.manage != []
    case ManageTimeout(_) => s.pc == Top && s.manage == [] && !Waits(s)
    case ResendFlag => s.pc == Resending
    case FileNext(_) => s.pc == AtFile && s.files != []
    case FileIdle => s.pc == AtFile && s.files == []
    case SetFlag => s.pc == Sending
    case Post(m) => m.StopFile? || m.StopAll? || m.Hangup?
    case Submit(_) | OnFile(_) | OnSet(_) => true
  }

  function Apply(s: Loop, l: Label): Loop
    requires Enabled(s, l)
  {
    match l
    case ManageNext(w) => AfterManage(Handle(s.(manage := s.manage[1..]), s.manage[0], w))
    case ManageTimeout(accepted) =>
      if s.inTransfer && s.resending then Offer(s, accepted).(pc := Resending) else AfterManage(s)
    case ResendFlag => AfterManage(s.(resending := false))
    case FileNext(accepted) => TakeFile(s, accepted)
    case FileIdle => s.(pc := Top)
    case SetFlag => s.(inTransfer := true, pc := Top)
    case Submit(f) =>
      if s.filesOpen
      then s.(files := s.files + [f], log := s.log.(enqueued := s.log.enqueued + [f])) else s
    case Post(m) => s.(manage := [m] + s.manage)
    case OnFile(code) => FileEvent(s, code)
    case OnSet(code) => SetEvent(s, code)
  }

  /** Assumptions on the world: a completion event belongs to an outstanding task; a stop is answered
      StopOk exactly when a task is outstanding; no stop reaches the transfer while its CDHFINISHED
      is queued; the destination set reports no server loss. */
  predicate Assumed(s: Loop, l: Label)
    requires Enabled(s, l)
  {
    match l
    case OnFile(code) => Completes(code) ==> s.outstanding > 0
    case OnSet(code) => !code.SetServerGone?
    case ManageNext(w) =>
      StopsTransfer(s, s.manage[0]) ==>
        (w.stop == StopOk <==> s.outstanding > 0) && (s.destShutdown || !HasFinished(s.manage))
    case _ => true
  }

  predicate HasFinished(q: seq<ManageMsg>) {
    exists m :: m in q && m.Finished?
  }

  /** Every step of the run can happen. */
  predicate Possible(s: Loop, ls: seq<Label>)
    decreases |ls|
  {
    ls == [] || (Enabled(s, ls[0]) && Possible(Apply(s, ls[0]), ls[1..]))
  }

  /** ... and meets the assumptions. */
  predicate Legal(s: Loop, ls: seq<Label>)
    decreases |ls|
  {
    ls == [] ||
    (Enabled(s, ls[0]) && Assumed(s, ls[0]) && Legal(Apply(s, ls[0]), ls[1..]))
  }

  function Run(s: Loop, ls: seq<Label>): Loop
    requires Possible(s, ls)
    decreases |ls|
  {
    if ls == [] then s else Run(Apply(s, ls[0]), ls[1..])
  }
}
