/** The thread object of one destination set and its CDH object, proved to run the transfer protocol. */
module CdhTask {
  import opened TransferProtocol
  import TransferShutdown

  /** A message queue; refusals counts the enqueue calls that will still fail. */
  class MessageQueue<T> {
    var items: seq<T>
    var active: bool
    var refusals: nat

    constructor ()
      ensures items == [] && active && refusals == 0
    {
      items, active, refusals := [], true, 0;
    }

    method EnqueueTail(x: T) returns (ret: int)
      modifies this
      ensures active == old(active)
      ensures old(refusals) > 0 || !active ==> ret == -1 && items == old(items)
      ensures old(refusals) > 0 ==> refusals == old(refusals) - 1
      ensures old(refusals) == 0 ==> refusals == 0
      ensures old(refusals) == 0 && active ==> ret >= 0 && items == old(items) + [x]
    {
      if refusals > 0 {
        refusals := refusals - 1;
        return -1;
      }
      if !active { return -1; }
      items := items + [x];
      ret := |items|;
    }

    method EnqueueHead(x: T)
      modifies this
      ensures active == old(active) && refusals == old(refusals)
      ensures items == if active then [x] + old(items) else old(items)
    {
      if active { items := [x] + items; }
    }

    method DequeueHead() returns (x: T)
      requires items != []
      modifies this
      ensures x == old(items)[0] && items == old(items)[1..]
      ensures active == old(active) && refusals == old(refusals)
    {
      x, items := items[0], items[1..];
    }

    method Close()
      modifies this
      ensures items == [] && !active && refusals == old(refusals)
    {
      items, active := [], false;
    }
  }

  /** aes_afp_destination */
  class Destination {
    const messages: MessageQueue<ManageMsg>
    var item: SendItem
    var retryNo: int
    var shutdown: bool
    ghost var outstanding: nat
    ghost var offers: nat
    ghost var emitted: seq<ManageMsg>
    ghost var marks: seq<Mark>

    constructor (messages: MessageQueue<ManageMsg>)
      ensures this.messages == messages && item == SendItem("", "", 0) && retryNo == 0 && !shutdown
      ensures outstanding == 0 && offers == 0 && emitted == [] && marks == []
    {
      this.messages := messages;
      item, retryNo, shutdown := SendItem("", "", 0), 0, false;
      outstanding, offers, emitted, marks := 0, 0, [], [];
    }

    /** The object is in the part of s that belongs to it. */
    ghost predicate Matches(s: Loop)
      reads this, messages
    {
      && messages.items == s.manage && messages.active
      && item == s.item && retryNo == s.retryNo && shutdown == s.destShutdown
      && outstanding == s.outstanding && offers == s.log.offers
      && emitted == s.log.emitted && marks == s.log.marks
    }

    /** ... and its queue will take messages. */
    ghost predicate Shows(s: Loop)
      reads this, messages
    {
      Matches(s) && messages.refusals < 5
    }

    /** Five attempts; a message is dropped without an error once shutdown has begun. A message that is refused
        five times is lost, but the retry counter is cleared for a CDHFINISHED all the same. */
    method SendMessage(m: ManageMsg, ghost s: Loop) returns (ok: bool)
      requires Matches(s)
      modifies this, messages
      ensures ok <==> s.destShutdown || old(messages.refusals) < 5
      ensures Matches(if ok then Emit(s, m) else s.(retryNo := if m.Finished? then 0 else s.retryNo))
      ensures messages.refusals == if s.destShutdown then old(messages.refusals)
                                   else if ok then 0 else old(messages.refusals) - 5
    {
      if m.Finished? { retryNo := 0; }
      ghost var t := s.(retryNo := retryNo);
      var retry, ret := 0, 0;
      var again := true;
      while again
        invariant Matches(t) && retry + messages.refusals == old(messages.refusals)
        invariant (again <==> retry < 5) && retry <= 5 && (retry > 0 ==> !shutdown) && (!again ==> ret == -1)
        decreases messages.refusals
      {
        if shutdown {
          ret := 0;
          break;
        }
        ret := messages.EnqueueTail(m);
        if ret >= 0 {
          emitted := emitted + [m];
          break;
        }
        retry := retry + 1;
        again := retry < 5;
      }
      ok := ret != -1;
    }

    /** A queue that refuses fewer than five times in a row loses nothing. */
    method Send(m: ManageMsg, ghost s: Loop) returns (ok: bool)
      requires Shows(s)
      modifies this, messages
      ensures ok && Shows(Emit(s, m)) && messages.refusals <= old(messages.refusals)
    {
      ok := SendMessage(m, s);
    }

    method ChangeStatus(status: FileStatus, ghost s: Loop)
      requires Shows(s)
      modifies this
      ensures Shows(Marking(s, status))
    {
      marks := marks + [Mark(item.name, status)];
    }

    method FinishFailed(ghost s: Loop)
      requires Shows(s)
      modifies this, messages
      ensures Shows(Fail(s))
    {
      ChangeStatus(Failed, s);
      var _ := Send(Finished(false), Marking(s, Failed));
    }

    /** The branch that the seven retryable codes share. */
    method RetryOrFail(ghost s: Loop)
      requires Shows(s)
      modifies this, messages
      ensures Retries(s) ==>
                Shows(Emit(s, SendRetry).(
                  retryNo := if s.item.retries == -1 then s.retryNo else s.retryNo + 1))
      ensures !Retries(s) ==> Shows(Fail(s))
    {
      if item.retries == -1 {
        var _ := Send(SendRetry, s);
      } else if retryNo < item.retries {
        var _ := Send(SendRetry, s);
        retryNo := retryNo + 1;
      } else {
        FinishFailed(s);
      }
    }

    method ServerLost(ghost s: Loop)
      requires Shows(s)
      modifies this, messages
      ensures Shows(Emit(Emit(Marking(s, Failed), Finished(true)), Reopen))
    {
      ChangeStatus(Failed, s);
      var _ := Send(Finished(true), Marking(s, Failed));
      var _ := Send(Reopen, Emit(Marking(s, Failed), Finished(true)));
    }

    /** A completed task is no longer at CDH. */
    method NoteEnd(v: Verdict, ghost s: Loop) returns (ghost t: Loop)
      requires Shows(s)
      modifies this
      ensures t == (if Ends(v) then EndTask(s) else s) && Shows(t)
    {
      t := if Ends(v) then EndTask(s) else s;
      outstanding := t.outstanding;
    }

    method Deliver(ghost s: Loop)
      requires Shows(s)
      modifies this, messages
      ensures Shows(Emit(Marking(s, Deleted), Finished(false)))
    {
      ChangeStatus(Deleted, s);
      var _ := Send(Finished(false), Marking(s, Deleted));
    }

    method EventSendFile(code: FileCode, ghost s: Loop)
      requires Shows(s)
      modifies this, messages
      ensures Shows(FileEvent(s, code))
    {
      hide Classify, Shows, Emit, Marking, Fail;
      var v := Classify(code);
      ghost var t := NoteEnd(v, s);
      match v {
        case Delivered => Deliver(t);
        case Retryable => RetryOrFail(t);
        case Refused => FinishFailed(t);
        case ServerGone => ServerLost(t);
        case TaskGone => var _ := Send(Finished(false), t);
        case Halted => var _ := Send(CdhStopped, t);
        case Ignored =>
      }
    }

    method EventDestinationSet(code: SetCode, ghost s: Loop)
      requires Shows(s)
      modifies this, messages
      ensures Shows(SetEvent(s, code))
    {
      match code {
        case SetNews => var _ := Send(Note, s);
        case SetQuiet =>
        case SetServerGone =>
          var _ := Send(Finished(true), s);
          var _ := Send(Reopen, Emit(s, Finished(true)));
        case SetStopping => var _ := Send(CdhStopped, s);
      }
    }

    /** accepted is the answer of CDH to sendFile. */
    method SendFileToCdh(accepted: bool, ghost s: Loop)
      requires Shows(s)
      modifies this, messages
      ensures Shows(Offer(s, accepted))
    {
      offers := offers + 1;
      if accepted {
        outstanding := outstanding + 1;
      } else {
        FinishFailed(s.(log := s.log.(offers := s.log.offers + 1)));
        OfferRefused(s);
      }
    }

    method StopFileTransfer(reply: StopReply, ghost s: Loop) returns (r: int)
      requires Shows(s)
      modifies this, messages
      ensures Shows(StopTransfer(s, reply)) && (r == 0 <==> reply == StopOk) && r <= 0
    {
      if reply == StopOk && outstanding > 0 { outstanding := outstanding - 1; }
      retryNo := 0;
      ghost var t := s.(outstanding := outstanding, retryNo := 0);
      var _ := Send(Finished(false), t);
      r := match reply case StopOk => 0 case _ => -1;
    }
  }

  /** What happens before one turn of the loop and between its two handlers, and the answers during it. */
  datatype Turn = Turn(arrivals: seq<Label>, replies: Replies, reaccepted: bool, between: seq<Label>, accepted: bool)

  predicate Outside(l: Label) {
    l.Submit? || l.OnFile? || l.OnSet? || (l.Post? && (l.msg.StopFile? || l.msg.StopAll? || l.msg.Hangup?))
  }

  /** aes_afp_cdhtask */
  class CdhTask {
    const manage: MessageQueue<ManageMsg>
    const files: MessageQueue<SendItem>
    const dest: Destination
    var inTransfer: bool
    var resending: bool
    var shutdown: bool
    var stopLoop: bool
    var stopSet: set<string>
    var current: string
    var currentName: string
    ghost var pc: Pc
    ghost var enqueued: seq<SendItem>
    ghost var requeued: seq<SendItem>
    ghost var taken: seq<Taken>
    ghost var stops: seq<string>

    constructor ()
      ensures Shows(Start) && fresh({this, manage, files, dest})
    {
      var m := new MessageQueue<ManageMsg>();
      manage := m;
      files := new MessageQueue<SendItem>();
      dest := new Destination(m);
      inTransfer, resending, shutdown, stopLoop := false, false, false, false;
      stopSet, current, currentName := {}, "", "";
      pc, enqueued, requeued, taken, stops := Top, [], [], [], [];
    }

    /** The thread is in state s of the protocol. */
    ghost predicate Shows(s: Loop)
      reads this, manage, files, dest
    {
      && dest.messages == manage && manage as object != files
      && dest.Shows(s)
      && files.items == s.files && files.active == s.filesOpen && files.refusals == 0
      && inTransfer == s.inTransfer && resending == s.resending
      && shutdown == s.shutdown && stopLoop == s.stopLoop
      && stopSet == s.stopSet && current == s.current && pc == s.pc
      && enqueued == s.log.enqueued && requeued == s.log.requeued
      && taken == s.log.taken && stops == s.log.stops
    }

    method ChangeStatus(status: FileStatus, ghost s: Loop)
      requires Shows(s)
      modifies dest
      ensures Shows(s.(log := s.log.(marks := s.log.marks + [Mark(currentName, status)])))
    {
      dest.marks := dest.marks + [Mark(currentName, status)];
    }

    method CloseFiles(ghost s: Loop)
      requires Shows(s)
      modifies this`taken, files
      ensures Shows(TransferProtocol.CloseFiles(s))
    {
      taken := taken + Discard(files.items);
      files.Close();
    }

    method StopAllFileTransfer(reply: StopReply, ghost s: Loop) returns (ok: bool)
      requires Shows(s)
      modifies manage, dest
      ensures Shows(StopTransfer(s, reply)) && (ok <==> reply == StopOk)
    {
      var result := dest.StopFileTransfer(reply, s);
      ok := result >= 0;
    }

    /** Each file is taken from the queue and becomes the current one. */
    method DrainFiles()
      modifies this`current, this`currentName, this`taken, files
      ensures files.items == [] && files.active == old(files.active) && files.refusals == old(files.refusals)
      ensures taken == old(taken) + Discard(old(files.items))
      ensures current == if old(files.items) == [] then old(current) else old(files.items[|files.items| - 1].path)
    {
      hide Discard;
      ghost var k, all := 0, files.items;
      DiscardNone(all);
      while files.items != []
        invariant k <= |all| && files.items == all[k..]
        invariant files.active == old(files.active) && files.refusals == old(files.refusals)
        invariant taken == old(taken) + Discard(all[..k])
        invariant current == if k == 0 then old(current) else all[k - 1].path
        decreases |files.items|
      {
        var item := files.DequeueHead();
        current, currentName := item.path, item.name;
        taken := taken + [Taken(item, Discarded)];
        DiscardNext(all, k);
        k := k + 1;
      }
      assert all[..k] == all;
    }

    method SetQueuedFilesToStopped(ghost s: Loop)
      requires Shows(s)
      modifies this`current, this`currentName, this`taken, files
      ensures Shows(FlushFiles(s))
    {
      hide Discard;
      DrainFiles();
    }

    /** stillSending: the database still has the current file in state sending. */
    method HandleResend(w: Replies, ghost s: Loop)
      requires Shows(s)
      modifies this, files
      ensures Shows(Handle(s, Resend, w))
    {
      if dest.item.name != "" && w.stillSending { PutCurrentBack(s); }
    }

    method PutCurrentBack(ghost s: Loop)
      requires Shows(s)
      modifies this`requeued, files
      ensures Shows(if s.filesOpen then PutBack(s) else s)
    {
      if files.active { requeued := requeued + [dest.item]; }
      files.EnqueueHead(dest.item);
    }

    method HandleReopen(w: Replies, ghost s: Loop)
      requires Shows(s)
      modifies manage, dest
      ensures Shows(Handle(s, Reopen, w))
    {
      if w.afpStopping {
        manage.EnqueueHead(Hangup);
      } else if !w.openOk {
        var _ := dest.Send(Reopen, s);
      } else {
        var _ := dest.Send(Reattach, s);
      }
    }

    method HandleReattach(w: Replies, ghost s: Loop)
      requires Shows(s)
      modifies manage, dest
      ensures Shows(Handle(s, Reattach, w))
    {
      if !w.attachOk {
        var _ := dest.Send(Reattach, s);
      } else {
        var ok := dest.Send(Resend, s);
        if !ok { assert false; }  // the queue accepts the message within five attempts
      }
    }

    method HandleStopFile(path: string, w: Replies, ghost s: Loop)
      requires Shows(s)
      modifies this, manage, dest
      ensures Shows(Handle(s, StopFile(path), w))
    {
      if current == path && inTransfer {
        var _ := dest.StopFileTransfer(w.stop, s);
      } else {
        stopSet := stopSet + {path};
        stops := stops + [path];
      }
    }

    method HandleStopAll(w: Replies, ghost s: Loop)
      requires Shows(s)
      modifies this, manage, files, dest
      ensures Shows(Handle(s, StopAll, w))
    {
      if inTransfer {
        var _ := StopAllFileTransfer(w.stop, s);
        SetQueuedFilesToStopped(StopTransfer(s, w.stop));
      } else {
        SetQueuedFilesToStopped(s);
      }
    }

    /** Nothing is in transfer, or it could not be stopped: the loop ends at once. */
    method EndLoop(ghost s: Loop)
      requires Shows(s)
      modifies this`taken, this`stopLoop, files
      ensures Shows(TransferProtocol.CloseFiles(s).(stopLoop := true))
    {
      CloseFiles(s);
      stopLoop := true;
    }

    method BeginShutdown(ghost s: Loop)
      requires Shows(s)
      modifies this`shutdown, dest`shutdown
      ensures Shows(s.(shutdown := true, destShutdown := true))
    {
      shutdown := true;
      dest.shutdown := true;
    }

    method HandleHangup(w: Replies, ghost s: Loop)
      requires Shows(s)
      modifies this, manage, files, dest
      ensures Shows(Handle(s, Hangup, w))
    {
      if !inTransfer {
        EndLoop(s);
        BeginShutdown(TransferProtocol.CloseFiles(s).(stopLoop := true));
      } else {
        var result := StopAllFileTransfer(w.stop, s);
        ghost var t := StopTransfer(s, w.stop);
        if !result {
          EndLoop(t);
          t := TransferProtocol.CloseFiles(t).(stopLoop := true);
        }
        BeginShutdown(t);
      }
    }

    /** The switch of handle_manageQueue. */
    method HandleMessage(m: ManageMsg, w: Replies, ghost s: Loop)
      requires Shows(s)
      modifies this, manage, files, dest
      ensures Shows(Handle(s, m, w))
    {
      match m {
        case Finished(_) =>
          inTransfer, resending := false, false;
          if shutdown { stopLoop := true; }
        case Resend => HandleResend(w, s);
        case Reopen => HandleReopen(w, s);
        case Reattach => HandleReattach(w, s);
        case StopFile(path) => HandleStopFile(path, w, s);
        case StopAll => HandleStopAll(w, s);
        case Hangup => HandleHangup(w, s);
        case CdhStopped =>
          if shutdown { CloseFiles(s); }
        case SendRetry => resending := true;
        case Note =>
      }
    }

    /** The dequeue timed out. */
    method HandleTimeout(accepted: bool, ghost s: Loop) returns (ghost ls: seq<Label>, ghost t: Loop)
      requires Shows(s) && s.pc == Top && !Waits(s) && s.manage == []
      modifies this, manage, dest
      ensures Shows(t) && t.pc == Top && Possible(s, ls) && Run(s, ls) == AfterManage(t)
    {
      ls := TimeoutLabels(s, accepted);
      t := s;
      if inTransfer && resending {
        dest.SendFileToCdh(accepted, s);
        resending := false;
        t := Offer(s, accepted).(resending := false);
      }
    }

    /** One call of handle_manageQueue that does not wait for ever, up to the tests in svc. */
    method HandleManageQueue(w: Replies, reaccepted: bool, ghost s: Loop) returns (ghost ls: seq<Label>)
      requires Shows(s) && s.pc == Top && !Waits(s)
      modifies this, manage, files, dest
      ensures Possible(s, ls) && Shows(Run(s, ls))
      ensures pc == if stopLoop then Done else if resending || inTransfer then Top else AtFile
    {
      ghost var t;
      if manage.items == [] {
        ls, t := HandleTimeout(reaccepted, s);
      } else {
        var m := manage.DequeueHead();
        t := s.(manage := s.manage[1..]);
        HandleMessage(m, w, t);
        t := Handle(t, m, w);
        OneStep(s, ManageNext(w));
        ls := [ManageNext(w)];
      }
      Decide(t);
    }

    /** The tests of svc. */
    ghost method Decide(s: Loop)
      requires Shows(s)
      modifies this`pc
      ensures Shows(AfterManage(s))
      ensures pc == if stopLoop then Done else if resending || inTransfer then Top else AtFile
    {
      pc := if stopLoop then Done else if resending || inTransfer then Top else AtFile;
    }

    /** The file is marked as sent, then offered. */
    method MarkAndOffer(f: SendItem, accepted: bool, ghost s: Loop)
      requires Shows(s) && currentName == f.name
      modifies manage, dest
      ensures Shows(HandOver(s, f, accepted, true))
    {
      dest.item := f;
      ChangeStatus(Sent, s.(item := f));
      dest.SendFileToCdh(accepted, Marking(s.(item := f), Sent));
    }

    /** The file is offered, then marked as sent. */
    method OfferAndMark(f: SendItem, accepted: bool, ghost s: Loop)
      requires Shows(s) && currentName == f.name
      modifies manage, dest
      ensures Shows(HandOver(s, f, accepted, false))
    {
      dest.item := f;
      ghost var t := s.(item := f);
      dest.SendFileToCdh(accepted, t);
      ChangeStatus(Sent, Offer(t, accepted));
    }

    /** Copying the file's data; t is the state with the file counted as offered. */
    method CopyFrom(f: SendItem, ghost s: Loop) returns (ghost t: Loop)
      requires Shows(s)
      modifies this
      ensures t == Taking(s.(current := f.path), [Taken(f, Offered)]) && Shows(t) && currentName == f.name
    {
      current, currentName := f.path, f.name;
      taken := taken + [Taken(f, Offered)];
      t := Taking(s.(current := f.path), [Taken(f, Offered)]);
    }

    /** The loop thread has just dequeued f, the head of the file queue in s. */
    ghost predicate Dequeued(s: Loop, f: SendItem)
      reads this, manage, files, dest
    {
      s.pc == AtFile && s.files != [] && f == s.files[0] && Shows(s.(files := s.files[1..], pc := Top))
    }

    method TakeUnsearched(f: SendItem, accepted: bool, ghost s: Loop) returns (ghost ls: seq<Label>)
      requires Dequeued(s, f) && s.stopSet == {}
      modifies this, manage, dest
      ensures Possible(s, ls) && Shows(Run(s, ls)) && pc == Top
    {
      ls := SendLabels(s, accepted);
      ghost var t := CopyFrom(f, s.(files := s.files[1..], pc := Top));
      MarkAndOffer(f, accepted, t);
      inTransfer := true;
    }

    method TakeSearched(f: SendItem, accepted: bool, ghost s: Loop) returns (ghost ls: seq<Label>)
      requires Dequeued(s, f) && s.stopSet != {} && f.path !in s.stopSet
      modifies this, manage, dest
      ensures Possible(s, ls) && Shows(Run(s, ls)) && pc == Top
    {
      ls := SendLabels(s, accepted);
      ghost var t := CopyFrom(f, s.(files := s.files[1..], pc := Top));
      OfferAndMark(f, accepted, t);
      inTransfer := true;
    }

    method TakeStopped(f: SendItem, accepted: bool, ghost s: Loop) returns (ghost ls: seq<Label>)
      requires Dequeued(s, f) && f.path in s.stopSet
      modifies this
      ensures Possible(s, ls) && Shows(Run(s, ls)) && pc == Top
    {
      current, currentName := f.path, f.name;
      stopSet := stopSet - {current};
      taken := taken + [Taken(f, Dropped)];
      OneStep(s, FileNext(accepted));
      ls := [FileNext(accepted)];
    }

    /** handle_fileQueue */
    method HandleFileQueue(accepted: bool, ghost s: Loop) returns (ghost ls: seq<Label>)
      requires Shows(s) && s.pc == AtFile
      modifies this, manage, files, dest
      ensures Possible(s, ls) && Shows(Run(s, ls)) && pc == Top
    {
      pc := Top;
      if files.items == [] {
        OneStep(s, FileIdle);
        return [FileIdle];
      }
      var f := files.DequeueHead();
      assert Dequeued(s, f);
      if stopSet == {} {
        ls := TakeUnsearched(f, accepted, s);
      } else if f.path in stopSet {
        ls := TakeStopped(f, accepted, s);
      } else {
        ls := TakeSearched(f, accepted, s);
      }
    }

    /** A producer or a CDH callback acts between two handler calls. */
    method Arrive(l: Label, ghost s: Loop)
      requires Shows(s) && Outside(l)
      modifies this, manage, files, dest
      ensures Enabled(s, l) && Shows(Apply(s, l))
    {
      match l {
        case Submit(f) =>
          var ret := files.EnqueueTail(f);
          if ret >= 0 { enqueued := enqueued + [f]; }
        case Post(m) => manage.EnqueueHead(m);
        case OnFile(code) =>
          dest.EventSendFile(code, s);
          TransferShutdown.FileEventFrame(s, code);
        case OnSet(code) =>
          dest.EventDestinationSet(code, s);
          TransferShutdown.SetEventFrame(s, code);
        case _ =>
      }
    }

    method ArriveAll(arrivals: seq<Label>, ghost s: Loop) returns (ghost ls: seq<Label>)
      requires Shows(s) && forall l :: l in arrivals ==> Outside(l)
      modifies this, manage, files, dest
      ensures Possible(s, ls) && Shows(Run(s, ls)) && pc == old(pc)
    {
      ls := [];
      ghost var t := s;
      for i := 0 to |arrivals|
        invariant Possible(s, ls) && t == Run(s, ls) && Shows(t) && pc == old(pc)
      {
        ghost var l := arrivals[i];
        OutsideKeepsPc(t, l);
        Arrive(arrivals[i], t);
        OneStep(t, l);
        Compose(s, ls, [l]);
        t, ls := Apply(t, l), ls + [l];
      }
    }

    /** svc over a finite script of the outside world: each execution is a run of the protocol, so what
        is proved of runs holds of the thread. */
    method Svc(turns: seq<Turn>, ghost s: Loop) returns (ghost ls: seq<Label>)
      requires Shows(s) && s.pc == Top
      requires forall t, l :: t in turns && (l in t.arrivals || l in t.between) ==> Outside(l)
      modifies this, manage, files, dest
      ensures Possible(s, ls) && Shows(Run(s, ls))
    {
      ls := [];
      var i := 0;
      while i < |turns|
        invariant Possible(s, ls) && Shows(Run(s, ls)) && pc == Top
      {
        var turn := turns[i];
        i := i + 1;
        assert turn in turns;
        ghost var more := ArriveAll(turn.arrivals, Run(s, ls));
        Compose(s, ls, more);
        ls := ls + more;
        if manage.items == [] && inTransfer && !resending {
          continue;  // the dequeue is still waiting
        }
        more := HandleManageQueue(turn.replies, turn.reaccepted, Run(s, ls));
        Compose(s, ls, more);
        ls := ls + more;
        if stopLoop { break; }
        if resending || inTransfer { continue; }
        more := ArriveAll(turn.between, Run(s, ls));
        Compose(s, ls, more);
        ls := ls + more;
        more := HandleFileQueue(turn.accepted, Run(s, ls));
        Compose(s, ls, more);
        ls := ls + more;
      }
    }
  }

  lemma DiscardNext(files: seq<SendItem>, k: nat)
    requires k < |files|
    ensures Discard(files[..k + 1]) == Discard(files[..k]) + [Taken(files[k], Discarded)]
    ensures files[k..][0] == files[k] && files[k..][1..] == files[k + 1..]
  {
  }

  lemma DiscardNone(files: seq<SendItem>)
    ensures Discard(files[..0]) == [] && files[0..] == files
  {
  }

  lemma OfferRefused(s: Loop)
    ensures Offer(s, false) == Fail(s.(log := s.log.(offers := s.log.offers + 1)))
  {
  }

  lemma TimeoutLabels(s: Loop, accepted: bool) returns (ls: seq<Label>)
    requires s.pc == Top && s.manage == [] && !Waits(s)
    ensures Possible(s, ls)
    ensures Run(s, ls) ==
            AfterManage(if s.inTransfer && s.resending then Offer(s, accepted).(resending := false) else s)
  {
    OneStep(s, ManageTimeout(accepted));
    ls := [ManageTimeout(accepted)];
    if s.inTransfer && s.resending {
      TwoSteps(s, ManageTimeout(accepted), ResendFlag);
      ls := [ManageTimeout(accepted), ResendFlag];
    }
  }

  /** The labels of one handle_fileQueue call that sends a file, and where they lead. */
  lemma SendLabels(s: Loop, accepted: bool) returns (ls: seq<Label>)
    requires s.pc == AtFile && s.files != [] && s.files[0].path !in s.stopSet
    ensures Possible(s, ls)
    ensures var f := s.files[0];
            var t := Taking(s.(files := s.files[1..], pc := Top).(current := f.path), [Taken(f, Offered)]);
            Run(s, ls) == HandOver(t, f, accepted, s.stopSet == {}).(inTransfer := true)
  {
    ls := [FileNext(accepted), SetFlag];
    assert Apply(s, FileNext(accepted)).pc == Sending;
    TwoSteps(s, FileNext(accepted), SetFlag);
    TopCommutes(s, accepted);
  }

  lemma TopCommutes(s: Loop, accepted: bool)
    requires s.files != [] && s.files[0].path !in s.stopSet
    ensures var f := s.files[0];
            var t := Taking(s.(files := s.files[1..], pc := Top).(current := f.path), [Taken(f, Offered)]);
            TakeFile(s, accepted).(inTransfer := true, pc := Top) ==
            HandOver(t, f, accepted, s.stopSet == {}).(inTransfer := true)
  {
    if s.stopSet == {} {
    } else {
    }
  }

  lemma OutsideKeepsPc(s: Loop, l: Label)
    requires Outside(l)
    ensures Enabled(s, l) && Apply(s, l).pc == s.pc
  {
    match l
    case OnFile(code) => TransferShutdown.FileEventFrame(s, code);
    case _ =>
  }

  lemma OneStep(s: Loop, l: Label)
    requires Enabled(s, l)
    ensures Possible(s, [l]) && Run(s, [l]) == Apply(s, l)
  {
    assert [l][1..] == [];
  }

  lemma TwoSteps(s: Loop, l: Label, k: Label)
    requires Enabled(s, l) && Enabled(Apply(s, l), k)
    ensures Possible(s, [l, k]) && Run(s, [l, k]) == Apply(Apply(s, l), k)
  {
    assert [l, k][1..] == [k];
    OneStep(Apply(s, l), k);
  }

  /** Runs compose. */
  lemma {:induction false} Compose(s: Loop, ls: seq<Label>, more: seq<Label>)
    requires Possible(s, ls) && Possible(Run(s, ls), more)
    ensures Possible(s, ls + more) && Run(s, ls + more) == Run(Run(s, ls), more)
    decreases |ls|
  {
    hide Apply, Enabled;
    if ls == [] {
      assert ls + more == more;
    } else {
      Compose(Apply(s, ls[0]), ls[1..], more);
      assert (ls + more)[1..] == ls[1..] + more;
    }
  }
}
