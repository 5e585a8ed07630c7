/** Shutdown, retry bound and conservation of the file queue: no assumption on CDH is used. */
module TransferShutdown {
  import opened TransferProtocol
  import opened Numbers

  /** A CDH callback touches only the manage queue, the retry counter and its own records. */
  predicate Callback(s: Loop, t: Loop) {
    && t.pc == s.pc && t.files == s.files && t.filesOpen == s.filesOpen && t.stopSet == s.stopSet
    && t.inTransfer == s.inTransfer && t.resending == s.resending && t.item == s.item
    && t.current == s.current
    && t.shutdown == s.shutdown && t.stopLoop == s.stopLoop && t.destShutdown == s.destShutdown
    && t.log.offers == s.log.offers && SameLog(t.log, s.log)
    && (s.destShutdown ==> t.manage == s.manage && t.log.emitted == s.log.emitted)
  }

  /** Equal in what the file queue depends on. */
  predicate SameLog(g: History, h: History) {
    g.enqueued == h.enqueued && g.requeued == h.requeued && g.taken == h.taken && g.stops == h.stops
  }

  lemma EndFrame(s: Loop)
    ensures Callback(s, EndTask(s))
  {
  }

  lemma MarkFrame(s: Loop, t: Loop, status: FileStatus)
    requires Callback(s, t)
    ensures Callback(s, Marking(t, status))
  {
  }

  lemma EmitFrame(s: Loop, t: Loop, m: ManageMsg)
    requires Callback(s, t)
    ensures Callback(s, Emit(t, m))
  {
  }

  lemma FailFrame(s: Loop, t: Loop)
    requires Callback(s, t)
    ensures Callback(s, Fail(t))
  {
    hide Emit, Marking, Callback;
    MarkFrame(s, t, Failed);
    EmitFrame(s, Marking(t, Failed), Finished(false));
  }

  lemma CountFrame(s: Loop, t: Loop, n: int)
    requires Callback(s, t)
    ensures Callback(s, t.(retryNo := n))
  {
  }

  lemma SameFrame(s: Loop)
    ensures Callback(s, s)
  {
  }

  lemma ConcludeFrame(s: Loop, v: Verdict)
    ensures Callback(s, Conclude(s, v))
  {
    hide Emit, Marking, EndTask, Callback, Retries;
    var t := EndTask(s);
    EndFrame(s);
    SameFrame(s);
    match v
    case Delivered =>
      MarkFrame(s, t, Deleted);
      EmitFrame(s, Marking(t, Deleted), Finished(false));
    case Retryable =>
      FailFrame(s, t);
      EmitFrame(s, t, SendRetry);
      CountFrame(s, Emit(t, SendRetry), if s.item.retries == -1 then s.retryNo else s.retryNo + 1);
    case Refused => FailFrame(s, t);
    case ServerGone =>
      MarkFrame(s, t, Failed);
      EmitFrame(s, Marking(t, Failed), Finished(true));
      EmitFrame(s, Emit(Marking(t, Failed), Finished(true)), Reopen);
    case TaskGone => EmitFrame(s, t, Finished(false));
    case Halted => EmitFrame(s, s, CdhStopped);
    case Ignored =>
  }

  lemma FileEventFrame(s: Loop, code: FileCode)
    ensures Callback(s, FileEvent(s, code))
  {
    ConcludeFrame(s, Classify(code));
  }

  lemma SetEventFrame(s: Loop, code: SetCode)
    ensures Callback(s, SetEvent(s, code))
  {
    match code
    case SetServerGone =>
      EmitFrame(s, s, Finished(true));
      EmitFrame(s, Emit(s, Finished(true)), Reopen);
    case SetNews => EmitFrame(s, s, Note);
    case SetQuiet =>
    case SetStopping => EmitFrame(s, s, CdhStopped);
  }

  // ---------------------------------------------------------------- shutdown

  /** Once HANGUP is handled the loop has stopped or a CDHFINISHED that will stop it is queued. */
  predicate Closing(s: Loop) {
    && s.destShutdown == s.shutdown
    && (s.pc == Done <==> s.stopLoop)
    && (s.stopLoop ==> s.shutdown)
    && (s.shutdown && !s.stopLoop ==> s.inTransfer && s.pc == Top && HasFinished(s.manage))
  }

  lemma EmitKeeps(s: Loop, m: ManageMsg)
    ensures HasFinished(s.manage) ==> HasFinished(Emit(s, m).manage)
    ensures m.Finished? && !s.destShutdown ==> HasFinished(Emit(s, m).manage)
  {
    if m.Finished? && !s.destShutdown { assert m in Emit(s, m).manage; }
    if n :| n in s.manage && n.Finished? { assert n in Emit(s, m).manage; }
  }

  lemma TailKeeps(s: Loop)
    requires s.manage != [] && HasFinished(s.manage) && !s.manage[0].Finished?
    ensures HasFinished(s.manage[1..])
  {
    var n :| n in s.manage && n.Finished?;
    assert n in s.manage[1..];
  }

  lemma HangupCloses(s: Loop, w: Replies)
    requires Closing(s) && s.pc == Top && s.manage != [] && s.manage[0].Hangup?
    ensures Closing(Apply(s, ManageNext(w))) && Apply(s, ManageNext(w)).shutdown
  {
    var t := s.(manage := s.manage[1..]);
    if s.inTransfer {
      if s.shutdown { TailKeeps(s); }
      EmitKeeps((if w.stop == StopOk then EndTask(t.(shutdown := true)) else t.(shutdown := true)).(retryNo := 0),
                Finished(false));
    }
  }

  lemma StopCloses(t: Loop, reply: StopReply)
    ensures HasFinished(t.manage) ==> HasFinished(StopTransfer(t, reply).manage)
  {
    EmitKeeps((if reply == StopOk then EndTask(t) else t).(retryNo := 0), Finished(false));
  }

  lemma ReopenCloses(t: Loop, w: Replies)
    requires Closing(t) && t.pc == Top
    ensures Closing(AfterManage(Handle(t, Reopen, w)))
  {
    if n :| n in t.manage && n.Finished? { assert n in [Hangup] + t.manage; }
    EmitKeeps(t, if w.openOk then Reattach else Reopen);
  }

  lemma StopMsgCloses(t: Loop, m: ManageMsg, w: Replies)
    requires Closing(t) && t.pc == Top && (m.StopFile? || m.StopAll?)
    ensures Closing(AfterManage(Handle(t, m, w)))
  {
    StopCloses(t, w.stop);
  }

  lemma OtherCloses(t: Loop, m: ManageMsg, w: Replies)
    requires Closing(t) && t.pc == Top && !m.Finished? && !m.Hangup?
    ensures Closing(AfterManage(Handle(t, m, w)))
  {
    match m
    case StopFile(_) => StopMsgCloses(t, m, w);
    case StopAll => StopMsgCloses(t, m, w);
    case Reopen => ReopenCloses(t, w);
    case Reattach => EmitKeeps(t, if w.attachOk then Resend else Reattach);
    case _ =>
  }

  lemma ManageCloses(s: Loop, w: Replies)
    requires Closing(s) && s.pc == Top && s.manage != []
    ensures Closing(Apply(s, ManageNext(w)))
  {
    var m, t := s.manage[0], s.(manage := s.manage[1..]);
    if m.Hangup? {
      HangupCloses(s, w);
    } else if !m.Finished? {
      if s.shutdown { TailKeeps(s); }
      OtherCloses(t, m, w);
    }
  }

  /** Steps that leave the flags and the CDHFINISHED messages in place. */
  lemma FrameCloses(s: Loop, t: Loop)
    requires Closing(s) && s.pc != Top && s.pc != Done
    requires t.destShutdown == s.destShutdown && t.shutdown == s.shutdown && t.stopLoop == s.stopLoop
    requires t.pc != Done
    ensures Closing(t)
  {
  }

  /** Callbacks only add to the manage queue. */
  lemma CallbackCloses(s: Loop, t: Loop)
    requires Closing(s) && Callback(s, t)
    ensures Closing(t)
  {
  }

  lemma StepCloses(s: Loop, l: Label)
    requires Closing(s) && Enabled(s, l)
    ensures Closing(Apply(s, l))
  {
    match l
    case ManageNext(w) => ManageCloses(s, w);
    case Post(m) => if n :| n in s.manage && n.Finished? { assert n in [m] + s.manage; }
    case OnFile(code) => FileEventFrame(s, code); CallbackCloses(s, FileEvent(s, code));
    case OnSet(code) => SetEventFrame(s, code); CallbackCloses(s, SetEvent(s, code));
    case ResendFlag => assert !s.shutdown;
    case FileNext(_) => FrameCloses(s, Apply(s, l));
    case FileIdle => FrameCloses(s, Apply(s, l));
    case SetFlag => FrameCloses(s, Apply(s, l));
    case ManageTimeout(_) => assert !s.shutdown;
    case Submit(_) =>
  }

  /** Weighted number of messages ahead of the first CDHFINISHED; a CDHREOPEN can put one HANGUP in its
      own place. */
  function Ahead(q: seq<ManageMsg>): nat {
    if q == [] || q[0].Finished? then 0 else (if q[0].Reopen? then 2 else 1) + Ahead(q[1..])
  }

  /** Messages the loop handles in a run. */
  function Turns(ls: seq<Label>): nat {
    if ls == [] then 0 else (if ls[0].ManageNext? then 1 else 0) + Turns(ls[1..])
  }

  predicate Lowers(s: Loop, t: Loop) {
    t.shutdown && t.log.offers == s.log.offers && (t.stopLoop || Ahead(t.manage) < Ahead(s.manage))
  }

  /** In shutdown the destination queues nothing, and the loop is at its manage queue or out. */
  lemma Muted(s: Loop, m: ManageMsg)
    requires s.destShutdown
    ensures var t := Emit(s, m);
            t.manage == s.manage && t.shutdown == s.shutdown && t.stopLoop == s.stopLoop
            && t.log == s.log && t.destShutdown
  {
  }

  lemma ReopenTurn(t: Loop, w: Replies)
    requires t.destShutdown && t.shutdown && t.pc == Top
    ensures var u := AfterManage(Handle(t, Reopen, w));
            u.shutdown && u.log.offers == t.log.offers && Ahead(u.manage) <= Ahead(t.manage) + 1
  {
    assert ([Hangup] + t.manage)[1..] == t.manage;
    Muted(t, if w.openOk then Reattach else Reopen);
  }

  lemma ClosingTurn(s: Loop, w: Replies)
    requires Closing(s) && s.shutdown && s.pc == Top && s.manage != []
    ensures Lowers(s, Apply(s, ManageNext(w)))
  {
    var m, t := s.manage[0], s.(manage := s.manage[1..]);
    match m
    case Reopen => ReopenTurn(t, w);
    case Reattach => Muted(t, if w.attachOk then Resend else Reattach);
    case StopFile(_) => MutedStop(t, w.stop);
    case StopAll => MutedStop(t, w.stop);
    case Hangup => SecondHangup(t, AfterManage(Handle(t, m, w)), w);
    case _ =>
  }

  lemma SecondHangup(s: Loop, t: Loop, w: Replies)
    requires s.destShutdown && t == AfterManage(Handle(s, Hangup, w))
    ensures t.shutdown && t.log.offers == s.log.offers && t.manage == s.manage
  {
    MutedStop(s, w.stop);
  }

  lemma MutedStop(s: Loop, reply: StopReply)
    requires s.destShutdown
    ensures var t := StopTransfer(s, reply);
            t.manage == s.manage && t.shutdown == s.shutdown && t.stopLoop == s.stopLoop && t.log == s.log
  {
  }

  lemma ClosingOther(s: Loop, l: Label)
    requires Closing(s) && s.shutdown && Enabled(s, l) && !l.ManageNext?
    ensures var t := Apply(s, l);
            && t.shutdown && t.log.offers == s.log.offers && (s.stopLoop ==> t.stopLoop)
            && (!l.Post? ==> t.manage == s.manage)
  {
    match l
    case OnFile(code) => FileEventFrame(s, code);
    case OnSet(code) => SetEventFrame(s, code);
    case _ =>
  }

  /** From the moment HANGUP is handled no file is offered to CDH, whatever is posted; and if nothing
      more is posted to the head of the queue, the loop handles at most one message more than Ahead
      counts, and has stopped once it has. */
  lemma {:induction false} ShutdownEnds(s: Loop, ls: seq<Label>)
    requires Closing(s) && s.shutdown && Possible(s, ls)
    ensures var t := Run(s, ls);
            Closing(t) && t.shutdown && t.log.offers == s.log.offers && (s.stopLoop ==> t.stopLoop)
    ensures s.stopLoop ==> Turns(ls) == 0
    ensures (forall l :: l in ls ==> !l.Post?) ==>
              && Turns(ls) <= Ahead(s.manage) + 1
              && (Run(s, ls).stopLoop || Turns(ls) + Ahead(Run(s, ls).manage) <= Ahead(s.manage))
    decreases |ls|
  {
    if ls != [] {
      if ls[0].ManageNext? { ClosingTurn(s, ls[0].replies); } else { ClosingOther(s, ls[0]); }
      StepCloses(s, ls[0]);
      ShutdownEnds(Apply(s, ls[0]), ls[1..]);
      assert forall l :: l in ls[1..] ==> l in ls;
    }
  }

  lemma {:induction false} AlwaysClosing(s: Loop, ls: seq<Label>)
    requires Closing(s) && Possible(s, ls)
    ensures Closing(Run(s, ls))
    decreases |ls|
  {
    if ls != [] {
      StepCloses(s, ls[0]);
      AlwaysClosing(Apply(s, ls[0]), ls[1..]);
    }
  }

  /** Shutdown safety in every possible run: after a HANGUP was handled the loop is out, or it still has
      a message to handle, does not wait, and will find a CDHFINISHED. */
  lemma ShutdownSafe(ls: seq<Label>)
    requires Possible(Start, ls)
    ensures var s := Run(Start, ls);
            s.shutdown ==> s.stopLoop || (!Waits(s) && s.pc == Top && HasFinished(s.manage))
    ensures var s := Run(Start, ls);
            forall w :: Enabled(s, ManageNext(w)) && s.manage[0].Hangup? ==>
              var t := Apply(s, ManageNext(w)); t.shutdown && (t.stopLoop || HasFinished(t.manage))
  {
    AlwaysClosing(Start, ls);
    var s := Run(Start, ls);
    forall w | Enabled(s, ManageNext(w)) && s.manage[0].Hangup?
      ensures var t := Apply(s, ManageNext(w)); t.shutdown && (t.stopLoop || HasFinished(t.manage))
    {
      HangupCloses(s, w);
    }
  }

  // ---------------------------------------------------------------- retry bound

  datatype Call = FileCall(code: FileCode) | SetCall(setCode: SetCode) | StopCall(reply: StopReply)

  function Answer(s: Loop, c: Call): Loop {
    match c
    case FileCall(code) => FileEvent(s, code)
    case SetCall(code) => SetEvent(s, code)
    case StopCall(reply) => StopTransfer(s, reply)
  }

  function Calls(s: Loop, cs: seq<Call>): Loop
    decreases |cs|
  {
    if cs == [] then s else Calls(Answer(s, cs[0]), cs[1..])
  }

  /** CDHSENDRETRY messages after the last CDHFINISHED. */
  function Since(log: seq<ManageMsg>): nat {
    if log == [] || log[|log| - 1].Finished? then 0
    else (if log[|log| - 1].SendRetry? then 1 else 0) + Since(log[..|log| - 1])
  }

  /** No stretch without CDHFINISHED holds more than n of them. */
  predicate Spaced(log: seq<ManageMsg>, n: nat) {
    forall k :: 0 <= k <= |log| ==> Since(log[..k]) <= n
  }

  predicate Limited(f: SendItem, n: nat) {
    0 <= f.retries <= n
  }

  predicate Bounded(s: Loop, n: nat) {
    && Limited(s.item, n) && (forall f :: f in s.files ==> Limited(f, n))
    && 0 <= s.retryNo <= n && Spaced(s.log.emitted, n)
    && (!s.destShutdown ==> Since(s.log.emitted) == s.retryNo)
  }

  lemma SpacedAppend(log: seq<ManageMsg>, n: nat, m: ManageMsg)
    requires Spaced(log, n) && (m.SendRetry? ==> Since(log) < n)
    ensures Spaced(log + [m], n)
    ensures Since(log + [m]) ==
            if m.Finished? then 0 else if m.SendRetry? then Since(log) + 1 else Since(log)
  {
    var more := log + [m];
    assert more[..|log|] == log && log[..|log|] == log;
    assert Since(log) <= n;
    forall k | 0 <= k <= |more| ensures Since(more[..k]) <= n {
      if k <= |log| { assert more[..k] == log[..k]; } else { assert more[..k] == more; }
    }
  }

  lemma EmitBounded(s: Loop, n: nat, m: ManageMsg)
    requires Bounded(s, n) && (m.SendRetry? ==> s.retryNo < n)
    ensures var t := Emit(s, m);
            Bounded(if m.SendRetry? then t.(retryNo := t.retryNo + 1) else t, n)
  {
    if !s.destShutdown { SpacedAppend(s.log.emitted, n, m); }
  }

  /** A stop clears the counter before its CDHFINISHED goes out. */
  lemma StopBounded(s: Loop, n: nat, reply: StopReply)
    requires Bounded(s, n)
    ensures Bounded(StopTransfer(s, reply), n)
  {
    var t := if reply == StopOk then EndTask(s) else s;
    assert Emit(t, Finished(false)) == Emit(t.(retryNo := 0), Finished(false));
    EmitBounded(t, n, Finished(false));
  }

  lemma LostBounded(s: Loop, n: nat)
    requires Bounded(s, n)
    ensures Bounded(Emit(Emit(s, Finished(true)), Reopen), n)
  {
    EmitBounded(s, n, Finished(true));
    EmitBounded(Emit(s, Finished(true)), n, Reopen);
  }

  lemma RetryBounded(s: Loop, n: nat)
    requires Bounded(s, n)
    ensures Bounded(Conclude(s, Retryable), n)
  {
    var t := EndTask(s);
    if Retries(t) {
      EmitBounded(t, n, SendRetry);
    } else {
      EmitBounded(Marking(t, Failed), n, Finished(false));
    }
  }

  lemma FileEventBounded(s: Loop, n: nat, code: FileCode)
    requires Bounded(s, n)
    ensures Bounded(FileEvent(s, code), n)
  {
    hide Bounded, Conclude, Classify;
    ConcludeBounded(s, n, Classify(code));
  }

  lemma ConcludeBounded(s: Loop, n: nat, v: Verdict)
    requires Bounded(s, n)
    ensures Bounded(Conclude(s, v), n)
  {
    match v
    case Delivered => EmitBounded(Marking(EndTask(s), Deleted), n, Finished(false));
    case Retryable => RetryBounded(s, n);
    case Refused => EmitBounded(Marking(EndTask(s), Failed), n, Finished(false));
    case ServerGone => LostBounded(Marking(EndTask(s), Failed), n);
    case TaskGone => EmitBounded(EndTask(s), n, Finished(false));
    case Halted => EmitBounded(s, n, CdhStopped);
    case Ignored =>
  }

  lemma SetEventBounded(s: Loop, n: nat, code: SetCode)
    requires Bounded(s, n)
    ensures Bounded(SetEvent(s, code), n)
  {
    match code
    case SetServerGone => LostBounded(s, n);
    case SetNews => EmitBounded(s, n, Note);
    case SetStopping => EmitBounded(s, n, CdhStopped);
    case SetQuiet =>
  }

  /** A refused offer ends the file like any other failure. */
  lemma OfferBounded(s: Loop, n: nat, accepted: bool)
    requires Bounded(s, n)
    ensures Bounded(Offer(s, accepted), n)
  {
    if !accepted { EmitBounded(s, n, Finished(false)); }
  }

  lemma HandleBounded(s: Loop, n: nat, m: ManageMsg, w: Replies)
    requires Bounded(s, n)
    ensures Bounded(Handle(s, m, w), n)
  {
    hide Since, Spaced;
    match m
    case Reopen => EmitBounded(s, n, if w.openOk then Reattach else Reopen);
    case Reattach => EmitBounded(s, n, if w.attachOk then Resend else Reattach);
    case StopFile(_) => StopBounded(s, n, w.stop);
    case StopAll => StopBounded(s, n, w.stop);
    case Hangup => StopBounded(s, n, w.stop);
    case _ =>
  }

  lemma TakeBounded(s: Loop, n: nat, accepted: bool)
    requires Bounded(s, n) && s.files != []
    ensures Bounded(TakeFile(s, accepted), n)
  {
    hide Bounded, Offer;
    var f := s.files[0];
    var t := Taking(s.(files := s.files[1..], current := f.path), [Taken(f, Offered)]).(item := f);
    assert f in s.files && forall g :: g in s.files[1..] ==> g in s.files;
    assert Limited(f, n) && Limited(s.item, n) by { InLimits(s, n); }
    SameBound(s, t, n);
    SameBound(s, Marking(t, Sent), n);
    OfferBounded(t, n, accepted);
    OfferBounded(Marking(t, Sent), n, accepted);
    var r := TakeFile(s, accepted);
    if f.path in s.stopSet {
      SameBound(s, r, n);
    } else if s.stopSet == {} {
      InLimits(Offer(Marking(t, Sent), accepted), n);
      SameBound(Offer(Marking(t, Sent), accepted), r, n);
    } else {
      InLimits(Offer(t, accepted), n);
      SameBound(Offer(t, accepted), r, n);
    }
  }

  lemma InLimits(s: Loop, n: nat)
    requires Bounded(s, n)
    ensures Limited(s.item, n) && forall f :: f in s.files ==> Limited(f, n)
  {
  }

  /** What the bound looks at. */
  lemma SameBound(s: Loop, t: Loop, n: nat)
    requires Bounded(s, n) && Limited(t.item, n) && forall f :: f in t.files ==> f in s.files
    requires t.retryNo == s.retryNo && t.log.emitted == s.log.emitted && t.destShutdown == s.destShutdown
    ensures Bounded(t, n)
  {
    hide Since, Spaced;
  }

  lemma StepBounded(s: Loop, n: nat, l: Label)
    requires Bounded(s, n) && Enabled(s, l) && (l.Submit? ==> Limited(l.file, n))
    ensures Bounded(Apply(s, l), n)
  {
    hide Since, Spaced, Handle, TakeFile, Offer, FileEvent, SetEvent;
    match l
    case ManageNext(w) => HandleBounded(s.(manage := s.manage[1..]), n, s.manage[0], w);
    case ManageTimeout(accepted) => OfferBounded(s, n, accepted);
    case FileNext(accepted) => TakeBounded(s, n, accepted);
    case OnFile(code) => FileEventBounded(s, n, code);
    case OnSet(code) => SetEventBounded(s, n, code);
    case _ =>
  }

  lemma {:induction false} RunBounded(s: Loop, n: nat, ls: seq<Label>)
    requires Bounded(s, n) && Possible(s, ls) && forall l :: l in ls && l.Submit? ==> Limited(l.file, n)
    ensures Bounded(Run(s, ls), n)
    decreases |ls|
  {
    hide Bounded, Apply, Enabled;
    if ls != [] {
      assert ls[0] in ls && forall l :: l in ls[1..] ==> l in ls;
      StepBounded(s, n, ls[0]);
      RunBounded(Apply(s, ls[0]), n, ls[1..]);
    }
  }

  /** In every possible run whose files are limited to n retries, whatever events, refusals and stops arrive:
      at most n retries lie between two CDHFINISHED messages, the counter stays in 0..n, and until HANGUP it is
      the number of retries since the last CDHFINISHED. */
  lemma RetryBound(n: nat, ls: seq<Label>)
    requires Possible(Start, ls) && forall l :: l in ls && l.Submit? ==> Limited(l.file, n)
    ensures var s := Run(Start, ls);
            && Spaced(s.log.emitted, n) && 0 <= s.retryNo <= n
            && (!s.destShutdown ==> Since(s.log.emitted) == s.retryNo)
  {
    assert Bounded(Start, n);
    hide Run;
    RunBounded(Start, n, ls);
  }

  predicate AllRetryable(cs: seq<Call>) {
    forall c :: c in cs ==> c.FileCall? && Classify(c.code).Retryable?
  }

  /** What k retryable events in a row emit under limit n: n retries, the end, and again. */
  function Cycle(k: nat, n: nat): seq<ManageMsg> {
    seq(k, i => if i % (n + 1) == n then Finished(false) else SendRetry)
  }

  /** The state after k retryable events in a row, starting with a cleared counter. */
  predicate Cycled(s: Loop, t: Loop, k: nat, n: nat) {
    && t.item == s.item && !t.destShutdown
    && t.retryNo == k % (n + 1)
    && t.log.emitted == s.log.emitted + Cycle(k, n)
    && t.log.marks == s.log.marks + seq(k / (n + 1), _ => Mark(s.item.name, Failed))
  }

  lemma RetriesOnce(s: Loop)
    requires !s.destShutdown && 0 <= s.retryNo < s.item.retries
    ensures var t := Conclude(s, Retryable);
            && t.item == s.item && !t.destShutdown && t.retryNo == s.retryNo + 1
            && t.log.emitted == s.log.emitted + [SendRetry] && t.log.marks == s.log.marks
  {
  }

  lemma GivesUp(s: Loop)
    requires !s.destShutdown && 0 <= s.item.retries == s.retryNo
    ensures var t := Conclude(s, Retryable);
            && t.item == s.item && !t.destShutdown && t.retryNo == 0
            && t.log.emitted == s.log.emitted + [Finished(false)]
            && t.log.marks == s.log.marks + [Mark(s.item.name, Failed)]
  {
  }

  lemma CycledNext(s: Loop, t: Loop, k: nat, n: nat, code: FileCode)
    requires s.item.retries == n && Cycled(s, t, k, n) && Classify(code).Retryable?
    ensures Cycled(s, FileEvent(t, code), k + 1, n)
  {
    NextInCycle(k, n);
    if k % (n + 1) == n { GivesUp(t); } else { RetriesOnce(t); }
  }

  /** k retryable events in a row: the counter runs through 0..n, every (n+1)-th one fails the file. */
  lemma {:induction false} RetryCycle(s: Loop, n: nat, cs: seq<Call>)
    requires s.item.retries == n && !s.destShutdown && s.retryNo == 0 && AllRetryable(cs)
    ensures Cycled(s, Calls(s, cs), |cs|, n)
    decreases |cs|
  {
    hide Cycled, FileEvent, Conclude, Classify;
    if cs == [] {
      CycledStart(s, n);
    } else {
      var init, last := cs[..|cs| - 1], cs[|cs| - 1];
      RetryCycle(s, n, init);
      CallsLast(s, init, last);
      assert cs == init + [last];
      assert last in cs;
      CycledNext(s, Calls(s, init), |init|, n, last.code);
    }
  }

  lemma CycledStart(s: Loop, n: nat)
    requires !s.destShutdown && s.retryNo == 0
    ensures Cycled(s, s, 0, n)
  {
    QuotientIs(0, n + 1, 0, 0);
  }

  lemma {:induction false} CallsLast(s: Loop, cs: seq<Call>, c: Call)
    ensures Calls(s, cs + [c]) == Answer(Calls(s, cs), c)
    decreases |cs|
  {
    if cs == [] {
      assert (cs + [c])[1..] == [];
    } else {
      CallsLast(Answer(s, cs[0]), cs[1..], c);
      assert (cs + [c])[1..] == cs[1..] + [c];
    }
  }

  lemma NextInCycle(k: nat, n: nat)
    ensures Cycle(k + 1, n) == Cycle(k, n) + [if k % (n + 1) == n then Finished(false) else SendRetry]
    ensures (k + 1) % (n + 1) == if k % (n + 1) == n then 0 else k % (n + 1) + 1
    ensures (k + 1) / (n + 1) == k / (n + 1) + if k % (n + 1) == n then 1 else 0
  {
    DivNext(k, n + 1);
  }

  /** Without a limit retryable events never fail the file. */
  lemma {:induction false} UnlimitedRetries(s: Loop, cs: seq<Call>)
    requires s.item.retries == -1 && !s.destShutdown && AllRetryable(cs)
    ensures var t := Calls(s, cs);
            && t.log.marks == s.log.marks && t.retryNo == s.retryNo
            && t.log.emitted == s.log.emitted + seq(|cs|, _ => SendRetry)
    decreases |cs|
  {
    if cs != [] {
      UnlimitedRetries(Answer(s, cs[0]), cs[1..]);
      assert seq(|cs|, _ => SendRetry) == [SendRetry] + seq(|cs| - 1, _ => SendRetry);
    }
  }

  /** A file CDH refuses at once ends in state failed exactly when the stop set was empty; otherwise
      the later mark as sent overwrites it. */
  lemma RefusedFileState(s: Loop)
    requires Enabled(s, FileNext(false)) && s.files[0].path !in s.stopSet
    ensures var marks := Apply(s, FileNext(false)).log.marks;
            marks != [] && (marks[|marks| - 1].status == Failed <==> s.stopSet == {})
  {
    var f := s.files[0];
    RefusedMarks(Taking(s.(files := s.files[1..], current := f.path), [Taken(f, Offered)]), f, s.stopSet == {});
  }

  lemma RefusedMarks(s: Loop, f: SendItem, sentFirst: bool)
    ensures HandOver(s, f, false, sentFirst).log.marks ==
            s.log.marks + if sentFirst then [Mark(f.name, Sent), Mark(f.name, Failed)]
                          else [Mark(f.name, Failed), Mark(f.name, Sent)]
  {
    if sentFirst {
      assert Offer(Marking(s.(item := f), Sent), false).log.marks ==
             (s.log.marks + [Mark(f.name, Sent)]) + [Mark(f.name, Failed)];
    } else {
      assert Offer(s.(item := f), false).log.marks == s.log.marks + [Mark(f.name, Failed)];
    }
  }

  // ---------------------------------------------------------------- file queue

  function FilesOf(taken: seq<Taken>): seq<SendItem> {
    seq(|taken|, i requires 0 <= i < |taken| => taken[i].file)
  }

  function DroppedPaths(taken: seq<Taken>): seq<string> {
    if taken == [] then []
    else DroppedPaths(taken[..|taken| - 1]) +
         if taken[|taken| - 1].fate.Dropped? then [taken[|taken| - 1].file.path] else []
  }

  lemma {:induction false} DiscardDropsNone(taken: seq<Taken>, files: seq<SendItem>)
    ensures DroppedPaths(taken + Discard(files)) == DroppedPaths(taken)
    decreases |files|
  {
    if files == [] {
      assert taken + Discard(files) == taken;
    } else {
      var more := taken + Discard(files);
      assert more[..|more| - 1] == taken + Discard(files[..|files| - 1]);
      DiscardDropsNone(taken, files[..|files| - 1]);
    }
  }

  lemma DroppedAppend(taken: seq<Taken>, t: Taken)
    ensures DroppedPaths(taken + [t]) ==
            DroppedPaths(taken) + if t.fate.Dropped? then [t.file.path] else []
  {
    assert (taken + [t])[..|taken|] == taken;
  }

  /** Every queued file is still queued or was taken once, in order unless CDHRESEND put one back. */
  predicate Accounts(h: History, files: seq<SendItem>) {
    && multiset(h.enqueued) + multiset(h.requeued) == multiset(FilesOf(h.taken) + files)
    && (h.requeued == [] ==> h.enqueued == FilesOf(h.taken) + files)
  }

  /** Every dropped file used up one request to stop its path. */
  predicate Used(h: History, stopSet: set<string>) {
    multiset(DroppedPaths(h.taken)) + multiset(stopSet) <= multiset(h.stops)
  }

  predicate Conserved(s: Loop) {
    Accounts(s.log, s.files) && Used(s.log, s.stopSet)
  }

  /** The ways a step changes the file queue. */
  datatype Shift = Keep | Take | Flush | Requeue | Request(path: string) | Add(file: SendItem)

  predicate Shifts(s: Loop, t: Loop, k: Shift) {
    var h := s.log;
    match k
    case Keep => t.files == s.files && t.stopSet == s.stopSet && SameLog(t.log, h)
    case Take =>
      s.files != [] && t.files == s.files[1..] &&
      var f := s.files[0];
      var drop := f.path in s.stopSet;
      && t.stopSet == (if drop then s.stopSet - {f.path} else s.stopSet)
      && SameLog(t.log, h.(taken := h.taken + [Taken(f, if drop then Dropped else Offered)]))
    case Flush =>
      t.files == [] && t.stopSet == s.stopSet && SameLog(t.log, h.(taken := h.taken + Discard(s.files)))
    case Requeue =>
      && t.files == [s.item] + s.files && t.stopSet == s.stopSet
      && SameLog(t.log, h.(requeued := h.requeued + [s.item]))
    case Request(p) =>
      && t.files == s.files && t.stopSet == s.stopSet + {p}
      && SameLog(t.log, h.(stops := h.stops + [p]))
    case Add(f) =>
      && t.files == s.files + [f] && t.stopSet == s.stopSet
      && SameLog(t.log, h.(enqueued := h.enqueued + [f]))
  }

  function ManageShift(s: Loop, m: ManageMsg, w: Replies): Shift {
    match m
    case Resend => if s.item.name != "" && w.stillSending && s.filesOpen then Requeue else Keep
    case StopFile(p) => if StopsTransfer(s, m) then Keep else Request(p)
    case StopAll => Flush
    case Hangup => if s.inTransfer && w.stop == StopOk then Keep else Flush
    case CdhStopped => if s.shutdown then Flush else Keep
    case _ => Keep
  }

  function StepShift(s: Loop, l: Label): Shift
    requires Enabled(s, l)
  {
    match l
    case ManageNext(w) => ManageShift(s, s.manage[0], w)
    case FileNext(_) => Take
    case Submit(f) => if s.filesOpen then Add(f) else Keep
    case _ => Keep
  }

  lemma StopShifts(t: Loop, m: ManageMsg, w: Replies)
    requires m.StopFile? || m.StopAll?
    ensures Shifts(t, Handle(t, m, w), ManageShift(t, m, w))
  {
    if StopsTransfer(t, m) { assert Shifts(t, StopTransfer(t, w.stop), Keep); }
  }

  lemma HangupShifts(t: Loop, w: Replies)
    ensures Shifts(t, Handle(t, Hangup, w), ManageShift(t, Hangup, w))
  {
    if t.inTransfer {
      assert Shifts(t, StopTransfer(t, w.stop), Keep);
      if w.stop == StopOk { assert Handle(t, Hangup, w).files == t.files; }
    }
  }

  lemma ReopenShifts(t: Loop, w: Replies)
    ensures Shifts(t, Handle(t, Reopen, w), Keep)
  {
    if !w.afpStopping { EmitFrame(t, t, if w.openOk then Reattach else Reopen); }
  }

  lemma HandleShifts(t: Loop, m: ManageMsg, w: Replies)
    ensures Shifts(t, Handle(t, m, w), ManageShift(t, m, w))
  {
    match m
    case StopFile(_) => StopShifts(t, m, w);
    case StopAll => StopShifts(t, m, w);
    case Hangup => HangupShifts(t, w);
    case Reopen => ReopenShifts(t, w);
    case Reattach => EmitFrame(t, t, if w.attachOk then Resend else Reattach);
    case Resend => ResendShifts(t, w);
    case _ =>
  }

  lemma ResendShifts(t: Loop, w: Replies)
    ensures Shifts(t, Handle(t, Resend, w), ManageShift(t, Resend, w))
  {
  }

  lemma ManageShifts(s: Loop, w: Replies)
    requires s.manage != []
    ensures Shifts(s, AfterManage(Handle(s.(manage := s.manage[1..]), s.manage[0], w)),
                   ManageShift(s, s.manage[0], w))
  {
    var t := s.(manage := s.manage[1..]);
    HandleShifts(t, s.manage[0], w);
    assert ManageShift(t, s.manage[0], w) == ManageShift(s, s.manage[0], w);
  }

  /** Offering and marking leave the file queue alone. */
  predicate SameQueue(s: Loop, t: Loop) {
    t.files == s.files && t.stopSet == s.stopSet && SameLog(t.log, s.log)
  }

  lemma OfferQueue(s: Loop, accepted: bool)
    ensures SameQueue(s, Offer(s, accepted))
  {
  }

  lemma HandOverQueue(s: Loop, f: SendItem, accepted: bool, sentFirst: bool)
    ensures SameQueue(s, HandOver(s, f, accepted, sentFirst))
  {
    var t := s.(item := f);
    if sentFirst { OfferQueue(Marking(t, Sent), accepted); } else { OfferQueue(t, accepted); }
  }

  lemma TakeShifts(s: Loop, accepted: bool)
    requires s.files != []
    ensures Shifts(s, TakeFile(s, accepted), Take)
  {
    var f := s.files[0];
    if f.path !in s.stopSet {
      var t := Taking(s.(files := s.files[1..], current := f.path), [Taken(f, Offered)]);
      HandOverQueue(t, f, accepted, s.stopSet == {});
    }
  }

  lemma EventShifts(s: Loop, l: Label)
    requires Enabled(s, l) && !l.ManageNext? && !l.FileNext?
    ensures Shifts(s, Apply(s, l), StepShift(s, l))
  {
    match l
    case OnFile(code) => FileEventFrame(s, code); CallbackShifts(s, FileEvent(s, code));
    case OnSet(code) => SetEventFrame(s, code); CallbackShifts(s, SetEvent(s, code));
    case ManageTimeout(accepted) => OfferQueue(s, accepted);
    case _ =>
  }

  lemma CallbackShifts(s: Loop, t: Loop)
    requires Callback(s, t)
    ensures Shifts(s, t, Keep)
  {
  }

  lemma MovesToTaken(h: History, files: seq<SendItem>, more: seq<Taken>, rest: seq<SendItem>)
    requires Accounts(h, files) && files == FilesOf(more) + rest
    ensures Accounts(h.(taken := h.taken + more), rest)
  {
    assert FilesOf(h.taken + more) + rest == FilesOf(h.taken) + files;
  }

  lemma TakeAccounts(s: Loop, t: Loop)
    requires Accounts(s.log, s.files) && Shifts(s, t, Take)
    ensures Accounts(t.log, t.files)
  {
    var k := Taken(s.files[0], if s.files[0].path in s.stopSet then Dropped else Offered);
    assert FilesOf([k]) + s.files[1..] == s.files;
    MovesToTaken(s.log, s.files, [k], s.files[1..]);
  }

  lemma FlushAccounts(s: Loop, t: Loop)
    requires Accounts(s.log, s.files) && Shifts(s, t, Flush)
    ensures Accounts(t.log, t.files)
  {
    assert s.files == FilesOf(Discard(s.files)) + [];
    MovesToTaken(s.log, s.files, Discard(s.files), []);
  }

  lemma RequeueAccounts(s: Loop, t: Loop)
    requires Accounts(s.log, s.files) && Shifts(s, t, Requeue)
    ensures Accounts(t.log, t.files)
  {
    var q := FilesOf(s.log.taken);
    assert multiset(q + ([s.item] + s.files)) == multiset(q + s.files) + multiset{s.item};
    assert t.log.requeued != [];
  }

  lemma AddAccounts(s: Loop, t: Loop, f: SendItem)
    requires Accounts(s.log, s.files) && Shifts(s, t, Add(f))
    ensures Accounts(t.log, t.files)
  {
    var q := FilesOf(s.log.taken);
    assert q + (s.files + [f]) == (q + s.files) + [f];
  }

  lemma ShiftAccounts(s: Loop, t: Loop, k: Shift)
    requires Accounts(s.log, s.files) && Shifts(s, t, k)
    ensures Accounts(t.log, t.files)
  {
    match k
    case Take => TakeAccounts(s, t);
    case Flush => FlushAccounts(s, t);
    case Requeue => RequeueAccounts(s, t);
    case Add(f) => AddAccounts(s, t, f);
    case Keep => assert t.files == s.files;
    case Request(_) => assert t.files == s.files;
  }

  lemma TakeUsed(s: Loop, t: Loop)
    requires Used(s.log, s.stopSet) && Shifts(s, t, Take)
    ensures Used(t.log, t.stopSet)
  {
    var f := s.files[0];
    DroppedAppend(s.log.taken, Taken(f, if f.path in s.stopSet then Dropped else Offered));
    if f.path in s.stopSet {
      assert multiset(s.stopSet) == multiset(s.stopSet - {f.path}) + multiset{f.path};
    }
  }

  lemma RequestUsed(s: Loop, t: Loop, p: string)
    requires Used(s.log, s.stopSet) && Shifts(s, t, Request(p))
    ensures Used(t.log, t.stopSet)
  {
    assert multiset(s.stopSet + {p}) <= multiset(s.stopSet) + multiset{p};
  }

  lemma ShiftUsed(s: Loop, t: Loop, k: Shift)
    requires Used(s.log, s.stopSet) && Shifts(s, t, k)
    ensures Used(t.log, t.stopSet)
  {
    match k
    case Take => TakeUsed(s, t);
    case Flush => DiscardDropsNone(s.log.taken, s.files);
    case Request(p) => RequestUsed(s, t, p);
    case _ =>
  }

  lemma StepConserves(s: Loop, l: Label)
    requires Conserved(s) && Enabled(s, l)
    ensures Conserved(Apply(s, l))
  {
    var k := StepShift(s, l);
    StepShifts(s, l, k);
    ShiftAccounts(s, Apply(s, l), k);
    ShiftUsed(s, Apply(s, l), k);
  }

  lemma StepShifts(s: Loop, l: Label, k: Shift)
    requires Enabled(s, l)
    requires k == StepShift(s, l)
    ensures Shifts(s, Apply(s, l), k)
  {
    match l
    case ManageNext(w) => ManageShifts(s, w);
    case FileNext(accepted) => TakeShifts(s, accepted);
    case _ => EventShifts(s, l);
  }

  lemma {:induction false} RunConserves(s: Loop, ls: seq<Label>)
    requires Conserved(s) && Possible(s, ls)
    ensures Conserved(Run(s, ls))
    decreases |ls|
  {
    if ls != [] {
      StepConserves(s, ls[0]);
      RunConserves(Apply(s, ls[0]), ls[1..]);
    }
  }

  /** In every possible run. */
  lemma FilesConserved(ls: seq<Label>)
    requires Possible(Start, ls)
    ensures var s, h := Run(Start, ls), Run(Start, ls).log;
            && multiset(h.enqueued) + multiset(h.requeued) == multiset(FilesOf(h.taken) + s.files)
            && (h.requeued == [] ==> FilesOf(h.taken) <= h.enqueued)
            && multiset(DroppedPaths(h.taken)) <= multiset(h.stops)
  {
    RunConserves(Start, ls);
  }

  /** CDHSTOPSENDALL leaves the queue empty and takes each file out unsent, in order. */
  lemma StopAllEmpties(s: Loop, w: Replies)
    requires Enabled(s, ManageNext(w)) && s.manage[0].StopAll?
    ensures var t := Apply(s, ManageNext(w));
            && t.files == [] && t.log.taken == s.log.taken + Discard(s.files)
            && t.log.offers == s.log.offers
  {
  }
}
