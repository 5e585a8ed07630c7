/** No lost wake-up: what every run of the transfer loop keeps under the stated assumptions. */
module TransferSafety {
  import opened TransferProtocol

  datatype Signal = R | F

  function SignalOf(m: ManageMsg): seq<Signal> {
    if m.Finished? then [F] else if m.SendRetry? then [R] else []
  }

  /** The queued CDHSENDRETRY and CDHFINISHED messages, in order. */
  function Signals(q: seq<ManageMsg>): seq<Signal> {
    if q == [] then [] else SignalOf(q[0]) + Signals(q[1..])
  }

  lemma {:induction false} SignalsAppend(q: seq<ManageMsg>, m: ManageMsg)
    ensures Signals(q + [m]) == Signals(q) + SignalOf(m)
    decreases |q|
  {
    if q == [] {
      assert q + [m] == [m];
    } else {
      SignalsAppend(q[1..], m);
      assert (q + [m])[1..] == q[1..] + [m];
    }
  }

  lemma {:induction false} SignalsMember(q: seq<ManageMsg>)
    ensures F in Signals(q) <==> HasFinished(q)
    ensures R in Signals(q) <==> SendRetry in q
  {
    if q != [] { SignalsMember(q[1..]); assert q == [q[0]] + q[1..]; }
  }

  /** At most one of each, the retry before the end. */
  predicate Shape(g: seq<Signal>) {
    |g| <= 2 && (|g| == 2 ==> g[0] == R) && (g != [] && g[0] == R && |g| == 2 ==> g[1] == F)
  }

  /** A resend is due: resendInProgress_ is set and the file has not been offered again yet. */
  predicate Pending(s: Loop) {
    s.resending && s.pc != Resending
  }

  /** A file was taken and its CDHFINISHED has not been handled. */
  predicate Busy(s: Loop) {
    s.inTransfer || s.pc == Sending
  }

  predicate Inv(s: Loop) {
    var g := Signals(s.manage);
    && s.outstanding <= 1
    && Shape(g)
    && (s.outstanding == 1 ==> g == [])
    && (Pending(s) ==> s.outstanding == 0 && R !in g)
    && (Busy(s) <==> s.outstanding == 1 || g != [] || Pending(s))
    && (s.resending ==> s.inTransfer)
    && (s.pc == Sending ==> !s.inTransfer)
    && (s.pc == AtFile ==> !s.inTransfer)
    && (s.pc == Resending ==> s.resending)
    && (s.pc == Done <==> s.stopLoop)
    && (s.destShutdown <==> s.shutdown)
    && (s.shutdown ==> s.outstanding == 0 && (s.stopLoop || (F in g && s.pc == Top)))
    && 0 <= s.retryNo
    && (s.retryNo > 0 ==> Busy(s) && s.retryNo <= s.item.retries && F !in g)
  }

  lemma FinishKeeps(s: Loop, m: ManageMsg, t: Loop)
    requires Inv(s) && s.outstanding > 0 && m.Finished?
    requires t == s.(outstanding := 0, log := t.log)
    ensures Inv(Emit(t, m))
  {
    SignalsAppend(s.manage, m);
  }

  lemma RetryKeeps(s: Loop)
    requires Inv(s) && s.outstanding > 0
    requires Retries(s)
    ensures Inv(Conclude(s, Retryable))
  {
    SignalsAppend(s.manage, SendRetry);
  }

  /** Messages that carry no signal do not matter. */
  lemma QuietKeeps(s: Loop, m: ManageMsg)
    requires Inv(s) && SignalOf(m) == []
    ensures Inv(Emit(s, m))
  {
    SignalsAppend(s.manage, m);
  }

  lemma LostKeeps(s: Loop)
    requires Inv(s) && s.outstanding > 0
    ensures Inv(Conclude(s, ServerGone))
  {
    var t := Marking(s.(outstanding := 0), Failed);
    FinishKeeps(s, Finished(true), t);
    QuietKeeps(Emit(t, Finished(true)), Reopen);
  }

  lemma FileEventKeeps(s: Loop, v: Verdict)
    requires Inv(s) && (Ends(v) ==> s.outstanding > 0)
    ensures Inv(Conclude(s, v))
  {
    var t := s.(outstanding := 0);
    match v
    case Delivered => FinishKeeps(s, Finished(false), Marking(t, Deleted));
    case Retryable =>
      if Retries(s) { RetryKeeps(s); } else { FinishKeeps(s, Finished(false), Marking(t, Failed)); }
    case Refused => FinishKeeps(s, Finished(false), Marking(t, Failed));
    case ServerGone => LostKeeps(s);
    case TaskGone => FinishKeeps(s, Finished(false), t);
    case Halted => QuietKeeps(s, CdhStopped);
    case Ignored =>
  }

  lemma Dequeued(s: Loop)
    requires s.manage != [] && SignalOf(s.manage[0]) == [] && Inv(s) && s.pc == Top
    ensures Inv(s.(manage := s.manage[1..]))
  {
  }

  lemma FinishedHandled(s: Loop, w: Replies)
    requires Inv(s) && s.pc == Top && s.manage != [] && s.manage[0].Finished?
    ensures Inv(Apply(s, ManageNext(w)))
  {
  }

  lemma RetryHandled(s: Loop, w: Replies)
    requires Inv(s) && s.pc == Top && s.manage != [] && s.manage[0].SendRetry?
    ensures Inv(Apply(s, ManageNext(w)))
  {
    assert Signals(s.manage) == [R] + Signals(s.manage[1..]);
  }

  lemma PushKeeps(s: Loop, m: ManageMsg)
    requires Inv(s) && SignalOf(m) == []
    ensures Inv(s.(manage := [m] + s.manage))
  {
    assert ([m] + s.manage)[1..] == s.manage;
  }

  /** A stop that finds no CDHFINISHED queued. */
  lemma StopKeeps(s: Loop, reply: StopReply)
    requires Inv(s) && s.pc == Top && s.inTransfer && (s.destShutdown || F !in Signals(s.manage))
    requires reply == StopOk <==> s.outstanding > 0
    ensures Inv(StopTransfer(s, reply))
    ensures s.destShutdown || F in Signals(StopTransfer(s, reply).manage)
    ensures StopTransfer(s, reply).outstanding == 0
  {
    SignalsAppend(s.manage, Finished(false));
  }

  /** The last statements of the HANGUP branch. */
  lemma HangupTail(u: Loop, stays: bool, s: Loop)
    requires Inv(s) && s.pc == Top && s.outstanding == 0 && (stays ==> F in Signals(s.manage))
    requires u == s.(shutdown := true)
    ensures Inv(AfterManage((if stays then u else CloseFiles(u).(stopLoop := true)).(destShutdown := true)))
  {
  }

  lemma AfterKeeps(s: Loop)
    requires Inv(s) && s.pc == Top
    ensures Inv(AfterManage(s))
  {
  }

  lemma HandleKeeps(s: Loop, w: Replies)
    requires Inv(s) && Enabled(s, ManageNext(w)) && Assumed(s, ManageNext(w))
    ensures Inv(Apply(s, ManageNext(w)))
  {
    var m, t := s.manage[0], s.(manage := s.manage[1..]);
    if m.Finished? {
      FinishedHandled(s, w);
    } else if m.SendRetry? {
      RetryHandled(s, w);
    } else {
      Dequeued(s);
      SignalsMember(s.manage);
      assert Signals(s.manage) == Signals(t.manage);
      SilentHandled(t, m, w);
    }
  }

  predicate Stoppable(t: Loop, m: ManageMsg, reply: StopReply) {
    StopsTransfer(t, m) ==>
      (reply == StopOk <==> t.outstanding > 0) && (t.destShutdown || F !in Signals(t.manage))
  }

  lemma ReopenHandled(t: Loop, w: Replies)
    requires Inv(t) && t.pc == Top
    ensures Inv(AfterManage(Handle(t, Reopen, w)))
  {
    if w.afpStopping {
      PushKeeps(t, Hangup);
    } else {
      QuietKeeps(t, if w.openOk then Reattach else Reopen);
    }
    AfterKeeps(Handle(t, Reopen, w));
  }

  lemma ReattachHandled(t: Loop, w: Replies)
    requires Inv(t) && t.pc == Top
    ensures Inv(AfterManage(Handle(t, Reattach, w)))
  {
    QuietKeeps(t, if w.attachOk then Resend else Reattach);
    AfterKeeps(Handle(t, Reattach, w));
  }

  lemma StopHandled(t: Loop, m: ManageMsg, w: Replies)
    requires Inv(t) && t.pc == Top && (m.StopFile? || m.StopAll?) && Stoppable(t, m, w.stop)
    ensures Inv(AfterManage(Handle(t, m, w)))
  {
    if StopsTransfer(t, m) {
      StopKeeps(t, w.stop);
      AfterKeeps(StopTransfer(t, w.stop));
    } else {
      AfterKeeps(t);
    }
  }

  lemma HangupHandled(t: Loop, w: Replies)
    requires Inv(t) && t.pc == Top && Stoppable(t, Hangup, w.stop)
    ensures Inv(AfterManage(Handle(t, Hangup, w)))
  {
    if t.inTransfer {
      StopKeeps(t, w.stop);
      HangupTail(StopTransfer(t.(shutdown := true), w.stop), w.stop == StopOk, StopTransfer(t, w.stop));
    } else {
      HangupTail(t.(shutdown := true), false, t);
    }
  }

  lemma SilentHandled(t: Loop, m: ManageMsg, w: Replies)
    requires Inv(t) && t.pc == Top && SignalOf(m) == [] && Stoppable(t, m, w.stop)
    ensures Inv(AfterManage(Handle(t, m, w)))
  {
    match m
    case Reopen => ReopenHandled(t, w);
    case Reattach => ReattachHandled(t, w);
    case StopFile(_) => StopHandled(t, m, w);
    case StopAll => StopHandled(t, m, w);
    case Hangup => HangupHandled(t, w);
    case _ => AfterKeeps(t);
  }

  lemma OfferKeeps(s: Loop, accepted: bool, t: Loop)
    requires Inv(s) && s.pc == AtFile && s.files != []
    requires t == s.(files := t.files, current := t.current, item := t.item, log := t.log)
    ensures Inv(Offer(t, accepted).(pc := Sending))
  {
    SignalsAppend(s.manage, Finished(false));
  }

  lemma TakeFileKeeps(s: Loop, accepted: bool)
    requires Inv(s) && Enabled(s, FileNext(accepted))
    ensures Inv(TakeFile(s, accepted))
  {
    var f := s.files[0];
    if f.path !in s.stopSet {
      var u := Taking(s.(files := s.files[1..], current := f.path), [Taken(f, Offered)]).(item := f);
      OfferKeeps(s, accepted, Marking(u, Sent));
      OfferKeeps(s, accepted, u);
    }
  }

  lemma TimeoutKeeps(s: Loop, accepted: bool)
    requires Inv(s) && Enabled(s, ManageTimeout(accepted))
    ensures Inv(Apply(s, ManageTimeout(accepted)))
  {
    SignalsAppend(s.manage, Finished(false));
  }

  lemma StepKeeps(s: Loop, l: Label)
    requires Inv(s) && Enabled(s, l) && Assumed(s, l)
    ensures Inv(Apply(s, l))
  {
    hide Inv, Handle, TakeFile, Offer, Conclude, SetEvent, AfterManage;
    match l
    case ManageNext(w) => HandleKeeps(s, w);
    case ManageTimeout(accepted) => TimeoutKeeps(s, accepted);
    case FileNext(accepted) => TakeFileKeeps(s, accepted);
    case Post(m) => PushKeeps(s, m);
    case OnFile(code) => FileEventKeeps(s, Classify(code));
    case OnSet(code) => SetEventKeeps(s, code);
    case ResendFlag | SetFlag | FileIdle | Submit(_) => PlainKeeps(s, l);
  }

  lemma SetEventKeeps(s: Loop, code: SetCode)
    requires Inv(s) && !code.SetServerGone?
    ensures Inv(SetEvent(s, code))
  {
    QuietKeeps(s, Note);
    QuietKeeps(s, CdhStopped);
    hide Inv;
  }

  lemma PlainKeeps(s: Loop, l: Label)
    requires Inv(s) && Enabled(s, l) && (l.ResendFlag? || l.SetFlag? || l.FileIdle? || l.Submit?)
    ensures Inv(Apply(s, l))
  {
    hide Signals, Handle, TakeFile, Offer, FileEvent, SetEvent;
  }

  lemma {:induction false} RunKeeps(s: Loop, ls: seq<Label>)
    requires Inv(s) && Legal(s, ls)
    ensures Possible(s, ls) && Inv(Run(s, ls))
    decreases |ls|
  {
    if ls != [] {
      StepKeeps(s, ls[0]);
      RunKeeps(Apply(s, ls[0]), ls[1..]);
    }
  }

  /** In every reachable state fileInTransfer_ has a cause that will clear it: a task at CDH, a queued
      message or a due resend. So the wait without time limit waits for a completion event, CDH never
      holds two files, and a resend belongs to a file in transfer. */
  lemma NoLostWakeup(ls: seq<Label>)
    requires Legal(Start, ls)
    ensures Possible(Start, ls)
    ensures var s := Run(Start, ls);
            && s.outstanding <= 1
            && (s.resending ==> s.inTransfer)
            && (s.inTransfer ==>
                  s.outstanding == 1 || HasFinished(s.manage) || SendRetry in s.manage || s.resending)
            && (s.pc == Top && Waits(s) ==> s.outstanding == 1)
            && (s.outstanding == 1 ==> s.inTransfer || s.pc == Sending)
            && (s.pc == AtFile ==> s.outstanding == 0)
  {
    RunKeeps(Start, ls);
    SignalsMember(Run(Start, ls).manage);
  }

  /** The retry counter never leaves 0..limit, whatever limits the files bring, and is 0 whenever the
      next file is taken. */
  lemma RetryCounterBounded(ls: seq<Label>)
    requires Legal(Start, ls)
    ensures Possible(Start, ls)
    ensures var s := Run(Start, ls);
            && 0 <= s.retryNo && (s.retryNo > 0 ==> s.retryNo <= s.item.retries)
            && (s.pc == AtFile ==> s.retryNo == 0)
  {
    RunKeeps(Start, ls);
  }

  /** A stop request that reaches the transfer keeps the invariant exactly when no CDHFINISHED is
      queued behind it (or the destination no longer queues messages). */
  lemma StopKeepsExactly(s: Loop, w: Replies)
    requires Inv(s) && Enabled(s, ManageNext(w)) && StopsTransfer(s, s.manage[0])
    requires w.stop == StopOk <==> s.outstanding > 0
    ensures Inv(Apply(s, ManageNext(w))) <==> s.destShutdown || !HasFinished(s.manage)
  {
    SignalsMember(s.manage);
    if s.destShutdown || !HasFinished(s.manage) {
      HandleKeeps(s, w);
    } else {
      SecondFinished(s, w);
    }
  }

  lemma TwoEnds(g: seq<Signal>)
    requires F in g
    ensures !Shape(g + [F])
  {
  }

  lemma SecondFinished(s: Loop, w: Replies)
    requires Enabled(s, ManageNext(w)) && StopsTransfer(s, s.manage[0])
    requires F in Signals(s.manage) && !s.destShutdown
    ensures !Inv(Apply(s, ManageNext(w)))
  {
    var q := s.manage[1..];
    assert StopTransfer(s.(manage := q), w.stop).manage == q + [Finished(false)];
    assert Apply(s, ManageNext(w)).manage == q + [Finished(false)];
    SignalsAppend(q, Finished(false));
    TwoEnds(Signals(q));
  }

  /** A server loss reported for the destination set keeps it exactly when the current file is
      waiting to be sent again. */
  lemma ServerLossKeepsExactly(s: Loop)
    requires Inv(s)
    ensures Inv(SetEvent(s, SetServerGone)) <==>
            s.destShutdown || (Busy(s) && s.outstanding == 0 && !HasFinished(s.manage))
  {
    SignalsMember(s.manage);
    SignalsAppend(s.manage, Finished(true));
    SignalsAppend(s.manage + [Finished(true)], Reopen);
    var r := SetEvent(s, SetServerGone);
    if !s.destShutdown {
      assert Signals(r.manage) == Signals(s.manage) + [F];
    }
  }

  const A := SendItem("/d/a", "a", 0)
  const B := SendItem("/d/b", "b", 0)
  const C := SendItem("/d/c", "c", 0)
  const Calm := Replies(StopNoTask, false, true, true, false)

  /** A stop for file a arrives after its completion event. */
  const Race := [
    Submit(A), Submit(B), Submit(C), ManageTimeout(true), FileNext(true), SetFlag, OnFile(Ok),
    Post(StopFile("/d/a")), ManageNext(Calm), ManageNext(Calm), FileNext(true), SetFlag,
    ManageNext(Calm), FileNext(true)]

  /** One more step at the end of a run. */
  lemma {:induction false} Extend(s: Loop, ls: seq<Label>, t: Loop, l: Label)
    returns (more: seq<Label>, u: Loop)
    requires Possible(s, ls) && t == Run(s, ls) && Enabled(t, l)
    ensures more == ls + [l] && Possible(s, more) && u == Run(s, more) && u == Apply(t, l)
    decreases |ls|
  {
    more, u := ls + [l], Apply(t, l);
    if ls == [] {
      assert more[1..] == [];
    } else {
      var _, _ := Extend(Apply(s, ls[0]), ls[1..], t, l);
      assert more[1..] == ls[1..] + [l];
    }
  }

  lemma RaceFiles() returns (ls: seq<Label>, s: Loop)
    ensures ls == [Submit(A), Submit(B), Submit(C)] && Possible(Start, ls) && s == Run(Start, ls)
    ensures s == Start.(files := [A, B, C], log := s.log)
  {
    ls, s := Extend(Start, [], Start, Submit(A));
    ls, s := Extend(Start, ls, s, Submit(B));
    ls, s := Extend(Start, ls, s, Submit(C));
  }

  lemma RaceStart() returns (ls: seq<Label>, s: Loop)
    ensures ls == Race[..7] && Possible(Start, ls) && s == Run(Start, ls)
    ensures s.pc == Top && s.manage == [Finished(false)] && s.files == [B, C] && s.inTransfer
    ensures s.current == A.path && s.stopSet == {} && s.outstanding == 0
    ensures !s.stopLoop && !s.resending && !s.shutdown && !s.destShutdown
  {
    ls, s := RaceFiles();
    hide Run, Possible;
    ls, s := Extend(Start, ls, s, ManageTimeout(true));
    ls, s := Extend(Start, ls, s, FileNext(true));
    ls, s := Extend(Start, ls, s, SetFlag);
    ls, s := Extend(Start, ls, s, OnFile(Ok));
    assert ls == [Submit(A), Submit(B), Submit(C), ManageTimeout(true), FileNext(true), SetFlag, OnFile(Ok)];
  }

  lemma RaceStop() returns (ls: seq<Label>, s: Loop)
    ensures ls == Race[..10] && Possible(Start, ls) && s == Run(Start, ls)
    ensures s.pc == AtFile && s.manage == [Finished(false)] && s.files == [B, C] && !s.inTransfer
    ensures s.stopSet == {} && s.outstanding == 0
    ensures !s.stopLoop && !s.resending && !s.shutdown && !s.destShutdown
  {
    ls, s := RaceStart();
    ls, s := Extend(Start, ls, s, Post(StopFile("/d/a")));
    assert s.manage[1..] == [Finished(false)];
    ls, s := Extend(Start, ls, s, ManageNext(Calm));
    assert s.manage == [Finished(false), Finished(false)];
    ls, s := Extend(Start, ls, s, ManageNext(Calm));
  }

  /** Without the assumption on stops two files can be at CDH at once: the stop of a file that has just
      completed queues a second CDHFINISHED, which ends the next transfer too early. */
  lemma StopRaceSendsTwo()
    ensures Possible(Start, Race) && Run(Start, Race).outstanding == 2
  {
    var ls, s := RaceStop();
    ls, s := Extend(Start, ls, s, FileNext(true));
    ls, s := Extend(Start, ls, s, SetFlag);
    ls, s := Extend(Start, ls, s, ManageNext(Calm));
    ls, s := Extend(Start, ls, s, FileNext(true));
    assert ls == Race;
  }
}
