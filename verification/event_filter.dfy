/** The filter on the notifications of an application that a destination set is down or up again. */
module EventFilter {
  import opened Text
  import QueueEntries
  import QueueInvariants

  datatype Event = Down | Cease | Other(code: int)

  type Notified = map<string, Event>

  /** Something that happens to a queue: an event, or an application opening it; defined: there is some queue
      in the database. */
  datatype Act = Event(tq: string, e: Event) | Open(tq: string, defined: bool)

  /** filterDestSetEvent: whether the event is held back. */
  predicate Held(m: Notified, tq: string, e: Event) {
    !e.Other? && (if tq in m then m[tq] == e else e == Cease)
  }

  function Noted(m: Notified, tq: string, e: Event): Notified {
    if e.Other? then m else m[tq := e]
  }

  function Step(m: Notified, act: Act): Notified {
    match act
    case Event(tq, e) => Noted(m, tq, e)
    case Open(tq, defined) => if defined then m - {tq} else m
  }

  /** The events that get through, of all queues. */
  function Passed(m: Notified, acts: seq<Act>): seq<(string, Event)>
    decreases |acts|
  {
    if acts == [] then []
    else
      var rest := Passed(Step(m, acts[0]), acts[1..]);
      if acts[0].Event? && !Held(m, acts[0].tq, acts[0].e) then [(acts[0].tq, acts[0].e)] + rest else rest
  }

  /** Down and cease events of one queue. */
  function OfQueue(events: seq<(string, Event)>, tq: string): seq<Event> {
    if events == [] then []
    else (if events[0].0 == tq && !events[0].1.Other? then [events[0].1] else []) + OfQueue(events[1..], tq)
  }

  function Inputs(acts: seq<Act>): seq<(string, Event)> {
    if acts == [] then []
    else (if acts[0].Event? then [(acts[0].tq, acts[0].e)] else []) + Inputs(acts[1..])
  }

  /** The elements that differ from the one before, prev before the first. */
  function Changes(prev: Event, events: seq<Event>): seq<Event>
    decreases |events|
  {
    if events == [] then []
    else (if events[0] != prev then [events[0]] else []) + Changes(events[0], events[1..])
  }

  predicate Opened(acts: seq<Act>, tq: string) {
    exists a :: a in acts && a.Open? && a.tq == tq && a.defined
  }

  function Status(m: Notified, tq: string): Event {
    if tq in m then m[tq] else Cease
  }

  predicate DestSetOnly(m: Notified) {
    forall tq :: tq in m ==> !m[tq].Other?
  }

  /** Whatever happens to other queues in between, until the queue is opened again its application gets the
      changes of the queue's own events. */
  lemma {:induction false} PassedAreChanges(m: Notified, acts: seq<Act>, tq: string)
    requires DestSetOnly(m) && !Opened(acts, tq)
    ensures OfQueue(Passed(m, acts), tq) == Changes(Status(m, tq), OfQueue(Inputs(acts), tq))
    decreases |acts|
  {
    if acts != [] {
      var a, rest := acts[0], acts[1..];
      assert forall b :: b in rest ==> b in acts;
      assert a in acts;
      PassedAreChanges(Step(m, a), rest, tq);
      var more, given := Passed(Step(m, a), rest), Inputs(rest);
      hide OfQueue, Changes, Held, Status, Noted;
      if a.Event? {
        OneEvent(m, tq, a.tq, a.e, more, given);
        assert Inputs(acts) == [(a.tq, a.e)] + given;
      } else {
        assert Inputs(acts) == given && Passed(m, acts) == more;
        OneOpening(m, tq, a);
      }
    }
  }

  lemma OneOpening(m: Notified, tq: string, a: Act)
    requires a.Open? && !(a.tq == tq && a.defined)
    ensures Status(Step(m, a), tq) == Status(m, tq)
  {
  }

  /** One event in front of others. */
  lemma OneEvent(m: Notified, tq: string, other: string, e: Event, more: seq<(string, Event)>, given: seq<(string, Event)>)
    requires DestSetOnly(m)
    requires OfQueue(more, tq) == Changes(Status(Noted(m, other, e), tq), OfQueue(given, tq))
    ensures OfQueue(if Held(m, other, e) then more else [(other, e)] + more, tq) ==
            Changes(Status(m, tq), OfQueue([(other, e)] + given, tq))
  {
    OfQueueCons((other, e), more, tq);
    OfQueueCons((other, e), given, tq);
    hide OfQueue;
    if other == tq && !e.Other? {
      ChangesCons(Status(m, tq), e, OfQueue(given, tq));
      hide Changes;
      assert Status(Noted(m, other, e), tq) == e;
      assert Held(m, tq, e) <==> Status(m, tq) == e;
    } else {
      hide Changes;
      assert Status(Noted(m, other, e), tq) == Status(m, tq);
      assert [] + OfQueue(more, tq) == OfQueue(more, tq) && [] + OfQueue(given, tq) == OfQueue(given, tq);
    }
  }

  lemma ChangesCons(prev: Event, e: Event, events: seq<Event>)
    ensures Changes(prev, [e] + events) == (if e != prev then [e] else []) + Changes(e, events)
  {
    assert ([e] + events)[1..] == events;
  }

  lemma OfQueueCons(e: (string, Event), events: seq<(string, Event)>, tq: string)
    ensures OfQueue([e] + events, tq) == (if e.0 == tq && !e.1.Other? then [e.1] else []) + OfQueue(events, tq)
  {
    assert ([e] + events)[1..] == events;
  }

  predicate Alternating(events: seq<Event>, first: Event) {
    forall i :: 0 <= i < |events| ==>
      events[i] == if i % 2 == 0 then first else if first == Down then Cease else Down
  }

  lemma {:induction false} ChangesAlternate(prev: Event, events: seq<Event>)
    requires !prev.Other? && forall e :: e in events ==> !e.Other?
    ensures Alternating(Changes(prev, events), if prev == Down then Cease else Down)
    decreases |events|
  {
    if events != [] {
      assert events[0] in events;
      assert forall e :: e in events[1..] ==> e in events;
      ChangesAlternate(events[0], events[1..]);
      if events[0] != prev { AlternateCons(Changes(events[0], events[1..]), events[0]); }
    }
  }

  lemma AlternateCons(events: seq<Event>, first: Event)
    requires !first.Other? && Alternating(events, if first == Down then Cease else Down)
    ensures Alternating([first] + events, first)
  {
    var s := [first] + events;
    forall i | 0 <= i < |s| ensures s[i] == if i % 2 == 0 then first else if first == Down then Cease else Down {
      if i > 0 { assert s[i] == events[i - 1] && (i - 1) % 2 == (if i % 2 == 0 then 1 else 0); }
    }
  }

  lemma {:induction false} OfQueueKinds(events: seq<(string, Event)>, tq: string)
    ensures forall e :: e in OfQueue(events, tq) ==> !e.Other?
    decreases |events|
  {
    if events != [] { OfQueueKinds(events[1..], tq); }
  }

  /** After an application has opened a queue, what it is told until the next opening is down, cease, down, ...:
      the queue's events without the ceases at the start and without repeats. */
  lemma NotificationsAlternate(m: Notified, tq: string, acts: seq<Act>)
    requires DestSetOnly(m) && !Opened(acts, tq)
    ensures var told := OfQueue(Passed(Step(m, Open(tq, true)), acts), tq);
            && told == Changes(Cease, OfQueue(Inputs(acts), tq))
            && forall i :: 0 <= i < |told| ==> told[i] == if i % 2 == 0 then Down else Cease
  {
    PassedAreChanges(Step(m, Open(tq, true)), acts, tq);
    OfQueueKinds(Inputs(acts), tq);
    ChangesAlternate(Cease, OfQueue(Inputs(acts), tq));
  }

  /** Other events of the application, in order. */
  function Others(events: seq<(string, Event)>): seq<(string, Event)> {
    if events == [] then [] else (if events[0].1.Other? then [events[0]] else []) + Others(events[1..])
  }

  lemma {:induction false} OtherEventsPass(m: Notified, acts: seq<Act>)
    ensures Others(Passed(m, acts)) == Others(Inputs(acts))
    decreases |acts|
  {
    if acts != [] {
      OtherEventsPass(Step(m, acts[0]), acts[1..]);
      if acts[0].Event? {
        assert ([(acts[0].tq, acts[0].e)] + Passed(Step(m, acts[0]), acts[1..]))[1..] == Passed(Step(m, acts[0]), acts[1..]);
        assert ([(acts[0].tq, acts[0].e)] + Inputs(acts[1..]))[1..] == Inputs(acts[1..]);
      } else {
        assert Inputs(acts) == Inputs(acts[1..]);
      }
    }
  }

  /** sendApplEvent asks the map for the name of the queue, whose keys end in a destination set: in a database
      of plain names it finds nothing, and no event reaches the filter. */
  lemma NeverFound(es: QueueEntries.Entries, name: string)
    requires QueueInvariants.AllFiled(es) && QueueEntries.FindKey(es, name) >= 0
    ensures es[QueueEntries.FindKey(es, name)].name != name
  {
    var e := es[QueueEntries.FindKey(es, name)];
    assert e in es && QueueInvariants.Filed(e);
    QueueInvariants.PlainName(e.name);
    assert |QueueEntries.Key(e.name, e.dest)| > |e.name|;
  }

  class Filter {
    var transferQueueEvMap: Notified

    constructor ()
      ensures transferQueueEvMap == map[]
    {
      transferQueueEvMap := map[];
    }

    method FilterDestSetEvent(tq: string, evc: Event) returns (dontSendEvent: bool)
      modifies this
      ensures dontSendEvent <==> Held(old(transferQueueEvMap), tq, evc)
      ensures transferQueueEvMap == Step(old(transferQueueEvMap), Event(tq, evc))
    {
      dontSendEvent := false;
      if evc != Down && evc != Cease { return; }
      if tq !in transferQueueEvMap {
        transferQueueEvMap := transferQueueEvMap[tq := evc];
        if evc == Cease { dontSendEvent := true; }
      } else if transferQueueEvMap[tq] == evc {
        dontSendEvent := true;
      } else {
        transferQueueEvMap := transferQueueEvMap[tq := evc];
      }
    }

    method OpenTransferQueue(tq: string, defined: bool)
      modifies this
      ensures transferQueueEvMap == Step(old(transferQueueEvMap), Open(tq, defined))
    {
      if !defined { return; }
      transferQueueEvMap := transferQueueEvMap - {tq};
    }

    /** A history of calls, and what was sent. */
    method Serve(acts: seq<Act>) returns (sent: seq<(string, Event)>)
      modifies this
      ensures sent == Passed(old(transferQueueEvMap), acts)
    {
      sent := [];
      for i := 0 to |acts|
        invariant Passed(old(transferQueueEvMap), acts) == sent + Passed(transferQueueEvMap, acts[i..])
      {
        assert acts[i..][0] == acts[i] && acts[i..][1..] == acts[i + 1..];
        match acts[i] {
          case Event(tq, e) =>
            var dont := FilterDestSetEvent(tq, e);
            if !dont { sent := sent + [(tq, e)]; }
          case Open(tq, defined) => OpenTransferQueue(tq, defined);
        }
      }
    }
  }
}
