/** The Sender application of examples/stats/wifi-example-apps.cc, driven by the
start, stop and send events of a simulation. */
module Sender {

  /** An event id as handed out by Simulator::Schedule. */
  type EventId = nat

  /** The fields of the application, the simulator's live events, and two
      counters of what left the node: in all and since the last start. */
  datatype State = State(
    numPkts: nat,
    count: nat,
    sendEvent: EventId,
    live: set<EventId>,
    nextId: EventId,
    sent: nat,
    sentSinceStart: nat,
    started: bool)

  datatype Event = Start | Stop | Fire(id: EventId)

  /** The simulator runs only live events. */
  predicate Possible(s: State, e: Event) { e.Fire? ==> e.id in s.live }

  function Schedule(s: State): State {
    s.(sendEvent := s.nextId, live := s.live + {s.nextId}, nextId := s.nextId + 1)
  }

  function Cancel(s: State): State { s.(live := s.live - {s.sendEvent}) }

  function StartApplication(s: State): State {
    Schedule(Cancel(s.(count := 0, sentSinceStart := 0, started := true)))
  }

  function StopApplication(s: State): State { Cancel(s) }

  function SendPacket(s: State): State {
    var t := s.(sent := s.sent + 1, sentSinceStart := s.sentSinceStart + 1, count := s.count + 1);
    if t.count < t.numPkts then Schedule(t) else t
  }

  function Step(s: State, e: Event): State {
    match e
    case Start => StartApplication(s)
    case Stop => StopApplication(s)
    case Fire(id) => SendPacket(s.(live := s.live - {id}))
  }

  /** A fresh application: a null event id, nothing scheduled. */
  function Init(numPkts: nat): State { State(numPkts, 0, 0, {}, 1, 0, 0, false) }

  ghost predicate Legal(s: State, events: seq<Event>)
    decreases |events|
  {
    events == [] || (Possible(s, events[0]) && Legal(Step(s, events[0]), events[1..]))
  }

  ghost function Run(s: State, events: seq<Event>): State
    requires Legal(s, events)
    decreases |events|
  {
    if events == [] then s else Run(Step(s, events[0]), events[1..])
  }

  /** At most the remembered event is live, and only while packets are due. */
  ghost predicate Inv(s: State) {
    && s.numPkts > 0
    && s.live <= {s.sendEvent}
    && s.sendEvent < s.nextId
    && s.sentSinceStart == s.count <= s.numPkts
    && (s.live != {} ==> s.started && s.count < s.numPkts)
  }

  lemma StepKeeps(s: State, e: Event)
    requires Inv(s) && Possible(s, e)
    ensures Inv(Step(s, e)) && Step(s, e).numPkts == s.numPkts
  {}

  /** In every run: at most one live send, and the packets since the last start
      are counted by m_count, which never exceeds m_numPkts. */
  lemma {:induction false} EveryRun(s: State, events: seq<Event>)
    requires Inv(s) && Legal(s, events)
    ensures Inv(Run(s, events)) && Run(s, events).numPkts == s.numPkts
    ensures |Run(s, events).live| <= 1
    decreases |events|
  {
    if events == [] {
      SmallSet(s.live, s.sendEvent);
    } else {
      StepKeeps(s, events[0]);
      EveryRun(Step(s, events[0]), events[1..]);
    }
  }

  lemma SmallSet(a: set<EventId>, x: EventId)
    requires a <= {x}
    ensures |a| <= 1
  {
    if x in a { assert a == {x}; } else { assert a == {}; }
  }

  /** The same from a fresh application on. */
  lemma EveryRunOfFresh(numPkts: nat, events: seq<Event>)
    requires numPkts > 0 && Legal(Init(numPkts), events)
    ensures var t := Run(Init(numPkts), events);
      |t.live| <= 1 && t.sentSinceStart == t.count <= t.numPkts == numPkts
  {
    EveryRun(Init(numPkts), events);
  }

  ghost predicate OnlyFires(events: seq<Event>) { forall i :: 0 <= i < |events| ==> events[i].Fire? }

  /** While only sends happen, m_count rises with each, and a next send is
      pending exactly while packets are due. */
  lemma {:induction false} Uninterrupted(s: State, events: seq<Event>)
    requires Inv(s) && Legal(s, events) && OnlyFires(events)
    requires s.live != {} <==> s.count < s.numPkts
    ensures var t := Run(s, events);
      && t.sent == s.sent + |events| && t.count == s.count + |events| && t.numPkts == s.numPkts
      && (t.live != {} <==> t.count < t.numPkts)
    decreases |events|
  {
    if events != [] {
      assert events[0].Fire?;
      StepKeeps(s, events[0]);
      FireEffect(s, events[0].id);
      Uninterrupted(Step(s, events[0]), events[1..]);
    }
  }

  lemma FireEffect(s: State, id: EventId)
    requires Inv(s) && id in s.live
    ensures var t := Step(s, Fire(id));
      t.sent == s.sent + 1 && t.count == s.count + 1 && (t.live != {} <==> t.count < t.numPkts)
  {
    assert s.live - {id} == {};
    var u := s.(live := {});
    assert SendPacket(u).count < s.numPkts ==> u.nextId in SendPacket(u).live;
  }

  /** After a start, from any reachable state, a run of sends that nothing stops
      sends at most m_numPkts packets; it comes to rest exactly when it has sent
      m_numPkts. */
  lemma SendsExactlyNumPkts(s: State, events: seq<Event>)
    requires Inv(s) && Legal(StartApplication(s), events) && OnlyFires(events)
    ensures var t := Run(StartApplication(s), events);
      && |events| <= s.numPkts && t.sentSinceStart == |events| && t.sent == s.sent + |events|
      && (t.live == {} <==> |events| == s.numPkts)
  {
    var s0 := StartApplication(s);
    assert Step(s, Start) == s0;
    StepKeeps(s, Start);
    assert s.nextId in s0.live;
    Uninterrupted(s0, events);
    EveryRun(s0, events);
  }

  /** Once stopped, nothing is sent until the next start. */
  lemma StoppedIsSilent(s: State, events: seq<Event>)
    requires Inv(s) && Legal(StopApplication(s), events) && OnlyFires(events)
    ensures events == []
  {
    assert StopApplication(s).live == {};
  }

  // ---------- The application object ----------

  class Application {
    var numPkts: nat
    var count: nat
    var sendEvent: EventId
    var live: set<EventId>
    var nextId: EventId
    var sent: nat
    ghost var sentSinceStart: nat
    ghost var started: bool

    ghost function View(): State
      reads this
    {
      State(numPkts, count, sendEvent, live, nextId, sent, sentSinceStart, started)
    }

    constructor (numPkts: nat)
      requires numPkts > 0
      ensures View() == Init(numPkts) && Inv(View())
    {
      this.numPkts := numPkts;
      count, sendEvent, live, nextId, sent := 0, 0, {}, 1, 0;
      sentSinceStart, started := 0, false;
    }

    method ScheduleSend()
      modifies this
      ensures View() == Schedule(old(View()))
    {
      sendEvent := nextId;
      live := live + {nextId};
      nextId := nextId + 1;
    }

    method OnStart()
      requires Inv(View())
      modifies this
      ensures Inv(View()) && View() == Step(old(View()), Start)
    {
      StepKeeps(View(), Start);
      count := 0;
      sentSinceStart, started := 0, true;
      live := live - {sendEvent};
      ScheduleSend();
    }

    method OnStop()
      requires Inv(View())
      modifies this
      ensures Inv(View()) && View() == Step(old(View()), Stop)
    {
      StepKeeps(View(), Stop);
      live := live - {sendEvent};
    }

    method OnFire(id: EventId)
      requires Inv(View()) && id in live
      modifies this
      ensures Inv(View()) && View() == Step(old(View()), Fire(id))
    {
      StepKeeps(View(), Fire(id));
      live := live - {id};
      sent := sent + 1;
      sentSinceStart := sentSinceStart + 1;
      count := count + 1;
      if count < numPkts {
        ScheduleSend();
      }
    }
  }
}
