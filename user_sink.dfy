/**
 * The shared `Sinks.many().multicast().onBackpressureBuffer()` of SinksConfig, as a sequential
 * model of what UserServiceTest relies on: events emitted while nobody is subscribed are kept
 * and handed to the first subscriber; once subscribers are attached each event is appended to
 * every subscriber's own queue; a later subscriber sees only later events. Emitting never waits
 * for a subscriber to take anything.
 */
module UserSinks {
  import opened Wrappers
  import Models

  /** The sink's contents: events kept for a first subscriber, and one pending queue per subscriber. */
  datatype SinkState = SinkState(buffered: seq<Models.User>, queues: seq<seq<Models.User>>)

  /** Nothing is kept aside once someone is subscribed. */
  predicate Valid(s: SinkState) {
    s.queues != [] ==> s.buffered == []
  }

  /** Appends `u` to every queue, in subscription order. */
  function Deliver(queues: seq<seq<Models.User>>, u: Models.User): (r: seq<seq<Models.User>>)
    ensures |r| == |queues|
    ensures forall i :: 0 <= i < |r| ==> r[i] == queues[i] + [u]
  {
    if queues == [] then [] else [queues[0] + [u]] + Deliver(queues[1..], u)
  }

  /** tryEmitNext. */
  function Emit(s: SinkState, u: Models.User): SinkState {
    if s.queues == [] then SinkState(s.buffered + [u], []) else SinkState(s.buffered, Deliver(s.queues, u))
  }

  /** A run of tryEmitNext calls. */
  function EmitAll(s: SinkState, events: seq<Models.User>): SinkState
    decreases |events|
  {
    if events == [] then s else EmitAll(Emit(s, events[0]), events[1..])
  }

  /** asFlux().subscribe(...): the new subscriber's queue starts with whatever was kept. */
  function Attach(s: SinkState): SinkState {
    SinkState([], s.queues + [s.buffered])
  }

  /** The subscriber takes the oldest event of its queue, if any. */
  function Take(s: SinkState, subscriber: nat): (Option<Models.User>, SinkState)
    requires subscriber < |s.queues|
  {
    var q := s.queues[subscriber];
    if q == [] then (None, s) else (Some(q[0]), SinkState(s.buffered, s.queues[subscriber := q[1..]]))
  }

  lemma EmitPreservesValid(s: SinkState, u: Models.User)
    requires Valid(s)
    ensures Valid(Emit(s, u)) && Valid(Attach(s))
    ensures |Emit(s, u).queues| == |s.queues|
  {
  }

  /** Every attached subscriber receives the same events, in the order they were emitted. */
  lemma {:induction false} SameOrderForAll(s: SinkState, events: seq<Models.User>)
    requires Valid(s) && s.queues != []
    ensures EmitAll(s, events).buffered == []
    ensures |EmitAll(s, events).queues| == |s.queues|
    ensures forall i :: 0 <= i < |s.queues| ==> EmitAll(s, events).queues[i] == s.queues[i] + events
    decreases |events|
  {
    if events != [] {
      var s' := Emit(s, events[0]);
      SameOrderForAll(s', events[1..]);
      forall i | 0 <= i < |s.queues|
        ensures EmitAll(s, events).queues[i] == s.queues[i] + events
      {
        assert s'.queues[i] == s.queues[i] + [events[0]];
        assert [events[0]] + events[1..] == events;
        assert s.queues[i] + [events[0]] + events[1..] == s.queues[i] + events;
      }
    } else {
      assert s.queues == EmitAll(s, events).queues;
      forall i | 0 <= i < |s.queues| ensures s.queues[i] + events == s.queues[i] { }
    }
  }

  /** Events emitted before anyone subscribes are kept, in order, and all go to the first subscriber. */
  lemma {:induction false} KeptForFirstSubscriber(s: SinkState, events: seq<Models.User>)
    requires s.queues == []
    ensures EmitAll(s, events) == SinkState(s.buffered + events, [])
    ensures Attach(EmitAll(s, events)).queues == [s.buffered + events]
    decreases |events|
  {
    if events != [] {
      assert Emit(s, events[0]) == SinkState(s.buffered + [events[0]], []);
      KeptForFirstSubscriber(Emit(s, events[0]), events[1..]);
      assert s.buffered + [events[0]] + events[1..] == s.buffered + events;
    } else {
      assert s.buffered + events == s.buffered;
    }
  }

  /** No replay: a subscriber that attaches while others are subscribed starts with an empty queue,
      and the queues already there are left alone. */
  lemma LateSubscriberSeesNoHistory(s: SinkState)
    requires Valid(s) && s.queues != []
    ensures Attach(s).queues == s.queues + [[]]
  {
  }

  /** The object SinksConfig creates once and UserService shares. */
  class UserSink {
    var buffered: seq<Models.User>
    var queues: seq<seq<Models.User>>

    function State(): SinkState
      reads this
    {
      SinkState(buffered, queues)
    }

    constructor ()
      ensures State() == SinkState([], []) && Valid(State())
    {
      buffered := [];
      queues := [];
    }

    method TryEmitNext(u: Models.User)
      requires Valid(State())
      modifies this
      ensures State() == Emit(old(State()), u) && Valid(State())
    {
      if queues == [] {
        buffered := buffered + [u];
      } else {
        queues := Deliver(queues, u);
      }
    }

    method Subscribe() returns (subscriber: nat)
      requires Valid(State())
      modifies this
      ensures subscriber == |old(queues)|
      ensures State() == Attach(old(State())) && Valid(State())
    {
      subscriber := |queues|;
      queues := queues + [buffered];
      buffered := [];
    }

    method Poll(subscriber: nat) returns (next: Option<Models.User>)
      requires Valid(State()) && subscriber < |queues|
      modifies this
      ensures (next, State()) == Take(old(State()), subscriber) && Valid(State())
    {
      var q := queues[subscriber];
      if q == [] {
        next := None;
      } else {
        next := Some(q[0]);
        queues := queues[subscriber := q[1..]];
      }
    }
  }
}
