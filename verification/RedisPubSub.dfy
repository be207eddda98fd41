/**
 The pub/sub wrapper: every subscriber of a channel receives every published message, and
 SET NX with a 60 second lifetime on the message id decides which of them calls its callback.
 Deliveries are processed one at a time by Redis, in any order and at any distance, and the
 pipeline that sets the key may throw, before or after Redis applied it.
 */
module RedisPubSub {
  import opened Options
  import opened Runs

  type MessageId = string
  type Subscriber = nat
  type Time = nat  // milliseconds of the Redis clock

  const LOCK_LIFETIME: Time := 60 * 1000

  /** How the pipeline ends. */
  datatype Reply = Answered | ThrewUnapplied | ThrewApplied

  datatype Call = Call(subscriber: Subscriber, id: MessageId)

  datatype State = State(now: Time, keys: map<MessageId, Time>, calls: seq<Call>)

  datatype Event =
    | Elapse(ms: nat)
    | Process(subscriber: Subscriber, id: MessageId, reply: Reply)

  const Start := State(0, map[], [])

  /** The key set at time t is still there at time now. */
  predicate Alive(t: Time, now: Time) {
    now <= t + LOCK_LIFETIME
  }

  predicate Locked(s: State, id: MessageId) {
    id in s.keys && Alive(s.keys[id], s.now)
  }

  function Step(s: State, e: Event): State {
    match e
    case Elapse(ms) => s.(now := s.now + ms)
    case Process(subscriber, id, reply) =>
      if reply.ThrewUnapplied? || Locked(s, id) then s
      else s.(keys := s.keys[id := s.now], calls := s.calls + if reply.Answered? then [Call(subscriber, id)] else [])
  }

  function CallsOf(calls: seq<Call>, id: MessageId): nat {
    if calls == [] then 0
    else (if calls[0].id == id then 1 else 0) + CallsOf(calls[1..], id)
  }

  /** A processing that reached Redis: when, and whether its reply came back. */
  datatype Try = Try(at: Time, answered: bool)

  /** The processings of one message in a run that starts at the given time. */
  function Tries(now: Time, events: seq<Event>, id: MessageId): seq<Try>
    decreases |events|
  {
    if events == [] then []
    else match events[0]
      case Elapse(ms) => Tries(now + ms, events[1..], id)
      case Process(_, other, reply) =>
        (if other == id && !reply.ThrewUnapplied? then [Try(now, reply.Answered?)] else []) + Tries(now, events[1..], id)
  }

  /** Those of them that find the key gone, given when it was last set. */
  function Admitted(lastSet: seq<Time>, tries: seq<Try>): seq<Try>
    requires |lastSet| <= 1
    decreases |tries|
  {
    if tries == [] then []
    else if lastSet != [] && Alive(lastSet[0], tries[0].at) then Admitted(lastSet, tries[1..])
    else [tries[0]] + Admitted([tries[0].at], tries[1..])
  }

  function AnsweredOf(tries: seq<Try>): nat {
    if tries == [] then 0 else (if tries[0].answered then 1 else 0) + AnsweredOf(tries[1..])
  }

  function LastSet(s: State, id: MessageId): seq<Time> {
    if id in s.keys then [s.keys[id]] else []
  }

  lemma {:induction false} CallsAppend(calls: seq<Call>, call: Call, id: MessageId)
    ensures CallsOf(calls + [call], id) == CallsOf(calls, id) + if call.id == id then 1 else 0
  {
    if calls == [] {
      assert [] + [call] == [call];
    } else {
      assert (calls + [call])[1..] == calls[1..] + [call];
      CallsAppend(calls[1..], call, id);
    }
  }

  lemma StepCalls(s: State, e: Event, id: MessageId)
    ensures var admits := e.Process? && e.id == id && !e.reply.ThrewUnapplied? && !Locked(s, id);
            && CallsOf(Step(s, e).calls, id) == CallsOf(s.calls, id) + (if admits && e.reply.Answered? then 1 else 0)
            && LastSet(Step(s, e), id) == if admits then [s.now] else LastSet(s, id)
  {
    if e.Process? {
      CallsAppend(s.calls, Call(e.subscriber, e.id), id);
      assert s.calls + [] == s.calls;
    }
  }

  /**
   Messages do not influence each other: there is one call for each processing of the message that
   found its key gone and was answered.
   */
  lemma {:induction false} CallsDependOnOwnTries(s: State, events: seq<Event>, id: MessageId)
    ensures CallsOf(Run(Step, s, events).calls, id)
         == CallsOf(s.calls, id) + AnsweredOf(Admitted(LastSet(s, id), Tries(s.now, events, id)))
    decreases |events|
  {
    if events == [] {
    } else {
      var e := events[0];
      CallsDependOnOwnTries(Step(s, e), events[1..], id);
      StepCalls(s, e, id);
      if e.Process? {
        var rest := Tries(s.now, events[1..], id);
        if e.id == id && !e.reply.ThrewUnapplied? {
          assert ([Try(s.now, e.reply.Answered?)] + rest)[1..] == rest;
          var admitted := Admitted([s.now], rest);
          assert ([Try(s.now, e.reply.Answered?)] + admitted)[1..] == admitted;
        } else {
          assert [] + rest == rest;
        }
      }
    }
  }

  ghost predicate NonDecreasing(tries: seq<Try>) {
    forall i, j :: 0 <= i < j < |tries| ==> tries[i].at <= tries[j].at
  }

  lemma {:induction false} TriesNonDecreasing(now: Time, events: seq<Event>, id: MessageId)
    ensures NonDecreasing(Tries(now, events, id))
    ensures forall i :: 0 <= i < |Tries(now, events, id)| ==> now <= Tries(now, events, id)[i].at
    decreases |events|
  {
    if events == [] {
    } else {
      match events[0]
      case Elapse(ms) => TriesNonDecreasing(now + ms, events[1..], id);
      case Process(_, _, _) => TriesNonDecreasing(now, events[1..], id);
    }
  }

  /** Once set, the key refuses all later tries exactly while the last of them is within its lifetime. */
  lemma {:induction false} AdmittedNone(t: Time, tries: seq<Try>)
    requires NonDecreasing(tries)
    ensures Admitted([t], tries) == [] <==> (tries == [] || Alive(t, tries[|tries| - 1].at))
  {
    if tries == [] {
    } else {
      AdmittedNone(t, tries[1..]);
    }
  }

  ghost predicate WithinOneLifetime(tries: seq<Try>) {
    tries != [] ==> tries[|tries| - 1].at - tries[0].at <= LOCK_LIFETIME
  }

  /** Exactly the first try finds the key gone if and only if all are within a lifetime of it. */
  lemma OnlyTheFirstIff(tries: seq<Try>)
    requires NonDecreasing(tries)
    ensures (tries != [] && Admitted([], tries) == [tries[0]]) <==> tries != [] && WithinOneLifetime(tries)
  {
    if tries != [] {
      AdmittedNone(tries[0].at, tries[1..]);
      var rest := Admitted([tries[0].at], tries[1..]);
      assert Admitted([], tries) == [tries[0]] + rest;
      assert rest != [] ==> |[tries[0]] + rest| > 1;
      if |tries| > 1 {
        assert tries[1..][|tries| - 2] == tries[|tries| - 1];
      }
    }
  }

  /**
   While all deliveries of a message are processed within the key's lifetime of the first, there is
   never a second call, and there is one if and only if the reply to the first came back.
   */
  lemma OneLifetime(events: seq<Event>, id: MessageId)
    requires WithinOneLifetime(Tries(0, events, id))
    ensures var tries := Tries(0, events, id);
            CallsOf(Run(Step, Start, events).calls, id) == if tries != [] && tries[0].answered then 1 else 0
  {
    CallsDependOnOwnTries(Start, events, id);
    TriesNonDecreasing(0, events, id);
    OnlyTheFirstIff(Tries(0, events, id));
  }

  /** The replies that were applied came back. */
  ghost predicate NoReplyLost(events: seq<Event>, id: MessageId) {
    forall subscriber :: Process(subscriber, id, ThrewApplied) !in events
  }

  lemma {:induction false} AllAnswered(now: Time, events: seq<Event>, id: MessageId)
    requires NoReplyLost(events, id)
    ensures forall t :: t in Tries(now, events, id) ==> t.answered
    decreases |events|
  {
    if events == [] {
    } else {
      assert events == [events[0]] + events[1..];
      match events[0]
      case Elapse(ms) => AllAnswered(now + ms, events[1..], id);
      case Process(s, other, reply) => AllAnswered(now, events[1..], id);
    }
  }

  lemma {:induction false} AnsweredAreAdmitted(lastSet: seq<Time>, tries: seq<Try>)
    requires |lastSet| <= 1 && forall t :: t in tries ==> t.answered
    ensures AnsweredOf(Admitted(lastSet, tries)) == |Admitted(lastSet, tries)|
    decreases |tries|
  {
    if tries != [] {
      assert tries[0] in tries;
      AnsweredAreAdmitted(lastSet, tries[1..]);
      AnsweredAreAdmitted([tries[0].at], tries[1..]);
    }
  }

  /**
   When no reply is lost, exactly one callback is called for a message if and only if it was processed
   at least once and all its deliveries were processed within the key's lifetime of the first of them,
   whatever the number of subscribers, their order, and the other messages.
   */
  lemma ExactlyOneCall(events: seq<Event>, id: MessageId)
    requires NoReplyLost(events, id)
    ensures var tries := Tries(0, events, id);
            CallsOf(Run(Step, Start, events).calls, id) == 1 <==> tries != [] && WithinOneLifetime(tries)
  {
    var tries := Tries(0, events, id);
    CallsDependOnOwnTries(Start, events, id);
    TriesNonDecreasing(0, events, id);
    AllAnswered(0, events, id);
    AnsweredAreAdmitted([], tries);
    OnlyTheFirstIff(tries);
    var admitted := Admitted([], tries);
    assert tries != [] ==> admitted[0] == tries[0];
    assert |admitted| == 1 ==> admitted == [admitted[0]];
  }

  lemma {:induction false} ProcessedIffTries(now: Time, events: seq<Event>, id: MessageId)
    ensures Tries(now, events, id) != []
            <==> exists subscriber, reply :: Process(subscriber, id, reply) in events && reply != ThrewUnapplied
    decreases |events|
  {
    if events == [] {
    } else {
      assert events == [events[0]] + events[1..];
      match events[0]
      case Elapse(ms) => ProcessedIffTries(now + ms, events[1..], id);
      case Process(s, other, reply) =>
        ProcessedIffTries(now, events[1..], id);
        if other == id && reply != ThrewUnapplied {
          assert Process(s, id, reply) in events;
        }
    }
  }

  /** Unless a reply is lost, a message is called for if and only if one of its deliveries was processed. */
  lemma CalledIffProcessed(events: seq<Event>, id: MessageId)
    requires NoReplyLost(events, id)
    ensures CallsOf(Run(Step, Start, events).calls, id) >= 1
            <==> exists subscriber :: Process(subscriber, id, Answered) in events
  {
    CallsDependOnOwnTries(Start, events, id);
    ProcessedIffTries(0, events, id);
    AllAnswered(0, events, id);
    AnsweredAreAdmitted([], Tries(0, events, id));
    if Tries(0, events, id) != [] {
      var s, reply :| Process(s, id, reply) in events && reply != ThrewUnapplied;
      assert reply == Answered;
    } else {
      assert forall s :: Process(s, id, Answered) !in events;
    }
  }

  /** Every call is of a subscriber whose processing of the message was answered, and its key was then set. */
  ghost predicate CallsComeFrom(calls: seq<Call>, events: seq<Event>) {
    forall call :: call in calls ==> Process(call.subscriber, call.id, Answered) in events
  }

  lemma {:induction false} CallersProcessedTheMessage(events: seq<Event>)
    ensures CallsComeFrom(Run(Step, Start, events).calls, events)
    decreases |events|
  {
    if events == [] {
    } else {
      var n := |events| - 1;
      assert events == events[..n] + [events[n]];
      CallersProcessedTheMessage(events[..n]);
      RunAppend(Step, Start, events[..n], events[n]);
    }
  }

  /** A key lives for a minute and a processing of another message does not touch it; time only passes. */
  lemma KeysAndClock(s: State, e: Event, id: MessageId)
    ensures LOCK_LIFETIME == 60000
    ensures Step(s, e).now == s.now + (if e.Elapse? then e.ms else 0)
    ensures !(e.Process? && e.id == id) ==>
              (id in Step(s, e).keys <==> id in s.keys) && (id in s.keys ==> Step(s, e).keys[id] == s.keys[id])
    ensures e.Process? && e.id == id && !e.reply.ThrewUnapplied? ==> Locked(Step(s, e), id)
  {
  }

  /** The message handler that `subscribe` installs, over the shared keys. */
  class PubSub {
    var now: Time
    var keys: map<MessageId, Time>
    var calls: seq<Call>

    ghost function View(): State
      reads this
    {
      State(now, keys, calls)
    }

    constructor ()
      ensures View() == Start
    {
      now, keys, calls := 0, map[], [];
    }

    /** None when the pipeline throws. */
    method SetNx(id: MessageId, reply: Reply) returns (ok: Option<bool>)
      modifies this`keys
      ensures ok == if reply.Answered? then Some(!Locked(old(View()), id)) else None
      ensures keys == if !reply.ThrewUnapplied? && !Locked(old(View()), id) then old(keys)[id := now] else old(keys)
    {
      if reply.ThrewUnapplied? {
        return None;
      }
      var absent := id !in keys || !Alive(keys[id], now);
      if absent {
        keys := keys[id := now];
      }
      return if reply.Answered? then Some(absent) else None;
    }

    method OnMessage(subscriber: Subscriber, id: MessageId, reply: Reply)
      modifies this
      ensures View() == Step(old(View()), Process(subscriber, id, reply))
    {
      var ok := SetNx(id, reply);
      if ok == Some(true) {
        calls := calls + [Call(subscriber, id)];
      }
    }
  }
}
