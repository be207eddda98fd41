/**
 The Redis stream consumer: one consumer of one group reads a batch of new entries, runs the
 callback of each with a bound on how many run at once, and acknowledges the entries whose
 callback ended normally. Callbacks end in any order, between any two steps of the reader, and
 a read or an acknowledgement may fail, before or after Redis applied it.
 */
module RedisStreams {
  import opened Runs

  /** An entry is named by its position in the stream, which is the order of its id. */
  type Id = nat

  const SERVER_API_NODES_QTY: nat := 4
  const MAX_CONCURRENT_PROCESSING: nat := SERVER_API_NODES_QTY * 2
  const READ_COUNT: nat := 100

  datatype Outcome = EndedNormally | Threw

  /** What an XREADGROUP or XACK call can do: be answered, fail before Redis applied it, or fail after. */
  datatype Reply = Answered | FailedUnapplied | FailedApplied

  datatype Consumer = Consumer(
    added: nat,                    // entries in the stream
    delivered: nat,                // the group's last delivered position
    pending: set<Id>,              // the group's pending entries list
    acked: set<Id>,
    inBatch: bool,
    todo: seq<Id>,                 // messages of the batch not yet launched
    processingPromises: seq<Id>,   // callbacks in flight
    ackIds: seq<Id>,
    started: seq<Id>,              // history: callbacks in the order they were called
    succeeded: set<Id>,
    failed: set<Id>,
    refused: set<Id>,              // ended normally, but their XACK was not applied
    unread: set<Id>                // delivered by a read whose reply was lost
  )

  datatype Event =
    | Add
    | Read(reply: Reply)
    | Launch
    | Settle(id: Id, outcome: Outcome)
    | Xack(reply: Reply)

  const Initial := Consumer(0, 0, {}, {}, false, [], [], [], [], {}, {}, {}, {})

  function UpTo(n: nat): seq<nat> {
    seq(n, i => i)
  }

  function Positions(first: nat, count: nat): seq<nat> {
    seq(count, i requires 0 <= i => first + i)
  }

  function Min(a: nat, b: nat): nat {
    if a <= b then a else b
  }

  function Elements(s: seq<Id>): set<Id> {
    set id | id in s
  }

  function Without(s: seq<Id>, id: Id): seq<Id> {
    if s == [] then [] else if s[0] == id then s[1..] else [s[0]] + Without(s[1..], id)
  }

  ghost predicate Distinct(s: seq<Id>) {
    forall i, j :: 0 <= i < j < |s| ==> s[i] != s[j]
  }

  ghost predicate Increasing(s: seq<Id>) {
    forall i, j :: 0 <= i < j < |s| ==> s[i] < s[j]
  }

  predicate ReadyToAck(c: Consumer) {
    c.inBatch && c.todo == [] && c.processingPromises == []
  }

  /** What a read is given of the entries nobody has been given yet. */
  function Available(c: Consumer): nat {
    if c.added < c.delivered then 0 else Min(READ_COUNT, c.added - c.delivered)
  }

  /** An event that the reader cannot perform in its present state changes nothing. */
  function Step(c: Consumer, e: Event): Consumer {
    match e
    case Add => c.(added := c.added + 1)
    case Read(reply) =>
      if c.inBatch || Available(c) == 0 || reply == FailedUnapplied then c
      else
        var batch := Positions(c.delivered, Available(c));
        var moved := c.(delivered := c.delivered + Available(c), pending := c.pending + Elements(batch));
        if reply == FailedApplied then moved.(unread := c.unread + Elements(batch))
        else moved.(inBatch := true, todo := batch, processingPromises := [], ackIds := [])
    case Launch =>
      if c.todo == [] || |c.processingPromises| >= MAX_CONCURRENT_PROCESSING then c
      else c.(todo := c.todo[1..],
              processingPromises := c.processingPromises + [c.todo[0]],
              started := c.started + [c.todo[0]])
    case Settle(id, outcome) =>
      if id !in c.processingPromises then c
      else
        var rest := c.(processingPromises := Without(c.processingPromises, id));
        if outcome == EndedNormally
        then rest.(ackIds := c.ackIds + [id], succeeded := c.succeeded + {id})
        else rest.(failed := c.failed + {id})
    case Xack(reply) =>
      if !ReadyToAck(c) then c
      else
        var ids := Elements(c.ackIds);
        var closed := c.(inBatch := false, ackIds := []);
        if c.ackIds == [] then closed
        else if reply == FailedUnapplied then closed.(refused := c.refused + ids)
        else closed.(pending := c.pending - ids, acked := c.acked + ids)
  }

  /** The invariant of every run. */
  ghost predicate Inv(c: Consumer) {
    && c.delivered <= c.added
    && |c.processingPromises| <= MAX_CONCURRENT_PROCESSING
    // Callbacks are called once each, in stream order, for all delivered entries but the unread.
    && Increasing(c.started + c.todo)
    && Elements(c.started + c.todo) + c.unread == Elements(UpTo(c.delivered))
    && Elements(c.started + c.todo) !! c.unread
    // Every callback called is in flight, ended normally or threw, and only one of these.
    && Distinct(c.processingPromises)
    && Elements(c.started) == Elements(c.processingPromises) + c.succeeded + c.failed
    && Elements(c.processingPromises) !! c.succeeded !! c.failed
    // Every entry that ended normally is acknowledged, about to be, or was refused.
    && c.succeeded == c.acked + Elements(c.ackIds) + c.refused
    && c.acked !! Elements(c.ackIds) !! c.refused
    // Delivered entries split into acknowledged and pending ones.
    && c.pending + c.acked == Elements(UpTo(c.delivered))
    && c.pending !! c.acked
    && (!c.inBatch ==> c.todo == [] && c.processingPromises == [] && c.ackIds == [])
  }

  lemma {:induction false} WithoutElements(s: seq<Id>, id: Id)
    requires Distinct(s) && id in s
    ensures Distinct(Without(s, id))
    ensures Elements(Without(s, id)) == Elements(s) - {id}
    ensures |Without(s, id)| == |s| - 1
  {
    if s[0] == id {
      assert s == [id] + s[1..];
      assert id !in s[1..];
    } else {
      assert s == [s[0]] + s[1..];
      WithoutElements(s[1..], id);
      assert Without(s, id) == [s[0]] + Without(s[1..], id);
      ElementsPrepend(s[0], s[1..]);
      ElementsPrepend(s[0], Without(s[1..], id));
      assert s[0] !in Elements(Without(s[1..], id));
    }
  }

  lemma ElementsPrepend(id: Id, s: seq<Id>)
    ensures Elements([id] + s) == {id} + Elements(s)
  {
  }

  lemma ElementsAppend(s: seq<Id>, id: Id)
    ensures Elements(s + [id]) == Elements(s) + {id}
  {
  }

  lemma ElementsConcat(s: seq<Id>, t: seq<Id>)
    ensures Elements(s + t) == Elements(s) + Elements(t)
  {
  }

  lemma BatchIsNew(delivered: nat, n: nat)
    ensures Elements(UpTo(delivered + n)) == Elements(UpTo(delivered)) + Elements(Positions(delivered, n))
    ensures Elements(UpTo(delivered)) !! Elements(Positions(delivered, n))
  {
    ElementsUpTo(delivered);
    ElementsUpTo(delivered + n);
    assert forall i :: 0 <= i < n ==> Positions(delivered, n)[i] == delivered + i;
    forall id | id in Elements(UpTo(delivered + n)) && id >= delivered ensures id in Positions(delivered, n) {
      assert Positions(delivered, n)[id - delivered] == id;
    }
  }

  lemma ElementsUpTo(n: nat)
    ensures forall id: nat :: id in Elements(UpTo(n)) <==> id < n
  {
    forall id: nat ensures id in Elements(UpTo(n)) <==> id < n {
      assert id < n ==> UpTo(n)[id] == id;
    }
  }

  lemma ReadKeeps(c: Consumer, reply: Reply)
    requires Inv(c)
    ensures Inv(Step(c, Read(reply)))
  {
    var n := Available(c);
    if !c.inBatch && n > 0 && reply != FailedUnapplied {
      var batch := Positions(c.delivered, n);
      BatchIsNew(c.delivered, n);
      assert c.started + c.todo == c.started;
      ElementsConcat(c.started, batch);
      if reply == Answered {
        forall i | 0 <= i < |c.started| ensures c.started[i] < c.delivered {
          assert c.started[i] in Elements(UpTo(c.delivered));
        }
      }
    }
  }

  lemma LaunchKeeps(c: Consumer)
    requires Inv(c)
    ensures Inv(Step(c, Launch))
  {
    var d := Step(c, Launch);
    if d != c {
      var id := c.todo[0];
      assert d.started + d.todo == c.started + c.todo;
      FirstOfTodoIsNew(c);
      ElementsAppend(c.started, id);
      ElementsAppend(c.processingPromises, id);
      assert id !in Elements(c.started);
    }
  }

  lemma FirstOfTodoIsNew(c: Consumer)
    requires Increasing(c.started + c.todo) && c.todo != []
    ensures c.todo[0] !in c.started
  {
    assert (c.started + c.todo)[|c.started|] == c.todo[0];
    forall i | 0 <= i < |c.started| ensures c.started[i] != c.todo[0] {
      assert (c.started + c.todo)[i] == c.started[i];
    }
  }

  lemma SettleKeeps(c: Consumer, id: Id, outcome: Outcome)
    requires Inv(c)
    ensures Inv(Step(c, Settle(id, outcome)))
  {
    if id in c.processingPromises {
      WithoutElements(c.processingPromises, id);
      ElementsAppend(c.ackIds, id);
      assert id in Elements(c.processingPromises);
    }
  }

  lemma XackKeeps(c: Consumer, reply: Reply)
    requires Inv(c)
    ensures Inv(Step(c, Xack(reply)))
  {
  }

  lemma StepKeeps(c: Consumer, e: Event)
    requires Inv(c)
    ensures Inv(Step(c, e))
  {
    match e
    case Add =>
    case Read(reply) => ReadKeeps(c, reply);
    case Launch => LaunchKeeps(c);
    case Settle(id, outcome) => SettleKeeps(c, id, outcome);
    case Xack(reply) => XackKeeps(c, reply);
  }

  /** Main result: every interleaving, over any number of batches, keeps the invariant. */
  lemma EveryRunKeepsInv(events: seq<Event>)
    ensures Inv(Run(Step, Initial, events))
  {
    forall c, e | Inv(c) ensures Inv(Step(c, e)) {
      StepKeeps(c, e);
    }
    assert Elements(UpTo(0)) == {};
    Invariance(Step, Inv, Initial, events);
  }

  /** What the invariant says to a reader, for every interleaving. */
  lemma DeliveryGuarantees(events: seq<Event>)
    ensures var c := Run(Step, Initial, events);
            && |c.processingPromises| <= 8
            && c.pending + c.acked == Elements(UpTo(c.delivered)) && c.pending !! c.acked
            && (!c.inBatch ==> c.acked == c.succeeded - c.refused && c.pending == c.failed + c.refused + c.unread)
            && (!c.inBatch ==> (c.pending == c.failed <==> c.refused == {} && c.unread == {}))
  {
    EveryRunKeepsInv(events);
    if !Run(Step, Initial, events).inBatch {
      BetweenBatches(Run(Step, Initial, events));
    }
  }

  lemma BetweenBatches(c: Consumer)
    requires Inv(c) && !c.inBatch
    ensures c.acked == c.succeeded - c.refused && c.pending == c.failed + c.refused + c.unread
    ensures c.refused !! c.failed && c.unread !! c.failed
  {
    assert Elements(c.ackIds) == {} && Elements(c.processingPromises) == {};
    assert c.started + c.todo == c.started;
  }

  /** A read that is applied without an answer, or acknowledgements that are not applied. */
  predicate Loses(c: Consumer, e: Event) {
    || (e == Read(FailedApplied) && !c.inBatch && Available(c) > 0)
    || (e == Xack(FailedUnapplied) && ReadyToAck(c) && c.ackIds != [])
  }

  ghost predicate NothingLost(c: Consumer) {
    c.refused == {} && c.unread == {}
  }

  lemma StepLosesIff(c: Consumer, e: Event)
    ensures NothingLost(Step(c, e)) <==> NothingLost(c) && !Loses(c, e)
  {
    if Loses(c, e) {
      if e.Read? {
        assert Positions(c.delivered, Available(c))[0] in Step(c, e).unread;
      } else {
        assert c.ackIds[0] in Step(c, e).refused;
      }
    }
  }

  /**
   Between batches the acknowledged entries are exactly those whose callback ended normally, and the
   pending ones those whose callback threw, if and only if no reply to a read and no acknowledgement was
   lost in the whole run.
   */
  lemma NothingLostIff(events: seq<Event>)
    requires !Run(Step, Initial, events).inBatch
    ensures var c := Run(Step, Initial, events);
            c.acked == c.succeeded && c.pending == c.failed
            <==> (forall k :: 0 <= k < |events| ==> !Loses(Run(Step, Initial, events[..k]), events[k]))
  {
    var safe := (c: Consumer, e: Event) => !Loses(c, e);
    forall c, e ensures NothingLost(Step(c, e)) <==> NothingLost(c) && safe(c, e) {
      StepLosesIff(c, e);
    }
    HoldsAtEndIff(Step, _ => true, NothingLost, safe, Initial, events);
    DeliveryGuarantees(events);
  }

  /** The history sets hold only what the run's events say. */
  lemma {:induction false} OutcomesComeFromEvents(c: Consumer, events: seq<Event>, id: Id)
    ensures id in Run(Step, c, events).succeeded ==> id in c.succeeded || Settle(id, EndedNormally) in events
    ensures id in Run(Step, c, events).failed ==> id in c.failed || Settle(id, Threw) in events
    ensures id in Run(Step, c, events).refused ==> id in c.refused || Xack(FailedUnapplied) in events
    ensures id in Run(Step, c, events).unread ==> id in c.unread || Read(FailedApplied) in events
    decreases |events|
  {
    if events == [] {
    } else {
      OutcomesComeFromEvents(Step(c, events[0]), events[1..], id);
    }
  }

  /** An acknowledged entry is one whose callback ended normally in the run. */
  lemma AcknowledgedEndedNormally(events: seq<Event>, id: Id)
    requires id in Run(Step, Initial, events).acked
    ensures Settle(id, EndedNormally) in events
  {
    EveryRunKeepsInv(events);
    OutcomesComeFromEvents(Initial, events, id);
  }

  /** After an XACK that succeeds, all entries that ended normally are acknowledged but those refused before. */
  lemma SuccessfulXackCoversTheBatch(events: seq<Event>)
    requires ReadyToAck(Run(Step, Initial, events))
    ensures var c := Run(Step, Initial, events + [Xack(Answered)]); c.acked == c.succeeded - c.refused
  {
    RunAppend(Step, Initial, events, Xack(Answered));
    DeliveryGuarantees(events + [Xack(Answered)]);
  }

  /** The entry is pending, and no callback for it is or will be called. */
  ghost predicate LeftPending(c: Consumer, id: Id) {
    id in c.pending && id !in c.todo && id !in c.processingPromises && id !in c.ackIds && id !in c.succeeded
  }

  lemma StepLeavesPending(c: Consumer, e: Event, id: Id)
    requires Inv(c) && LeftPending(c, id)
    ensures LeftPending(Step(c, e), id)
  {
    StepKeeps(c, e);
    match e
    case Settle(other, _) =>
      if other in c.processingPromises {
        WithoutElements(c.processingPromises, other);
        assert id !in Elements(Step(c, e).processingPromises);
      }
    case Read(_) =>
      BatchIsNew(c.delivered, Available(c));
      assert id in Elements(UpTo(c.delivered));
    case _ =>
  }

  lemma {:induction false} LeftForEver(c: Consumer, events: seq<Event>, id: Id)
    requires Inv(c) && LeftPending(c, id)
    ensures LeftPending(Run(Step, c, events), id)
    decreases |events|
  {
    if events == [] {
    } else {
      StepKeeps(c, events[0]);
      StepLeavesPending(c, events[0], id);
      LeftForEver(Step(c, events[0]), events[1..], id);
    }
  }

  /** An entry whose callback threw, or whose read was lost, is never processed again nor acknowledged. */
  lemma ThrownEntryStaysPending(before: seq<Event>, after: seq<Event>, id: Id)
    requires id in Run(Step, Initial, before).failed + Run(Step, Initial, before).unread
    ensures var c := Run(Step, Initial, before + after);
            id in c.pending && id !in c.succeeded && id !in c.todo && id !in c.processingPromises
  {
    EveryRunKeepsInv(before);
    var c := Run(Step, Initial, before);
    RunConcat(Step, Initial, before, after);
    if id in c.failed {
      ElementsOnlyOnce(c, id);
    } else {
      ElementsConcat(c.started, c.todo);
      assert id !in Elements(c.started + c.todo);
      assert id in Elements(UpTo(c.delivered));
    }
    assert id !in Elements(c.processingPromises) && id !in Elements(c.ackIds);
    LeftForEver(c, after, id);
  }

  lemma ElementsOnlyOnce(c: Consumer, id: Id)
    requires Inv(c) && id in c.failed
    ensures id !in c.todo && id in Elements(UpTo(c.delivered))
  {
    ElementsConcat(c.started, c.todo);
    assert id in Elements(c.started);
    var i :| 0 <= i < |c.started| && c.started[i] == id;
    assert (c.started + c.todo)[i] == id;
    forall j | 0 <= j < |c.todo| ensures c.todo[j] != id {
      assert (c.started + c.todo)[|c.started| + j] == c.todo[j];
    }
  }

  // ----- What each event does -----

  /** A read between batches delivers the next entries, 100 at most and as many as there are, if it reaches Redis. */
  lemma ReadDelivers(c: Consumer, reply: Reply)
    requires Inv(c)
    ensures var d := Step(c, Read(reply));
            var n := if c.inBatch || reply == FailedUnapplied then 0
                     else if c.added - c.delivered <= 100 then c.added - c.delivered else 100;
            && d.delivered == c.delivered + n && d.added == c.added
            && (n > 0 && reply == Answered ==> d.inBatch && |d.todo| == n && d.ackIds == [])
            && (n > 0 && reply == FailedApplied ==> !d.inBatch && |d.unread| == |c.unread| + n)
            && (n == 0 ==> d == c)
            && d.acked == c.acked && d.started == c.started && d.succeeded == c.succeeded && d.failed == c.failed
            && d.refused == c.refused
  {
    var n := Available(c);
    if !c.inBatch && n > 0 && reply == FailedApplied {
      var batch := Positions(c.delivered, n);
      BatchIsNew(c.delivered, n);
      assert c.unread !! Elements(batch);
      PositionsCount(c.delivered, n);
    }
  }

  lemma {:induction false} PositionsCount(first: nat, n: nat)
    ensures |Elements(Positions(first, n))| == n
  {
    if n > 0 {
      PositionsCount(first, n - 1);
      assert Positions(first, n) == Positions(first, n - 1) + [first + n - 1];
      ElementsAppend(Positions(first, n - 1), first + n - 1);
      assert first + n - 1 !in Elements(Positions(first, n - 1));
    }
  }

  /** The next callback is started if and only if there is one and fewer than eight are in flight. */
  lemma LaunchesIff(c: Consumer)
    ensures var d := Step(c, Launch);
            && (d != c <==> c.todo != [] && |c.processingPromises| < 8)
            && (d != c ==> d.started == c.started + [c.todo[0]]
                           && d.processingPromises == c.processingPromises + [c.todo[0]])
            && (d != c ==> |d.todo| == |c.todo| - 1)
            && d.pending == c.pending && d.acked == c.acked && d.ackIds == c.ackIds && d.inBatch == c.inBatch
            && d.delivered == c.delivered && d.succeeded == c.succeeded && d.failed == c.failed
  {
  }

  /** The end of a callback takes it out of flight and counts it one way or the other. */
  lemma SettlesOnce(c: Consumer, id: Id, outcome: Outcome)
    requires Inv(c)
    ensures var d := Step(c, Settle(id, outcome));
            && (d == c <==> id !in c.processingPromises)
            && (d != c ==> id !in d.processingPromises && |d.processingPromises| == |c.processingPromises| - 1)
            && (d != c ==> (id in d.succeeded <==> outcome == EndedNormally) && (id in d.failed <==> outcome == Threw))
            && (d != c ==> d.ackIds == c.ackIds + if outcome == EndedNormally then [id] else [])
            && d.todo == c.todo && d.pending == c.pending && d.inBatch == c.inBatch && d.delivered == c.delivered
  {
    if id in c.processingPromises {
      WithoutElements(c.processingPromises, id);
      assert id in Elements(c.processingPromises);
      assert id !in Elements(Step(c, Settle(id, outcome)).processingPromises);
    }
  }

  /** The batch ends with its acknowledgement, once nothing is left to start or in flight, and not before. */
  lemma XackEndsTheBatch(c: Consumer, reply: Reply)
    ensures var d := Step(c, Xack(reply));
            && (!ReadyToAck(c) ==> d == c)
            && (ReadyToAck(c) ==> !d.inBatch && d.ackIds == [])
            && (forall id :: id in d.acked <==>
                  id in c.acked || (ReadyToAck(c) && reply != FailedUnapplied && id in c.ackIds))
            && (forall id :: id in d.refused <==>
                  id in c.refused || (ReadyToAck(c) && reply == FailedUnapplied && id in c.ackIds))
            && d.delivered == c.delivered && d.started == c.started && d.unread == c.unread
  {
  }

  lemma AddOnlyAdds(c: Consumer)
    ensures Step(c, Add).added == c.added + 1
    ensures Step(c, Add).delivered == c.delivered && Step(c, Add).todo == c.todo && Step(c, Add).inBatch == c.inBatch
    ensures Step(c, Add).processingPromises == c.processingPromises && Step(c, Add).ackIds == c.ackIds
  {
  }

  /**
   The reader itself. Between any two of its steps any number of callbacks may end, in any
   order and with any outcome; the trace it returns is the run it took part in.
   */
  class StreamReader {
    var added: nat
    var delivered: nat
    var pending: set<Id>
    var acked: set<Id>
    var inBatch: bool
    var messages: seq<Id>
    var processingPromises: seq<Id>
    var ackIds: seq<Id>
    ghost var started: seq<Id>
    ghost var succeeded: set<Id>
    ghost var failed: set<Id>
    ghost var refused: set<Id>
    ghost var unread: set<Id>

    ghost function State(): Consumer
      reads this
    {
      Consumer(added, delivered, pending, acked, inBatch, messages, processingPromises, ackIds,
               started, succeeded, failed, refused, unread)
    }

    constructor ()
      ensures State() == Initial
    {
      added, delivered, pending, acked := 0, 0, {}, {};
      inBatch, messages, processingPromises, ackIds := false, [], [], [];
      started, succeeded, failed, refused, unread := [], {}, {}, {}, {};
    }

    method XReadGroup(reply: Reply)
      modifies this
      ensures State() == Step(old(State()), Read(reply))
    {
      var count := if added < delivered then 0 else Min(READ_COUNT, added - delivered);
      assert count == Available(State());
      if inBatch || count == 0 || reply == FailedUnapplied {
        return;
      }
      var batch := Positions(delivered, count);
      pending := pending + Elements(batch);
      delivered := delivered + count;
      if reply == FailedApplied {
        unread := unread + Elements(batch);
      } else {
        messages, processingPromises, ackIds := batch, [], [];
        inBatch := true;
      }
    }

    method StartCallback()
      requires messages != [] && |processingPromises| < MAX_CONCURRENT_PROCESSING
      modifies this
      ensures State() == Step(old(State()), Launch)
    {
      var id := messages[0];
      messages := messages[1..];
      processingPromises := processingPromises + [id];
      started := started + [id];
    }

    method CallbackEnds(id: Id, outcome: Outcome)
      requires id in processingPromises
      modifies this
      ensures State() == Step(old(State()), Settle(id, outcome))
    {
      if outcome == EndedNormally {
        ackIds := ackIds + [id];
        succeeded := succeeded + {id};
      } else {
        failed := failed + {id};
      }
      processingPromises := Without(processingPromises, id);
    }

    method XAck(reply: Reply)
      requires ReadyToAck(State())
      modifies this
      ensures State() == Step(old(State()), Xack(reply))
    {
      if ackIds != [] {
        if reply == FailedUnapplied {
          refused := refused + Elements(ackIds);
        } else {
          pending := pending - Elements(ackIds);
          acked := acked + Elements(ackIds);
        }
      }
      inBatch, ackIds := false, [];
    }

    /** Lets at least `least` of the callbacks in flight end, which ones and how being open. */
    method Await(least: nat, ghost from: Consumer, ghost past: seq<Event>) returns (ghost trace: seq<Event>)
      requires least <= |processingPromises|
      requires Inv(State()) && State() == Run(Step, from, past)
      modifies this
      ensures Inv(State()) && State() == Run(Step, from, trace)
      ensures |processingPromises| <= old(|processingPromises|) - least
      ensures messages == old(messages) && inBatch == old(inBatch) && delivered == old(delivered)
    {
      trace := past;
      var ended := 0;
      var more: bool := *;
      while processingPromises != [] && (ended < least || more)
        invariant Inv(State()) && State() == Run(Step, from, trace)
        invariant |processingPromises| == old(|processingPromises|) - ended
        invariant messages == old(messages) && inBatch == old(inBatch) && delivered == old(delivered)
        decreases |processingPromises|
      {
        var k: nat :| k < |processingPromises|;
        var id, outcome := processingPromises[k], *;
        ghost var e := Settle(id, outcome);
        WithoutElements(processingPromises, id);
        StepKeeps(State(), e);
        RunAppend(Step, from, trace, e);
        CallbackEnds(id, outcome);
        trace := trace + [e];
        ended := ended + 1;
        more := *;
      }
    }

    /** Calls the callback of every message of the batch, waiting whenever the bound is reached. */
    method ProcessMessages(ghost from: Consumer, ghost past: seq<Event>) returns (ghost trace: seq<Event>)
      requires inBatch && Inv(State()) && State() == Run(Step, from, past)
      modifies this
      ensures ReadyToAck(State()) && Inv(State()) && State() == Run(Step, from, trace)
      ensures delivered == old(delivered)
    {
      trace := past;
      while messages != []
        invariant inBatch && Inv(State()) && State() == Run(Step, from, trace)
        invariant delivered == old(delivered)
        decreases |messages|
      {
        trace := Await(if |processingPromises| >= MAX_CONCURRENT_PROCESSING then 1 else 0, from, trace);
        StepKeeps(State(), Launch);
        RunAppend(Step, from, trace, Launch);
        StartCallback();
        trace := trace + [Launch];
      }
      trace := Await(|processingPromises|, from, trace);
    }

    /** One turn of the reading loop, from a read to its acknowledgement. */
    method ReadFromStream(read: Reply, reply: Reply) returns (ghost trace: seq<Event>)
      requires Inv(State()) && !inBatch
      modifies this
      ensures State() == Run(Step, old(State()), trace)
      ensures Inv(State()) && !inBatch
      ensures delivered == if read == FailedUnapplied then old(delivered)
                           else old(delivered) + Min(READ_COUNT, old(added) - old(delivered))
    {
      ghost var from := State();
      StepKeeps(from, Read(read));
      XReadGroup(read);
      trace := [Read(read)];
      if inBatch {
        trace := ProcessMessages(from, trace);
        StepKeeps(State(), Xack(reply));
        RunAppend(Step, from, trace, Xack(reply));
        XAck(reply);
        trace := trace + [Xack(reply)];
      }
    }
  }
}
