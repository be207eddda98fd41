/**
 The RabbitMQ consumer's batched acknowledgements on one channel. Deliveries are buffered
 before their callback is called; the tenth buffered delivery, or a timer armed by the first,
 acknowledges the newest one with the `multiple` flag (AMQP 0-9-1, section 1.8.3.13). A
 callback that throws rejects its own delivery. The broker settles deliveries it still holds
 and closes the channel when it is given a tag it does not hold.
 */
module RabbitMQ {
  import opened Runs

  type Tag = nat

  const ACK_BATCH_SIZE: nat := 10

  datatype State = State(
    nextTag: Tag,
    unsettled: seq<Tag>,     // broker: delivered and not settled, in delivery order
    acked: seq<Tag>,         // broker: acknowledged, in the order it was done
    discarded: set<Tag>,     // broker: rejected without requeue
    closed: bool,            // the broker closed the channel
    ackBuffer: seq<Tag>,
    timerArmed: bool,
    finished: set<Tag>       // callbacks that ended, normally or not
  )

  datatype Event =
    | Delivery
    | TimerFires
    | CallbackEnds(tag: Tag)
    | CallbackThrows(tag: Tag)

  const Initial := State(0, [], [], {}, false, [], false, {})

  function Range(lo: nat, hi: nat): seq<Tag>
    requires lo <= hi
  {
    seq(hi - lo, i requires 0 <= i => lo + i)
  }

  /** The tags of s that are not in the given set, in order. */
  function Except(s: seq<Tag>, gone: set<Tag>): seq<Tag> {
    if s == [] then []
    else (if s[0] in gone then [] else [s[0]]) + Except(s[1..], gone)
  }

  function Above(s: seq<Tag>, tag: Tag): seq<Tag> {
    if s == [] then [] else (if s[0] <= tag then [] else [s[0]]) + Above(s[1..], tag)
  }

  function UpToTag(s: seq<Tag>, tag: Tag): seq<Tag> {
    if s == [] then [] else (if s[0] <= tag then [s[0]] else []) + UpToTag(s[1..], tag)
  }

  /** basic.ack with `multiple`: settles every delivery held up to the tag. */
  function BrokerAck(s: State, tag: Tag): State {
    if tag !in s.unsettled then s.(closed := true)
    else s.(acked := s.acked + UpToTag(s.unsettled, tag), unsettled := Above(s.unsettled, tag))
  }

  /** basic.nack of one delivery, not requeued. */
  function BrokerDiscard(s: State, tag: Tag): State {
    if tag !in s.unsettled then s.(closed := true)
    else s.(discarded := s.discarded + {tag}, unsettled := Except(s.unsettled, {tag}))
  }

  function FlushAcks(s: State): State {
    if s.ackBuffer == [] then s
    else BrokerAck(s, s.ackBuffer[|s.ackBuffer| - 1]).(ackBuffer := [], timerArmed := false)
  }

  /** The state once the delivery is held and buffered, before the handler looks at the buffer. */
  function Held(s: State): State {
    s.(nextTag := s.nextTag + 1, unsettled := s.unsettled + [s.nextTag], ackBuffer := s.ackBuffer + [s.nextTag])
  }

  function Deliver(s: State): State {
    var held := Held(s);
    if |held.ackBuffer| >= ACK_BATCH_SIZE then FlushAcks(held)
    else if !held.timerArmed then held.(timerArmed := true)
    else held
  }

  predicate InProgress(s: State, tag: Tag) {
    tag < s.nextTag && tag !in s.finished
  }

  /** Nothing more happens on a closed channel; a callback ends once. */
  function Step(s: State, e: Event): State {
    if s.closed then s
    else match e
      case Delivery => Deliver(s)
      case TimerFires => if s.timerArmed then FlushAcks(s) else s
      case CallbackEnds(tag) => if InProgress(s, tag) then s.(finished := s.finished + {tag}) else s
      case CallbackThrows(tag) =>
        if InProgress(s, tag) then BrokerDiscard(s.(finished := s.finished + {tag}), tag) else s
  }

  ghost predicate Accounted(s: State) {
    && |s.ackBuffer| <= s.nextTag
    && s.ackBuffer == Range(s.nextTag - |s.ackBuffer|, s.nextTag)
    && s.acked == Except(Range(0, s.nextTag - |s.ackBuffer|), s.discarded)
    && s.unsettled == Except(s.ackBuffer, s.discarded)
  }

  /**
   Where everything is, in terms of the number of deliveries, the buffer's length and the
   rejected tags: the buffer holds the newest deliveries; all older ones that were not rejected
   have been acknowledged in order, once; the broker holds the buffered ones not rejected.
   */
  ghost predicate Inv(s: State) {
    && Accounted(s)
    && |s.ackBuffer| < ACK_BATCH_SIZE
    && (s.timerArmed <==> s.ackBuffer != [])
    && s.discarded <= s.finished
    && (forall tag :: tag in s.finished ==> tag < s.nextTag)
  }

  /** While the channel is open the invariant holds. */
  ghost predicate OpenInv(s: State) {
    s.closed || Inv(s)
  }

  lemma {:induction false} ExceptMember(s: seq<Tag>, gone: set<Tag>, tag: Tag)
    ensures tag in Except(s, gone) <==> tag in s && tag !in gone
  {
    if s != [] {
      ExceptMember(s[1..], gone, tag);
      assert s == [s[0]] + s[1..];
    }
  }

  lemma {:induction false} ExceptConcat(a: seq<Tag>, b: seq<Tag>, gone: set<Tag>)
    ensures Except(a + b, gone) == Except(a, gone) + Except(b, gone)
  {
    if a == [] {
      assert a + b == b;
    } else {
      assert (a + b)[1..] == a[1..] + b;
      ExceptConcat(a[1..], b, gone);
    }
  }

  lemma {:induction false} ExceptUnion(s: seq<Tag>, gone: set<Tag>, more: set<Tag>)
    ensures Except(Except(s, gone), more) == Except(s, gone + more)
  {
    if s != [] {
      ExceptUnion(s[1..], gone, more);
      ExceptConcat(if s[0] in gone then [] else [s[0]], Except(s[1..], gone), more);
    }
  }

  lemma {:induction false} ExceptUnaffected(s: seq<Tag>, gone: set<Tag>, tag: Tag)
    requires tag !in s
    ensures Except(s, gone + {tag}) == Except(s, gone)
  {
    if s != [] {
      ExceptUnaffected(s[1..], gone, tag);
    }
  }

  lemma {:induction false} ExceptNothing(s: seq<Tag>)
    ensures Except(s, {}) == s
  {
    if s != [] {
      ExceptNothing(s[1..]);
    }
  }

  lemma {:induction false} SplitAtBound(s: seq<Tag>, tag: Tag)
    requires forall i :: 0 <= i < |s| ==> s[i] <= tag
    ensures UpToTag(s, tag) == s && Above(s, tag) == []
  {
    if s != [] {
      SplitAtBound(s[1..], tag);
    }
  }

  lemma RangeSplit(lo: nat, mid: nat, hi: nat)
    requires lo <= mid <= hi
    ensures Range(lo, mid) + Range(mid, hi) == Range(lo, hi)
  {
  }

  /** Appending the next delivery to the buffered ones. */
  lemma RangeGrows(buffer: seq<Tag>, hi: nat)
    requires |buffer| <= hi && buffer == Range(hi - |buffer|, hi)
    ensures buffer + [hi] == Range(hi - |buffer|, hi + 1)
  {
  }

  /** Acknowledging a tag no held delivery exceeds settles all of them. */
  lemma AckOfNewest(s: State, tag: Tag)
    requires tag in s.unsettled && forall i :: 0 <= i < |s.unsettled| ==> s.unsettled[i] <= tag
    ensures BrokerAck(s, tag) == s.(acked := s.acked + s.unsettled, unsettled := [])
  {
    SplitAtBound(s.unsettled, tag);
  }

  lemma NewestBuffered(s: State)
    requires Accounted(s) && s.ackBuffer != []
    ensures s.ackBuffer[|s.ackBuffer| - 1] == s.nextTag - 1
    ensures s.nextTag - 1 in s.unsettled <==> s.nextTag - 1 !in s.discarded
    ensures forall i :: 0 <= i < |s.unsettled| ==> s.unsettled[i] <= s.nextTag - 1
  {
    var last := s.ackBuffer[|s.ackBuffer| - 1];
    ExceptMember(s.ackBuffer, s.discarded, last);
    forall i | 0 <= i < |s.unsettled| ensures s.unsettled[i] <= last {
      ExceptMember(s.ackBuffer, s.discarded, s.unsettled[i]);
    }
  }

  lemma AckedAndBuffered(s: State)
    requires Accounted(s)
    ensures s.acked + s.unsettled == Except(Range(0, s.nextTag), s.discarded)
  {
    var k := s.nextTag - |s.ackBuffer|;
    RangeSplit(0, k, s.nextTag);
    ExceptConcat(Range(0, k), s.ackBuffer, s.discarded);
  }

  /**
   A flush survives exactly when the newest buffered delivery has not been rejected, and then
   it acknowledges everything the broker still holds.
   */
  lemma FlushOutcome(s: State)
    requires Accounted(s) && !s.closed && s.ackBuffer != []
    ensures FlushAcks(s).closed <==> s.nextTag - 1 in s.discarded
    ensures !FlushAcks(s).closed ==>
              FlushAcks(s) == s.(acked := Except(Range(0, s.nextTag), s.discarded), unsettled := [],
                                 ackBuffer := [], timerArmed := false)
  {
    var newest := s.nextTag - 1;
    NewestBuffered(s);
    FlushIsAck(s, newest);
    if newest in s.unsettled {
      AckOfNewest(s, newest);
      AckedAndBuffered(s);
    }
  }

  lemma FlushIsAck(s: State, newest: Tag)
    requires s.ackBuffer != [] && !s.closed && s.ackBuffer[|s.ackBuffer| - 1] == newest
    ensures FlushAcks(s) == BrokerAck(s, newest).(ackBuffer := [], timerArmed := false)
    ensures FlushAcks(s).closed <==> newest !in s.unsettled
  {
  }

  lemma FlushKeeps(s: State)
    requires Accounted(s) && !s.closed && s.ackBuffer != [] && s.nextTag - 1 !in s.discarded
    requires s.discarded <= s.finished && forall tag :: tag in s.finished ==> tag < s.nextTag
    ensures Inv(FlushAcks(s)) && !FlushAcks(s).closed
  {
    FlushOutcome(s);
    assert Range(s.nextTag, s.nextTag) == [];
  }

  lemma HeldIsAccounted(s: State)
    requires Inv(s)
    ensures Accounted(Held(s)) && s.nextTag !in s.discarded
  {
    RangeGrows(s.ackBuffer, s.nextTag);
    ExceptConcat(s.ackBuffer, [s.nextTag], s.discarded);
    assert Except([s.nextTag], s.discarded) == [s.nextTag];
  }

  lemma DeliverKeeps(s: State)
    requires Inv(s) && !s.closed
    ensures Inv(Deliver(s)) && !Deliver(s).closed
  {
    HeldIsAccounted(s);
    if |Held(s).ackBuffer| >= ACK_BATCH_SIZE {
      FlushKeeps(Held(s));
    }
  }

  /** A delivery acknowledges nothing until the batch is full, and then everything not rejected. */
  lemma DeliveryAcksOnlyAFullBatch(s: State)
    requires Inv(s) && !s.closed
    ensures var t := Step(s, Delivery);
            if |s.ackBuffer| < 9
            then t.acked == s.acked && t.ackBuffer == s.ackBuffer + [s.nextTag]
            else t.acked == Except(Range(0, s.nextTag + 1), s.discarded) && t.ackBuffer == [] && t.unsettled == []
  {
    var held := Held(s);
    HeldIsAccounted(s);
    if |s.ackBuffer| == 9 {
      FlushOutcome(held);
      assert Deliver(s) == FlushAcks(held);
    } else {
      assert |held.ackBuffer| < ACK_BATCH_SIZE;
    }
  }

  lemma ThrowOutcome(s: State, tag: Tag)
    requires Inv(s) && !s.closed && InProgress(s, tag)
    ensures Step(s, CallbackThrows(tag)).closed <==> tag !in s.ackBuffer
    ensures tag in s.ackBuffer ==> Inv(Step(s, CallbackThrows(tag)))
  {
    ExceptMember(s.ackBuffer, s.discarded, tag);
    if tag in s.ackBuffer {
      ExceptUnion(s.ackBuffer, s.discarded, {tag});
      ExceptUnaffected(Range(0, s.nextTag - |s.ackBuffer|), s.discarded, tag);
    }
  }

  lemma TimerKeeps(s: State)
    requires Inv(s) && !s.closed && s.timerArmed
    ensures FlushAcks(s).closed <==> s.nextTag - 1 in s.discarded
    ensures OpenInv(FlushAcks(s))
    ensures s.ackBuffer[|s.ackBuffer| - 1] == s.nextTag - 1
    ensures FlushAcks(s).discarded == s.discarded
  {
    FlushOutcome(s);
    if s.nextTag - 1 !in s.discarded {
      FlushKeeps(s);
    }
  }

  lemma StepKeeps(s: State, e: Event)
    requires OpenInv(s)
    ensures OpenInv(Step(s, e))
  {
    if !s.closed {
      match e
      case Delivery => DeliverKeeps(s);
      case TimerFires => if s.timerArmed { TimerKeeps(s); }
      case CallbackEnds(_) =>
      case CallbackThrows(tag) => if InProgress(s, tag) { ThrowOutcome(s, tag); }
    }
  }

  /** Every run keeps the invariant for as long as the channel is open. */
  lemma EveryRunKeepsInv(events: seq<Event>)
    ensures OpenInv(Run(Step, Initial, events))
  {
    forall s, e | OpenInv(s) ensures OpenInv(Step(s, e)) {
      StepKeeps(s, e);
    }
    Invariance(Step, OpenInv, Initial, events);
  }

  /**
   What the channel outlives: a throw that finds its delivery still buffered, and a timer that does
   not find the newest buffered delivery rejected.
   */
  predicate Survivable(s: State, e: Event) {
    match e
    case CallbackThrows(tag) => InProgress(s, tag) ==> tag in s.ackBuffer
    case TimerFires => s.ackBuffer != [] ==> s.ackBuffer[|s.ackBuffer| - 1] !in s.discarded
    case _ => true
  }

  ghost predicate AllSurvivable(s: State, events: seq<Event>)
    decreases |events|
  {
    events == [] || (Survivable(s, events[0]) && AllSurvivable(Step(s, events[0]), events[1..]))
  }

  lemma {:induction false} ClosedStaysClosed(s: State, events: seq<Event>)
    requires s.closed
    ensures Run(Step, s, events).closed
    decreases |events|
  {
    if events == [] {
    } else {
      ClosedStaysClosed(Step(s, events[0]), events[1..]);
    }
  }

  lemma {:induction false} OpenExactlyWhenSurvivable(s: State, events: seq<Event>)
    requires Inv(s) && !s.closed
    ensures !Run(Step, s, events).closed <==> AllSurvivable(s, events)
    decreases |events|
  {
    if events == [] {
    } else {
      var e := events[0];
      StepKeeps(s, e);
      match e {
        case Delivery => DeliverKeeps(s);
        case TimerFires => if s.timerArmed { TimerKeeps(s); }
        case CallbackEnds(_) =>
        case CallbackThrows(tag) => if InProgress(s, tag) { ThrowOutcome(s, tag); }
      }
      if Step(s, e).closed {
        ClosedStaysClosed(Step(s, e), events[1..]);
      } else {
        OpenExactlyWhenSurvivable(Step(s, e), events[1..]);
      }
    }
  }

  /** The channel of a run stays open if and only if every throw and timer of it was survivable. */
  lemma ChannelSurvives(events: seq<Event>)
    ensures !Run(Step, Initial, events).closed <==> AllSurvivable(Initial, events)
  {
    OpenExactlyWhenSurvivable(Initial, events);
  }

  lemma {:induction false} NoThrowsNoDiscards(s: State, events: seq<Event>)
    requires Inv(s) && !s.closed && s.discarded == {}
    requires forall e :: e in events ==> !e.CallbackThrows?
    ensures Run(Step, s, events).discarded == {} && AllSurvivable(s, events)
    decreases |events|
  {
    if events == [] {
    } else {
      var e := events[0];
      StepKeeps(s, e);
      match e {
        case Delivery => DeliverKeeps(s);
        case TimerFires => if s.timerArmed { TimerKeeps(s); }
        case CallbackEnds(_) =>
        case CallbackThrows(_) => assert e in events;
      }
      NoThrowsNoDiscards(Step(s, e), events[1..]);
    }
  }

  /**
   In runs where no callback throws: the channel stays open; the acknowledged deliveries followed
   by the buffered ones are all deliveries, once each and in order; the buffer is exactly what the
   broker holds; it stays below the batch size; and the timer is armed exactly when it is non-empty.
   */
  lemma NoThrowGuarantees(events: seq<Event>)
    requires forall e :: e in events ==> !e.CallbackThrows?
    ensures var s := Run(Step, Initial, events);
            && !s.closed
            && s.acked + s.ackBuffer == Range(0, s.nextTag)
            && s.unsettled == s.ackBuffer
            && |s.ackBuffer| < ACK_BATCH_SIZE
            && (s.timerArmed <==> s.ackBuffer != [])
  {
    NoThrowsNoDiscards(Initial, events);
    ChannelSurvives(events);
    EveryRunKeepsInv(events);
    var s := Run(Step, Initial, events);
    AckedAndBuffered(s);
    ExceptNothing(s.ackBuffer);
    ExceptNothing(Range(0, s.nextTag));
  }

  lemma {:induction false} ExceptMultiset(s: seq<Tag>, gone: set<Tag>, tag: Tag)
    ensures multiset(Except(s, gone))[tag] == if tag in gone then 0 else multiset(s)[tag]
  {
    if s != [] {
      ExceptMultiset(s[1..], gone, tag);
      assert s == [s[0]] + s[1..];
    }
  }

  lemma {:induction false} RangeOnce(n: nat, tag: Tag)
    ensures multiset(Range(0, n))[tag] == if tag < n then 1 else 0
  {
    if n > 0 {
      RangeOnce(n - 1, tag);
      assert Range(0, n) == Range(0, n - 1) + [n - 1];
    }
  }

  /**
   With or without throws, as long as the channel is open every delivery is in exactly one
   place: acknowledged once, rejected, or held by the broker.
   */
  lemma EveryTagInOnePlace(events: seq<Event>, tag: Tag)
    requires !Run(Step, Initial, events).closed
    ensures var s := Run(Step, Initial, events);
            multiset(s.acked)[tag] + multiset(s.unsettled)[tag] + (if tag in s.discarded then 1 else 0)
            == if tag < s.nextTag then 1 else 0
  {
    EveryRunKeepsInv(events);
    var s := Run(Step, Initial, events);
    AckedAndBuffered(s);
    ExceptMultiset(Range(0, s.nextTag), s.discarded, tag);
    RangeOnce(s.nextTag, tag);
  }

  lemma FilledBatch(s: State)
    requires Inv(s) && !s.closed && |s.ackBuffer| == ACK_BATCH_SIZE - 1
    ensures var d := Step(s, Delivery);
            s.nextTag in d.acked && s.nextTag !in d.ackBuffer && InProgress(d, s.nextTag)
  {
    HeldIsAccounted(s);
    DeliveryAcksOnlyAFullBatch(s);
    ExceptMember(Range(0, s.nextTag + 1), s.discarded, s.nextTag);
    assert Range(0, s.nextTag + 1)[s.nextTag] == s.nextTag;
  }

  /**
   The delivery that fills the batch is acknowledged before its callback is called, so if that
   callback throws, its rejection closes the channel.
   */
  lemma BatchFillingDeliveryCannotFail(s: State)
    requires Inv(s) && !s.closed && |s.ackBuffer| == ACK_BATCH_SIZE - 1
    ensures var d := Step(s, Delivery);
            && s.nextTag in d.acked && InProgress(d, s.nextTag)
            && Step(d, CallbackThrows(s.nextTag)).closed
  {
    var d := Step(s, Delivery);
    DeliverKeeps(s);
    FilledBatch(s);
    ThrowOutcome(d, s.nextTag);
  }

  // ----- What each event does -----

  /**
   A timer that finds its newest buffered delivery not rejected settles everything: every delivery so far is
   acknowledged or rejected, and nothing is buffered or armed.
   */
  lemma TimerSettlesEverything(s: State)
    requires Inv(s) && !s.closed && s.timerArmed && s.nextTag - 1 !in s.discarded
    ensures var t := Step(s, TimerFires);
            && !t.closed && t.acked == Except(Range(0, s.nextTag), s.discarded)
            && t.unsettled == [] && t.ackBuffer == [] && !t.timerArmed
            && t.nextTag == s.nextTag && t.discarded == s.discarded && t.finished == s.finished
  {
    FlushOutcome(s);
  }

  /** So at the end of every run that a timer ends, with the channel open, no delivery is left waiting. */
  lemma NothingWaitsAfterTheTimer(events: seq<Event>, tag: Tag)
    requires !Run(Step, Initial, events + [TimerFires]).closed
    ensures var s := Run(Step, Initial, events + [TimerFires]);
            && s.unsettled == [] && s.ackBuffer == [] && !s.timerArmed
            && (tag in s.acked <==> tag < s.nextTag && tag !in s.discarded)
  {
    EveryRunKeepsInv(events);
    RunAppend(Step, Initial, events, TimerFires);
    var before, s := Run(Step, Initial, events), Run(Step, Initial, events + [TimerFires]);
    if before.timerArmed {
      FlushOutcome(before);
    }
    AckedAndBuffered(s);
    assert s.acked + [] == s.acked;
    ExceptMember(Range(0, s.nextTag), s.discarded, tag);
    assert tag < s.nextTag ==> Range(0, s.nextTag)[tag] == tag;
  }

  /** A delivery is counted, once, and neither ends nor rejects anything. */
  lemma DeliveryIsCounted(s: State)
    requires Inv(s) && !s.closed
    ensures var t := Step(s, Delivery);
            t.nextTag == s.nextTag + 1 && t.finished == s.finished && t.discarded == s.discarded
  {
    HeldIsAccounted(s);
    if |Held(s).ackBuffer| >= ACK_BATCH_SIZE {
      FlushOutcome(Held(s));
    }
  }

  /** The end of a callback settles nothing; its throw rejects exactly its own delivery while that is buffered. */
  lemma EndsTouchOnlyTheirDelivery(s: State, tag: Tag, threw: bool, other: Tag)
    requires Inv(s) && !s.closed && InProgress(s, tag) && (threw ==> tag in s.ackBuffer)
    ensures var t := Step(s, if threw then CallbackThrows(tag) else CallbackEnds(tag));
            && (other in t.finished <==> other in s.finished || other == tag)
            && (other in t.discarded <==> other in s.discarded || (threw && other == tag))
            && (other in t.unsettled <==> other in s.unsettled && !(threw && other == tag))
            && t.acked == s.acked && t.ackBuffer == s.ackBuffer && t.timerArmed == s.timerArmed && t.nextTag == s.nextTag
  {
    ExceptMember(s.ackBuffer, s.discarded, tag);
    ExceptMember(s.unsettled, {tag}, other);
  }

  /** A callback ends once, the timer fires only while armed, and a closed channel is left as it is. */
  lemma IdleEvents(s: State, e: Event)
    requires match e
             case Delivery => s.closed
             case TimerFires => s.closed || !s.timerArmed
             case CallbackEnds(tag) => s.closed || !InProgress(s, tag)
             case CallbackThrows(tag) => s.closed || !InProgress(s, tag)
    ensures Step(s, e) == s
  {
  }

  /** The broker's side of one channel. */
  class Channel {
    var nextTag: Tag
    var unsettled: seq<Tag>
    var acked: seq<Tag>
    var discarded: set<Tag>
    var closed: bool

    constructor ()
      ensures nextTag == 0 && unsettled == [] && acked == [] && discarded == {} && !closed
    {
      nextTag, unsettled, acked, discarded, closed := 0, [], [], {}, false;
    }

    method Send() returns (tag: Tag)
      requires !closed
      modifies this
      ensures tag == old(nextTag) && nextTag == tag + 1 && unsettled == old(unsettled) + [tag]
      ensures acked == old(acked) && discarded == old(discarded) && !closed
    {
      tag := nextTag;
      nextTag := nextTag + 1;
      unsettled := unsettled + [tag];
    }

    method Ack(tag: Tag)
      modifies this
      ensures nextTag == old(nextTag) && discarded == old(discarded)
      ensures closed == (old(closed) || tag !in old(unsettled))
      ensures tag in old(unsettled) ==>
                acked == old(acked) + UpToTag(old(unsettled), tag) && unsettled == Above(old(unsettled), tag)
      ensures tag !in old(unsettled) ==> acked == old(acked) && unsettled == old(unsettled)
    {
      if tag in unsettled {
        acked := acked + UpToTag(unsettled, tag);
        unsettled := Above(unsettled, tag);
      } else {
        closed := true;
      }
    }

    method Nack(tag: Tag)
      modifies this
      ensures nextTag == old(nextTag) && acked == old(acked)
      ensures closed == (old(closed) || tag !in old(unsettled))
      ensures discarded == old(discarded) + if tag in old(unsettled) then {tag} else {}
      ensures unsettled == if tag in old(unsettled) then Except(old(unsettled), {tag}) else old(unsettled)
    {
      if tag in unsettled {
        discarded := discarded + {tag};
        unsettled := Except(unsettled, {tag});
      } else {
        closed := true;
      }
    }
  }

  /** The consumer: its buffer, its timer and the delivery handler. */
  class Consumer {
    const channel: Channel
    var ackBuffer: seq<Tag>
    var ackTimer: bool
    ghost var finished: set<Tag>

    ghost function View(): State
      reads this, channel
    {
      State(channel.nextTag, channel.unsettled, channel.acked, channel.discarded, channel.closed,
            ackBuffer, ackTimer, finished)
    }

    constructor ()
      ensures View() == Initial && fresh(channel)
    {
      channel := new Channel();
      ackBuffer, ackTimer, finished := [], false, {};
    }

    method Flush()
      requires !channel.closed
      modifies this, channel
      ensures View() == FlushAcks(old(View()))
    {
      if |ackBuffer| > 0 {
        var lastMsg := ackBuffer[|ackBuffer| - 1];
        channel.Ack(lastMsg);
        ackBuffer := [];
        if ackTimer {
          ackTimer := false;
        }
      }
    }

    /** The handler up to the call of the callback. */
    method OnMessage()
      requires !channel.closed && Inv(View())
      modifies this, channel
      ensures View() == Step(old(View()), Delivery)
      ensures Inv(View()) && !channel.closed
    {
      DeliverKeeps(View());
      var tag := channel.Send();
      ackBuffer := ackBuffer + [tag];
      if |ackBuffer| >= ACK_BATCH_SIZE {
        Flush();
      } else if !ackTimer {
        ackTimer := true;
      }
    }

    method OnTimer()
      requires !channel.closed && OpenInv(View()) && ackTimer
      modifies this, channel
      ensures View() == Step(old(View()), TimerFires)
      ensures OpenInv(View())
    {
      StepKeeps(View(), TimerFires);
      Flush();
    }

    /** The handler from the end of the callback on; the channel may have been closed meanwhile. */
    method OnCallbackEnd(tag: Tag, threw: bool)
      requires OpenInv(View()) && InProgress(View(), tag)
      modifies this, channel
      ensures View() == if old(channel.closed) then old(View()).(finished := old(finished) + {tag})
                        else Step(old(View()), if threw then CallbackThrows(tag) else CallbackEnds(tag))
      ensures OpenInv(View())
    {
      StepKeeps(View(), if threw then CallbackThrows(tag) else CallbackEnds(tag));
      finished := finished + {tag};
      if threw && !channel.closed {
        channel.Nack(tag);
      }
    }
  }
}
