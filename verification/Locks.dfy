/**
 Distributed locks in the shared "locks" hash, and the two disciplines that use them. The cron
 scheduler releases only a lock it was given; the socket event handlers release in a `finally`
 that also runs when the lock was refused or asking for it threw. Both share one hash, so runs
 mix them, with the acquisition and the release of every invocation as separate steps, and
 either call to the hash may throw, before or after it was applied.
 */
module Locks {
  import opened Options
  import opened Runs

  type Key = string
  type Invocation = nat

  datatype Purpose =
    | Cron(id: string)                        // CronJobScheduler.uniqueSchedule
    | Handler(event: string, channel: string) // SocketAuth.authCharacterOn
    | Locked(event: string, character: string) // SocketAuthLock.performLockedEvent

  function KeyOf(p: Purpose): Key {
    match p
    case Cron(id) => "cron-job-unique-schedule-" + id
    case Handler(event, channel) => "global-lock-event-" + event + "-" + channel
    case Locked(event, character) => "event-" + event + "-" + character
  }

  /** Running: holds what it was given. Refused: was given nothing, and will release all the same. */
  datatype Stage = Running | Refused

  /** How a call to the hash ends. */
  datatype Reply = Answered | ThrewUnapplied | ThrewApplied

  datatype State = State(locks: set<Key>, active: map<Invocation, (Purpose, Stage)>)

  datatype Event =
    | Fire(who: Invocation, purpose: Purpose, reply: Reply)    // a tick or a delivery: lock, then run or give up
    | Finish(who: Invocation, threw: bool, reply: Reply)       // the task ended, or the refusal returned: `finally`

  const Initial := State({}, map[])

  function Step(s: State, e: Event): State {
    match e
    case Fire(who, purpose, reply) =>
      var key := KeyOf(purpose);
      var locks := if reply.ThrewUnapplied? then s.locks else s.locks + {key};
      if who in s.active then s
      else if reply.Answered? && key !in s.locks then State(locks, s.active[who := (purpose, Running)])
      else if purpose.Cron? then s.(locks := locks)
      else State(locks, s.active[who := (purpose, Refused)])
    case Finish(who, _, reply) =>
      if who !in s.active then s
      else State(if reply.ThrewUnapplied? then s.locks else s.locks - {KeyOf(s.active[who].0)}, s.active - {who})
  }

  predicate IsRunning(s: State, who: Invocation, key: Key) {
    who in s.active && s.active[who].1 == Running && KeyOf(s.active[who].0) == key
  }

  ghost predicate SomeRuns(s: State, key: Key) {
    exists a :: IsRunning(s, a, key)
  }

  ghost predicate Exclusive(s: State, key: Key) {
    forall a, b :: IsRunning(s, a, key) && IsRunning(s, b, key) ==> a == b
  }

  // ----- The scheduler -----

  lemma KeysApart(id: string, p: Purpose)
    ensures KeyOf(p) == KeyOf(Cron(id)) <==> p == Cron(id)
  {
    var prefix := "cron-job-unique-schedule-";
    match p
    case Cron(other) =>
      if prefix + other == prefix + id {
        assert other == (prefix + other)[|prefix|..];
        assert id == (prefix + id)[|prefix|..];
      }
    case Handler(event, channel) => assert KeyOf(p)[0] == 'g' && KeyOf(Cron(id))[0] == 'c';
    case Locked(event, character) => assert KeyOf(p)[0] == 'e' && KeyOf(Cron(id))[0] == 'c';
  }

  /** One running task at most, and while it runs its key is locked. */
  ghost predicate CronInv(id: string, s: State) {
    var key := KeyOf(Cron(id));
    && Exclusive(s, key)
    && (SomeRuns(s, key) ==> key in s.locks)
    && (forall a :: a in s.active && s.active[a].0 == Cron(id) ==> s.active[a].1 == Running)
  }

  lemma OthersRunOn(s: State, e: Event, key: Key)
    ensures forall a :: a != e.who ==> (IsRunning(Step(s, e), a, key) <==> IsRunning(s, a, key))
  {
  }

  lemma CronStepKeeps(id: string, s: State, e: Event)
    requires CronInv(id, s)
    ensures CronInv(id, Step(s, e))
  {
    OthersRunOn(s, e, KeyOf(Cron(id)));
    var purpose := if e.Fire? then e.purpose else if e.who in s.active then s.active[e.who].0 else Cron(id);
    KeysApart(id, purpose);
    if e.Finish? && IsRunning(s, e.who, KeyOf(Cron(id))) {
      assert forall a :: !IsRunning(Step(s, e), a, KeyOf(Cron(id)));
    }
  }

  lemma EveryRunKeepsCron(id: string, events: seq<Event>)
    ensures CronInv(id, Run(Step, Initial, events))
  {
    var inv := (s: State) => CronInv(id, s);
    forall s, e | inv(s) ensures inv(Step(s, e)) {
      CronStepKeeps(id, s, e);
    }
    Invariance(Step, inv, Initial, events);
  }

  /**
   Main result for the scheduler: with any number of instances, in any interleaving, whatever calls
   to the hash throw, and whatever socket handlers do in it, at most one task of a cron id runs, and
   its key is locked while it runs.
   */
  lemma UniqueScheduleIsUnique(id: string, events: seq<Event>)
    ensures var s := Run(Step, Initial, events);
            var key := KeyOf(Cron(id));
            Exclusive(s, key) && (SomeRuns(s, key) ==> key in s.locks)
  {
    EveryRunKeepsCron(id, events);
  }

  /** The key is locked and no task holds it. */
  ghost predicate Orphaned(s: State, key: Key) {
    key in s.locks && !SomeRuns(s, key)
  }

  /** A lock was set but the reply was lost, or the release of a lock did not reach the hash. */
  predicate Leaks(id: string, s: State, e: Event) {
    match e
    case Fire(who, purpose, reply) =>
      who !in s.active && purpose == Cron(id) && reply.ThrewApplied? && KeyOf(purpose) !in s.locks
    case Finish(who, _, reply) => IsRunning(s, who, KeyOf(Cron(id))) && reply.ThrewUnapplied?
  }

  lemma OrphanedStepIff(id: string, s: State, e: Event)
    requires CronInv(id, s)
    ensures Orphaned(Step(s, e), KeyOf(Cron(id))) <==> Orphaned(s, KeyOf(Cron(id))) || Leaks(id, s, e)
  {
    var key := KeyOf(Cron(id));
    var t := Step(s, e);
    OthersRunOn(s, e, key);
    var purpose := if e.Fire? then e.purpose else if e.who in s.active then s.active[e.who].0 else Cron(id);
    KeysApart(id, purpose);
    if SomeRuns(s, key) {
      var a :| IsRunning(s, a, key);
      assert IsRunning(t, a, key) || (e.Finish? && e.who == a && forall b :: !IsRunning(t, b, key));
    } else {
      assert !IsRunning(s, e.who, key);
      assert SomeRuns(t, key) <==> IsRunning(t, e.who, key);
    }
  }

  /**
   The key is locked exactly while a task runs, up to the moment a lock's reply or a release is lost:
   a key outlives its task if and only if that has happened in the run.
   */
  lemma KeyOutlivesItsTaskIff(id: string, events: seq<Event>)
    ensures !Orphaned(Run(Step, Initial, events), KeyOf(Cron(id)))
            <==> (forall k :: 0 <= k < |events| ==> !Leaks(id, Run(Step, Initial, events[..k]), events[k]))
  {
    var given := (s: State) => CronInv(id, s);
    var held := (s: State) => !Orphaned(s, KeyOf(Cron(id)));
    var safe := (s: State, e: Event) => !Leaks(id, s, e);
    forall s, e | given(s) ensures given(Step(s, e)) && (held(Step(s, e)) <==> held(s) && safe(s, e)) {
      CronStepKeeps(id, s, e);
      OrphanedStepIff(id, s, e);
    }
    HoldsAtEndIff(Step, given, held, safe, Initial, events);
  }

  /** From then on no instance ever runs the task again. */
  lemma OrphanedForEver(id: string, before: seq<Event>, after: seq<Event>)
    requires Orphaned(Run(Step, Initial, before), KeyOf(Cron(id)))
    ensures Orphaned(Run(Step, Initial, before + after), KeyOf(Cron(id)))
  {
    EveryRunKeepsCron(id, before);
    RunConcat(Step, Initial, before, after);
    var inv := (s: State) => CronInv(id, s) && Orphaned(s, KeyOf(Cron(id)));
    forall s, e | inv(s) ensures inv(Step(s, e)) {
      CronStepKeeps(id, s, e);
      OrphanedStepIff(id, s, e);
    }
    Invariance(Step, inv, Run(Step, Initial, before), after);
  }

  /** A task whose release reaches the hash frees its key however it ended, and the next tick of any instance runs. */
  lemma FinishedTaskFreesItsKey(id: string, before: seq<Event>, who: Invocation, threw: bool, reply: Reply,
                                next: Invocation)
    requires IsRunning(Run(Step, Initial, before), who, KeyOf(Cron(id))) && !reply.ThrewUnapplied?
    requires next !in Run(Step, Initial, before).active
    ensures var s := Run(Step, Initial, before + [Finish(who, threw, reply)]);
            && KeyOf(Cron(id)) !in s.locks
            && IsRunning(Step(s, Fire(next, Cron(id), Answered)), next, KeyOf(Cron(id)))
  {
    RunAppend(Step, Initial, before, Finish(who, threw, reply));
  }

  // ----- The socket handlers -----

  ghost predicate Overlap(s: State, key: Key) {
    exists a, b :: a != b && IsRunning(s, a, key) && IsRunning(s, b, key)
  }

  /** Someone runs under a key that is free: the next delivery would run too. */
  ghost predicate Exposed(s: State, key: Key) {
    key !in s.locks && SomeRuns(s, key)
  }

  /**
   The socket disciplines do not exclude: of any three deliveries under one key, the second is
   refused, its return opens the lock, and the third runs beside the first.
   */
  lemma SocketGuardBreaks(p: Purpose, a: Invocation, b: Invocation, c: Invocation)
    requires !p.Cron? && a != b && b != c && a != c
    ensures var events := [Fire(a, p, Answered), Fire(b, p, Answered), Finish(b, false, Answered), Fire(c, p, Answered)];
            Overlap(Run(Step, Initial, events), KeyOf(p))
  {
    var key := KeyOf(p);
    var e1, e2, e3, e4 := Fire(a, p, Answered), Fire(b, p, Answered), Finish(b, false, Answered), Fire(c, p, Answered);
    RunAppend(Step, Initial, [], e1);
    RunAppend(Step, Initial, [e1], e2);
    RunAppend(Step, Initial, [e1, e2], e3);
    RunAppend(Step, Initial, [e1, e2, e3], e4);
    assert [] + [e1] == [e1] && [e1] + [e2] == [e1, e2] && [e1, e2] + [e3] == [e1, e2, e3];
    assert [e1, e2, e3] + [e4] == [e1, e2, e3, e4];
    var end := Run(Step, Initial, [e1, e2, e3, e4]);
    assert IsRunning(end, a, key) && IsRunning(end, c, key);
  }

  /** The delivery of a key that is given its lock while the key is exposed. */
  ghost predicate Collides(s: State, e: Event, key: Key) {
    && e.Fire? && e.who !in s.active && KeyOf(e.purpose) == key && e.reply.Answered?
    && Exposed(s, key)
  }

  lemma StepKeepsExclusiveIff(s: State, e: Event, key: Key)
    requires Exclusive(s, key)
    ensures Exclusive(Step(s, e), key) <==> !Collides(s, e, key)
  {
    OthersRunOn(s, e, key);
    if Collides(s, e, key) {
      var a :| IsRunning(s, a, key);
      assert IsRunning(Step(s, e), a, key) && IsRunning(Step(s, e), e.who, key);
    }
  }

  /**
   Main result for both disciplines: at no point of a run do two invocations run under one key if
   and only if no delivery is given the lock while the key is free and its holder runs.
   */
  lemma ExclusiveThroughoutIff(s: State, key: Key, events: seq<Event>)
    requires Exclusive(s, key)
    ensures (forall k :: 0 <= k <= |events| ==> Exclusive(Run(Step, s, events[..k]), key))
            <==> (forall k :: 0 <= k < |events| ==> !Collides(Run(Step, s, events[..k]), events[k], key))
  {
    var exclusive := (s: State) => Exclusive(s, key);
    var safe := (s: State, e: Event) => !Collides(s, e, key);
    forall t, e | exclusive(t) ensures exclusive(Step(t, e)) <==> safe(t, e) {
      StepKeepsExclusiveIff(t, e, key);
    }
    HoldsThroughoutIff(Step, _ => true, exclusive, safe, s, events);
  }

  /** A key becomes exposed exactly when an invocation of it that is not the only one to run releases it. */
  lemma BecomesExposedIff(s: State, e: Event, key: Key)
    requires !Exposed(s, key)
    ensures Exposed(Step(s, e), key)
            <==> e.Finish? && e.who in s.active && KeyOf(s.active[e.who].0) == key && !e.reply.ThrewUnapplied?
                 && exists a :: a != e.who && IsRunning(s, a, key)
  {
    var t := Step(s, e);
    OthersRunOn(s, e, key);
    if SomeRuns(s, key) {
      var a :| IsRunning(s, a, key);
      assert a != e.who ==> IsRunning(t, a, key);
    }
    if exists a :: a != e.who && IsRunning(s, a, key) {
      var a :| a != e.who && IsRunning(s, a, key);
      assert IsRunning(t, a, key);
    }
  }

  ghost predicate RefusalFree(s: State, key: Key, events: seq<Event>)
    decreases |events|
  {
    events == [] ||
    (  (events[0].Fire? && KeyOf(events[0].purpose) == key && events[0].who !in s.active ==>
          key !in s.locks && events[0].reply.Answered?)
    && RefusalFree(Step(s, events[0]), key, events[1..]))
  }

  ghost predicate HolderInv(s: State, key: Key) {
    && Exclusive(s, key)
    && (SomeRuns(s, key) ==> key in s.locks)
    && (forall a :: a in s.active && KeyOf(s.active[a].0) == key ==> s.active[a].1 == Running)
  }

  /** In particular, a run in which every delivery of a key is given its lock keeps the key exclusive. */
  lemma {:induction false} ExclusiveWithoutRefusals(s: State, key: Key, events: seq<Event>)
    requires HolderInv(s, key) && RefusalFree(s, key, events)
    ensures HolderInv(Run(Step, s, events), key)
    decreases |events|
  {
    if events == [] {
    } else {
      var e := events[0];
      var t := Step(s, e);
      OthersRunOn(s, e, key);
      StepKeepsExclusiveIff(s, e, key);
      if e.Finish? && IsRunning(s, e.who, key) {
        assert forall a :: !IsRunning(t, a, key);
      }
      ExclusiveWithoutRefusals(t, key, events[1..]);
    }
  }

  // ----- What each event does -----

  /**
   A tick or delivery runs if and only if its lock was free and the call answered. A refused or throwing cron tick
   leaves nothing behind; a refused or throwing socket delivery still has its release to come.
   */
  lemma FiresIff(s: State, who: Invocation, purpose: Purpose, reply: Reply)
    requires who !in s.active
    ensures var t := Step(s, Fire(who, purpose, reply));
            var granted := reply.Answered? && KeyOf(purpose) !in s.locks;
            && (IsRunning(t, who, KeyOf(purpose)) <==> granted)
            && (who in t.active <==> granted || !purpose.Cron?)
            && (who in t.active ==> t.active[who].0 == purpose)
            && (forall key :: key in t.locks <==> key in s.locks || (key == KeyOf(purpose) && !reply.ThrewUnapplied?))
  {
  }

  /** Whoever finishes releases their own key, if the call reaches the hash, and no other. */
  lemma FinishReleases(s: State, who: Invocation, threw: bool, reply: Reply, key: Key)
    requires who in s.active
    ensures var t := Step(s, Finish(who, threw, reply));
            && who !in t.active
            && (key in t.locks <==> key in s.locks && (key != KeyOf(s.active[who].0) || reply.ThrewUnapplied?))
  {
  }

  /** No event touches another invocation, nor anything when it is out of turn. */
  lemma OtherInvocationsStay(s: State, e: Event, other: Invocation)
    requires other != e.who
    ensures (other in Step(s, e).active <==> other in s.active)
         && (other in s.active ==> Step(s, e).active[other] == s.active[other])
    ensures (e.Fire? <==> e.who in s.active) ==> Step(s, e) == s
  {
  }

  /** So a socket delivery whose lock call throws frees the key in the end, whoever holds it. */
  lemma ThrowingDeliveryFreesTheKey(s: State, who: Invocation, purpose: Purpose, reply: Reply)
    requires who !in s.active && !purpose.Cron? && !reply.Answered?
    ensures var t := Run(Step, s, [Fire(who, purpose, reply), Finish(who, true, Answered)]);
            && KeyOf(purpose) !in t.locks
            && (forall holder :: holder != who && IsRunning(s, holder, KeyOf(purpose)) ==> Exposed(t, KeyOf(purpose)))
  {
    RunAppend(Step, s, [], Fire(who, purpose, reply));
    RunAppend(Step, s, [Fire(who, purpose, reply)], Finish(who, true, Answered));
    assert [] + [Fire(who, purpose, reply)] == [Fire(who, purpose, reply)];
    assert [Fire(who, purpose, reply)] + [Finish(who, true, Answered)]
        == [Fire(who, purpose, reply), Finish(who, true, Answered)];
    var t := Run(Step, s, [Fire(who, purpose, reply), Finish(who, true, Answered)]);
    forall holder | holder != who && IsRunning(s, holder, KeyOf(purpose)) ensures Exposed(t, KeyOf(purpose)) {
      assert IsRunning(t, holder, KeyOf(purpose));
    }
  }

  lemma KeysAre(purpose: Purpose)
    ensures match purpose
            case Cron(id) => KeyOf(purpose)[..25] == "cron-job-unique-schedule-" && KeyOf(purpose)[25..] == id
            case Handler(event, channel) =>
              KeyOf(purpose)[..18] == "global-lock-event-" && KeyOf(purpose)[18..] == event + "-" + channel
            case Locked(event, character) =>
              KeyOf(purpose)[..6] == "event-" && KeyOf(purpose)[6..] == event + "-" + character
  {
    match purpose
    case Cron(id) =>
    case Handler(event, channel) => assert KeyOf(purpose) == "global-lock-event-" + (event + "-" + channel);
    case Locked(event, character) => assert KeyOf(purpose) == "event-" + (event + "-" + character);
  }

  /** The shared hash. */
  class Locker {
    var locks: set<Key>

    constructor ()
      ensures locks == {}
    {
      locks := {};
    }

    /** Gives no answer when the call throws. */
    method Lock(key: Key, reply: Reply) returns (answer: Option<bool>)
      modifies this
      ensures answer == if reply.Answered? then Some(key !in old(locks)) else None
      ensures locks == if reply.ThrewUnapplied? then old(locks) else old(locks) + {key}
    {
      if reply.ThrewUnapplied? {
        return None;
      }
      var absent := key !in locks;
      if absent {
        locks := locks + {key};
      }
      return if reply.Answered? then Some(absent) else None;
    }

    method Unlock(key: Key, reply: Reply) returns (ok: bool)
      modifies this
      ensures ok == reply.Answered?
      ensures locks == if reply.ThrewUnapplied? then old(locks) else old(locks) - {key}
    {
      if !reply.ThrewUnapplied? {
        locks := locks - {key};
      }
      ok := reply.Answered?;
    }
  }

  /** The instances of both disciplines, over one hash. */
  class Instances {
    const locker: Locker
    var active: map<Invocation, (Purpose, Stage)>

    ghost function View(): State
      reads this, locker
    {
      State(locker.locks, active)
    }

    constructor ()
      ensures View() == Initial && fresh(locker)
    {
      locker := new Locker();
      active := map[];
    }

    /** Asking for the lock is outside the `try`: nothing follows when it is refused or throws. */
    method UniqueScheduleTick(who: Invocation, id: string, reply: Reply)
      requires who !in active
      modifies this, locker
      ensures View() == Step(old(View()), Fire(who, Cron(id), reply))
    {
      var canProceed := locker.Lock(KeyOf(Cron(id)), reply);
      if canProceed != Some(true) {
        return;
      }
      active := active[who := (Cron(id), Running)];
    }

    /** Here it is inside: the `finally` follows in every case. */
    method SocketDelivery(who: Invocation, purpose: Purpose, reply: Reply)
      requires who !in active && !purpose.Cron?
      modifies this, locker
      ensures View() == Step(old(View()), Fire(who, purpose, reply))
    {
      var hasLocked := locker.Lock(KeyOf(purpose), reply);
      active := active[who := (purpose, if hasLocked == Some(true) then Running else Refused)];
    }

    method Finally(who: Invocation, threw: bool, reply: Reply)
      requires who in active
      modifies this, locker
      ensures View() == Step(old(View()), Finish(who, threw, reply))
    {
      var released := locker.Unlock(KeyOf(active[who].0), reply);
      active := active - {who};
    }
  }
}
