/**
 The dynamic queue allocator: three maps from queue names, filled by addJob and emptied by one
 monitor per queue, and the pool clients behind them. Every addJob and every monitor tick is one
 step; each call that can throw does so as the event says.
 */
module DynamicQueue {
  import opened Runs
  import opened RedisPool

  type Name = string

  /** The monitor's lock: given, given but not released cleanly, refused, or the call throws. */
  datatype Lock = Granted | GrantedUnlockThrows | Refused | LockThrows

  /** How closing the resources of a queue goes. */
  datatype Closing = Clean | WorkerCloseThrows | QueueCloseThrows

  /** What a monitor's tick finds. */
  datatype Check = StillActive | CheckThrows | ShutDown(closing: Closing, releaseThrows: bool)

  datatype Event =
    | AddJob(name: Name, acquire: Acquire, lock: Lock, workerThrows: bool)
    | Tick(name: Name, check: Check)

  /** A queue and a worker are known by the client they were built on. */
  datatype State = State(
    queues: map<Name, Client>,
    workers: map<Name, Client>,
    queueConnections: map<Name, Client>,
    monitors: map<Name, Client>,
    borrowed: set<Client>,
    leaked: set<Client>,     // history: clients whose return threw
    stale: set<Name>         // history: queues left behind by a cleanup that threw
  )

  const Initial := State(map[], map[], map[], map[], {}, {}, {})

  function WithConnection(s: State, name: Name, acquire: Acquire): State {
    if name in s.queueConnections then s
    else if acquire.Lends? && acquire.client !in s.borrowed then
      s.(borrowed := s.borrowed + {acquire.client},
         queueConnections := s.queueConnections[name := acquire.client])
    else s
  }

  function NewQueue(s: State, name: Name): State
    requires name in s.queueConnections
  {
    s.(queues := s.queues[name := s.queueConnections[name]])
  }

  function NewMonitor(s: State, name: Name): State
    requires name in s.queueConnections
  {
    s.(monitors := s.monitors[name := s.queueConnections[name]])
  }

  function NewWorker(s: State, name: Name): State
    requires name in s.queueConnections
  {
    s.(workers := s.workers[name := s.queueConnections[name]])
  }

  function WithQueue(s: State, name: Name, lock: Lock, workerThrows: bool): State {
    if name in s.queues || name !in s.queueConnections then s
    else
      var queued := NewQueue(s, name);
      var monitored := if lock.Granted? || lock.GrantedUnlockThrows? then NewMonitor(queued, name) else queued;
      if lock.LockThrows? || lock.GrantedUnlockThrows? || name in s.workers || workerThrows then monitored
      else NewWorker(monitored, name)
  }

  function Cleanup(s: State, name: Name, client: Client, closing: Closing, releaseThrows: bool): State {
    var stops := closing.WorkerCloseThrows? && name in s.workers;
    var fails := closing.QueueCloseThrows? && name in s.queues;
    s.(workers := if stops then s.workers else s.workers - {name},
       queues := if stops || fails then s.queues else s.queues - {name},
       stale := if stops || fails then s.stale + {name} else s.stale,
       borrowed := if releaseThrows then s.borrowed else s.borrowed - {client},
       leaked := if releaseThrows && client in s.borrowed then s.leaked + {client} else s.leaked,
       queueConnections := s.queueConnections - {name})
  }

  function Step(s: State, e: Event): State {
    match e
    case AddJob(name, acquire, lock, workerThrows) =>
      WithQueue(WithConnection(s, name, acquire), name, lock, workerThrows)
    case Tick(name, check) =>
      if name !in s.monitors then s
      else match check
        case StillActive => s
        case CheckThrows => s.(monitors := s.monitors - {name})
        case ShutDown(closing, releaseThrows) =>
          Cleanup(s, name, s.monitors[name], closing, releaseThrows).(monitors := s.monitors - {name})
  }

  ghost predicate HeldFor(s: State, n: Name, c: Client) {
    n in s.queueConnections && s.queueConnections[n] == c
  }

  /** The clients borrowed for queues are the connections, one per name, and those whose return threw. */
  ghost predicate PoolInv(s: State) {
    && (forall n :: n in s.queueConnections ==> s.queueConnections[n] in s.borrowed && s.queueConnections[n] !in s.leaked)
    && (forall n, m :: n in s.queueConnections && m in s.queueConnections && s.queueConnections[n] == s.queueConnections[m]
          ==> n == m)
    && (forall c :: c in s.borrowed ==> c in s.leaked || exists n :: HeldFor(s, n, c))
    && s.leaked <= s.borrowed
  }

  /**
   Workers and monitors belong to queues, and a monitor watches over its name's own client. Unless
   its cleanup threw, a queue and its worker run on the client borrowed for its name.
   */
  ghost predicate NamesInv(s: State) {
    && (forall n :: n in s.stale ==> n in s.queues)
    && (forall n :: n in s.workers ==> n in s.queues && s.workers[n] == s.queues[n])
    && (forall n :: n in s.monitors ==> n in s.queues && n !in s.stale && HeldFor(s, n, s.monitors[n]))
    && (forall n :: n in s.queues && n !in s.stale ==> HeldFor(s, n, s.queues[n]))
  }

  ghost predicate Inv(s: State) {
    PoolInv(s) && NamesInv(s)
  }

  lemma ConnectionKeeps(s: State, name: Name, acquire: Acquire)
    requires Inv(s)
    ensures Inv(WithConnection(s, name, acquire))
  {
    var t := WithConnection(s, name, acquire);
    if t != s {
      forall c | c in t.borrowed && c !in t.leaked ensures exists n :: HeldFor(t, n, c) {
        if c == acquire.client {
          assert HeldFor(t, name, c);
        } else {
          var n :| HeldFor(s, n, c);
          assert HeldFor(t, n, c);
        }
      }
    }
  }

  lemma NewQueueKeeps(s: State, name: Name)
    requires Inv(s) && name in s.queueConnections && name !in s.queues
    ensures Inv(NewQueue(s, name))
  {
    var t := NewQueue(s, name);
    forall n, c ensures HeldFor(t, n, c) <==> HeldFor(s, n, c) {
    }
  }

  lemma NewMonitorKeeps(s: State, name: Name)
    requires Inv(s) && name in s.queueConnections && name in s.queues && name !in s.stale
    ensures Inv(NewMonitor(s, name))
  {
    var t := NewMonitor(s, name);
    forall n, c ensures HeldFor(t, n, c) <==> HeldFor(s, n, c) {
    }
  }

  lemma NewWorkerKeeps(s: State, name: Name)
    requires Inv(s) && name in s.queueConnections && name in s.queues && name !in s.stale
    ensures Inv(NewWorker(s, name))
  {
    var t := NewWorker(s, name);
    forall n, c ensures HeldFor(t, n, c) <==> HeldFor(s, n, c) {
    }
  }

  lemma QueueKeeps(s: State, name: Name, lock: Lock, workerThrows: bool)
    requires Inv(s)
    ensures Inv(WithQueue(s, name, lock, workerThrows))
  {
    if name !in s.queues && name in s.queueConnections {
      var t := NewQueue(s, name);
      NewQueueKeeps(s, name);
      NewMonitorKeeps(t, name);
      NewWorkerKeeps(t, name);
      NewWorkerKeeps(NewMonitor(t, name), name);
    }
  }

  lemma TickKeeps(s: State, name: Name, check: Check)
    requires Inv(s)
    ensures Inv(Step(s, Tick(name, check)))
  {
    var t := Step(s, Tick(name, check));
    forall n, c | n != name ensures HeldFor(t, n, c) <==> HeldFor(s, n, c) {
    }
    if name in s.monitors && check.ShutDown? {
      forall c | c in t.borrowed && c !in t.leaked ensures exists n :: HeldFor(t, n, c) {
        var n :| HeldFor(s, n, c);
        assert HeldFor(t, n, c);
      }
    } else {
      forall n, c ensures HeldFor(t, n, c) <==> HeldFor(s, n, c) {
      }
    }
  }

  lemma StepKeeps(s: State, e: Event)
    requires Inv(s)
    ensures Inv(Step(s, e))
  {
    match e
    case AddJob(name, acquire, lock, workerThrows) =>
      ConnectionKeeps(s, name, acquire);
      QueueKeeps(WithConnection(s, name, acquire), name, lock, workerThrows);
    case Tick(name, check) => TickKeeps(s, name, check);
  }

  lemma EveryRunKeepsInv(events: seq<Event>)
    ensures Inv(Run(Step, Initial, events))
  {
    forall s, e | Inv(s) ensures Inv(Step(s, e)) {
      StepKeeps(s, e);
    }
    Invariance(Step, Inv, Initial, events);
  }

  /** The invariant in the maps' own terms, for every run, whatever throws. */
  lemma AllocatorGuarantees(events: seq<Event>)
    ensures var s := Run(Step, Initial, events);
            && s.borrowed == s.queueConnections.Values + s.leaked
            && s.queueConnections.Values !! s.leaked
            && |s.queueConnections| == |s.queueConnections.Values|
            && s.workers.Keys <= s.queues.Keys
            && s.monitors.Keys <= s.queues.Keys
            && (forall n :: n in s.monitors ==> HeldFor(s, n, s.monitors[n]))
  {
    EveryRunKeepsInv(events);
    var s := Run(Step, Initial, events);
    forall c | c in s.borrowed && c !in s.leaked ensures c in s.queueConnections.Values {
      var n :| HeldFor(s, n, c);
    }
    InjectiveValues(s.queueConnections);
  }

  lemma {:induction false} InjectiveValues(m: map<Name, Client>)
    requires forall n, k :: n in m && k in m && m[n] == m[k] ==> n == k
    ensures |m.Values| == |m|
  {
    if m != map[] {
      var n :| n in m;
      var rest := m - {n};
      InjectiveValues(rest);
      assert rest.Values == m.Values - {m[n]} by {
        forall c | c in m.Values && c != m[n] ensures c in rest.Values {
          var k :| k in m && m[k] == c;
          assert rest[k] == c;
        }
      }
      assert rest.Keys == m.Keys - {n};
      assert |m.Keys| == |m| && |rest.Keys| == |rest|;
      assert m[n] in m.Values;
    }
  }

  lemma {:induction false} LeaksComeFromFailedReturns(s: State, events: seq<Event>)
    requires forall e :: e in events && e.Tick? && e.check.ShutDown? ==> !e.check.releaseThrows
    ensures Run(Step, s, events).leaked == s.leaked
    decreases |events|
  {
    if events == [] {
    } else {
      assert events[0] in events;
      LeaksComeFromFailedReturns(Step(s, events[0]), events[1..]);
    }
  }

  /**
   Even when closing a worker or a queue throws, as long as returning a client does not, the
   clients borrowed for queues are exactly the values of queueConnections.
   */
  lemma BorrowedAreTheConnections(events: seq<Event>)
    requires forall e :: e in events && e.Tick? && e.check.ShutDown? ==> !e.check.releaseThrows
    ensures var s := Run(Step, Initial, events); s.borrowed == s.queueConnections.Values
  {
    AllocatorGuarantees(events);
    LeaksComeFromFailedReturns(Initial, events);
  }

  /**
   A job for a new name always leaves a queue once it has a client, but the queue has a worker exactly
   when the monitor's lock calls went well and making the worker did not throw, and a monitor exactly
   when the lock was given; later jobs do not make up for what is missing.
   */
  lemma NewQueueSetUpIff(s: State, name: Name, client: Client, lock: Lock, workerThrows: bool)
    requires Inv(s) && name !in s.queues && name !in s.queueConnections && client !in s.borrowed
    ensures var t := Step(s, AddJob(name, Lends(client), lock, workerThrows));
            && t.borrowed == s.borrowed + {client} && HeldFor(t, name, client)
            && t.queues == s.queues[name := client]
            && (t.workers == if (lock.Granted? || lock.Refused?) && !workerThrows
                             then s.workers[name := client] else s.workers)
            && (t.monitors == if lock.Granted? || lock.GrantedUnlockThrows?
                              then s.monitors[name := client] else s.monitors)
            && (forall acquire, later, throws :: Step(t, AddJob(name, acquire, later, throws)) == t)
  {
    var connected := WithConnection(s, name, Lends(client));
    ConnectionOnly(s, name, Lends(client));
    QueueSetUp(connected, name, lock, workerThrows);
  }

  lemma QueueSetUp(s: State, name: Name, lock: Lock, workerThrows: bool)
    requires name !in s.queues && name !in s.workers && name in s.queueConnections
    ensures var t := WithQueue(s, name, lock, workerThrows);
            var client := s.queueConnections[name];
            && t.borrowed == s.borrowed && t.queueConnections == s.queueConnections
            && t.queues == s.queues[name := client]
            && (t.workers == if (lock.Granted? || lock.Refused?) && !workerThrows
                             then s.workers[name := client] else s.workers)
            && (t.monitors == if lock.Granted? || lock.GrantedUnlockThrows?
                              then s.monitors[name := client] else s.monitors)
  {
  }

  /** A failure-free cleanup leaves the name in none of the maps and its client in the pool. */
  lemma CleanShutdownRemovesTheName(s: State, name: Name)
    requires Inv(s) && name in s.monitors
    ensures var t := Step(s, Tick(name, ShutDown(Clean, false)));
            && name !in t.queues && name !in t.workers && name !in t.queueConnections && name !in t.monitors
            && t.borrowed == s.borrowed - {s.queueConnections[name]}
            && (forall n :: n != name && n in s.queues ==> n in t.queues && t.queues[n] == s.queues[n])
  {
  }

  /**
   A shutdown leaves a queue running on a client that went back to the pool exactly when closing
   threw before the queue was removed and returning the client did not.
   */
  lemma QueueOnReturnedClientIffClosingThrew(s: State, name: Name, closing: Closing, releaseThrows: bool)
    requires Inv(s) && name in s.monitors
    ensures var t := Step(s, Tick(name, ShutDown(closing, releaseThrows)));
            name in t.queues && t.queues[name] !in t.borrowed
            <==> !releaseThrows && (closing == QueueCloseThrows || (closing == WorkerCloseThrows && name in s.workers))
  {
  }

  // ----- One client per queue -----

  ghost predicate ClientsDistinct(s: State) {
    forall a, b :: a in s.queues && b in s.queues && s.queues[a] == s.queues[b] ==> a == b
  }

  ghost predicate RunsOn(s: State, name: Name, client: Client) {
    name in s.queues && s.queues[name] == client
  }

  /** A queue is made on a client that some queue still runs on. */
  ghost predicate Shares(s: State, e: Event) {
    && e.AddJob? && e.name !in s.queues
    && var connections := WithConnection(s, e.name, e.acquire).queueConnections;
       e.name in connections && exists other :: RunsOn(s, other, connections[e.name])
  }

  lemma QueuesAfterJob(s: State, e: Event)
    requires e.AddJob?
    ensures var connections := WithConnection(s, e.name, e.acquire).queueConnections;
            Step(s, e).queues == if e.name !in s.queues && e.name in connections
                                 then s.queues[e.name := connections[e.name]] else s.queues
  {
    ConnectionOnly(s, e.name, e.acquire);
    QueuesAfterSetUp(WithConnection(s, e.name, e.acquire), e.name, e.lock, e.workerThrows);
  }

  lemma QueuesAfterSetUp(s: State, name: Name, lock: Lock, workerThrows: bool)
    ensures WithQueue(s, name, lock, workerThrows).queues
         == if name !in s.queues && name in s.queueConnections then s.queues[name := s.queueConnections[name]] else s.queues
  {
  }

  lemma StepKeepsDistinctIff(s: State, e: Event)
    requires ClientsDistinct(s)
    ensures ClientsDistinct(Step(s, e)) <==> !Shares(s, e)
  {
    var t := Step(s, e);
    if e.AddJob? {
      QueuesAfterJob(s, e);
      if Shares(s, e) {
        var client := WithConnection(s, e.name, e.acquire).queueConnections[e.name];
        var other :| RunsOn(s, other, client);
        assert t.queues[other] == t.queues[e.name] && other != e.name;
      } else if t.queues != s.queues {
        forall other | other in s.queues ensures s.queues[other] != t.queues[e.name] {
          assert !RunsOn(s, other, t.queues[e.name]);
        }
      }
    }
  }

  /**
   In every run, no two queues run on one client at any point if and only if no job for a name without a
   queue is given a client that some queue still runs on.
   */
  lemma ClientsStayDistinctIff(events: seq<Event>)
    ensures (forall k :: 0 <= k <= |events| ==> ClientsDistinct(Run(Step, Initial, events[..k])))
            <==> (forall k :: 0 <= k < |events| ==> !Shares(Run(Step, Initial, events[..k]), events[k]))
  {
    var alone := (s: State, e: Event) => !Shares(s, e);
    forall s, e | ClientsDistinct(s) ensures ClientsDistinct(Step(s, e)) <==> alone(s, e) {
      StepKeepsDistinctIff(s, e);
    }
    HoldsThroughoutIff(Step, _ => true, ClientsDistinct, alone, Initial, events);
  }

  /** In every run, the queue that a new one shares its client with is one left behind by a cleanup that threw. */
  lemma SharedClientIsStale(events: seq<Event>, e: Event, other: Name)
    requires var s := Run(Step, Initial, events);
             && Shares(s, e)
             && RunsOn(s, other, WithConnection(s, e.name, e.acquire).queueConnections[e.name])
    ensures other in Run(Step, Initial, events).stale
  {
    EveryRunKeepsInv(events);
    var s := Run(Step, Initial, events);
    var client := WithConnection(s, e.name, e.acquire).queueConnections[e.name];
    assert other !in s.stale ==> HeldFor(s, other, s.queues[other]);
  }

  /** So distinct clients are lost at most after a failed cleanup: in runs without one they stay distinct. */
  lemma NoStaleNoSharing(events: seq<Event>)
    requires forall k :: 0 <= k <= |events| ==> Run(Step, Initial, events[..k]).stale == {}
    ensures forall k :: 0 <= k <= |events| ==> ClientsDistinct(Run(Step, Initial, events[..k]))
  {
    forall k | 0 <= k < |events| ensures !Shares(Run(Step, Initial, events[..k]), events[k]) {
      var s, e := Run(Step, Initial, events[..k]), events[k];
      if Shares(s, e) {
        var other :| RunsOn(s, other, WithConnection(s, e.name, e.acquire).queueConnections[e.name]);
        SharedClientIsStale(events[..k], e, other);
      }
    }
    ClientsStayDistinctIff(events);
  }

  /** That happens: a returned client can be lent to another name while the stale queue still uses it. */
  lemma TwoQueuesOnOneClient(a: Name, b: Name, c: Client)
    requires a != b
    ensures var s := Run(Step, Initial,
                         [AddJob(a, Lends(c), Granted, false), Tick(a, ShutDown(QueueCloseThrows, false)),
                          AddJob(b, Lends(c), Granted, false)]);
            a in s.queues && b in s.queues && s.queues[a] == s.queues[b]
  {
    var e1 := AddJob(a, Lends(c), Granted, false);
    var e2 := Tick(a, ShutDown(QueueCloseThrows, false));
    var e3 := AddJob(b, Lends(c), Granted, false);
    RunAppend(Step, Initial, [], e1);
    RunAppend(Step, Initial, [e1], e2);
    RunAppend(Step, Initial, [e1, e2], e3);
    assert [] + [e1] == [e1] && [e1] + [e2] == [e1, e2] && [e1, e2] + [e3] == [e1, e2, e3];
  }

  ghost predicate Unwatched(s: State, name: Name) {
    name in s.queues && name !in s.monitors
  }

  /** What t still has of the unwatched queue of s: the queue itself and any client held for it. */
  ghost predicate Remains(s: State, t: State, name: Name) {
    && Unwatched(t, name)
    && (name in s.queues ==> t.queues[name] == s.queues[name])
    && (name in s.queueConnections ==> HeldFor(t, name, s.queueConnections[name]))
  }

  lemma JobLeavesUnwatched(s: State, t: State, e: Event, name: Name)
    requires Remains(s, t, name) && e.AddJob?
    ensures Remains(s, Step(t, e), name)
  {
    QueuesAfterJob(t, e);
  }

  lemma StepLeavesUnwatched(s: State, t: State, e: Event, name: Name)
    requires Remains(s, t, name)
    ensures Remains(s, Step(t, e), name)
  {
    if e.AddJob? {
      JobLeavesUnwatched(s, t, e, name);
    }
  }

  /**
   A queue without a monitor (its lock was refused or threw, a check threw, or its cleanup threw)
   is never given one again: it stays, and a client once borrowed for it is never returned.
   */
  lemma UnwatchedForEver(before: seq<Event>, after: seq<Event>, name: Name)
    requires Unwatched(Run(Step, Initial, before), name)
    ensures var s := Run(Step, Initial, before);
            var t := Run(Step, Initial, before + after);
            && Unwatched(t, name) && t.queues[name] == s.queues[name]
            && (name in s.queueConnections ==>
                  HeldFor(t, name, s.queueConnections[name]) && s.queueConnections[name] in t.borrowed)
  {
    EveryRunKeepsInv(before);
    EveryRunKeepsInv(before + after);
    RunConcat(Step, Initial, before, after);
    var s := Run(Step, Initial, before);
    var inv := (t: State) => Remains(s, t, name);
    forall t, e | inv(t) ensures inv(Step(t, e)) {
      StepLeavesUnwatched(s, t, e, name);
    }
    Invariance(Step, inv, s, after);
  }

  // ----- What each event leaves alone -----

  /** What the maps hold of one name. */
  ghost predicate SameName(s: State, t: State, n: Name) {
    && (n in s.queues <==> n in t.queues) && (n in s.queues ==> t.queues[n] == s.queues[n])
    && (n in s.workers <==> n in t.workers) && (n in s.workers ==> t.workers[n] == s.workers[n])
    && (n in s.queueConnections <==> n in t.queueConnections)
    && (n in s.queueConnections ==> t.queueConnections[n] == s.queueConnections[n])
    && (n in s.monitors <==> n in t.monitors) && (n in s.monitors ==> t.monitors[n] == s.monitors[n])
    && (n in s.stale <==> n in t.stale)
  }

  /** Looking up a connection adds at most that, on the client it is lent. */
  lemma ConnectionOnly(s: State, name: Name, acquire: Acquire)
    ensures var t := WithConnection(s, name, acquire);
            var lent := name !in s.queueConnections && acquire.Lends? && acquire.client !in s.borrowed;
            && t.queues == s.queues && t.workers == s.workers && t.monitors == s.monitors
            && t.leaked == s.leaked && t.stale == s.stale
            && t.queueConnections == (if lent then s.queueConnections[name := acquire.client] else s.queueConnections)
            && t.borrowed == s.borrowed + (if lent then {acquire.client} else {})
  {
  }

  /** Setting up a queue adds at most the name's entries, and only where there is a connection and no queue. */
  lemma QueueOnly(s: State, name: Name, lock: Lock, workerThrows: bool, n: Name)
    ensures var t := WithQueue(s, name, lock, workerThrows);
            && t.queueConnections == s.queueConnections && t.borrowed == s.borrowed
            && t.leaked == s.leaked && t.stale == s.stale
            && (name in s.queues || name !in s.queueConnections ==> t == s)
            && (n != name ==> SameName(s, t, n))
  {
  }

  /** A job or a tick touches no other name. */
  lemma OtherNamesStay(s: State, e: Event, n: Name)
    requires n != e.name
    ensures SameName(s, Step(s, e), n)
  {
    if e.AddJob? {
      ConnectionOnly(s, e.name, e.acquire);
      QueueOnly(WithConnection(s, e.name, e.acquire), e.name, e.lock, e.workerThrows, n);
    }
  }

  /** A tick that finds the queue active, or of a name without a monitor, changes nothing. */
  lemma ActiveTickChangesNothing(s: State, name: Name, check: Check)
    requires check.StillActive? || name !in s.monitors
    ensures Step(s, Tick(name, check)) == s
  {
  }

  /** A tick whose check throws ends the monitor and nothing else. */
  lemma ThrownCheckEndsTheMonitor(s: State, name: Name)
    requires Inv(s)
    ensures var t := Step(s, Tick(name, CheckThrows));
            && name !in t.monitors
            && t.queues == s.queues && t.workers == s.workers && t.queueConnections == s.queueConnections
            && t.borrowed == s.borrowed && t.leaked == s.leaked && t.stale == s.stale
  {
  }

  /**
   After a shutdown, however it went, monitor and connection are gone; the worker is left only when closing it
   threw, the queue only when closing either threw, and the client is borrowed still only when its return threw.
   */
  lemma ShutdownOutcome(s: State, name: Name, closing: Closing, releaseThrows: bool)
    requires Inv(s) && name in s.monitors
    ensures var t := Step(s, Tick(name, ShutDown(closing, releaseThrows)));
            var client := s.queueConnections[name];
            && name !in t.monitors && name !in t.queueConnections
            && (name in t.workers <==> name in s.workers && closing.WorkerCloseThrows?)
            && (name in t.queues <==> closing.QueueCloseThrows? || (closing.WorkerCloseThrows? && name in s.workers))
            && (name in t.stale <==> name in t.queues)
            && t.borrowed == s.borrowed - (if releaseThrows then {} else {client})
            && t.leaked == s.leaked + (if releaseThrows then {client} else {})
  {
    assert HeldFor(s, name, s.monitors[name]);
  }

  lemma MonitorStepIff(s: State, e: Event, name: Name)
    requires name in s.monitors
    ensures name in Step(s, e).monitors <==> !(e.Tick? && e.name == name && !e.check.StillActive?)
  {
    if e.name != name {
      OtherNamesStay(s, e, name);
    } else if e.AddJob? {
      JobKeepsMonitors(s, e);
    }
  }

  lemma JobKeepsMonitors(s: State, e: Event)
    requires e.AddJob?
    ensures s.monitors.Keys <= Step(s, e).monitors.Keys
  {
  }

  /** Over any run, a monitor stays until a tick of its own name shuts the queue down or throws. */
  lemma MonitorStaysIff(before: seq<Event>, after: seq<Event>, name: Name)
    requires name in Run(Step, Initial, before).monitors
    ensures var s := Run(Step, Initial, before);
            (forall k :: 0 <= k <= |after| ==> name in Run(Step, s, after[..k]).monitors)
            <==> (forall k :: 0 <= k < |after| ==>
                    !(after[k].Tick? && after[k].name == name && !after[k].check.StillActive?))
  {
    var watched := (t: State) => name in t.monitors;
    var keeps := (t: State, e: Event) => !(e.Tick? && e.name == name && !e.check.StillActive?);
    forall t, e | watched(t) ensures watched(Step(t, e)) <==> keeps(t, e) {
      MonitorStepIff(t, e, name);
    }
    HoldsThroughoutIff(Step, _ => true, watched, keeps, Run(Step, Initial, before), after);
  }

  /**
   A job borrows at most one client: for a name without a connection, the one it is lent; without one it
   changes nothing.
   */
  lemma JobBorrows(s: State, name: Name, acquire: Acquire, lock: Lock, workerThrows: bool)
    requires Inv(s)
    ensures var t := Step(s, AddJob(name, acquire, lock, workerThrows));
            var lent := name !in s.queueConnections && acquire.Lends? && acquire.client !in s.borrowed;
            && t.borrowed == s.borrowed + (if lent then {acquire.client} else {})
            && (lent ==> HeldFor(t, name, acquire.client))
            && t.leaked == s.leaked && t.stale == s.stale
            && (name !in t.queueConnections ==> t == s)
  {
    ConnectionOnly(s, name, acquire);
    QueueOnly(WithConnection(s, name, acquire), name, lock, workerThrows, name);
  }

  /** A job for a name that has its queue leaves queue, worker and monitor as they are. */
  lemma JobForAKnownName(s: State, e: Event)
    requires e.AddJob? && e.name in s.queues
    ensures var t := Step(s, e); t.queues == s.queues && t.workers == s.workers && t.monitors == s.monitors
  {
  }

  /** The allocator and its cleaner, over the maps they share. */
  class Allocator {
    const pool: Pool
    var queues: map<Name, Client>
    var workers: map<Name, Client>
    var queueConnections: map<Name, Client>
    var monitors: map<Name, Client>
    ghost var leaked: set<Client>
    ghost var stale: set<Name>

    ghost function View(): State
      reads this, pool
    {
      State(queues, workers, queueConnections, monitors, pool.borrowed, leaked, stale)
    }

    constructor ()
      ensures View() == Initial && fresh(pool)
    {
      pool := new Pool();
      queues, workers, queueConnections, monitors := map[], map[], map[], map[];
      leaked, stale := {}, {};
    }

    /** Fails, with nothing changed, when the name has no connection and none can be borrowed. */
    method GetQueueConnection(name: Name, acquire: Acquire) returns (ok: bool, connection: Client)
      requires !acquire.AcquireFails? ==> acquire.client !in pool.borrowed
      modifies this, pool
      ensures View() == WithConnection(old(View()), name, acquire)
      ensures ok == (name in queueConnections)
      ensures ok ==> connection == queueConnections[name]
    {
      if name !in queueConnections {
        ok, connection := pool.GetPoolClient(acquire);
        if !ok {
          return;
        }
        queueConnections := queueConnections[name := connection];
      }
      ok, connection := true, queueConnections[name];
    }

    /** Locks, and unless that is refused or throws, starts the monitor; false when it throws. */
    method MonitorQueue(name: Name, connection: Client, lock: Lock) returns (ok: bool)
      modifies this`monitors, this`queueConnections
      ensures ok == (lock.Granted? || lock.Refused?)
      ensures monitors == if lock.Granted? || lock.GrantedUnlockThrows?
                          then old(monitors)[name := connection] else old(monitors)
      ensures queueConnections == if lock.Granted? || lock.GrantedUnlockThrows?
                                  then old(queueConnections)[name := connection] else old(queueConnections)
    {
      match lock
      case Refused => ok := true;
      case LockThrows => ok := false;
      case _ =>
        queueConnections := queueConnections[name := connection];
        monitors := monitors[name := connection];
        ok := lock.Granted?;
    }

    method InitOrFetchQueue(name: Name, connection: Client, lock: Lock, workerThrows: bool) returns (ok: bool)
      requires name in queueConnections && connection == queueConnections[name]
      modifies this
      ensures View() == WithQueue(old(View()), name, lock, workerThrows)
      ensures ok ==> name in queues
    {
      ok := true;
      if name !in queues {
        queues := queues[name := connection];
        ok := MonitorQueue(name, connection, lock);
        assert queueConnections == old(queueConnections);
        if !ok {
          return;
        }
        if name !in workers {
          if workerThrows {
            ok := false;
            return;
          }
          workers := workers[name := connection];
        }
      }
    }

    method Add(name: Name, acquire: Acquire, lock: Lock, workerThrows: bool) returns (ok: bool)
      requires !acquire.AcquireFails? ==> acquire.client !in pool.borrowed
      modifies this, pool
      ensures View() == Step(old(View()), AddJob(name, acquire, lock, workerThrows))
      ensures ok ==> name in queues
    {
      var connection;
      ok, connection := GetQueueConnection(name, acquire);
      if ok {
        ok := InitOrFetchQueue(name, connection, lock, workerThrows);
      }
    }

    method PerformResourceCleanup(name: Name, connection: Client, closing: Closing, releaseThrows: bool)
      modifies this, pool
      ensures View() == Cleanup(old(View()), name, connection, closing, releaseThrows)
    {
      var threw := false;
      if name in workers {
        if closing.WorkerCloseThrows? {
          threw := true;
        } else {
          workers := workers - {name};
        }
      }
      if !threw && name in queues {
        if closing.QueueCloseThrows? {
          threw := true;
        } else {
          queues := queues - {name};
        }
      }
      if threw {
        stale := stale + {name};
      }
      if releaseThrows && connection in pool.borrowed {
        leaked := leaked + {connection};
      }
      pool.ReleasePoolClient(connection, releaseThrows);
      queueConnections := queueConnections - {name};
      assert name !in old(workers) ==> old(workers) - {name} == old(workers);
      assert name !in old(queues) ==> old(queues) - {name} == old(queues);
    }

    method MonitorTick(name: Name, check: Check)
      requires name in monitors
      modifies this, pool
      ensures View() == Step(old(View()), Tick(name, check))
    {
      match check
      case StillActive =>
      case CheckThrows => monitors := monitors - {name};
      case ShutDown(closing, releaseThrows) =>
        PerformResourceCleanup(name, monitors[name], closing, releaseThrows);
        monitors := monitors - {name};
    }
  }
}
