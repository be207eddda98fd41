/**
 The idle sweep over the shared activity table, and the board that mirrors the table's names.
 Both borrow one pool client for the duration of their work.
 */
module QueueActivity {
  import opened Options
  import opened RedisPool
  import opened Runs

  type Name = string
  type Time = int  // milliseconds

  const QUEUE_INACTIVITY_THRESHOLD_MS: Time := 60 * 1 * 1000

  predicate ShouldShutdown(activity: map<Name, Time>, name: Name, now: Time) {
    name in activity && now - activity[name] > QUEUE_INACTIVITY_THRESHOLD_MS
  }

  /** The rows left by a sweep: those within the threshold and those whose removal threw. */
  function Swept(activity: map<Name, Time>, now: Time, throwing: set<Name>): map<Name, Time> {
    map name | name in activity && (!ShouldShutdown(activity, name, now) || name in throwing) :: activity[name]
  }

  // ----- The table over runs -----

  /** Jobs touch their queue's row; from time to time an idle sweep completes without failure. */
  datatype Event = Touch(name: Name, now: Time) | Sweep(now: Time)

  function TableStep(activity: map<Name, Time>, e: Event): map<Name, Time> {
    match e
    case Touch(name, now) => activity[name := now]
    case Sweep(now) => Swept(activity, now, {})
  }

  predicate Touches(e: Event, name: Name) {
    e.Touch? && e.name == name
  }

  /** The last touch of the name is event i, and every sweep since has found it within the threshold. */
  ghost predicate KeptSince(events: seq<Event>, name: Name, i: nat) {
    && i < |events| && Touches(events[i], name)
    && (forall j :: i < j < |events| ==> !Touches(events[j], name))
    && (forall j :: i < j < |events| && events[j].Sweep? ==> events[j].now - events[i].now <= 60000)
  }

  /** The row of the name is the one its last touch wrote, if no later sweep has removed that. */
  ghost predicate RowFollows(events: seq<Event>, name: Name, activity: map<Name, Time>) {
    && (name in activity ==> exists i: nat :: KeptSince(events, name, i))
    && (forall i: nat :: KeptSince(events, name, i) ==> name in activity && activity[name] == events[i].now)
  }

  lemma KeptSinceAppend(most: seq<Event>, e: Event, name: Name, i: nat)
    requires i < |most|
    ensures KeptSince(most + [e], name, i)
            <==> KeptSince(most, name, i) && !Touches(e, name)
                 && (e.Sweep? ==> e.now - most[i].now <= QUEUE_INACTIVITY_THRESHOLD_MS)
  {
    var events := most + [e];
    assert forall j :: 0 <= j < |most| ==> events[j] == most[j];
    assert events[|most|] == e;
  }

  lemma StepRowFollows(most: seq<Event>, e: Event, name: Name, activity: map<Name, Time>)
    requires RowFollows(most, name, activity)
    ensures RowFollows(most + [e], name, TableStep(activity, e))
  {
    var events, after := most + [e], TableStep(activity, e);
    if Touches(e, name) {
      assert KeptSince(events, name, |most|);
      forall i: nat | KeptSince(events, name, i) ensures i == |most| {
        assert Touches(events[|most|], name);
      }
    } else {
      if name in after {
        var i: nat :| KeptSince(most, name, i);
        KeptSinceAppend(most, e, name, i);
        assert KeptSince(events, name, i);
      }
      forall i: nat | KeptSince(events, name, i) ensures name in after && after[name] == events[i].now {
        assert events[|most|] == e && i < |most|;
        KeptSinceAppend(most, e, name, i);
        assert activity[name] == most[i].now;
      }
    }
  }

  /**
   After any run of touches and completed sweeps, at whatever times, a row is there if and only if no
   sweep since its last touch came more than the threshold after it, and it holds the time of that touch.
   */
  lemma {:induction false} TableHoldsTheActive(events: seq<Event>, name: Name)
    ensures var activity := Run(TableStep, map[], events);
            && (name in activity <==> exists i: nat :: KeptSince(events, name, i))
            && (forall i: nat :: KeptSince(events, name, i) ==> name in activity && activity[name] == events[i].now)
    decreases |events|
  {
    if events == [] {
    } else {
      var n := |events| - 1;
      assert events == events[..n] + [events[n]];
      RunAppend(TableStep, map[], events[..n], events[n]);
      TableHoldsTheActive(events[..n], name);
      StepRowFollows(events[..n], events[n], name, Run(TableStep, map[], events[..n]));
    }
  }

  class ActivityMonitor {
    const pool: Pool
    var activity: map<Name, Time>
    var connection: Option<Client>

    ghost predicate Valid()
      reads this, pool
    {
      connection.Some? ==> connection.value in pool.borrowed
    }

    constructor (pool: Pool)
      ensures this.pool == pool && activity == map[] && connection.None?
    {
      this.pool := pool;
      activity, connection := map[], None;
    }

    method UpdateQueueActivity(name: Name, now: Time)
      modifies this`activity
      ensures activity == TableStep(old(activity), Touch(name, now))
    {
      activity := activity[name := now];
    }

    /** Returns false when no client could be borrowed, before any row is removed. */
    method ShutdownInactiveQueue(name: Name, acquire: Acquire, throws: bool) returns (ok: bool)
      requires Valid()
      requires !acquire.AcquireFails? ==> acquire.client !in pool.borrowed || connection.Some?
      modifies this, pool
      ensures Valid()
      ensures ok == (old(connection).Some? || acquire.Lends?)
      ensures !ok ==> activity == old(activity) && connection.None? && pool.borrowed == old(pool.borrowed)
      ensures ok ==> activity == (if throws then old(activity) else old(activity) - {name})
      ensures ok ==> connection.Some?
      ensures old(connection).Some? ==> connection == old(connection) && pool.borrowed == old(pool.borrowed)
      ensures ok && old(connection).None? ==>
                connection.value !in old(pool.borrowed) && pool.borrowed == old(pool.borrowed) + {connection.value}
    {
      ok := true;
      if connection.None? {
        var client;
        ok, client := pool.GetPoolClient(acquire);
        if !ok {
          return;
        }
        connection := Some(client);
      }
      if !throws {
        activity := activity - {name};
      }
    }

    /**
     The sweep. Completed, it leaves exactly the rows within the threshold and those whose removal
     threw; a client it borrowed is returned unless returning it throws, and then it is kept for
     the next sweep. When no client can be borrowed nothing has changed.
     */
    method CloseInactiveQueues(now: Time, acquire: Acquire, throwing: set<Name>, releaseThrows: bool)
      returns (ok: bool)
      requires Valid()
      requires !acquire.AcquireFails? ==> acquire.client !in pool.borrowed
      modifies this, pool
      ensures Valid()
      ensures ok ==> activity == Swept(old(activity), now, throwing)
      ensures ok && throwing == {} ==> activity == TableStep(old(activity), Sweep(now))
      ensures ok && !releaseThrows ==> connection.None?
      ensures ok && !releaseThrows ==>
                pool.borrowed == old(pool.borrowed) - (if old(connection).Some? then {old(connection).value} else {})
      ensures !ok ==> activity == old(activity) && connection == old(connection) && pool.borrowed == old(pool.borrowed)
      ensures ok <== acquire.Lends? || old(connection).Some?
    {
      ok := true;
      var todo := activity.Keys;
      while todo != {}
        invariant Valid() && todo <= old(activity).Keys
        invariant forall n :: n in todo ==> n in activity && activity[n] == old(activity)[n]
        invariant forall n :: n in activity <==>
                    n in old(activity) && (n in todo || !ShouldShutdown(old(activity), n, now) || n in throwing)
        invariant forall n :: n in activity ==> activity[n] == old(activity)[n]
        invariant old(connection).Some? ==> connection == old(connection) && pool.borrowed == old(pool.borrowed)
        invariant old(connection).None? && connection.None? ==>
                    pool.borrowed == old(pool.borrowed) && activity == old(activity)
        invariant old(connection).None? && connection.Some? ==>
                    connection.value !in old(pool.borrowed) && pool.borrowed == old(pool.borrowed) + {connection.value}
        decreases todo
      {
        var name :| name in todo;
        if ShouldShutdown(activity, name, now) {
          ok := ShutdownInactiveQueue(name, acquire, name in throwing);
          if !ok {
            return;
          }
        }
        todo := todo - {name};
      }
      assert activity == Swept(old(activity), now, throwing);
      if connection.Some? {
        pool.ReleasePoolClient(connection.value, releaseThrows);
        if !releaseThrows {
          connection := None;
        }
      }
    }
  }

  /** A board adapter: the queue it shows and the client that queue was built on. */
  datatype Adapter = Adapter(serial: nat, name: Name, client: Client)

  class Board {
    const pool: Pool
    var monitoredQueues: map<Name, Adapter>
    var shown: multiset<Adapter>
    var created: nat

    /** The board shows the adapters of the map, each exactly once, each under its own name. */
    ghost predicate Valid()
      reads this
    {
      && (forall n :: n in monitoredQueues ==> monitoredQueues[n].name == n && monitoredQueues[n].serial < created)
      && (forall a: Adapter :: shown[a] == if a.name in monitoredQueues && monitoredQueues[a.name] == a then 1 else 0)
    }

    constructor (pool: Pool)
      ensures Valid() && this.pool == pool && monitoredQueues == map[]
    {
      this.pool := pool;
      monitoredQueues, shown, created := map[], multiset{}, 0;
    }

    method AddQueue(name: Name, client: Client)
      requires Valid() && name !in monitoredQueues
      modifies this
      ensures Valid() && created == old(created) + 1
      ensures monitoredQueues == old(monitoredQueues)[name := Adapter(old(created), name, client)]
    {
      var adapter := Adapter(created, name, client);
      created := created + 1;
      monitoredQueues := monitoredQueues[name := adapter];
      shown := shown + multiset{adapter};
    }

    method RemoveQueue(name: Name)
      requires Valid() && name in monitoredQueues
      modifies this
      ensures Valid() && created == old(created)
      ensures monitoredQueues == old(monitoredQueues) - {name}
    {
      var adapter := monitoredQueues[name];
      shown := shown - multiset{adapter};
      monitoredQueues := monitoredQueues - {name};
    }

    /** Stops at the first name whose queue or adapter cannot be built. */
    method AddMissing(names: set<Name>, client: Client, unbuildable: set<Name>) returns (done: bool)
      requires Valid()
      modifies this
      ensures Valid() && old(created) <= created
      ensures done <==> (names - old(monitoredQueues).Keys) * unbuildable == {}
      ensures old(monitoredQueues).Keys <= monitoredQueues.Keys <= old(monitoredQueues).Keys + names
      ensures done ==> monitoredQueues.Keys == old(monitoredQueues).Keys + names
      ensures forall n :: n in old(monitoredQueues) ==> monitoredQueues[n] == old(monitoredQueues)[n]
      ensures forall n :: n in monitoredQueues && n !in old(monitoredQueues) ==>
                monitoredQueues[n].client == client && old(created) <= monitoredQueues[n].serial
    {
      var todo := names;
      while todo != {}
        invariant Valid() && todo <= names && old(created) <= created
        invariant monitoredQueues.Keys == old(monitoredQueues).Keys + (names - todo)
        invariant (names - todo - old(monitoredQueues).Keys) * unbuildable == {}
        invariant forall n :: n in old(monitoredQueues) ==> monitoredQueues[n] == old(monitoredQueues)[n]
        invariant forall n :: n in monitoredQueues && n !in old(monitoredQueues) ==>
                    monitoredQueues[n].client == client && old(created) <= monitoredQueues[n].serial
        decreases todo
      {
        var name :| name in todo;
        if name !in monitoredQueues {
          if name in unbuildable {
            assert name in (names - old(monitoredQueues).Keys) * unbuildable;
            return false;
          }
          AddQueue(name, client);
        }
        todo := todo - {name};
      }
      return true;
    }

    method RemoveOthers(names: set<Name>)
      requires Valid()
      modifies this
      ensures Valid() && created == old(created)
      ensures monitoredQueues == map n | n in old(monitoredQueues) && n in names :: old(monitoredQueues)[n]
    {
      var todo := monitoredQueues.Keys;
      while todo != {}
        invariant Valid() && created == old(created) && todo <= old(monitoredQueues).Keys
        invariant forall n :: n in monitoredQueues <==> n in old(monitoredQueues) && (n in todo || n in names)
        invariant forall n :: n in monitoredQueues ==> monitoredQueues[n] == old(monitoredQueues)[n]
        decreases todo
      {
        var name :| name in todo;
        if name !in names {
          RemoveQueue(name);
        }
        todo := todo - {name};
      }
    }

    /**
     When no missing queue is unbuildable, the monitored names are the table's after a refresh; otherwise
     it has only added some of them. Adapters of names monitored before are kept. The client that new ones
     were built on is returned in both cases, unless that throws, and then it stays borrowed.
     */
    method RefreshQueues(names: set<Name>, acquire: Acquire, unbuildable: set<Name>, releaseThrows: bool)
      returns (ok: bool, done: bool)
      requires Valid()
      requires !acquire.AcquireFails? ==> acquire.client !in pool.borrowed
      modifies this, pool
      ensures Valid() && ok == (acquire.Lends? && !releaseThrows)
      ensures pool.borrowed == old(pool.borrowed) + if acquire.Lends? && releaseThrows then {acquire.client} else {}
      ensures !acquire.Lends? ==> monitoredQueues == old(monitoredQueues)
      ensures done <==> acquire.Lends? && (names - old(monitoredQueues).Keys) * unbuildable == {}
      ensures done ==> monitoredQueues.Keys == names
      ensures acquire.Lends? && !done ==>
                old(monitoredQueues).Keys <= monitoredQueues.Keys <= old(monitoredQueues).Keys + names
      ensures forall n :: n in monitoredQueues && n in old(monitoredQueues) ==>
                monitoredQueues[n] == old(monitoredQueues)[n]
      ensures forall n :: n in monitoredQueues && n !in old(monitoredQueues) ==>
                old(created) <= monitoredQueues[n].serial && monitoredQueues[n].client == acquire.client
    {
      var connection;
      ok, connection := pool.GetPoolClient(acquire);
      done := false;
      if !ok {
        return;
      }
      done := AddMissing(names, connection, unbuildable);
      if done {
        RemoveOthers(names);
      }
      pool.ReleasePoolClient(connection, releaseThrows);
      ok := !releaseThrows;
    }
  }

  /** A sweep followed by a board refresh: the board shows exactly the queues within the threshold. */
  method SweepAndRefresh(monitor: ActivityMonitor, board: Board, now: Time, first: Client, second: Client)
    requires monitor.Valid() && board.Valid() && monitor.pool == board.pool
    requires first !in monitor.pool.borrowed && second !in monitor.pool.borrowed && monitor.connection.None?
    modifies monitor, board, monitor.pool
    ensures board.Valid()
    ensures board.monitoredQueues.Keys
         == set n | n in old(monitor.activity) && now - old(monitor.activity)[n] <= QUEUE_INACTIVITY_THRESHOLD_MS
    ensures monitor.pool.borrowed == old(monitor.pool.borrowed) && monitor.connection.None?
  {
    var swept := monitor.CloseInactiveQueues(now, Lends(first), {}, false);
    var ok, done := board.RefreshQueues(monitor.activity.Keys, Lends(second), {}, false);
  }
}
