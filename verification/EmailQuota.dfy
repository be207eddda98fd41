/**
 The choice of an e-mail provider under a daily quota that is counted in the log table: the first
 provider with credits left since the start of the day takes the e-mail, and a log entry is written
 once it is submitted. Every call of send is one step.
 */
module EmailQuota {
  import opened Runs

  type Time = int  // milliseconds since the epoch

  const DAY: Time := 24 * 60 * 60 * 1000

  datatype Provider = Provider(key: string, credits: nat)

  datatype Log = Log(action: string, createdAt: Time, target: string)

  /** How a call goes once a provider with credits is found, or before. */
  datatype Outcome =
    | CountThrows
    | UnknownUser
    | Unsubscribed
    | NoAddress
    | NotSubmitted
    | SubmissionThrows
    | SubmissionReplyLost // the e-mail goes out, but the call that submits it throws
    | SubmittedLogThrows
    | SubmittedReplyLost  // the log is written, but the call that writes it throws
    | Submitted

  datatype Send = Send(now: Time, dayStart: Time, to: string, outcome: Outcome)

  predicate Logged(outcome: Outcome) {
    outcome == Submitted || outcome == SubmittedReplyLost
  }

  /** The provider has accepted the e-mail, whether or not a log of it was written. */
  predicate GoesOut(outcome: Outcome) {
    Logged(outcome) || outcome == SubmittedLogThrows || outcome == SubmissionReplyLost
  }

  function Action(p: Provider): string {
    p.key + "_EMAIL_SUBMISSION"
  }

  /** The day of the local clock, taken as a UTC midnight. */
  function DayStart(now: Time, offset: Time): Time {
    (now + offset) / DAY * DAY
  }

  function CountSince(logs: seq<Log>, action: string, since: Time): nat {
    if logs == [] then 0
    else (if logs[0].action == action && logs[0].createdAt >= since then 1 else 0) + CountSince(logs[1..], action, since)
  }

  predicate HasCredits(p: Provider, logs: seq<Log>, since: Time) {
    CountSince(logs, Action(p), since) < p.credits
  }

  /** The index of the first provider with credits, or their number. */
  function Chosen(providers: seq<Provider>, logs: seq<Log>, since: Time): (i: nat)
    ensures i <= |providers|
    ensures i < |providers| ==> HasCredits(providers[i], logs, since)
    ensures forall j :: 0 <= j < i ==> !HasCredits(providers[j], logs, since)
  {
    if providers == [] || HasCredits(providers[0], logs, since) then 0
    else 1 + Chosen(providers[1..], logs, since)
  }

  function Step(providers: seq<Provider>, logs: seq<Log>, send: Send): seq<Log> {
    var i := Chosen(providers, logs, send.dayStart);
    if !Logged(send.outcome) || i == |providers| then logs
    else logs + [Log(Action(providers[i]), send.now, send.to)]
  }

  function Sender(providers: seq<Provider>): (seq<Log>, Send) -> seq<Log> {
    (logs, send) => Step(providers, logs, send)
  }

  /** The log table after a run of calls. */
  ghost function After(providers: seq<Provider>, logs: seq<Log>, sends: seq<Send>): seq<Log> {
    Run(Sender(providers), logs, sends)
  }

  ghost predicate DistinctKeys(providers: seq<Provider>) {
    forall i, j :: 0 <= i < j < |providers| ==> Action(providers[i]) != Action(providers[j])
  }

  lemma {:induction false} CountAppend(logs: seq<Log>, log: Log, action: string, since: Time)
    ensures CountSince(logs + [log], action, since)
         == CountSince(logs, action, since) + if log.action == action && log.createdAt >= since then 1 else 0
  {
    if logs == [] {
      assert [] + [log] == [log];
    } else {
      assert (logs + [log])[1..] == logs[1..] + [log];
      CountAppend(logs[1..], log, action, since);
    }
  }

  lemma {:induction false} CountFallsWithLaterStart(logs: seq<Log>, action: string, since: Time, later: Time)
    requires since <= later
    ensures CountSince(logs, action, later) <= CountSince(logs, action, since)
  {
    if logs != [] {
      CountFallsWithLaterStart(logs[1..], action, since, later);
    }
  }

  ghost predicate DaysGoForward(sends: seq<Send>, from: Time)
    decreases |sends|
  {
    sends == [] || (from <= sends[0].dayStart && DaysGoForward(sends[1..], sends[0].dayStart))
  }

  function LastDay(sends: seq<Send>, from: Time): Time {
    if sends == [] then from else sends[|sends| - 1].dayStart
  }

  ghost predicate WithinCredits(providers: seq<Provider>, logs: seq<Log>, since: Time) {
    forall i :: 0 <= i < |providers| ==> CountSince(logs, Action(providers[i]), since) <= providers[i].credits
  }

  lemma StepWithinCredits(providers: seq<Provider>, logs: seq<Log>, send: Send, since: Time)
    requires DistinctKeys(providers) && WithinCredits(providers, logs, since) && since <= send.dayStart
    ensures WithinCredits(providers, Step(providers, logs, send), send.dayStart)
  {
    var c := Chosen(providers, logs, send.dayStart);
    forall i | 0 <= i < |providers|
      ensures CountSince(Step(providers, logs, send), Action(providers[i]), send.dayStart) <= providers[i].credits
    {
      CountFallsWithLaterStart(logs, Action(providers[i]), since, send.dayStart);
      if c < |providers| {
        CountAppend(logs, Log(Action(providers[c]), send.now, send.to), Action(providers[i]), send.dayStart);
      }
    }
  }

  /** While the day start does not go back, no provider's logs since it exceed the provider's credits. */
  lemma {:induction false} QuotaHolds(providers: seq<Provider>, logs: seq<Log>, sends: seq<Send>, from: Time)
    requires DistinctKeys(providers) && WithinCredits(providers, logs, from) && DaysGoForward(sends, from)
    ensures WithinCredits(providers, After(providers, logs, sends), LastDay(sends, from))
    decreases |sends|
  {
    if sends == [] {
    } else {
      StepWithinCredits(providers, logs, sends[0], from);
      QuotaHolds(providers, Step(providers, logs, sends[0]), sends[1..], sends[0].dayStart);
    }
  }

  /** The day start of a fixed time zone goes forward with the clock, so the quota holds for it. */
  lemma {:induction false} ClockGivesDays(sends: seq<Send>, offset: Time, from: Time)
    requires forall i :: 0 <= i < |sends| ==> sends[i].dayStart == DayStart(sends[i].now, offset) && from <= sends[i].now
    requires forall i, j :: 0 <= i < j < |sends| ==> sends[i].now <= sends[j].now
    ensures DaysGoForward(sends, DayStart(from, offset))
    decreases |sends|
  {
    if sends != [] {
      DayStartMonotone(from, sends[0].now, offset);
      ClockGivesDays(sends[1..], offset, sends[0].now);
    }
  }

  lemma DayStartMonotone(a: Time, b: Time, offset: Time)
    requires a <= b
    ensures DayStart(a, offset) <= DayStart(b, offset)
  {
  }

  /**
   Main result: with the clock and the time zone of one server, from an empty table on, no provider's
   logs since the current day start ever exceed its credits.
   */
  lemma QuotaHoldsForAClock(providers: seq<Provider>, sends: seq<Send>, offset: Time)
    requires DistinctKeys(providers) && sends != []
    requires forall i :: 0 <= i < |sends| ==> sends[i].dayStart == DayStart(sends[i].now, offset)
    requires forall i, j :: 0 <= i < j < |sends| ==> sends[i].now <= sends[j].now
    ensures forall i :: 0 <= i < |providers| ==>
              CountSince(After(providers, [], sends), Action(providers[i]), sends[|sends| - 1].dayStart)
              <= providers[i].credits
  {
    forall i | 0 <= i < |sends| ensures sends[0].now <= sends[i].now {
    }
    ClockGivesDays(sends, offset, sends[0].now);
    QuotaHolds(providers, [], sends, DayStart(sends[0].now, offset));
  }

  /** Everyone before a provider that has a log since the start is exhausted. */
  ghost predicate InOrder(providers: seq<Provider>, logs: seq<Log>, since: Time) {
    forall i, j, k :: 0 <= i < j < |providers| && 0 <= k < |logs| && logs[k].action == Action(providers[j])
      ==> !HasCredits(providers[i], logs, since)
  }

  /** Within one day, from an empty table, a provider has a log only if every earlier one is exhausted. */
  lemma {:induction false} ProvidersAreUsedInOrder(providers: seq<Provider>, logs: seq<Log>, sends: seq<Send>, day: Time)
    requires DistinctKeys(providers) && InOrder(providers, logs, day)
    requires forall s :: s in sends ==> s.dayStart == day
    ensures InOrder(providers, After(providers, logs, sends), day)
    decreases |sends|
  {
    if sends == [] {
    } else {
      var send := sends[0];
      assert send in sends;
      StepInOrder(providers, logs, send);
      ProvidersAreUsedInOrder(providers, Step(providers, logs, send), sends[1..], day);
    }
  }

  lemma StepInOrder(providers: seq<Provider>, logs: seq<Log>, send: Send)
    requires DistinctKeys(providers) && InOrder(providers, logs, send.dayStart)
    ensures InOrder(providers, Step(providers, logs, send), send.dayStart)
  {
    var next := Step(providers, logs, send);
    var c := Chosen(providers, logs, send.dayStart);
    if next != logs {
      var log := Log(Action(providers[c]), send.now, send.to);
      forall i, j, k | 0 <= i < j < |providers| && 0 <= k < |next| && next[k].action == Action(providers[j])
        ensures !HasCredits(providers[i], next, send.dayStart)
      {
        CountAppend(logs, log, Action(providers[i]), send.dayStart);
        if k < |logs| {
          assert logs[k].action == Action(providers[j]);
          assert !HasCredits(providers[i], logs, send.dayStart);
        } else {
          assert j == c;
        }
      }
    }
  }

  // ----- The day start and the clock -----

  /** The day start is ahead of the clock exactly when the local date is later than the UTC date. */
  lemma DayStartAheadIff(now: Time, offset: Time)
    ensures DayStart(now, offset) > now <==> (now + offset) / DAY > now / DAY
  {
  }

  function Count(logs: seq<Log>, action: string): nat {
    if logs == [] then 0 else (if logs[0].action == action then 1 else 0) + Count(logs[1..], action)
  }

  /** Submissions with the clock past the day start, and before it. */
  function Late(sends: seq<Send>, day: Time): nat {
    if sends == [] then 0 else (if Logged(sends[0].outcome) && sends[0].now >= day then 1 else 0) + Late(sends[1..], day)
  }

  function Early(sends: seq<Send>, day: Time): nat {
    if sends == [] then 0 else (if Logged(sends[0].outcome) && sends[0].now < day then 1 else 0) + Early(sends[1..], day)
  }

  /** The logs of an action that were stamped before the day start, and are not counted. */
  function Uncounted(logs: seq<Log>, action: string, day: Time): int {
    Count(logs, action) - CountSince(logs, action, day)
  }

  lemma {:induction false} UncountedAppend(logs: seq<Log>, log: Log, action: string, day: Time)
    ensures Uncounted(logs + [log], action, day)
         == Uncounted(logs, action, day) + if log.action == action && log.createdAt < day then 1 else 0
  {
    if logs == [] {
      assert [] + [log] == [log];
    } else {
      assert (logs + [log])[1..] == logs[1..] + [log];
      UncountedAppend(logs[1..], log, action, day);
    }
  }

  lemma StepUncounted(providers: seq<Provider>, logs: seq<Log>, send: Send, i: nat)
    requires DistinctKeys(providers) && i < |providers|
    ensures var day := send.dayStart;
            Uncounted(Step(providers, logs, send), Action(providers[i]), day)
            == Uncounted(logs, Action(providers[i]), day)
               + if Logged(send.outcome) && send.now < day && i == Chosen(providers, logs, day) then 1 else 0
  {
    var c := Chosen(providers, logs, send.dayStart);
    if c < |providers| {
      UncountedAppend(logs, Log(Action(providers[c]), send.now, send.to), Action(providers[i]), send.dayStart);
    }
  }

  lemma {:induction false} UncountedBounded(providers: seq<Provider>, logs: seq<Log>, sends: seq<Send>, day: Time, i: nat)
    requires DistinctKeys(providers) && i < |providers|
    requires forall s :: s in sends ==> s.dayStart == day
    ensures Uncounted(After(providers, logs, sends), Action(providers[i]), day)
            <= Uncounted(logs, Action(providers[i]), day) + Early(sends, day)
    decreases |sends|
  {
    if sends == [] {
    } else {
      assert sends[0] in sends;
      StepUncounted(providers, logs, sends[0], i);
      UncountedBounded(providers, Step(providers, logs, sends[0]), sends[1..], day, i);
    }
  }

  lemma {:induction false} SameDayGoesForward(sends: seq<Send>, day: Time)
    requires forall s :: s in sends ==> s.dayStart == day
    ensures DaysGoForward(sends, day) && LastDay(sends, day) == day
    decreases |sends|
  {
    if sends != [] {
      assert sends[0] in sends && sends[|sends| - 1] in sends;
      SameDayGoesForward(sends[1..], day);
    }
  }

  /**
   In any order of clock readings, the log rows a provider gets in one day, with those already counted for
   it, exceed its credits by no more than what was submitted while the day start was ahead of the clock.
   */
  lemma OneDayStaysWithinCredits(providers: seq<Provider>, logs: seq<Log>, sends: seq<Send>, day: Time, i: nat)
    requires DistinctKeys(providers) && i < |providers| && WithinCredits(providers, logs, day)
    requires forall s :: s in sends ==> s.dayStart == day
    ensures var action := Action(providers[i]);
            Count(After(providers, logs, sends), action) - Count(logs, action) + CountSince(logs, action, day)
            <= providers[i].credits + Early(sends, day)
  {
    SameDayGoesForward(sends, day);
    QuotaHolds(providers, logs, sends, day);
    UncountedBounded(providers, logs, sends, day, i);
  }

  // ----- A day in numbers -----

  /** The credits of the providers before i. */
  function CreditsBefore(providers: seq<Provider>, i: nat): nat
    requires i <= |providers|
  {
    if i == 0 then 0 else CreditsBefore(providers, i - 1) + providers[i - 1].credits
  }

  /** What provider i gets of n e-mails that fill the providers up in order. */
  function Share(providers: seq<Provider>, i: nat, n: nat): nat
    requires i < |providers|
  {
    var before := CreditsBefore(providers, i);
    if n <= before then 0 else if n - before <= providers[i].credits then n - before else providers[i].credits
  }

  predicate HasShare(providers: seq<Provider>, logs: seq<Log>, day: Time, n: nat, i: nat) {
    i < |providers| && CountSince(logs, Action(providers[i]), day) == Share(providers, i, n)
  }

  ghost predicate Shared(providers: seq<Provider>, logs: seq<Log>, day: Time, n: nat) {
    forall i :: 0 <= i < |providers| ==> HasShare(providers, logs, day, n, i)
  }

  lemma {:induction false} CreditsGrow(providers: seq<Provider>, i: nat, j: nat)
    requires i <= j <= |providers|
    ensures CreditsBefore(providers, i) <= CreditsBefore(providers, j)
  {
    if i < j {
      CreditsGrow(providers, i, j - 1);
    }
  }

  predicate Full(providers: seq<Provider>, i: nat, n: nat) {
    i < |providers| && Share(providers, i, n) == providers[i].credits
  }

  lemma FullMeansReached(providers: seq<Provider>, i: nat, n: nat)
    requires Full(providers, i, n) && CreditsBefore(providers, i) <= n
    ensures CreditsBefore(providers, i + 1) <= n
  {
  }

  lemma {:induction false} ExhaustedUpTo(providers: seq<Provider>, i: nat, n: nat)
    requires i <= |providers|
    requires forall j :: 0 <= j < i ==> Full(providers, j, n)
    ensures CreditsBefore(providers, i) <= n
  {
    if i > 0 {
      ExhaustedUpTo(providers, i - 1, n);
      assert Full(providers, i - 1, n);
      FullMeansReached(providers, i - 1, n);
    }
  }

  lemma ShareDecides(providers: seq<Provider>, logs: seq<Log>, day: Time, n: nat, i: nat)
    requires HasShare(providers, logs, day, n, i)
    ensures Full(providers, i, n) <==> !HasCredits(providers[i], logs, day)
    ensures HasCredits(providers[i], logs, day) ==> n < CreditsBefore(providers, i + 1)
  {
  }

  lemma FirstOpen(providers: seq<Provider>, logs: seq<Log>, day: Time, n: nat, c: nat)
    requires Shared(providers, logs, day, n) && c <= |providers|
    requires forall j :: 0 <= j < c ==> !HasCredits(providers[j], logs, day)
    requires c < |providers| ==> HasCredits(providers[c], logs, day)
    ensures CreditsBefore(providers, c) <= n && (c < |providers| ==> n < CreditsBefore(providers, c + 1))
  {
    forall j | 0 <= j < c ensures Full(providers, j, n) {
      ShareDecides(providers, logs, day, n, j);
    }
    ExhaustedUpTo(providers, c, n);
    if c < |providers| {
      ShareDecides(providers, logs, day, n, c);
    }
  }

  /** The provider taken is the one whose part of the credits the next e-mail falls into. */
  lemma ChosenByShare(providers: seq<Provider>, logs: seq<Log>, day: Time, n: nat)
    requires Shared(providers, logs, day, n)
    ensures var c := Chosen(providers, logs, day);
            CreditsBefore(providers, c) <= n && (c < |providers| ==> n < CreditsBefore(providers, c + 1))
  {
    FirstOpen(providers, logs, day, n, Chosen(providers, logs, day));
  }

  /** The next e-mail adds one to the share of the provider into whose part it falls, and to no other. */
  lemma NextShare(providers: seq<Provider>, i: nat, c: nat, n: nat)
    requires i < |providers| && c <= |providers| && CreditsBefore(providers, c) <= n
    requires c < |providers| ==> n < CreditsBefore(providers, c + 1)
    ensures Share(providers, i, n + 1) == Share(providers, i, n) + if i == c then 1 else 0
  {
    if i < c {
      CreditsGrow(providers, i + 1, c);
    } else if c < i {
      CreditsGrow(providers, c + 1, i);
    }
  }

  lemma StepCount(providers: seq<Provider>, logs: seq<Log>, send: Send, i: nat)
    requires DistinctKeys(providers) && i < |providers|
    ensures var day := send.dayStart;
            CountSince(Step(providers, logs, send), Action(providers[i]), day)
            == CountSince(logs, Action(providers[i]), day)
               + if Logged(send.outcome) && send.now >= day && i == Chosen(providers, logs, day) then 1 else 0
  {
    var c := Chosen(providers, logs, send.dayStart);
    if c < |providers| {
      CountAppend(logs, Log(Action(providers[c]), send.now, send.to), Action(providers[i]), send.dayStart);
    }
  }

  function One(send: Send): nat {
    if Logged(send.outcome) && send.now >= send.dayStart then 1 else 0
  }

  lemma StepShare(providers: seq<Provider>, logs: seq<Log>, send: Send, n: nat, i: nat)
    requires DistinctKeys(providers) && HasShare(providers, logs, send.dayStart, n, i)
    requires var c := Chosen(providers, logs, send.dayStart);
             CreditsBefore(providers, c) <= n && (c < |providers| ==> n < CreditsBefore(providers, c + 1))
    ensures HasShare(providers, Step(providers, logs, send), send.dayStart, n + One(send), i)
  {
    StepCount(providers, logs, send, i);
    NextShare(providers, i, Chosen(providers, logs, send.dayStart), n);
  }

  lemma StepShares(providers: seq<Provider>, logs: seq<Log>, send: Send, n: nat)
    requires DistinctKeys(providers) && Shared(providers, logs, send.dayStart, n)
    ensures Shared(providers, Step(providers, logs, send), send.dayStart, n + One(send))
  {
    ChosenByShare(providers, logs, send.dayStart, n);
    var next, m := Step(providers, logs, send), n + One(send);
    forall i | 0 <= i < |providers| ensures HasShare(providers, next, send.dayStart, m, i) {
      StepShare(providers, logs, send, n, i);
    }
  }

  /** In any order, the counted e-mails of a day fill the providers up in order. */
  lemma {:induction false} SharesAfter(providers: seq<Provider>, logs: seq<Log>, sends: seq<Send>, day: Time, n: nat)
    requires DistinctKeys(providers) && Shared(providers, logs, day, n)
    requires forall s :: s in sends ==> s.dayStart == day
    ensures Shared(providers, After(providers, logs, sends), day, n + Late(sends, day))
    decreases |sends|
  {
    if sends == [] {
    } else {
      assert sends[0] in sends;
      StepShares(providers, logs, sends[0], n);
      SharesAfter(providers, Step(providers, logs, sends[0]), sends[1..], day, n + One(sends[0]));
    }
  }

  ghost predicate ClockGoesForward(sends: seq<Send>) {
    forall i, j :: 0 <= i < j < |sends| ==> sends[i].now <= sends[j].now
  }

  lemma {:induction false} NoneEarly(sends: seq<Send>, day: Time)
    requires forall s :: s in sends ==> s.now >= day
    ensures Early(sends, day) == 0
  {
    if sends != [] {
      assert sends[0] in sends;
      NoneEarly(sends[1..], day);
    }
  }

  lemma {:induction false} SameChoice(providers: seq<Provider>, a: seq<Log>, b: seq<Log>, day: Time)
    requires forall p :: p in providers ==> (HasCredits(p, a, day) <==> HasCredits(p, b, day))
    ensures Chosen(providers, a, day) == Chosen(providers, b, day)
    decreases |providers|
  {
    if providers != [] {
      assert providers[0] in providers;
      SameChoice(providers[1..], a, b, day);
    }
  }

  lemma SharedAlike(providers: seq<Provider>, a: seq<Log>, b: seq<Log>, day: Time, n: nat)
    requires Shared(providers, a, day, n) && Shared(providers, b, day, n)
    ensures Chosen(providers, a, day) == Chosen(providers, b, day)
  {
    forall p | p in providers ensures HasCredits(p, a, day) <==> HasCredits(p, b, day) {
      var i :| 0 <= i < |providers| && providers[i] == p;
      assert HasShare(providers, a, day, n, i) && HasShare(providers, b, day, n, i);
    }
    SameChoice(providers, a, b, day);
  }

  lemma EarlyStep(providers: seq<Provider>, logs: seq<Log>, send: Send, n: nat)
    requires DistinctKeys(providers) && Shared(providers, logs, send.dayStart, n) && send.now < send.dayStart
    ensures var next := Step(providers, logs, send);
            && Shared(providers, next, send.dayStart, n)
            && Chosen(providers, next, send.dayStart) == Chosen(providers, logs, send.dayStart)
  {
    StepShares(providers, logs, send, n);
    SharedAlike(providers, logs, Step(providers, logs, send), send.dayStart, n);
  }

  /** Before the day start nothing more is counted: all e-mails go to the provider the first of them goes to. */
  lemma {:induction false} EarlyGoToOne(
      providers: seq<Provider>, logs: seq<Log>, sends: seq<Send>, day: Time, n: nat, i: nat)
    requires DistinctKeys(providers) && i < |providers| && Shared(providers, logs, day, n) && ClockGoesForward(sends)
    requires forall s :: s in sends ==> s.dayStart == day
    ensures Uncounted(After(providers, logs, sends), Action(providers[i]), day)
         == Uncounted(logs, Action(providers[i]), day)
            + if i == Chosen(providers, logs, day) then Early(sends, day) else 0
    decreases |sends|
  {
    if sends == [] {
    } else if sends[0].now < day {
      assert sends[0] in sends;
      var next := Step(providers, logs, sends[0]);
      StepUncounted(providers, logs, sends[0], i);
      EarlyStep(providers, logs, sends[0], n);
      EarlyGoToOne(providers, next, sends[1..], day, n, i);
    } else {
      forall s | s in sends ensures s.now >= day {
        var k :| 0 <= k < |sends| && sends[k] == s;
        assert sends[0].now <= sends[k].now;
      }
      NoneEarly(sends, day);
      NothingUncounted(providers, logs, sends, day, i);
    }
  }

  lemma {:induction false} NothingUncounted(providers: seq<Provider>, logs: seq<Log>, sends: seq<Send>, day: Time, i: nat)
    requires DistinctKeys(providers) && i < |providers|
    requires forall s :: s in sends ==> s.dayStart == day && s.now >= day
    ensures Uncounted(After(providers, logs, sends), Action(providers[i]), day)
         == Uncounted(logs, Action(providers[i]), day)
    decreases |sends|
  {
    if sends == [] {
    } else {
      assert sends[0] in sends;
      StepUncounted(providers, logs, sends[0], i);
      NothingUncounted(providers, Step(providers, logs, sends[0]), sends[1..], day, i);
    }
  }

  /**
   The log rows of a day of a clock that goes forward, begun with n e-mails counted, in numbers. What is
   logged past the day start goes on filling the providers up in order; what is logged before it all
   goes to the provider that is next in order at the beginning.
   */
  lemma DayInNumbers(providers: seq<Provider>, logs: seq<Log>, sends: seq<Send>, day: Time, n: nat, i: nat)
    requires DistinctKeys(providers) && i < |providers| && Shared(providers, logs, day, n) && ClockGoesForward(sends)
    requires forall s :: s in sends ==> s.dayStart == day
    ensures var action := Action(providers[i]);
            Count(After(providers, logs, sends), action) - Count(logs, action)
            == Share(providers, i, n + Late(sends, day)) - Share(providers, i, n)
               + if i == Chosen(providers, logs, day) then Early(sends, day) else 0
  {
    SharesAfter(providers, logs, sends, day, n);
    assert HasShare(providers, logs, day, n, i);
    assert HasShare(providers, After(providers, logs, sends), day, n + Late(sends, day), i);
    EarlyGoToOne(providers, logs, sends, day, n, i);
  }

  function Min(a: nat, b: nat): nat {
    if a <= b then a else b
  }

  lemma ShareBounds(providers: seq<Provider>, i: nat, n: nat)
    requires i < |providers|
    ensures Share(providers, i, 0) == 0 && Share(providers, i, n) <= providers[i].credits
    ensures CreditsBefore(providers, i) == 0 ==> Share(providers, i, n) == Min(providers[i].credits, n)
  {
  }

  /**
   The log rows of a day begun with nothing counted exceed a provider's credits if and only if it is the first
   one with any, and the rows before the day start and those counted after it are more than its credits.
   */
  lemma DayExceedsCreditsIff(providers: seq<Provider>, logs: seq<Log>, sends: seq<Send>, day: Time, i: nat)
    requires DistinctKeys(providers) && i < |providers| && Shared(providers, logs, day, 0) && ClockGoesForward(sends)
    requires forall s :: s in sends ==> s.dayStart == day
    ensures var action, credits := Action(providers[i]), providers[i].credits;
            Count(After(providers, logs, sends), action) - Count(logs, action) > credits
            <==> i == Chosen(providers, logs, day) && Early(sends, day) + Min(credits, Late(sends, day)) > credits
  {
    DayInNumbers(providers, logs, sends, day, 0, i);
    ShareBounds(providers, i, Late(sends, day));
    ChosenByShare(providers, logs, day, 0);
  }

  // ----- E-mails that go out -----

  /** The e-mails of a run that provider i has accepted. */
  function Sent(providers: seq<Provider>, logs: seq<Log>, sends: seq<Send>, i: nat): nat
    decreases |sends|
  {
    if sends == [] then 0
    else
      (if GoesOut(sends[0].outcome) && Chosen(providers, logs, sends[0].dayStart) == i then 1 else 0)
      + Sent(providers, Step(providers, logs, sends[0]), sends[1..], i)
  }

  /** Provider i is next in order once n e-mails are counted. */
  predicate Next(providers: seq<Provider>, i: nat, n: nat) {
    i < |providers| && CreditsBefore(providers, i) <= n < CreditsBefore(providers, i + 1)
  }

  /** The e-mails without a log that go out while provider i is next, when n are counted at first. */
  function Unlogged(providers: seq<Provider>, sends: seq<Send>, n: nat, i: nat): nat
    decreases |sends|
  {
    if sends == [] then 0
    else
      (if GoesOut(sends[0].outcome) && !Logged(sends[0].outcome) && Next(providers, i, n) then 1 else 0)
      + Unlogged(providers, sends[1..], n + One(sends[0]), i)
  }

  lemma {:induction false} CountIsWhole(logs: seq<Log>, log: Log, action: string)
    ensures Count(logs + [log], action) == Count(logs, action) + if log.action == action then 1 else 0
  {
    if logs == [] {
      assert [] + [log] == [log];
    } else {
      assert (logs + [log])[1..] == logs[1..] + [log];
      CountIsWhole(logs[1..], log, action);
    }
  }

  lemma StepRows(providers: seq<Provider>, logs: seq<Log>, send: Send, i: nat)
    requires DistinctKeys(providers) && i < |providers|
    ensures Count(Step(providers, logs, send), Action(providers[i]))
         == Count(logs, Action(providers[i]))
            + if Logged(send.outcome) && Chosen(providers, logs, send.dayStart) == i then 1 else 0
  {
    var c := Chosen(providers, logs, send.dayStart);
    if c < |providers| {
      CountIsWhole(logs, Log(Action(providers[c]), send.now, send.to), Action(providers[i]));
    }
  }

  lemma ChosenIsNext(providers: seq<Provider>, logs: seq<Log>, day: Time, n: nat, i: nat)
    requires Shared(providers, logs, day, n) && i < |providers|
    ensures Chosen(providers, logs, day) == i <==> Next(providers, i, n)
  {
    var c := Chosen(providers, logs, day);
    ChosenByShare(providers, logs, day, n);
    if i < c {
      CreditsGrow(providers, i + 1, c);
    } else if c < i {
      CreditsGrow(providers, c + 1, i);
    }
  }

  /** In any order of clock readings, what a provider accepts in a day is its log rows and the e-mails without one. */
  lemma {:induction false} SentIsRowsAndUnlogged(
      providers: seq<Provider>, logs: seq<Log>, sends: seq<Send>, day: Time, n: nat, i: nat)
    requires DistinctKeys(providers) && i < |providers| && Shared(providers, logs, day, n)
    requires forall s :: s in sends ==> s.dayStart == day
    ensures Sent(providers, logs, sends, i)
         == Count(After(providers, logs, sends), Action(providers[i])) - Count(logs, Action(providers[i]))
            + Unlogged(providers, sends, n, i)
    decreases |sends|
  {
    if sends == [] {
    } else {
      assert sends[0] in sends;
      ChosenIsNext(providers, logs, day, n, i);
      StepRows(providers, logs, sends[0], i);
      StepShares(providers, logs, sends[0], n);
      SentIsRowsAndUnlogged(providers, Step(providers, logs, sends[0]), sends[1..], day, n + One(sends[0]), i);
    }
  }

  /**
   Main result: what every provider accepts in a day of a clock that goes forward, begun with n e-mails
   counted, in terms of the submissions alone.
   */
  lemma SentInNumbers(providers: seq<Provider>, logs: seq<Log>, sends: seq<Send>, day: Time, n: nat, i: nat)
    requires DistinctKeys(providers) && i < |providers| && Shared(providers, logs, day, n) && ClockGoesForward(sends)
    requires forall s :: s in sends ==> s.dayStart == day
    ensures Sent(providers, logs, sends, i)
         == Share(providers, i, n + Late(sends, day)) - Share(providers, i, n)
            + (if Next(providers, i, n) then Early(sends, day) else 0)
            + Unlogged(providers, sends, n, i)
  {
    SentIsRowsAndUnlogged(providers, logs, sends, day, n, i);
    DayInNumbers(providers, logs, sends, day, n, i);
    ChosenIsNext(providers, logs, day, n, i);
  }

  /**
   A day begun with nothing counted sends more through a provider than its credits if and only if its
   share of the e-mails counted, those before the day start if it is the first with any credits, and
   those whose log was not written are together more.
   */
  lemma SentExceedsCreditsIff(providers: seq<Provider>, logs: seq<Log>, sends: seq<Send>, day: Time, i: nat)
    requires DistinctKeys(providers) && i < |providers| && Shared(providers, logs, day, 0) && ClockGoesForward(sends)
    requires forall s :: s in sends ==> s.dayStart == day
    ensures Sent(providers, logs, sends, i) > providers[i].credits
            <==> Share(providers, i, Late(sends, day)) + (if Next(providers, i, 0) then Early(sends, day) else 0)
                 + Unlogged(providers, sends, 0, i) > providers[i].credits
  {
    SentInNumbers(providers, logs, sends, day, 0, i);
    ShareBounds(providers, i, 0);
  }

  /** In any order of clock readings a day exceeds the credits by what is not counted at most. */
  lemma SentIsBounded(providers: seq<Provider>, logs: seq<Log>, sends: seq<Send>, day: Time, n: nat, i: nat)
    requires DistinctKeys(providers) && i < |providers| && Shared(providers, logs, day, n)
    requires forall s :: s in sends ==> s.dayStart == day
    ensures Sent(providers, logs, sends, i) + Share(providers, i, n)
         <= providers[i].credits + Early(sends, day) + Unlogged(providers, sends, n, i)
  {
    SentIsRowsAndUnlogged(providers, logs, sends, day, n, i);
    assert HasShare(providers, logs, day, n, i);
    forall j | 0 <= j < |providers| ensures CountSince(logs, Action(providers[j]), day) <= providers[j].credits {
      assert HasShare(providers, logs, day, n, j);
      ShareBounds(providers, j, n);
    }
    OneDayStaysWithinCredits(providers, logs, sends, day, i);
  }

  /** When the log is missing each time, any number of e-mails go out through the same provider. */
  lemma {:induction false} UnloggedAreNeverCounted(
      providers: seq<Provider>, logs: seq<Log>, sends: seq<Send>, day: Time, i: nat)
    requires i < |providers| && Chosen(providers, logs, day) == i
    requires forall s :: s in sends ==> s.dayStart == day && GoesOut(s.outcome) && !Logged(s.outcome)
    ensures Sent(providers, logs, sends, i) == |sends| && After(providers, logs, sends) == logs
    decreases |sends|
  {
    if sends == [] {
    } else {
      assert sends[0] in sends;
      UnloggedAreNeverCounted(providers, logs, sends[1..], day, i);
    }
  }

  // ----- The rows and the day -----

  /** A call writes one row, if a provider has credits and it was submitted and logged, and otherwise none. */
  lemma WritesARowIff(providers: seq<Provider>, logs: seq<Log>, send: Send)
    ensures var submitted := send.outcome == Submitted || send.outcome == SubmittedReplyLost;
            var some := exists p :: p in providers && HasCredits(p, logs, send.dayStart);
            && (submitted && some ==> |Step(providers, logs, send)| == |logs| + 1 && logs <= Step(providers, logs, send))
            && (!(submitted && some) ==> Step(providers, logs, send) == logs)
  {
    var i := Chosen(providers, logs, send.dayStart);
    if i < |providers| {
      assert providers[i] in providers;
    }
  }

  /** An e-mail is sent exactly if a provider has credits and took it, whether or not it answered or was logged. */
  lemma SendsIff(providers: seq<Provider>, logs: seq<Log>, send: Send, i: nat)
    requires i < |providers|
    ensures var took := send.outcome == Submitted || send.outcome == SubmittedReplyLost
                        || send.outcome == SubmittedLogThrows || send.outcome == SubmissionReplyLost;
            Sent(providers, logs, [send], i)
            == if took && Chosen(providers, logs, send.dayStart) == i then 1 else 0
  {
    assert [send][1..] == [];
  }

  /** Every row of a run is of a submission that was logged, with its time and address, by one of the providers. */
  ghost predicate RowOf(providers: seq<Provider>, sends: seq<Send>, row: Log) {
    exists s, p :: s in sends && p in providers && Logged(s.outcome) && row == Log(Action(p), s.now, s.to)
  }

  lemma {:induction false} RowsComeFromSends(providers: seq<Provider>, logs: seq<Log>, sends: seq<Send>, row: Log)
    requires row in After(providers, logs, sends)
    ensures row in logs || RowOf(providers, sends, row)
    decreases |sends|
  {
    if sends == [] {
    } else {
      var next := Step(providers, logs, sends[0]);
      RowsComeFromSends(providers, next, sends[1..], row);
      if row in next && row !in logs {
        var i := Chosen(providers, logs, sends[0].dayStart);
        assert row == Log(Action(providers[i]), sends[0].now, sends[0].to);
        assert providers[i] in providers && sends[0] in sends;
      } else if row !in logs {
        var s, p :| s in sends[1..] && p in providers && Logged(s.outcome) && row == Log(Action(p), s.now, s.to);
        assert s in sends;
      }
    }
  }

  /** The day start is the UTC midnight that begins the date the local clock shows. */
  lemma DayStartIs(now: Time, offset: Time)
    ensures DAY == 86400000 && DayStart(now, offset) % DAY == 0
    ensures DayStart(now, offset) <= now + offset < DayStart(now, offset) + DAY
  {
  }

  /** Distinct provider keys make distinct actions, so the providers' rows are told apart by them. */
  lemma ActionsApart(p: Provider, q: Provider)
    ensures Action(p) == Action(q) <==> p.key == q.key
    ensures Action(p)[|p.key|..] == "_EMAIL_SUBMISSION"
  {
    if Action(p) == Action(q) {
      assert p.key == Action(p)[..|p.key|] && q.key == Action(q)[..|q.key|];
    }
  }

  class TransactionalEmail {
    const providers: seq<Provider>
    var logs: seq<Log>

    constructor (providers: seq<Provider>)
      ensures this.providers == providers && logs == []
    {
      this.providers := providers;
      logs := [];
    }

    method FindLogsByAction(action: string, since: Time) returns (found: nat)
      ensures found == CountSince(logs, action, since)
    {
      found := 0;
      var i := |logs|;
      while i > 0
        invariant 0 <= i <= |logs| && found == CountSince(logs[i..], action, since)
      {
        i := i - 1;
        assert logs[i..][1..] == logs[i + 1..];
        if logs[i].action == action && logs[i].createdAt >= since {
          found := found + 1;
        }
      }
      assert logs[0..] == logs;
    }

    /** Returns whether the caller is told that the e-mail went out (or needed not to). */
    method SendEmail(send: Send) returns (sent: bool)
      modifies this
      ensures logs == Step(providers, old(logs), send)
      ensures sent <==> Chosen(providers, old(logs), send.dayStart) < |providers|
                        && (send.outcome == Submitted || send.outcome == Unsubscribed)
    {
      for i := 0 to |providers|
        invariant logs == old(logs) && forall j :: 0 <= j < i ==> !HasCredits(providers[j], logs, send.dayStart)
      {
        if send.outcome == CountThrows {
          return false;
        }
        var today := FindLogsByAction(Action(providers[i]), send.dayStart);
        if today < providers[i].credits {
          assert Chosen(providers, logs, send.dayStart) == i;
          match send.outcome {
            case Unsubscribed => return true;
            case Submitted =>
              logs := logs + [Log(Action(providers[i]), send.now, send.to)];
              return true;
            case SubmittedReplyLost =>
              logs := logs + [Log(Action(providers[i]), send.now, send.to)];
              return false;
            case _ => return false;
          }
        }
      }
      return false;
    }
  }
}
