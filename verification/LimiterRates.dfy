/** What the rate limits of a whole limiter come to, from its creation on: the exact slack of the rate bound,
    and how long the delay and the Retry-After header of a rejection can get. */
module LimiterRates {
  import opened Common
  import opened Divisors
  import opened RateConfig
  import opened TokenBucket
  import opened AccountMachine
  import opened AccountRuns
  import opened AccountDebt
  import opened RateChanges
  import opened LimiterSpec

  // ---- One account's run, played on the shared limiter ----

  /** The update that lists one account, with limits for all. */
  function SetLimits(now: int, a: string, limits: Limits): Event {
    Update(now, Some(Config(limits, map[])), Some({a}))
  }

  function SetRate(now: int, a: string, rpm: int, burst: int): Event {
    SetLimits(now, a, Limits(0, rpm, burst))
  }

  function CallFor(e: CellEvent, a: string): Event
    requires !e.Finish?
  {
    if e.Ask? then Acquire(e.now, a) else SetLimits(e.now, a, e.limits)
  }

  function CallsFor(es: seq<CellEvent>, a: string): seq<Event>
    requires Playable(es)
  {
    if es == [] then [] else [CallFor(es[0], a)] + CallsFor(es[1..], a)
  }

  predicate OnlyAcquires(es: seq<Event>) {
    forall i :: 0 <= i < |es| ==> es[i].Acquire?
  }

  predicate UpdatesFrom(es: seq<Event>, a: string, rates: set<nat>) {
    forall i :: 0 <= i < |es| && es[i].Update? ==>
      var rpm := EffectiveLimits(es[i].cfg, a).requestsPerMinute; rpm >= 0 && rpm in rates
  }

  lemma {:induction false} PlayedRunProjects(v: LimiterValue, es: seq<CellEvent>, c: Cell, a: string, now: int)
    requires Playable(es) && LegalRun(c, es, now)
    ensures ProjectRun(v, CallsFor(es, a), a) == es
    ensures LegalCalls(CallsFor(es, a), now) && LastTime(CallsFor(es, a), now) == EndTime(es, now)
    decreases |es|
  {
    if es != [] {
      var e, rest := CallFor(es[0], a), CallsFor(es[1..], a);
      PlayedRunProjects(Step(v, e).0, es[1..], CellStep(c, es[0]).0, a, es[0].now);
      assert ([e] + rest)[1..] == rest;
      assert [es[0]] + es[1..] == es;
    }
  }

  lemma {:induction false} PlayedRates(es: seq<CellEvent>, a: string, rates: set<nat>)
    requires Playable(es)
    ensures OnlyAsks(es) ==> OnlyAcquires(CallsFor(es, a))
    ensures RatesFrom(es, rates) ==> UpdatesFrom(CallsFor(es, a), a, rates)
    decreases |es|
  {
    if es != [] {
      PlayedRates(es[1..], a, rates);
      assert OnlyAsks(es) ==> OnlyAsks(es[1..]);
      assert RatesFrom(es, rates) ==> RatesFrom(es[1..], rates);
    }
  }

  /** The furthest run of a new account, on a new limiter. */
  lemma FurthestCalls(a: string, rpm: int, burst: int) returns (n: nat, es: seq<Event>)
    requires rpm > 0 && burst > 0
    ensures var pre := SetRate(0, a, rpm, burst);
            var v := Step(INITIAL, pre).0;
            var v' := Run(v, es).0;
            && LegalCalls([pre], 0) && LegalCalls(es, 0) && LastTime(es, 0) <= n
            && OnlyAcquires(es)
            && CellOf(v, a) == NewAccount(rpm, burst)
            && CellOf(v', a).limits == Limits(0, rpm, burst) && CellOf(v', a).listing == Listed
            && CellOf(v', a).entry.Some? && CellLevel(CellOf(v', a), n) == -Slack(rpm)
            && Admissions(OutcomesOf(v, es, a)) * TOKEN == burst * TOKEN + n * rpm + Slack(rpm)
  {
    var pre := SetRate(0, a, rpm, burst);
    var v := Step(INITIAL, pre).0;
    var asks;
    n, asks := FurthestRun(rpm, burst);
    es := CallsFor(asks, a);
    PlayedRunProjects(v, asks, CellOf(v, a), a, 0);
    PlayedRates(asks, a, {});
    RunIsProduct(v, es, a);
    assert [pre][1..] == [];
  }

  // ---- The rate bound ----

  /** A window that the account's rate spans, in a run of a new limiter. */
  ghost predicate CallsInWindow(pre: seq<Event>, es: seq<Event>, a: string, t1: int, t2: int, rpm: int, burst: int) {
    var v := Run(INITIAL, pre).0;
    && LegalCalls(pre, 0) && LastTime(pre, 0) <= t1
    && AtRate(EffectiveLimits(v.cfg, a), ListingOf(v.allowed, a), rpm, burst)
    && LegalCalls(es, t1) && UpdatesKeepRate(es, a, rpm, burst) && LastTime(es, t1) <= t2
  }

  /** burst + rpm * minutes admissions, and so many units, are enough for the account in every window. */
  ghost predicate AccountBoundHolds(a: string, rpm: int, burst: int, slack: int) {
    forall pre: seq<Event>, es: seq<Event>, t1: int, t2: int :: CallsInWindow(pre, es, a, t1, t2, rpm, burst) ==>
      Admissions(OutcomesOf(Run(INITIAL, pre).0, es, a)) * TOKEN <= burst * TOKEN + rpm * (t2 - t1) + slack
  }

  lemma CallsInWindowAreBounded(pre: seq<Event>, es: seq<Event>, a: string, t1: int, t2: int, rpm: int, burst: int)
    requires rpm > 0 && CallsInWindow(pre, es, a, t1, t2, rpm, burst)
    ensures Admissions(OutcomesOf(Run(INITIAL, pre).0, es, a)) * TOKEN <= burst * TOKEN + rpm * (t2 - t1) + Slack(rpm)
  {
    InitialInv(0);
    RunKeepsLimiterInv(INITIAL, pre, 0);
    var v := Run(INITIAL, pre).0;
    InvLater(v, LastTime(pre, 0), t1);
    AccountWindow(v, es, a, t1, t2, rpm, burst);
  }

  /** For each account of a shared limiter, whatever the others do, Slack(rpm) is the least that covers all windows. */
  lemma AccountSlackIsLeast(a: string, rpm: int, burst: int, slack: int)
    requires rpm > 0 && burst > 0
    ensures AccountBoundHolds(a, rpm, burst, slack) <==> slack >= Slack(rpm)
  {
    if slack >= Slack(rpm) {
      forall pre: seq<Event>, es: seq<Event>, t1: int, t2: int | CallsInWindow(pre, es, a, t1, t2, rpm, burst)
        ensures Admissions(OutcomesOf(Run(INITIAL, pre).0, es, a)) * TOKEN <= burst * TOKEN + rpm * (t2 - t1) + slack
      {
        CallsInWindowAreBounded(pre, es, a, t1, t2, rpm, burst);
      }
    } else {
      var n, es := FurthestCalls(a, rpm, burst);
      var pre := [SetRate(0, a, rpm, burst)];
      assert pre[1..] == [];
      assert LastTime(pre, 0) == 0;
      assert CallsInWindow(pre, es, a, 0, n, rpm, burst);
    }
  }

  /** The documented bound holds for an account in every window exactly when its rate divides TOKEN. */
  lemma AccountBoundWithoutSlackIff(a: string, rpm: int, burst: int)
    requires rpm > 0 && burst > 0
    ensures AccountBoundHolds(a, rpm, burst, 0) <==> TOKEN % rpm == 0
  {
    AccountSlackIsLeast(a, rpm, burst, 0);
  }

  // ---- What an account of the shared limiter owes ----

  predicate UpdatesOwe(es: seq<Event>, a: string, g: int, debt: int)
    requires g > 0
  {
    forall i :: 0 <= i < |es| && es[i].Update? ==> RateOwes(EffectiveLimits(es[i].cfg, a).requestsPerMinute, g, debt)
  }

  lemma {:induction false} ProjectedRatesOwe(v: LimiterValue, es: seq<Event>, a: string, g: int, debt: int)
    requires g > 0 && UpdatesOwe(es, a, g, debt)
    ensures RatesOwe(ProjectRun(v, es, a), g, debt)
    decreases |es|
  {
    if es != [] {
      assert UpdatesOwe(es[1..], a, g, debt);
      ProjectedRatesOwe(Step(v, es[0]).0, es[1..], a, g, debt);
    }
  }

  lemma CallsOwe(v: LimiterValue, es: seq<Event>, a: string, now: int, g: int, debt: int)
    requires LimiterInv(v, now) && LegalCalls(es, now) && g > 0 && TOKEN % g == 0 && debt >= 0
    requires OwesAtMost(CellOf(v, a), now, g, debt) && UpdatesOwe(es, a, g, debt)
    requires RateOwes(EffectiveLimits(v.cfg, a).requestsPerMinute, g, debt)
    ensures OwesAtMost(CellOf(Run(v, es).0, a), LastTime(es, now), g, debt)
  {
    var own := ProjectRun(v, es, a);
    assert CellInv(CellOf(v, a), now);
    RunIsProduct(v, es, a);
    ProjectedRunIsLegal(v, es, a, now, now);
    ProjectedRatesOwe(v, es, a, g, debt);
    RunOwes(CellOf(v, a), own, now, g, debt);
    RunKeepsCellInv(CellOf(v, a), own, now);
    OwesLater(CellOf(Run(v, es).0, a), EndTime(own, now), LastTime(es, now), g, debt);
  }

  lemma NewLimiterOwes(es: seq<Event>, a: string, g: int, debt: int)
    requires LegalCalls(es, 0) && g > 0 && TOKEN % g == 0 && debt >= 0 && UpdatesOwe(es, a, g, debt)
    ensures LimiterInv(Run(INITIAL, es).0, LastTime(es, 0))
    ensures OwesAtMost(CellOf(Run(INITIAL, es).0, a), LastTime(es, 0), g, debt)
  {
    InitialInv(0);
    MultipleOf(0, g, 0);
    CallsOwe(INITIAL, es, a, 0, g, debt);
    RunKeepsLimiterInv(INITIAL, es, 0);
  }

  // ---- Delays ----

  predicate RatesAtMost(es: seq<Event>, a: string, most: int) {
    forall i :: 0 <= i < |es| && es[i].Update? ==> EffectiveLimits(es[i].cfg, a).requestsPerMinute <= most
  }

  lemma {:induction false} RatesOweLess(es: seq<Event>, a: string, now: int, most: int)
    requires LegalCalls(es, now) && RatesAtMost(es, a, most)
    ensures UpdatesOwe(es, a, 1, most - 1)
    decreases |es|
  {
    if es != [] {
      assert RatesAtMost(es[1..], a, most);
      RatesOweLess(es[1..], a, TimeAfter(es[0], now), most);
      forall i | 0 <= i < |es| && es[i].Update?
        ensures RateOwes(EffectiveLimits(es[i].cfg, a).requestsPerMinute, 1, most - 1)
      {
        assert i > 0 ==> es[i] == es[1..][i - 1];
      }
    }
  }

  /** After any calls on a new limiter, with no rate of the account above `most` so far, the delay of a rejection
      is at most what TOKEN + most - 1 units take at the rate in force. */
  lemma DelayIsBounded(es: seq<Event>, a: string, t: int, most: int)
    requires LegalCalls(es, 0) && LastTime(es, 0) <= t && most > 0 && RatesAtMost(es, a, most)
    requires Step(Run(INITIAL, es).0, Acquire(t, a)).1.TooFast?
    ensures var TooFast(rpm, delay) := Step(Run(INITIAL, es).0, Acquire(t, a)).1;
            0 < rpm && 0 < delay <= (TOKEN + most - 1) / rpm
  {
    RatesOweLess(es, a, 0, most);
    NewLimiterOwes(es, a, 1, most - 1);
    var v := Run(INITIAL, es).0;
    var c := CellOf(v, a);
    assert CellInv(c, LastTime(es, 0));
    StepProjects(v, Acquire(t, a), a);
    RejectionDelay(c, LastTime(es, 0), t, 1, most - 1);
    AdmittedIff(c, LastTime(es, 0), t);
    DivIsMonotone(TOKEN - CellLevel(c, t), TOKEN + most - 1, c.limits.requestsPerMinute);
  }

  lemma DivIsMonotone(x: int, y: int, k: int)
    requires k > 0 && x <= y
    ensures x / k <= y / k
  {
    QuotientAtMost(x, k, y / k);
    QuotientAtMost(y, k, y / k);
  }

  lemma QuotientAtMost(u: int, k: int, n: int)
    requires k > 0
    ensures u / k <= n <==> u <= k * n + k - 1
  {
    var q, r := u / k, u % k;
    assert u == k * q + r && 0 <= r < k;
    if q <= n {
      var m := n - q;
      assert n == q + m && k * m >= 0;
      Distribute(k, q, m);
    } else {
      var m := q - n - 1;
      assert q == n + (m + 1) && k * m >= 0;
      Distribute(k, n, m + 1);
      Distribute(k, m, 1);
    }
  }

  /** No delay is anywhere near the library's largest duration. */
  lemma DelayIsFinite(es: seq<Event>, a: string, t: int)
    requires LegalCalls(es, 0) && LastTime(es, 0) <= t && RatesAtMost(es, a, INF_DURATION - TOKEN)
    requires Step(Run(INITIAL, es).0, Acquire(t, a)).1.TooFast?
    ensures Step(Run(INITIAL, es).0, Acquire(t, a)).1.retryAfter < INF_DURATION
  {
    DelayIsBounded(es, a, t, INF_DURATION - TOKEN);
    QuotientAtMost(INF_DURATION - 1, Step(Run(INITIAL, es).0, Acquire(t, a)).1.limit, INF_DURATION - 1);
  }

  /** From a new limiter on: account a is refused for its rate at `now`, then come calls that neither admit it nor
      change its limits or listing, and then it asks again. */
  ghost predicate AsksAgain(pre: seq<Event>, now: int, a: string, es: seq<Event>, later: int) {
    var (v1, o) := Step(Run(INITIAL, pre).0, Acquire(now, a));
    && LegalCalls(pre, 0) && LastTime(pre, 0) <= now && RatesAtMost(pre, a, INF_DURATION - TOKEN)
    && o.TooFast?
    && LegalCalls(es, now) && LastTime(es, now) <= later && NoGrant(CellOf(v1, a), ProjectRun(v1, es, a))
  }

  /** From a new limiter on, every delay reported is exact, unless the account is off the list by then and has finished
      all its work. */
  lemma RetryAfterIsExactFromStart(pre: seq<Event>, now: int, a: string, es: seq<Event>, later: int)
    requires AsksAgain(pre, now, a, es, later)
    ensures var (v1, TooFast(limit, delay)) := Step(Run(INITIAL, pre).0, Acquire(now, a));
            var v2 := Run(v1, es).0;
            && (a !in v2.accounts <==> ListingOf(v2.allowed, a).Unlisted? && Live(v2.tickets, a) == 0)
            && Step(v2, Acquire(later, a)).1 ==
               if a !in v2.accounts then Admitted
               else if 0 < EffectiveLimits(v2.cfg, a).maxConcurrent <= Live(v2.tickets, a)
               then TooManyConcurrent(EffectiveLimits(v2.cfg, a).maxConcurrent)
               else if later < now + delay then TooFast(limit, now + delay - later)
               else Admitted
  {
    InitialInv(0);
    RunKeepsLimiterInv(INITIAL, pre, 0);
    InvLater(Run(INITIAL, pre).0, LastTime(pre, 0), now);
    DelayIsFinite(pre, a, now);
    AccountRetryAfter(Run(INITIAL, pre).0, now, a, es, later);
  }

  /** Exactly when a request is admitted before the delay is over. */
  lemma AdmittedEarlyIff(pre: seq<Event>, now: int, a: string, es: seq<Event>, later: int)
    requires AsksAgain(pre, now, a, es, later)
    requires later < now + Step(Run(INITIAL, pre).0, Acquire(now, a)).1.retryAfter
    ensures var v2 := Run(Step(Run(INITIAL, pre).0, Acquire(now, a)).0, es).0;
            Step(v2, Acquire(later, a)).1.Admitted?
            <==> ListingOf(v2.allowed, a).Unlisted? && Live(v2.tickets, a) == 0
  {
    RetryAfterIsExactFromStart(pre, now, a, es, later);
  }

  /** An account taken off the list while it has a scan running is told to wait a minute; when that scan finishes, its
      next request is admitted at once. */
  lemma UnlistedAccountIsAdmittedEarly()
    ensures var limits := Limits(0, 1, 1);
            var es := [Ask(0), Reload(0, limits, Unlisted), Ask(0), Finish, Ask(0)];
            && LegalRun(NewAccount(1, 1), es, 0)
            && CellRun(NewAccount(1, 1), es).1 == [Admitted, Done, TooFast(1, 60_000_000_000), Done, Admitted]
  {
    var limits := Limits(0, 1, 1);
    var e := Reload(0, limits, Unlisted);
    var c0, b := NewAccount(1, 1), BucketValue(1, 1, 0, 0);
    var c1, c2, c3 := c0.(entry := Some(Entry(1, Some(b)))), Cell(limits, Unlisted, Some(Entry(1, Some(b)))),
                      Cell(limits, Unlisted, None);
    assert CellStep(c0, Ask(0)) == (c1, Admitted) && CellStep(c1, e) == (c2, Done);
    assert CellStep(c2, Ask(0)) == (c2, TooFast(1, 60_000_000_000)) && CellStep(c2, Finish) == (c3, Done);
    assert CellStep(c3, Ask(0)).1 == Admitted;
    var f1, f2, f3, f4 := [Ask(0)], [Finish, Ask(0)], [Ask(0), Finish, Ask(0)], [e, Ask(0), Finish, Ask(0)];
    assert f1[1..] == [] && f2[1..] == f1 && f3[1..] == f2 && f4[1..] == f3 && ([Ask(0)] + f4)[1..] == f4;
    assert CellRun(c3, f1).1 == [Admitted] && CellRun(c2, f2).1 == [Done, Admitted];
    assert CellRun(c2, f3).1 == [TooFast(1, 60_000_000_000), Done, Admitted];
    assert CellRun(c1, f4).1 == [Done, TooFast(1, 60_000_000_000), Done, Admitted];
    assert LegalRun(c3, f1, 0) && LegalRun(c2, f2, 0) && LegalRun(c2, f3, 0) && LegalRun(c1, f4, 0);
    assert [Ask(0)] + f4 == [Ask(0), e, Ask(0), Finish, Ask(0)];
  }

  // ---- The Retry-After header ----

  const SECOND: int := 1_000_000_000

  function CeilSeconds(nanos: int): int {
    -((-nanos) / SECOND)
  }

  /** The least whole number of seconds, at least 1, that covers the delay. */
  function HeaderSeconds(nanos: int): int {
    Max(1, CeilSeconds(nanos))
  }

  lemma CeilSecondsIsLeast(nanos: int, s: int)
    ensures s >= CeilSeconds(nanos) <==> s * SECOND >= nanos
  {
    var q, r := (-nanos) / SECOND, (-nanos) % SECOND;
    assert -nanos == SECOND * q + r && 0 <= r < SECOND;
  }

  predicate WithinMinute(o: Outcome) {
    o.TooFast? ==> 1 <= HeaderSeconds(o.retryAfter) <= 60
  }

  /** A header over a minute means a debt of more than what (rpm - 1) tokens and (rpm - 1) units cover. */
  lemma HeaderOfDebt(u: int, rpm: int)
    requires rpm > 0
    ensures HeaderSeconds(Min(INF_DURATION, u / rpm)) <= 60 <==> u - TOKEN <= (rpm - 1) * (TOKEN + 1)
  {
    CeilSecondsIsLeast(Min(INF_DURATION, u / rpm), 60);
    QuotientAtMost(u, rpm, TOKEN);
    assert (rpm - 1) * (TOKEN + 1) == rpm * TOKEN + rpm - TOKEN - 1;
  }

  lemma RejectionWithinMinute(v: LimiterValue, a: string, now: int, t: int, g: int, debt: int)
    requires LimiterInv(v, now) && now <= t && g > 0 && debt >= 0 && OwesAtMost(CellOf(v, a), now, g, debt)
    requires debt <= (EffectiveLimits(v.cfg, a).requestsPerMinute - 1) * (TOKEN + 1)
    ensures WithinMinute(Step(v, Acquire(t, a)).1)
  {
    if Step(v, Acquire(t, a)).1.TooFast? {
      var c := CellOf(v, a);
      assert CellInv(c, now);
      StepProjects(v, Acquire(t, a), a);
      RejectionDelay(c, now, t, g, debt);
      HeaderOfDebt(TOKEN - CellLevel(c, t), c.limits.requestsPerMinute);
    }
  }

  /** From any good state, whatever is reloaded: an account that owes less than `most` units, and gets no rate above
      `most`, is asked to wait 1 to 60 seconds if most - 1 <= (rpm - 1) * (TOKEN + 1) at the rate rpm then in force.
      At a constant rate that always holds. */
  lemma HeaderWithinMinuteFrom(v: LimiterValue, es: seq<Event>, a: string, now: int, t: int, most: int)
    requires LimiterInv(v, now) && LegalCalls(es, now) && LastTime(es, now) <= t && most > 0
    requires OwesAtMost(CellOf(v, a), now, 1, most - 1)
    requires EffectiveLimits(v.cfg, a).requestsPerMinute <= most && RatesAtMost(es, a, most)
    requires most - 1 <= (EffectiveLimits(Run(v, es).0.cfg, a).requestsPerMinute - 1) * (TOKEN + 1)
    ensures WithinMinute(Step(Run(v, es).0, Acquire(t, a)).1)
  {
    assert CellInv(CellOf(v, a), now);
    RatesOweLess(es, a, now, most);
    CallsOwe(v, es, a, now, 1, most - 1);
    RunKeepsLimiterInv(v, es, now);
    RejectionWithinMinute(Run(v, es).0, a, LastTime(es, now), t, 1, most - 1);
  }

  /** In every run of a new limiter: with no rate of the account above `most` so far, the same. At rates up to TOKEN
      it is enough that rpm >= 2. */
  lemma HeaderWithinMinute(es: seq<Event>, a: string, t: int, most: int)
    requires LegalCalls(es, 0) && LastTime(es, 0) <= t && most > 0 && RatesAtMost(es, a, most)
    requires most - 1 <= (EffectiveLimits(Run(INITIAL, es).0.cfg, a).requestsPerMinute - 1) * (TOKEN + 1)
    ensures WithinMinute(Step(Run(INITIAL, es).0, Acquire(t, a)).1)
  {
    InitialInv(0);
    HeaderWithinMinuteFrom(INITIAL, es, a, 0, t, most);
  }

  // ---- Exactly when any number of changes of rate keep the header within a minute ----

  lemma {:induction false} RateIsFrom(v: LimiterValue, es: seq<Event>, a: string, rates: set<nat>)
    requires UpdatesFrom(es, a, rates)
    ensures var rpm := EffectiveLimits(Run(v, es).0.cfg, a).requestsPerMinute;
            Run(v, es).0.cfg == v.cfg || (rpm >= 0 && rpm in rates)
    decreases |es|
  {
    if es != [] {
      assert UpdatesFrom(es[1..], a, rates);
      RateIsFrom(Step(v, es[0]).0, es[1..], a, rates);
    }
  }

  /** The calls of a new limiter that leave the account owing rpm less the common divisor of the rates. */
  lemma DeepestCalls(a: string, rates: set<nat>, rpm: nat) returns (es: seq<Event>, t: int)
    requires rpm in rates && rpm > 0
    ensures LegalCalls(es, 0) && LastTime(es, 0) <= t && UpdatesFrom(es, a, rates)
    ensures var c := CellOf(Run(INITIAL, es).0, a); Ready(c, t) && CellLevel(c, t) == -(rpm - GcdOf(TOKEN, rates))
  {
    var run, c;
    run, c, t := DeepestRun(rates, rpm);
    var pre, calls := SetRate(0, a, rpm, 1), CallsFor(run, a);
    var v := Step(INITIAL, pre).0;
    es := [pre] + calls;
    assert es[0] == pre && es[1..] == calls;
    assert CellOf(v, a) == NewAccount(rpm, 1);
    PlayedRunProjects(v, run, CellOf(v, a), a, 0);
    PlayedRates(run, a, rates);
    RunIsProduct(v, calls, a);
  }

  /** In every run of a new limiter in which each update gives the account one of the rates, it owes at most `debt`. */
  ghost predicate OwesNoMore(a: string, rates: set<nat>, debt: int) {
    forall es: seq<Event>, t: int :: LegalCalls(es, 0) && LastTime(es, 0) <= t && UpdatesFrom(es, a, rates) ==>
      CellLevel(CellOf(Run(INITIAL, es).0, a), t) >= -debt
  }

  ghost predicate CoversDebt(rates: set<nat>, debt: int) {
    forall rpm :: rpm in rates && rpm > 0 ==> rpm - GcdOf(TOKEN, rates) <= debt
  }

  lemma RatesOweWithin(es: seq<Event>, a: string, rates: set<nat>, debt: int)
    requires UpdatesFrom(es, a, rates) && CoversDebt(rates, debt)
    ensures UpdatesOwe(es, a, GcdOf(TOKEN, rates), debt)
  {
    forall i | 0 <= i < |es| && es[i].Update?
      ensures RateOwes(EffectiveLimits(es[i].cfg, a).requestsPerMinute, GcdOf(TOKEN, rates), debt)
    {
      GcdOfDivides(TOKEN, rates, EffectiveLimits(es[i].cfg, a).requestsPerMinute);
    }
  }

  lemma OwesWithin(es: seq<Event>, a: string, t: int, rates: set<nat>, debt: int)
    requires LegalCalls(es, 0) && LastTime(es, 0) <= t && UpdatesFrom(es, a, rates)
    requires CoversDebt(rates, debt) && debt >= 0
    ensures LimiterInv(Run(INITIAL, es).0, LastTime(es, 0))
    ensures OwesAtMost(CellOf(Run(INITIAL, es).0, a), LastTime(es, 0), GcdOf(TOKEN, rates), debt)
    ensures CellLevel(CellOf(Run(INITIAL, es).0, a), t) >= -debt
  {
    RatesOweWithin(es, a, rates, debt);
    NewLimiterOwes(es, a, GcdOf(TOKEN, rates), debt);
    var c := CellOf(Run(INITIAL, es).0, a);
    assert CellInv(c, LastTime(es, 0));
    OwesLater(c, LastTime(es, 0), t, GcdOf(TOKEN, rates), debt);
  }

  /** The most an account can ever owe, whatever is reloaded and however often: its greatest rate, less the common
      divisor of all its rates and TOKEN. Rates that owe nothing alone can owe together. */
  lemma OwesNoMoreIff(a: string, rates: set<nat>, debt: int)
    requires debt >= 0
    ensures OwesNoMore(a, rates, debt) <==> CoversDebt(rates, debt)
  {
    if CoversDebt(rates, debt) {
      forall es: seq<Event>, t: int | LegalCalls(es, 0) && LastTime(es, 0) <= t && UpdatesFrom(es, a, rates)
        ensures CellLevel(CellOf(Run(INITIAL, es).0, a), t) >= -debt
      {
        OwesWithin(es, a, t, rates, debt);
      }
    } else {
      var rpm :| rpm in rates && rpm > 0 && rpm - GcdOf(TOKEN, rates) > debt;
      var es, t := DeepestCalls(a, rates, rpm);
    }
  }

  /** In every run of a new limiter in which each update gives the account one of the rates, every rate rejection asks
      for 1 to 60 seconds. */
  ghost predicate HeadersAlwaysFit(a: string, rates: set<nat>) {
    forall es: seq<Event>, t: int :: LegalCalls(es, 0) && LastTime(es, 0) <= t && UpdatesFrom(es, a, rates) ==>
      WithinMinute(Step(Run(INITIAL, es).0, Acquire(t, a)).1)
  }

  /** Exactly when: what the rates let the account owe is covered, at every one of them. */
  lemma HeadersAlwaysFitIff(a: string, rates: set<nat>)
    ensures HeadersAlwaysFit(a, rates) <==>
            forall after :: after in rates && after > 0 ==> CoversDebt(rates, (after - 1) * (TOKEN + 1))
  {
    if forall after :: after in rates && after > 0 ==> CoversDebt(rates, (after - 1) * (TOKEN + 1)) {
      forall es: seq<Event>, t: int | LegalCalls(es, 0) && LastTime(es, 0) <= t && UpdatesFrom(es, a, rates)
        ensures WithinMinute(Step(Run(INITIAL, es).0, Acquire(t, a)).1)
      {
        AlwaysWithinMinute(es, a, t, rates);
      }
    } else {
      var after :| after in rates && after > 0 && !CoversDebt(rates, (after - 1) * (TOKEN + 1));
      CanExceedMinute(a, rates, after);
    }
  }

  lemma AlwaysWithinMinute(es: seq<Event>, a: string, t: int, rates: set<nat>)
    requires LegalCalls(es, 0) && LastTime(es, 0) <= t && UpdatesFrom(es, a, rates)
    requires forall after :: after in rates && after > 0 ==> CoversDebt(rates, (after - 1) * (TOKEN + 1))
    ensures WithinMinute(Step(Run(INITIAL, es).0, Acquire(t, a)).1)
  {
    RateIsFrom(INITIAL, es, a, rates);
    var v := Run(INITIAL, es).0;
    var rpm := EffectiveLimits(v.cfg, a).requestsPerMinute;
    InitialInv(0);
    RunKeepsLimiterInv(INITIAL, es, 0);
    if rpm == 0 {
      NoRateNoRejection(v, a, LastTime(es, 0), t);
    } else {
      var debt := (rpm - 1) * (TOKEN + 1);
      OwesWithin(es, a, t, rates, debt);
      RejectionWithinMinute(v, a, LastTime(es, 0), t, GcdOf(TOKEN, rates), debt);
    }
  }

  lemma NoRateNoRejection(v: LimiterValue, a: string, now: int, t: int)
    requires LimiterInv(v, now) && EffectiveLimits(v.cfg, a).requestsPerMinute == 0
    ensures !Step(v, Acquire(t, a)).1.TooFast?
  {
    assert CellInv(CellOf(v, a), now);
  }

  lemma CanExceedMinute(a: string, rates: set<nat>, after: nat)
    requires after in rates && after > 0 && !CoversDebt(rates, (after - 1) * (TOKEN + 1))
    ensures !HeadersAlwaysFit(a, rates)
  {
    var rpm :| rpm in rates && rpm > 0 && rpm - GcdOf(TOKEN, rates) > (after - 1) * (TOKEN + 1);
    var es, t := DeepestCalls(a, rates, rpm);
    var last := SetRate(t, a, after, 1);
    var v := Run(INITIAL, es).0;
    SwitchInDebt(v, a, t, after, rpm - GcdOf(TOKEN, rates));
    MoreCallsFrom(es, last, a, rates);
    assert !WithinMinute(Step(Run(INITIAL, es + [last]).0, Acquire(t, a)).1);
  }

  lemma {:induction false} RunAppends(v: LimiterValue, es: seq<Event>, fs: seq<Event>)
    ensures Run(v, es + fs).0 == Run(Run(v, es).0, fs).0
    decreases |es|
  {
    if es == [] {
      assert es + fs == fs;
    } else {
      RunAppends(Step(v, es[0]).0, es[1..], fs);
      assert (es + fs)[1..] == es[1..] + fs;
    }
  }

  lemma {:induction false} LegalCallsAppend(es: seq<Event>, fs: seq<Event>, now: int)
    requires LegalCalls(es, now) && LegalCalls(fs, LastTime(es, now))
    ensures LegalCalls(es + fs, now) && LastTime(es + fs, now) == LastTime(fs, LastTime(es, now))
    decreases |es|
  {
    if es == [] {
      assert es + fs == fs;
    } else {
      LegalCallsAppend(es[1..], fs, TimeAfter(es[0], now));
      assert (es + fs)[0] == es[0] && (es + fs)[1..] == es[1..] + fs;
    }
  }

  lemma MoreCallsFrom(es: seq<Event>, last: Event, a: string, rates: set<nat>)
    requires LegalCalls(es, 0) && UpdatesFrom(es, a, rates)
    requires LegalCall(last, LastTime(es, 0)) && UpdatesFrom([last], a, rates)
    ensures LegalCalls(es + [last], 0) && LastTime(es + [last], 0) == TimeAfter(last, LastTime(es, 0))
    ensures UpdatesFrom(es + [last], a, rates)
    ensures Run(INITIAL, es + [last]).0 == Step(Run(INITIAL, es).0, last).0
  {
    assert [last][1..] == [];
    LegalCallsAppend(es, [last], 0);
    RunAppends(INITIAL, es, [last]);
    RunOfOne(Run(INITIAL, es).0, last);
    forall i | 0 <= i < |es + [last]| && (es + [last])[i].Update?
      ensures var rpm := EffectiveLimits((es + [last])[i].cfg, a).requestsPerMinute; rpm >= 0 && rpm in rates
    {
      assert i < |es| ==> (es + [last])[i] == es[i];
      assert i == |es| ==> (es + [last])[i] == [last][0];
    }
  }

  /** At rates up to 60,000,000,000 per minute: always, unless 1 per minute is among several rates. Then a debt of one
      unit, which any other rate can add up to, takes a nanosecond over a minute to pay. */
  lemma HeadersAlwaysFitAtUsualRates(a: string, rates: set<nat>)
    requires forall rpm :: rpm in rates ==> rpm <= TOKEN
    ensures HeadersAlwaysFit(a, rates) <==> 1 !in rates || rates <= {0, 1}
  {
    HeadersAlwaysFitIff(a, rates);
    if 1 in rates {
      GcdOfDivides(TOKEN, rates, 1);
      DivisorAtMost(1, GcdOf(TOKEN, rates));
      if !(rates <= {0, 1}) {
        var rpm :| rpm in rates && rpm !in {0, 1};
        assert !CoversDebt(rates, (1 - 1) * (TOKEN + 1));
      }
    }
    forall after | after in rates && after > 1 ensures CoversDebt(rates, (after - 1) * (TOKEN + 1)) {
      assert (after - 1) * (TOKEN + 1) >= TOKEN;
    }
  }

  /** The least of them: rates 3, 2 and then 1, each a divisor of TOKEN, and a header of 61 on the third request. */
  lemma ThreeRates()
    ensures var t := 29_999_999_999;
            RunsTo(NewAccount(3, 1),
                   [Ask(0)] + ([Reload(1, Limits(0, 2, 1), Listed)]
                               + [Ask(t), Reload(t, Limits(0, 1, 1), Listed), Ask(t)]), 0,
                   [Admitted] + ([Done] + [Admitted, Done, TooFast(1, 60_000_000_001)]))
    ensures HeaderSeconds(60_000_000_001) == 61
  {
    var t, switch := 29_999_999_999, Reload(1, Limits(0, 2, 1), Listed);
    ThreeRatesStepByStep(t);
    ThreeRatesEnd(t);
    var es, os := [Ask(t), Reload(t, Limits(0, 1, 1), Listed), Ask(t)], [Admitted, Done, TooFast(1, 60_000_000_001)];
    StepThen(InUse(3, 1, 0, 0), switch, es, 0, os);
    StepThen(NewAccount(3, 1), Ask(0), [switch] + es, 0, [Done] + os);
  }

  lemma ThreeRatesEnd(t: int)
    requires t == 29_999_999_999
    ensures RunsTo(InUse(2, 1, 3, 1), [Ask(t), Reload(t, Limits(0, 1, 1), Listed), Ask(t)], 1,
                   [Admitted, Done, TooFast(1, 60_000_000_001)])
  {
    var switch := Reload(t, Limits(0, 1, 1), Listed);
    ThreeRatesStepByStep(t);
    StepThen(InUse(1, 2, -1, t), Ask(t), [], t, []);
    StepThen(InUse(2, 2, -1, t), switch, [Ask(t)], t, [TooFast(1, 60_000_000_001)]);
    StepThen(InUse(2, 1, 3, 1), Ask(t), [switch, Ask(t)], 1, [Done, TooFast(1, 60_000_000_001)]);
  }

  predicate RunsTo(c: Cell, es: seq<CellEvent>, now: int, os: seq<Outcome>) {
    LegalRun(c, es, now) && CellRun(c, es).1 == os
  }

  /** A listed account with a burst of one, requests running, and what is left in its bucket. */
  function InUse(rpm: int, inflight: int, tokens: int, last: int): Cell {
    Cell(Limits(0, rpm, 1), Listed, Some(Entry(inflight, Some(BucketValue(rpm, 1, tokens, last)))))
  }

  lemma ThreeRatesStepByStep(t: int)
    requires t == 29_999_999_999
    ensures CellStep(NewAccount(3, 1), Ask(0)) == (InUse(3, 1, 0, 0), Admitted)
    ensures CellStep(InUse(3, 1, 0, 0), Reload(1, Limits(0, 2, 1), Listed)) == (InUse(2, 1, 3, 1), Done)
    ensures CellStep(InUse(2, 1, 3, 1), Ask(t)) == (InUse(2, 2, -1, t), Admitted)
    ensures CellStep(InUse(2, 2, -1, t), Reload(t, Limits(0, 1, 1), Listed)) == (InUse(1, 2, -1, t), Done)
    ensures CellStep(InUse(1, 2, -1, t), Ask(t)).1 == TooFast(1, 60_000_000_001)
  {
  }

  lemma StepThen(c: Cell, e: CellEvent, es: seq<CellEvent>, now: int, os: seq<Outcome>)
    requires LegalEvent(c, e, now) && RunsTo(CellStep(c, e).0, es, TimeOf(e, now), os)
    ensures RunsTo(c, [e] + es, now, [CellStep(c, e).1] + os)
  {
    assert ([e] + es)[0] == e && ([e] + es)[1..] == es;
  }

  // ---- Exactly when one change of rate keeps the header within a minute ----

  predicate RatesAre(es: seq<Event>, a: string, rpm: int) {
    forall i :: 0 <= i < |es| && es[i].Update? ==> EffectiveLimits(es[i].cfg, a).requestsPerMinute == rpm
  }

  /** From a new limiter: any calls with the account's rate at `before`, and then, if `fs` is not empty, a reload to
      `after` and any calls at that rate. Bursts, caps and the list may change at every reload. */
  ghost predicate Switches(es: seq<Event>, fs: seq<Event>, a: string, t: int, before: int, after: int) {
    && LegalCalls(es, 0) && RatesAre(es, a, before)
    && (fs == [] || fs[0].Update?) && LegalCalls(fs, LastTime(es, 0)) && RatesAre(fs, a, after)
    && LastTime(fs, LastTime(es, 0)) <= t
  }

  ghost predicate HeadersFit(a: string, before: int, after: int) {
    forall es: seq<Event>, fs: seq<Event>, t: int :: Switches(es, fs, a, t, before, after) ==>
      WithinMinute(Step(Run(Run(INITIAL, es).0, fs).0, Acquire(t, a)).1)
  }

  /** Exactly when: what the old rate lets the account owe is covered by (after - 1) tokens and (after - 1) units. */
  lemma HeadersFitIff(a: string, before: int, after: int)
    requires before > 0 && after > 0
    ensures HeadersFit(a, before, after) <==> Slack(before) <= (after - 1) * (TOKEN + 1)
  {
    if Slack(before) <= (after - 1) * (TOKEN + 1) {
      forall es: seq<Event>, fs: seq<Event>, t: int | Switches(es, fs, a, t, before, after)
        ensures WithinMinute(Step(Run(Run(INITIAL, es).0, fs).0, Acquire(t, a)).1)
      {
        SwitchKeepsWithinMinute(es, fs, a, t, before, after);
      }
    } else {
      SwitchCanExceedMinute(a, before, after);
    }
  }

  /** At rates up to 60,000,000,000 per minute, if this is the only change of rate: a reload to 1 per minute, from a
      rate that does not divide TOKEN, can push the header past a minute, and no other reload can. */
  lemma HeadersFitAtUsualRates(a: string, before: int, after: int)
    requires 0 < before <= TOKEN && after > 0
    ensures HeadersFit(a, before, after) <==> after >= 2 || TOKEN % before == 0
  {
    HeadersFitIff(a, before, after);
    assert after >= 2 ==> (after - 1) * (TOKEN + 1) >= TOKEN;
  }

  lemma {:induction false} RateNow(v: LimiterValue, es: seq<Event>, a: string, rpm: int)
    requires RatesAre(es, a, rpm)
    ensures Run(v, es).0.cfg == v.cfg || EffectiveLimits(Run(v, es).0.cfg, a).requestsPerMinute == rpm
    decreases |es|
  {
    if es != [] {
      assert RatesAre(es[1..], a, rpm);
      RateNow(Step(v, es[0]).0, es[1..], a, rpm);
    }
  }

  lemma SwitchKeepsWithinMinute(es: seq<Event>, fs: seq<Event>, a: string, t: int, before: int, after: int)
    requires before > 0 && after > 0 && Slack(before) <= (after - 1) * (TOKEN + 1)
    requires Switches(es, fs, a, t, before, after)
    ensures WithinMinute(Step(Run(Run(INITIAL, es).0, fs).0, Acquire(t, a)).1)
  {
    var g, v, now := Gcd(before, TOKEN), Run(INITIAL, es).0, LastTime(es, 0);
    NewLimiterOwes(es, a, g, Slack(before));
    if fs == [] {
      RateNow(INITIAL, es, a, before);
      assert before > 1 ==> (before - 1) * (TOKEN + 1) >= before - 1;
      if EffectiveLimits(v.cfg, a).requestsPerMinute == before {
        RejectionWithinMinute(v, a, now, t, g, Slack(before));
      }
    } else {
      AfterSwitch(v, fs, a, now, t, before, after);
    }
  }

  lemma AfterSwitch(v: LimiterValue, fs: seq<Event>, a: string, now: int, t: int, before: int, after: int)
    requires before > 0 && after > 0 && Slack(before) <= (after - 1) * (TOKEN + 1)
    requires LimiterInv(v, now) && OwesAtMost(CellOf(v, a), now, Gcd(before, TOKEN), Slack(before))
    requires fs != [] && fs[0].Update? && LegalCalls(fs, now) && RatesAre(fs, a, after) && LastTime(fs, now) <= t
    ensures WithinMinute(Step(Run(v, fs).0, Acquire(t, a)).1)
  {
    var u, c, debt := fs[0].now, CellOf(v, a), Max(Slack(before), after - 1);
    var v' := Step(v, fs[0]).0;
    assert CellInv(c, now) && CellInv(c, u);
    StepKeepsLimiterInv(v, fs[0], now);
    StepProjects(v, fs[0], a);
    OwesLater(c, now, u, Gcd(before, TOKEN), Slack(before));
    ReloadOwes(c, u, EffectiveLimits(fs[0].cfg, a), ListingOf(fs[0].allowed, a), 1, debt);
    assert RatesAre(fs[1..], a, after);
    CallsOwe(v', fs[1..], a, u, 1, debt);
    RunKeepsLimiterInv(v', fs[1..], u);
    RateNow(v', fs[1..], a, after);
    assert (after - 1) * (TOKEN + 1) >= after - 1;
    RejectionWithinMinute(Run(v, fs).0, a, LastTime(fs, now), t, 1, debt);
  }

  /** The calls that leave the account as deep in debt as its rate can. */
  lemma DeepestDebt(a: string, rpm: int) returns (n: nat, es: seq<Event>)
    requires rpm > 0
    ensures LegalCalls(es, 0) && RatesAre(es, a, rpm) && LastTime(es, 0) <= n
    ensures var c := CellOf(Run(INITIAL, es).0, a);
            Ready(c, n) && c.limits == Limits(0, rpm, 1) && CellLevel(c, n) == -Slack(rpm)
  {
    var pre := SetRate(0, a, rpm, 1);
    var asks;
    n, asks := FurthestCalls(a, rpm, 1);
    es := [pre] + asks;
    assert es[0] == pre && es[1..] == asks;
    RatesOfConfig(a, rpm);
    InitialInv(0);
    RunKeepsLimiterInv(INITIAL, es, 0);
    assert CellInv(CellOf(Run(INITIAL, es).0, a), LastTime(es, 0));
  }

  lemma SwitchCanExceedMinute(a: string, before: int, after: int)
    requires before > 0 && after > 0 && Slack(before) > (after - 1) * (TOKEN + 1)
    ensures !HeadersFit(a, before, after)
  {
    var n, es := DeepestDebt(a, before);
    var switch := SetRate(n, a, after, 1);
    RatesOfConfig(a, after);
    RunOfOne(Run(INITIAL, es).0, switch);
    assert Switches(es, [switch], a, n, before, after) by {
      assert [switch][1..] == [];
      assert LastTime([switch], LastTime(es, 0)) == n;
    }
    SwitchInDebt(Run(INITIAL, es).0, a, n, after, Slack(before));
  }

  lemma SwitchInDebt(v: LimiterValue, a: string, n: int, after: int, debt: int)
    requires Ready(CellOf(v, a), n) && after > 0 && debt > (after - 1) * (TOKEN + 1)
    requires CellLevel(CellOf(v, a), n) == -debt
    ensures !WithinMinute(Step(Step(v, SetRate(n, a, after, 1)).0, Acquire(n, a)).1)
  {
    var switch := SetRate(n, a, after, 1);
    RefusedInDebt(CellOf(v, a), n, after, debt);
    StepProjects(v, switch, a);
    StepProjects(Step(v, switch).0, Acquire(n, a), a);
  }

  lemma RunOfOne(v: LimiterValue, e: Event)
    ensures Run(v, [e]).0 == Step(v, e).0
  {
    assert [e][1..] == [];
  }

  lemma RatesOfConfig(a: string, rpm: int)
    requires rpm > 0
    ensures forall now: int :: RatesAre([SetRate(now, a, rpm, 1)], a, rpm) && LegalCall(SetRate(now, a, rpm, 1), now)
  {
  }

  /** The debt survives the reload, and is paid at the new rate. */
  lemma RefusedInDebt(c: Cell, n: int, after: int, debt: int)
    requires Ready(c, n) && after > 0 && debt > (after - 1) * (TOKEN + 1) && CellLevel(c, n) == -debt
    ensures !WithinMinute(CellStep(CellStep(c, Reload(n, Limits(0, after, 1), Listed)).0, Ask(n)).1)
  {
    var c' := CellStep(c, Reload(n, Limits(0, after, 1), Listed)).0;
    ReloadKeepsLevel(c, n, after);
    assert (after - 1) * (TOKEN + 1) >= after - 1;
    var b := c'.entry.value.bucket.value;
    DelayValue(b, n);
    HeaderOfDebt(TOKEN + debt, after);
    CeilSecondsIsLeast(Delay(b, n), 1);
  }
}
