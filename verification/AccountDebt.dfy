/** How far into debt one account can get: the runs that get furthest, and what no run exceeds. */
module AccountDebt {
  import opened Common
  import opened Divisors
  import opened RateConfig
  import opened TokenBucket
  import opened AccountMachine
  import opened AccountRuns

  // ---- The furthest run at one rate ----

  /** The account of a new limiter, and what a reload with a rate makes of it. */
  const BLANK := Cell(UNLIMITED, NoList, None)

  function NewAccount(rpm: int, burst: int): Cell {
    Cell(Limits(0, rpm, burst), Listed, None)
  }

  predicate OnlyAsks(es: seq<CellEvent>) {
    forall i :: 0 <= i < |es| ==> es[i].Ask?
  }

  /** The account asks as soon as it is admitted, for n nanoseconds: `left` is what it then has, too little to be
      admitted again, and no more than rpm - 1 units of debt unless it never could ask. */
  ghost predicate Spends(c: Cell, t: int, n: nat, es: seq<CellEvent>, left: int, rpm: int) {
    var (c', os) := CellRun(c, es);
    && OnlyAsks(es) && LegalRun(c, es, t) && EndTime(es, t) <= t + n
    && c' == c.(entry := c'.entry) && c'.entry.Some? && c'.entry.value.inflight >= InflightOf(c)
    && CellInv(c', t + n) && CellLevel(c', t + n) == left
    && left + rpm <= TOKEN && (0 < left + rpm || left == CellLevel(c, t) + n * rpm)
    && Admissions(os) * TOKEN == CellLevel(c, t) + n * rpm - left
  }

  lemma {:induction false} Greedy(c: Cell, t: int, n: nat, rpm: int, burst: int) returns (es: seq<CellEvent>, left: int)
    requires CellInv(c, t) && rpm > 0 && c.limits == Limits(0, rpm, burst) && c.listing == Listed
    requires c.entry.Some?
    ensures Spends(c, t, n, es, left, rpm)
    decreases n, Max(0, CellLevel(c, t) + rpm)
  {
    var level := CellLevel(c, t);
    if level - TOKEN > -rpm {
      AdmittedIff(c, t, t);
      var c' := CellStep(c, Ask(t)).0;
      StepKeepsCellInv(c, Ask(t), t);
      SpentLevel(c, t);
      var rest;
      rest, left := Greedy(c', t, n, rpm, burst);
      es := [Ask(t)] + rest;
      AskFirst(c, t, n, rest, left, rpm);
    } else if n > 0 {
      NextTick(c, t, rpm);
      es, left := Greedy(c, t + 1, n - 1, rpm, burst);
      TickFirst(c, t, n, es, left, rpm);
    } else {
      es, left := [], level;
    }
  }

  lemma SpentLevel(c: Cell, t: int)
    requires CellInv(c, t) && c.entry.Some? && c.entry.value.bucket.Some? && CellStep(c, Ask(t)).1.Admitted?
    ensures CellLevel(CellStep(c, Ask(t)).0, t) == CellLevel(c, t) - TOKEN
  {
    AdmittedIff(c, t, t);
    assert c.limits.requestsPerMinute * 0 == 0;
  }

  lemma AskFirst(c: Cell, t: int, n: nat, rest: seq<CellEvent>, left: int, rpm: int)
    requires CellInv(c, t) && c.entry.Some? && c.entry.value.bucket.Some? && CellStep(c, Ask(t)).1.Admitted?
    requires rpm > 0 && CellLevel(c, t) - TOKEN > -rpm && Spends(CellStep(c, Ask(t)).0, t, n, rest, left, rpm)
    ensures Spends(c, t, n, [Ask(t)] + rest, left, rpm)
  {
    SpentLevel(c, t);
    assert n * rpm >= 0;
    var es := [Ask(t)] + rest;
    assert es[1..] == rest;
    var os := CellRun(CellStep(c, Ask(t)).0, rest).1;
    assert CellRun(c, es).1 == [Admitted] + os && ([Admitted] + os)[1..] == os;
  }

  /** A bucket that cannot spend is not full, so the next nanosecond adds exactly rpm units. */
  lemma NextTick(c: Cell, t: int, rpm: int)
    requires CellInv(c, t) && c.entry.Some? && rpm > 0 && c.limits.requestsPerMinute == rpm
    requires CellLevel(c, t) <= TOKEN - rpm
    ensures CellLevel(c, t + 1) == CellLevel(c, t) + rpm
  {
    var b := c.entry.value.bucket.value;
    Distribute(rpm, t - b.last, 1);
    assert b.burst * TOKEN >= TOKEN;
  }

  lemma TickFirst(c: Cell, t: int, n: nat, es: seq<CellEvent>, left: int, rpm: int)
    requires n > 0 && CellLevel(c, t + 1) == CellLevel(c, t) + rpm
    requires Spends(c, t + 1, n - 1, es, left, rpm)
    ensures Spends(c, t, n, es, left, rpm)
  {
    assert n * rpm == (n - 1) * rpm + rpm by {
      Distribute(rpm, n - 1, 1);
    }
  }

  /** At a rate with burst, a new account can be admitted that much more often than burst + rpm * minutes, and then
      owes exactly that much. The time is chosen so that what accrues by then is Gcd(rpm, TOKEN) units past a whole
      number of tokens, less one nanosecond's. */
  lemma FurthestRun(rpm: int, burst: int) returns (n: nat, es: seq<CellEvent>)
    requires rpm > 0 && burst > 0
    ensures Spends(NewAccount(rpm, burst), 0, n, es, -Slack(rpm), rpm)
  {
    var c := NewAccount(rpm, burst);
    var used := c.(entry := Some(Ensured(c.limits, None, 0)));
    var steps, q := StepsReachGcd(rpm, TOKEN);
    n := steps - 1;
    assert CellLevel(used, 0) == burst * TOKEN by {
      assert rpm * 0 == 0;
    }
    var left;
    es, left := Greedy(used, 0, n, rpm, burst);
    SpendsAll(Admissions(CellRun(used, es).1), burst, steps, rpm, left, q);
    NeedsAsk(used, n, es, left, rpm);
    assert es[0] == Ask(es[0].now);
    assert CellStep(c, es[0]) == CellStep(used, es[0]);
    assert CellRun(c, es) == CellRun(used, es);
    assert LegalRun(c, es, 0) == LegalRun(used, es, 0);
  }

  lemma NeedsAsk(c: Cell, n: nat, es: seq<CellEvent>, left: int, rpm: int)
    requires CellInv(c, 0) && c.entry.Some? && c.entry.value.bucket.Some? && rpm > 0
    requires Spends(c, 0, n, es, left, rpm) && CellLevel(c, 0) >= TOKEN
    ensures es != []
  {
    assert n * rpm >= 0;
    assert es == [] ==> CellRun(c, es) == (c, []);
  }

  /** left + rpm is congruent to steps * rpm, and so to Gcd(rpm, TOKEN), modulo TOKEN. */
  lemma SpendsAll(admitted: int, burst: int, steps: int, rpm: int, left: int, q: int)
    requires rpm > 0 && admitted * TOKEN == burst * TOKEN + (steps - 1) * rpm - left && 0 < left + rpm <= TOKEN
    requires steps * rpm == Gcd(rpm, TOKEN) + q * TOKEN
    ensures left == -Slack(rpm)
  {
    var g := Gcd(rpm, TOKEN);
    var d := left + rpm - g;
    assert (steps - 1) * rpm == steps * rpm - rpm by {
      Distribute(rpm, steps, -1);
    }
    assert d == (burst + q - admitted) * TOKEN;
    DivisorAtMost(TOKEN, g);
    assert -TOKEN < d < TOKEN;
  }

  // ---- The slack is exact ----

  /** A window of a run that the account's rate spans: after any legal calls from the new limiter. */
  ghost predicate InWindow(pre: seq<CellEvent>, es: seq<CellEvent>, t1: int, t2: int, rpm: int, burst: int) {
    var c := CellRun(BLANK, pre).0;
    && LegalRun(BLANK, pre, 0) && EndTime(pre, 0) <= t1 && AtRate(c.limits, c.listing, rpm, burst)
    && LegalRun(c, es, t1) && KeepsRate(es, rpm, burst) && EndTime(es, t1) <= t2
  }

  /** burst + rpm * minutes admissions, and so many units, are enough for every window of every run. */
  ghost predicate BoundHolds(rpm: int, burst: int, slack: int) {
    forall pre: seq<CellEvent>, es: seq<CellEvent>, t1: int, t2: int :: InWindow(pre, es, t1, t2, rpm, burst) ==>
      Admissions(CellRun(CellRun(BLANK, pre).0, es).1) * TOKEN <= burst * TOKEN + rpm * (t2 - t1) + slack
  }

  lemma InWindowIsBounded(pre: seq<CellEvent>, es: seq<CellEvent>, t1: int, t2: int, rpm: int, burst: int)
    requires rpm > 0 && InWindow(pre, es, t1, t2, rpm, burst)
    ensures Admissions(CellRun(CellRun(BLANK, pre).0, es).1) * TOKEN <= burst * TOKEN + rpm * (t2 - t1) + Slack(rpm)
  {
    RunKeepsCellInv(BLANK, pre, 0);
    var c := CellRun(BLANK, pre).0;
    assert CellInv(c, t1);
    WindowBound(c, es, t1, t2, rpm, burst);
  }

  /** The least slack that covers all windows is Slack(rpm): nothing smaller does, even for new accounts. */
  lemma SlackIsLeast(rpm: int, burst: int, slack: int)
    requires rpm > 0 && burst > 0
    ensures BoundHolds(rpm, burst, slack) <==> slack >= Slack(rpm)
  {
    if slack >= Slack(rpm) {
      forall pre: seq<CellEvent>, es: seq<CellEvent>, t1: int, t2: int | InWindow(pre, es, t1, t2, rpm, burst)
        ensures Admissions(CellRun(CellRun(BLANK, pre).0, es).1) * TOKEN <= burst * TOKEN + rpm * (t2 - t1) + slack
      {
        InWindowIsBounded(pre, es, t1, t2, rpm, burst);
      }
    } else {
      var n, es := FurthestRun(rpm, burst);
      var pre := [Reload(0, Limits(0, rpm, burst), Listed)];
      assert pre[1..] == [];
      assert CellRun(BLANK, pre).0 == NewAccount(rpm, burst);
      assert EndTime(pre, 0) == 0 && KeepsRate(es, rpm, burst);
      assert InWindow(pre, es, 0, n, rpm, burst);
    }
  }

  /** The documented bound, with nothing added, holds in every window exactly for rates whose token spacing is a whole
      number of nanoseconds. For 7 requests per minute it is not. */
  lemma BoundWithoutSlackIff(rpm: int, burst: int)
    requires rpm > 0 && burst > 0
    ensures BoundHolds(rpm, burst, 0) <==> TOKEN % rpm == 0
  {
    SlackIsLeast(rpm, burst, 0);
  }

  // ---- No run owes more, whatever is reloaded ----

  /** A grant at this rate leaves a debt of at most `debt`, when all amounts are whole numbers of g units: g must divide
      every rate in use. */
  predicate RateOwes(rpm: int, g: int, debt: int)
    requires g > 0
  {
    rpm == 0 || (rpm % g == 0 && rpm - g <= debt)
  }

  predicate RatesOwe(es: seq<CellEvent>, g: int, debt: int)
    requires g > 0
  {
    forall i :: 0 <= i < |es| && es[i].Reload? ==> RateOwes(es[i].limits.requestsPerMinute, g, debt)
  }

  predicate OwesAtMost(c: Cell, t: int, g: int, debt: int)
    requires g > 0
  {
    && c.limits.requestsPerMinute % g == 0
    && (c.entry.Some? && c.entry.value.bucket.Some? ==> c.entry.value.bucket.value.tokens % g == 0)
    && CellLevel(c, t) >= -debt
  }

  lemma LevelIsWhole(b: BucketValue, t: int, g: int)
    requires g > 0 && TOKEN % g == 0 && b.rpm % g == 0 && b.tokens % g == 0
    ensures Level(b, t) % g == 0
  {
    var elapsed := if t < b.last then 0 else t - b.last;
    Combination(g, b.burst, TOKEN, 0, TOKEN);
    Combination(g, 1, b.tokens, elapsed, b.rpm);
    Combination(g, 1, b.tokens, 0, b.rpm);
  }

  lemma AskOwes(c: Cell, t: int, g: int, debt: int)
    requires CellInv(c, t) && c.entry.Some? && g > 0 && TOKEN % g == 0 && debt >= 0 && OwesAtMost(c, t, g, debt)
    requires RateOwes(c.limits.requestsPerMinute, g, debt)
    ensures OwesAtMost(CellStep(c, Ask(t)).0, t, g, debt)
  {
    if c.entry.value.bucket.Some? && !AtCapacity(c.limits, c.entry.value) {
      var b := c.entry.value.bucket.value;
      LevelIsWhole(b, t, g);
      AdvancedIsSame(b, t);
      if Delay(b, t) > 0 {
        RejectedAskOnlyAdvances(b, t);
      } else {
        GrantedAskTakesOneToken(b, t);
        assert b.rpm * 0 == 0;
        Combination(g, 1, Level(b, t), -1, TOKEN);
        Combination(g, -1, b.rpm, 0, TOKEN);
        MultiplesApart(-b.rpm, Level(b, t) - TOKEN, g);
      }
    }
  }

  /** A reload keeps what is owed, whatever the old rate was. */
  lemma ReloadOwes(c: Cell, t: int, limits: Limits, listing: Listing, g: int, debt: int)
    requires CellInv(c, t) && ValidLimits(limits) && g > 0 && TOKEN % g == 0 && debt >= 0 && OwesAtMost(c, t, g, debt)
    requires limits.requestsPerMinute % g == 0
    ensures OwesAtMost(CellStep(c, Reload(t, limits, listing)).0, t, g, debt)
  {
    if c.entry.Some? && limits.requestsPerMinute > 0 {
      if c.entry.value.bucket.Some? {
        var b := c.entry.value.bucket.value;
        LevelIsWhole(b, t, g);
        Combination(g, limits.burst, TOKEN, 0, TOKEN);
        RateChangeKeepsEarnings(limits, b, t, t);
        assert limits.requestsPerMinute * 0 == 0;
      } else {
        FreshOwes(limits, t, g);
      }
    }
  }

  lemma FreshOwes(limits: Limits, t: int, g: int)
    requires ValidLimits(limits) && limits.requestsPerMinute > 0 && t >= 0 && g > 0 && TOKEN % g == 0
    ensures var b := Fresh(limits.requestsPerMinute, limits.burst); b.tokens % g == 0 && Level(b, t) >= TOKEN
  {
    FullBucketGrants(Fresh(limits.requestsPerMinute, limits.burst), t);
    Combination(g, limits.burst, TOKEN, 0, TOKEN);
  }

  lemma StepOwes(c: Cell, e: CellEvent, now: int, g: int, debt: int)
    requires CellInv(c, now) && LegalEvent(c, e, now) && g > 0 && TOKEN % g == 0
    requires debt >= 0 && OwesAtMost(c, now, g, debt)
    requires e.Reload? ==> RateOwes(e.limits.requestsPerMinute, g, debt)
    requires RateOwes(c.limits.requestsPerMinute, g, debt)
    ensures OwesAtMost(CellStep(c, e).0, TimeOf(e, now), g, debt)
    ensures RateOwes(CellStep(c, e).0.limits.requestsPerMinute, g, debt)
  {
    var t := TimeOf(e, now);
    OwesLater(c, now, t, g, debt);
    match e {
      case Finish =>
      case Reload(_, limits, listing) =>
        Combination(g, 0, TOKEN, 0, TOKEN);
        ReloadOwes(c, t, limits, listing, g, debt);
      case Ask(_) =>
        var c1 := c.(entry := Some(Ensured(c.limits, c.entry, t)));
        if c.entry.None? && c.limits.requestsPerMinute > 0 {
          FreshOwes(c.limits, t, g);
        }
        assert CellStep(c, e) == CellStep(c1, e);
        assert CellInv(c1.(listing := Listed), t);
        AskOwes(c1.(listing := Listed), t, g, debt);
    }
  }

  lemma OwesLater(c: Cell, now: int, t: int, g: int, debt: int)
    requires CellInv(c, now) && now <= t && g > 0 && OwesAtMost(c, now, g, debt)
    ensures OwesAtMost(c, t, g, debt)
  {
    if c.entry.Some? && c.entry.value.bucket.Some? {
      RefillGrows(c.entry.value.bucket.value, now, t);
    }
  }

  /** Over any run: if amounts and all rates are whole numbers of g units, and no rate exceeds debt + g, the account
      owes at most `debt`, in whole numbers of g units. */
  lemma {:induction false} RunOwes(c: Cell, es: seq<CellEvent>, now: int, g: int, debt: int)
    requires CellInv(c, now) && LegalRun(c, es, now) && g > 0 && TOKEN % g == 0 && debt >= 0
    requires OwesAtMost(c, now, g, debt) && RateOwes(c.limits.requestsPerMinute, g, debt) && RatesOwe(es, g, debt)
    ensures OwesAtMost(CellRun(c, es).0, EndTime(es, now), g, debt)
    decreases |es|
  {
    if es != [] {
      StepKeepsCellInv(c, es[0], now);
      StepOwes(c, es[0], now, g, debt);
      RunOwes(CellStep(c, es[0]).0, es[1..], TimeOf(es[0], now), g, debt);
    }
  }

  /** The delay of a rate rejection is what the account owes, and a token, at its rate. */
  lemma RejectionDelay(c: Cell, now: int, t: int, g: int, debt: int)
    requires CellInv(c, now) && now <= t && g > 0 && debt >= 0 && OwesAtMost(c, now, g, debt)
    requires CellStep(c, Ask(t)).1.TooFast?
    ensures var rpm := c.limits.requestsPerMinute;
            && rpm > 0
            && CellStep(c, Ask(t)).1.retryAfter == Min(INF_DURATION, (TOKEN - CellLevel(c, t)) / rpm)
            && 0 < TOKEN - CellLevel(c, t) <= TOKEN + debt
  {
    FirstAskRejectedIff(c.limits, t);
    OwesLater(c, now, t, g, debt);
    DelayValue(c.entry.value.bucket.value, t);
  }
}
