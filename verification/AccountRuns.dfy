/** Promises the limiter makes to one account over whole runs. */
module AccountRuns {
  import opened Common
  import opened RateConfig
  import opened TokenBucket
  import opened AccountMachine
  import opened Divisors

  // ---- Quiet events can be erased ----

  /** The events of a run that are not quiet where they happen. */
  function Loud(c: Cell, es: seq<CellEvent>): seq<CellEvent>
    decreases |es|
  {
    if es == [] then [] else
    (if Quiet(c, es[0]) then [] else [es[0]]) + Loud(CellStep(c, es[0]).0, es[1..])
  }

  function LoudOutcomes(c: Cell, es: seq<CellEvent>): seq<Outcome>
    decreases |es|
  {
    if es == [] then [] else
    (if Quiet(c, es[0]) then [] else [CellStep(c, es[0]).1]) + LoudOutcomes(CellStep(c, es[0]).0, es[1..])
  }

  /** Rejections and unchanged reloads, any number of them anywhere in a run, change no other outcome. */
  lemma {:induction false} QuietEventsAreInvisible(c: Cell, d: Cell, es: seq<CellEvent>, now: int)
    requires CellInv(c, now) && SameCell(c, d, now) && LegalRun(c, es, now)
    ensures CellRun(d, Loud(c, es)).1 == LoudOutcomes(c, es)
    ensures SameCell(CellRun(c, es).0, CellRun(d, Loud(c, es)).0, EndTime(es, now))
    decreases |es|
  {
    if es != [] {
      var e, t := es[0], TimeOf(es[0], now);
      var c' := CellStep(c, e).0;
      StepKeepsCellInv(c, e, now);
      if Quiet(c, e) {
        QuietEventIsInvisible(c, e, now);
        SameCellLater(c, d, now, t);
        assert SameCell(c', d, t) by {
          SameThroughMiddle(c, c', d, t);
        }
        QuietEventsAreInvisible(c', d, es[1..], t);
        assert Loud(c, es) == Loud(c', es[1..]);
      } else {
        SameCellStep(c, d, e, now);
        QuietEventsAreInvisible(c', CellStep(d, e).0, es[1..], t);
        var rest := Loud(c', es[1..]);
        assert Loud(c, es) == [e] + rest;
        assert ([e] + rest)[1..] == rest;
      }
    }
  }

  lemma SameThroughMiddle(a: Cell, b: Cell, c: Cell, t: int)
    requires SameCell(a, b, t) && SameCell(a, c, t)
    ensures SameCell(b, c, t)
  {
  }

  // ---- The rate bound ----

  function Admissions(os: seq<Outcome>): nat {
    if os == [] then 0 else (if os[0].Admitted? then 1 else 0) + Admissions(os[1..])
  }

  /** Rate, burst and listing as they stand through a window; the concurrency limit may change. */
  predicate AtRate(limits: Limits, listing: Listing, rpm: int, burst: int) {
    limits.requestsPerMinute == rpm && limits.burst == burst && listing.Listed?
  }

  predicate KeepsRate(es: seq<CellEvent>, rpm: int, burst: int) {
    forall i :: 0 <= i < |es| && es[i].Reload? ==> AtRate(es[i].limits, es[i].listing, rpm, burst)
  }

  /** Units available to the account at time t; an account without state would start with a full bucket. */
  function CellLevel(c: Cell, t: int): int {
    if c.entry.None? || c.entry.value.bucket.None? then c.limits.burst * TOKEN
    else Level(c.entry.value.bucket.value, t)
  }

  /** What a reload does to an account with state. The state goes exactly when the account is off the list and idle, and
      otherwise keeps its count. A bucket keeps what it had earned, or owed, by then, up to the new burst, and earns at
      the new rate from then on; one that is new starts full, and there is none without a rate. */
  lemma ReloadEffect(c: Cell, t: int, limits: Limits, listing: Listing, later: int)
    requires CellInv(c, t) && c.entry.Some? && ValidLimits(limits) && t <= later
    ensures var c' := CellStep(c, Reload(t, limits, listing)).0;
            && c'.limits == limits && c'.listing == listing
            && (c'.entry.Some? <==> listing.Listed? || c.entry.value.inflight > 0)
            && (c'.entry.Some? ==>
                  && c'.entry.value.inflight == c.entry.value.inflight
                  && (c'.entry.value.bucket.Some? <==> limits.requestsPerMinute > 0)
                  && (limits.requestsPerMinute > 0 ==>
                        CellLevel(c', later) ==
                        if c.entry.value.bucket.Some?
                        then Min(limits.burst * TOKEN, CellLevel(c, t) + limits.requestsPerMinute * (later - t))
                        else limits.burst * TOKEN))
  {
    if limits.requestsPerMinute > 0 {
      if c.entry.value.bucket.Some? {
        RateChangeKeepsEarnings(limits, c.entry.value.bucket.value, t, later);
      } else {
        FullBucketGrants(Fresh(limits.requestsPerMinute, limits.burst), later);
      }
    }
  }

  /** One step pays one token for an admission and earns at most rpm units per nanosecond. */
  lemma StepPaysForAdmission(c: Cell, e: CellEvent, now: int, rpm: int, burst: int)
    requires CellInv(c, now) && LegalEvent(c, e, now) && rpm > 0
    requires AtRate(c.limits, c.listing, rpm, burst) && KeepsRate([e], rpm, burst)
    ensures var (c', o) := CellStep(c, e);
            var t := TimeOf(e, now);
            && AtRate(c'.limits, c'.listing, rpm, burst)
            && CellLevel(c', t) + (if o.Admitted? then TOKEN else 0) <= CellLevel(c, now) + rpm * (t - now)
            && (o.Admitted? || CellLevel(c, now) > -rpm ==> CellLevel(c', t) > -rpm)
  {
    assert e.Reload? ==> AtRate(e.limits, e.listing, rpm, burst) by { assert [e][0] == e; }
    var t := TimeOf(e, now);
    assert rpm * (t - now) >= 0;
    if c.entry.Some? {
      StepPaysFromBucket(c, e, now, rpm, burst);
    } else if e.Ask? {
      var entry := Ensured(c.limits, None, t);
      assert CellStep(c, e) == CellStep(c.(entry := Some(entry)), e);
      FullBucketGrants(entry.bucket.value, t);
      GrantedAskTakesOneToken(entry.bucket.value, t);
    }
  }

  lemma StepPaysFromBucket(c: Cell, e: CellEvent, now: int, rpm: int, burst: int)
    requires CellInv(c, now) && LegalEvent(c, e, now) && rpm > 0 && c.entry.Some?
    requires AtRate(c.limits, c.listing, rpm, burst)
    requires e.Reload? ==> AtRate(e.limits, e.listing, rpm, burst)
    ensures var (c', o) := CellStep(c, e);
            var t := TimeOf(e, now);
            && CellLevel(c', t) + (if o.Admitted? then TOKEN else 0) <= CellLevel(c, now) + rpm * (t - now)
            && (o.Admitted? || CellLevel(c, now) > -rpm ==> CellLevel(c', t) > -rpm)
  {
    var b, t := c.entry.value.bucket.value, TimeOf(e, now);
    RefillGrows(b, now, t);
    AdvancedIsSame(b, t);
    if e.Reload? {
      UnchangedReloadIsSame(e.limits, b, t);
    } else if e.Ask? && !AtCapacity(c.limits, c.entry.value) {
      if Delay(b, t) > 0 {
        RejectedAskOnlyAdvances(b, t);
      } else {
        GrantedAskTakesOneToken(b, t);
        assert rpm * 0 == 0;
      }
    }
  }

  lemma {:induction false} RunPaysForAdmissions(c: Cell, es: seq<CellEvent>, now: int, rpm: int, burst: int)
    requires CellInv(c, now) && LegalRun(c, es, now) && rpm > 0
    requires AtRate(c.limits, c.listing, rpm, burst) && KeepsRate(es, rpm, burst)
    ensures var (c', os) := CellRun(c, es);
            var t := EndTime(es, now);
            && Admissions(os) * TOKEN + CellLevel(c', t) <= CellLevel(c, now) + rpm * (t - now)
            && (Admissions(os) > 0 || CellLevel(c, now) > -rpm ==> CellLevel(c', t) > -rpm)
    decreases |es|
  {
    if es != [] {
      var e, t := es[0], TimeOf(es[0], now);
      var (c', o) := CellStep(c, e);
      StepPaysForAdmission(c, e, now, rpm, burst);
      StepKeepsCellInv(c, e, now);
      RunPaysForAdmissions(c', es[1..], t, rpm, burst);
      Distribute(rpm, t - now, EndTime(es, now) - t);
      var os := CellRun(c', es[1..]).1;
      assert ([o] + os)[1..] == os;
    }
  }

  /** What truncating delays to nanoseconds lets an account owe: always a whole number of Gcd(rpm, TOKEN) units,
      and less than one nanosecond's accrual. It is 0 exactly when rpm divides TOKEN. */
  function Slack(rpm: int): (s: int)
    requires rpm > 0
    ensures 0 <= s < rpm
    ensures s == 0 <==> TOKEN % rpm == 0
  {
    GcdIsWholeIff(rpm, TOKEN);
    rpm - Gcd(rpm, TOKEN)
  }

  /** Sliding window: between any two instants an account is admitted at most burst + rpm * minutes times, up
      to that slack. It may have any past, and owe tokens at the start. */
  lemma WindowBound(c: Cell, es: seq<CellEvent>, t1: int, t2: int, rpm: int, burst: int)
    requires CellInv(c, t1) && LegalRun(c, es, t1) && EndTime(es, t1) <= t2 && rpm > 0
    requires AtRate(c.limits, c.listing, rpm, burst) && KeepsRate(es, rpm, burst)
    ensures Admissions(CellRun(c, es).1) * TOKEN <= burst * TOKEN + rpm * (t2 - t1) + Slack(rpm)
  {
    RunPaysForAdmissions(c, es, t1, rpm, burst);
    RunKeepsCellInv(c, es, t1);
    LevelAtMostFull(c, t1, burst);
    var (c', os) := CellRun(c, es);
    var t := EndTime(es, t1);
    SpendWithinBudget(Admissions(os), CellLevel(c, t1), burst, CellLevel(c', t), rpm, t1, t, t2);
    SpendIsWhole(Admissions(os), burst, rpm, t2 - t1);
  }

  lemma LevelAtMostFull(c: Cell, t: int, burst: int)
    requires c.limits.burst == burst && (c.entry.Some? ==> BucketAgrees(c.limits, c.entry.value))
    ensures CellLevel(c, t) <= burst * TOKEN
  {
  }

  lemma SpendWithinBudget(admitted: nat, start: int, burst: int, left: int, rpm: int, t1: int, t: int, t2: int)
    requires admitted * TOKEN + left <= start + rpm * (t - t1) && start <= burst * TOKEN
    requires admitted > 0 ==> left > -rpm
    requires rpm > 0 && burst > 0 && t1 <= t <= t2
    ensures admitted * TOKEN < burst * TOKEN + rpm * (t2 - t1) + rpm
  {
    var x, y := t - t1, t2 - t;
    assert t2 - t1 == x + y;
    Distribute(rpm, x, y);
    assert rpm * x >= 0 && rpm * y >= 0;
  }

  /** Both sides are whole numbers of Gcd(rpm, TOKEN) units. */
  lemma SpendIsWhole(admitted: int, burst: int, rpm: int, d: int)
    requires rpm > 0 && admitted * TOKEN < burst * TOKEN + rpm * d + rpm
    ensures admitted * TOKEN <= burst * TOKEN + rpm * d + Slack(rpm)
  {
    var g, x := Gcd(rpm, TOKEN), (admitted - burst) * TOKEN + (-d) * rpm;
    Combination(g, admitted - burst, TOKEN, -d, rpm);
    assert x == admitted * TOKEN - burst * TOKEN - rpm * d;
    MultiplesApart(x, rpm, g);
  }

  // ---- Retry-After ----

  /** Nothing is admitted and no reload changes the account; work may finish. */
  predicate NoGrant(c: Cell, es: seq<CellEvent>)
    decreases |es|
  {
    es == [] || ((es[0].Finish? || Quiet(c, es[0])) && NoGrant(CellStep(c, es[0]).0, es[1..]))
  }

  lemma {:induction false} DroppedStaysDropped(c: Cell, es: seq<CellEvent>, now: int)
    requires CellInv(c, now) && LegalRun(c, es, now) && NoGrant(c, es)
    requires c.entry.None? && c.limits.requestsPerMinute > 0
    ensures CellRun(c, es).0 == c
    decreases |es|
  {
    if es != [] {
      if es[0].Ask? {
        FirstAskRejectedIff(c.limits, es[0].now);
      }
      assert CellStep(c, es[0]).0 == c;
      DroppedStaysDropped(c, es[1..], TimeOf(es[0], now));
    }
  }

  /** No later event can tell the account's bucket from b, unless the bucket is gone, which is exactly when the account
      is off the list and its last work has finished. */
  lemma {:induction false} BucketSurvivesNoGrant(c: Cell, b: BucketValue, es: seq<CellEvent>, now: int)
    requires CellInv(c, now) && LegalRun(c, es, now) && NoGrant(c, es)
    requires c.entry.Some? && c.entry.value.bucket.Some? && SameBucket(b, c.entry.value.bucket.value, now)
    ensures var c' := CellRun(c, es).0;
            && c'.limits == c.limits && c'.listing == c.listing
            && (c'.entry.None? <==> c.listing.Unlisted? && InflightOf(c') == 0)
            && (c'.entry.Some? ==>
                  c'.entry.value.bucket.Some? && SameBucket(b, c'.entry.value.bucket.value, EndTime(es, now)))
    decreases |es|
  {
    if es != [] {
      var e, t := es[0], TimeOf(es[0], now);
      var c' := CellStep(c, e).0;
      StepKeepsCellInv(c, e, now);
      SameBucketLater(b, c.entry.value.bucket.value, now, t);
      if !e.Finish? {
        QuietEventIsInvisible(c, e, now);
      }
      if c'.entry.None? {
        DroppedStaysDropped(c', es[1..], t);
      } else {
        BucketSurvivesNoGrant(c', b, es[1..], t);
      }
    }
  }

  /** The delay a rate rejection reports is exact: until another admission or reload, every later request
      that finds a free slot is refused before now + delay, for exactly the remaining time, and admitted
      from then on. The one exception is an account that meanwhile lost its bucket, and with it what it owed: off the
      list, and with its last work finished. It is admitted at once. */
  lemma RetryAfterIsExact(c: Cell, now: int, es: seq<CellEvent>, later: int)
    requires CellInv(c, now)
    requires CellStep(c, Ask(now)).1.TooFast? && CellStep(c, Ask(now)).1.retryAfter < INF_DURATION
    requires var c1 := CellStep(c, Ask(now)).0;
             LegalRun(c1, es, now) && NoGrant(c1, es) && EndTime(es, now) <= later
    ensures var TooFast(limit, delay) := CellStep(c, Ask(now)).1;
            var c2 := CellRun(CellStep(c, Ask(now)).0, es).0;
            && (c2.entry.None? <==> c2.listing.Unlisted? && InflightOf(c2) == 0)
            && CellStep(c2, Ask(later)).1 ==
               if c2.entry.None? then Admitted
               else if 0 < c2.limits.maxConcurrent <= InflightOf(c2) then TooManyConcurrent(c2.limits.maxConcurrent)
               else if later < now + delay then TooFast(limit, now + delay - later)
               else Admitted
  {
    FirstAskRejectedIff(c.limits, now);
    StepKeepsCellInv(c, Ask(now), now);
    var c1 := CellStep(c, Ask(now)).0;
    var b := c.entry.value.bucket.value;
    RejectedAskOnlyAdvances(b, now);
    AdvancedIsSame(b, now);
    BucketSurvivesNoGrant(c1, b, es, now);
    var c2 := CellRun(c1, es).0;
    RunKeepsCellInv(c1, es, now);
    if c2.entry.None? {
      FirstAskRejectedIff(c2.limits, later);
    } else {
      var b2 := c2.entry.value.bucket.value;
      SameBucketLater(b, b2, EndTime(es, now), later);
      DelayLater(b, now, later);
      SameBucketAsked(b, b2, later);
    }
  }

  /** The delay shrinks by exactly the time that passes. */
  lemma DelayLater(b: BucketValue, now: int, later: int)
    requires 1 <= b.burst && 0 < b.rpm && b.last <= now <= later && 0 < Delay(b, now) < INF_DURATION
    ensures Delay(b, later) == Max(0, now + Delay(b, now) - later)
  {
    DelayValue(b, now);
    DelayValue(b, later);
    RefillSplits(b, now, later);
    var k, n, u := b.rpm, later - now, TOKEN - Level(b, now);
    assert k * n >= 0;
    DivShift(u, k, n);
    if Level(b, now) + k * n <= b.burst * TOKEN {
      assert TOKEN - Level(b, later) == u - k * n;
      if u - k * n < 0 {
        assert (u - k * n) / k < 0;
      }
    } else {
      assert Level(b, later) == b.burst * TOKEN >= TOKEN;
      assert u - k * n < 0;
      assert (u - k * n) / k < 0;
    }
  }

  // ---- Concurrency cap ----

  predicate KeepsCap(es: seq<CellEvent>, cap: int) {
    forall i :: 0 <= i < |es| && es[i].Reload? ==> es[i].limits.maxConcurrent == cap
  }

  /** At or above the cap, the count can only fall and every request is refused. */
  lemma CapStep(c: Cell, e: CellEvent, now: int)
    requires CellInv(c, now) && LegalEvent(c, e, now) && c.limits.maxConcurrent > 0
    ensures InflightOf(c) >= c.limits.maxConcurrent ==>
              && InflightOf(CellStep(c, e).0) <= InflightOf(c)
              && (e.Ask? ==> CellStep(c, e).1 == TooManyConcurrent(c.limits.maxConcurrent))
    ensures InflightOf(CellStep(c, e).0) <= Max(InflightOf(c), c.limits.maxConcurrent)
  {
  }

  /** A cap set by a reload never cuts running work off, and holds from then on: the count stays within the
      larger of the cap and what was running when it was set. */
  lemma {:induction false} CapHolds(c: Cell, es: seq<CellEvent>, now: int, cap: int)
    requires CellInv(c, now) && LegalRun(c, es, now)
    requires cap > 0 && c.limits.maxConcurrent == cap && KeepsCap(es, cap)
    ensures 0 <= InflightOf(CellRun(c, es).0) <= Max(InflightOf(c), cap)
    decreases |es|
  {
    if es != [] {
      CapStep(c, es[0], now);
      StepKeepsCellInv(c, es[0], now);
      CapHolds(CellStep(c, es[0]).0, es[1..], TimeOf(es[0], now), cap);
    }
  }
}
