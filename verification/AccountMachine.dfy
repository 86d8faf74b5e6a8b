/** The limiter as one account sees it: a machine with its own limits, listing and entry, and nothing else.
    LimiterSpec proves that the shared limiter is a product of these. */
module AccountMachine {
  import opened Common
  import opened RateConfig
  import opened TokenBucket

  /** accountState in internal/ratelimit/limiter.go; no bucket when requestsPerMinute is 0. */
  datatype Entry = Entry(inflight: int, bucket: Option<BucketValue>)

  /** NoList: no allowlist has been published (the nil map of a new Limiter). */
  datatype Listing = NoList | Listed | Unlisted

  datatype Cell = Cell(limits: Limits, listing: Listing, entry: Option<Entry>)

  datatype CellEvent =
    | Ask(now: int)
    | Finish
    | Reload(now: int, limits: Limits, listing: Listing)

  /** Result of one call; only Acquire can say anything but Done. */
  datatype Outcome =
    | Admitted
    | TooManyConcurrent(limit: int)
    | TooFast(limit: int, retryAfter: int)
    | Done
  {
    predicate Rejected() { TooManyConcurrent? || TooFast? }

    /** The Retry-After duration of the rejection, in nanoseconds: one second for a concurrency rejection. */
    function RetryAfter(): int
      requires Rejected()
    {
      if TooManyConcurrent? then 1_000_000_000 else retryAfter
    }
  }

  // ---- Steps ----

  /** The bucket applyRate leaves: none, a full one, or the old one with new parameters. */
  function ApplyRate(limits: Limits, bucket: Option<BucketValue>, now: int): Option<BucketValue> {
    if limits.requestsPerMinute == 0 then None
    else if bucket.None? then Some(Fresh(limits.requestsPerMinute, limits.burst))
    else Some(SetBurst(SetLimit(bucket.value, now, limits.requestsPerMinute), now, limits.burst))
  }

  /** The entry Acquire works on: created on first use. */
  function Ensured(limits: Limits, entry: Option<Entry>, now: int): Entry {
    if entry.Some? then entry.value else Entry(0, ApplyRate(limits, None, now))
  }

  predicate AtCapacity(limits: Limits, e: Entry) {
    limits.maxConcurrent > 0 && e.inflight >= limits.maxConcurrent
  }

  function Decide(limits: Limits, e: Entry, now: int): (r: (Entry, Outcome)) {
    if AtCapacity(limits, e) then (e, TooManyConcurrent(limits.maxConcurrent))
    else if e.bucket.None? then (Entry(e.inflight + 1, None), Admitted)
    else
      var asked := Some(Asked(e.bucket.value, now));
      var delay := Delay(e.bucket.value, now);
      if delay > 0 then (Entry(e.inflight, asked), TooFast(limits.requestsPerMinute, delay))
      else (Entry(e.inflight + 1, asked), Admitted)
  }

  function Released(listing: Listing, e: Entry): Option<Entry> {
    if e.inflight - 1 == 0 && listing.Unlisted? then None else Some(e.(inflight := e.inflight - 1))
  }

  function Reloaded(limits: Limits, listing: Listing, e: Entry, now: int): Option<Entry> {
    if !listing.Listed? && e.inflight == 0 then None
    else Some(e.(bucket := ApplyRate(limits, e.bucket, now)))
  }

  function CellStep(c: Cell, e: CellEvent): (Cell, Outcome) {
    match e
    case Ask(now) =>
      var (entry, outcome) := Decide(c.limits, Ensured(c.limits, c.entry, now), now);
      (c.(entry := Some(entry)), outcome)
    case Finish =>
      (if c.entry.None? then c else c.(entry := Released(c.listing, c.entry.value)), Done)
    case Reload(now, limits, listing) =>
      (Cell(limits, listing, if c.entry.None? then None else Reloaded(limits, listing, c.entry.value, now)), Done)
  }

  function CellRun(c: Cell, es: seq<CellEvent>): (Cell, seq<Outcome>)
    decreases |es|
  {
    if es == [] then (c, []) else
    var (c', o) := CellStep(c, es[0]);
    var (c'', os) := CellRun(c', es[1..]);
    (c'', [o] + os)
  }

  // ---- Invariant ----

  /** The cached bucket is the one the current limits ask for. This needs no validity. */
  predicate BucketAgrees(limits: Limits, e: Entry) {
    && (e.bucket.None? <==> limits.requestsPerMinute == 0)
    && (e.bucket.Some? ==> e.bucket.value.rpm == limits.requestsPerMinute && e.bucket.value.burst == limits.burst)
  }

  /** Holds in every reachable state at time `now` when configurations are validated.
      The last line is bounded memory: an account off the list keeps an entry only while it has work. */
  predicate CellInv(c: Cell, now: int) {
    && now >= 0
    && ValidLimits(c.limits)
    && (c.entry.Some? ==>
          var e := c.entry.value;
          && e.inflight >= 0
          && BucketAgrees(c.limits, e)
          && (e.bucket.Some? ==> e.bucket.value.last <= now)
          && (c.listing.Unlisted? ==> e.inflight > 0))
  }

  /** The clock does not run backwards, reloads publish validated limits and a list, and only admitted
      work finishes. */
  predicate LegalEvent(c: Cell, e: CellEvent, now: int) {
    match e
    case Ask(t) => now <= t
    case Finish => c.entry.Some? && c.entry.value.inflight > 0
    case Reload(t, limits, listing) => now <= t && ValidLimits(limits) && !listing.NoList?
  }

  function TimeOf(e: CellEvent, now: int): int {
    if e.Finish? then now else e.now
  }

  predicate LegalRun(c: Cell, es: seq<CellEvent>, now: int)
    decreases |es|
  {
    es == [] || (LegalEvent(c, es[0], now) && LegalRun(CellStep(c, es[0]).0, es[1..], TimeOf(es[0], now)))
  }

  function EndTime(es: seq<CellEvent>, now: int): int
    decreases |es|
  {
    if es == [] then now else EndTime(es[1..], TimeOf(es[0], now))
  }

  /** The first Acquire on fresh state is rejected exactly when the bucket cannot hold a token. */
  lemma FirstAskRejectedIff(limits: Limits, now: int)
    requires now >= 0
    ensures Decide(limits, Ensured(limits, None, now), now).1.Rejected()
            <==> limits.requestsPerMinute != 0 && limits.burst < 1
  {
    if limits.requestsPerMinute != 0 {
      var b := Fresh(limits.requestsPerMinute, limits.burst);
      if limits.burst < 1 {
        NoBurstNeverGrants(b, now);
      } else {
        FullBucketGrants(b, now);
      }
    }
  }

  function InflightOf(c: Cell): int {
    if c.entry.None? then 0 else c.entry.value.inflight
  }

  /** Exactly when a request is refused for concurrency, admitted, or refused for its rate: all slots below the cap are
      given out and none above, and a token must be there or less than a nanosecond away. */
  lemma AdmittedIff(c: Cell, now: int, t: int)
    requires CellInv(c, now) && now <= t
    ensures var e := Ensured(c.limits, c.entry, t);
            var o := CellStep(c, Ask(t)).1;
            && (o.TooManyConcurrent? <==> 0 < c.limits.maxConcurrent <= InflightOf(c))
            && (o.Admitted? <==> !(0 < c.limits.maxConcurrent <= InflightOf(c))
                                 && (e.bucket.None? || Level(e.bucket.value, t) > TOKEN - c.limits.requestsPerMinute))
            && (o.TooManyConcurrent? ==> o.limit == c.limits.maxConcurrent && o.RetryAfter() == 1_000_000_000)
            && (o.TooFast? ==> o.limit == c.limits.requestsPerMinute && o.RetryAfter() > 0)
            && (o.Admitted? || o.TooManyConcurrent? || o.TooFast?)
            && (o.Admitted? ==> CellStep(c, Ask(t)).0.entry.value.inflight == InflightOf(c) + 1)
            && (o.Admitted? && e.bucket.Some? ==>
                  CellStep(c, Ask(t)).0.entry.value.bucket
                  == Some(Advanced(e.bucket.value, t).(tokens := Level(e.bucket.value, t) - TOKEN)))
  {
    var e := Ensured(c.limits, c.entry, t);
    if e.bucket.Some? {
      var b := e.bucket.value;
      DelayValue(b, t);
      if Level(b, t) < TOKEN {
        var u := TOKEN - Level(b, t);
        assert u == b.rpm * (u / b.rpm) + u % b.rpm;
        if u < b.rpm {
          DivUnique(u, b.rpm, 0, u);
        } else {
          assert u / b.rpm >= 1;
        }
      }
      if Delay(b, t) == 0 {
        GrantedAskTakesOneToken(b, t);
      }
    }
  }

  /** A reload that changes a rate keeps what the old rate had earned, and earns at the new one from then on;
      what exceeds the new burst is lost. Turning the rate off and on again starts a full bucket. */
  lemma RateChangeKeepsEarnings(next: Limits, b: BucketValue, now: int, later: int)
    requires b.last <= now <= later
    requires next.requestsPerMinute > 0
    ensures var b' := ApplyRate(next, Some(b), now);
            && b'.Some? && b'.value.rpm == next.requestsPerMinute && b'.value.burst == next.burst
            && Level(b'.value, later) == Min(next.burst * TOKEN, Level(b, now) + next.requestsPerMinute * (later - now))
    ensures ApplyRate(next, ApplyRate(UNLIMITED, Some(b), now), later)
            == Some(Fresh(next.requestsPerMinute, next.burst))
  {
    var k := next.requestsPerMinute;
    assert k * 0 == 0;
    assert Level(Advanced(b, now).(rpm := k), now) == Level(b, now);
  }

  lemma BucketAgreesAlways(c: Cell, e: CellEvent)
    requires c.entry.Some? ==> BucketAgrees(c.limits, c.entry.value)
    ensures var c' := CellStep(c, e).0; c'.entry.Some? ==> BucketAgrees(c'.limits, c'.entry.value)
  {
  }

  lemma StepKeepsCellInv(c: Cell, e: CellEvent, now: int)
    requires CellInv(c, now) && LegalEvent(c, e, now)
    ensures CellInv(CellStep(c, e).0, TimeOf(e, now))
  {
    if e.Ask? {
      FirstAskRejectedIff(c.limits, e.now);
      var entry := Ensured(c.limits, c.entry, e.now);
      if entry.bucket.Some? && !AtCapacity(c.limits, entry) {
        if Delay(entry.bucket.value, e.now) > 0 {
          RejectedAskOnlyAdvances(entry.bucket.value, e.now);
        } else {
          GrantedAskTakesOneToken(entry.bucket.value, e.now);
        }
      }
    }
  }

  lemma {:induction false} RunKeepsCellInv(c: Cell, es: seq<CellEvent>, now: int)
    requires CellInv(c, now) && LegalRun(c, es, now)
    ensures CellInv(CellRun(c, es).0, EndTime(es, now))
    ensures now <= EndTime(es, now)
    decreases |es|
  {
    if es != [] {
      StepKeepsCellInv(c, es[0], now);
      RunKeepsCellInv(CellStep(c, es[0]).0, es[1..], TimeOf(es[0], now));
    }
  }

  // ---- Observable sameness of cells ----

  /** No event at or after time `now` can tell the cells apart. */
  ghost predicate SameCell(c1: Cell, c2: Cell, now: int) {
    && c1.limits == c2.limits && c1.listing == c2.listing
    && (c1.entry.Some? <==> c2.entry.Some?)
    && (c1.entry.Some? ==>
          var e1, e2 := c1.entry.value, c2.entry.value;
          && e1.inflight == e2.inflight
          && (e1.bucket.Some? <==> e2.bucket.Some?)
          && (e1.bucket.Some? ==> SameBucket(e1.bucket.value, e2.bucket.value, now)))
  }

  lemma SameCellLater(c1: Cell, c2: Cell, now: int, t: int)
    requires SameCell(c1, c2, now) && now <= t
    ensures SameCell(c1, c2, t)
  {
    if c1.entry.Some? && c1.entry.value.bucket.Some? {
      SameBucketLater(c1.entry.value.bucket.value, c2.entry.value.bucket.value, now, t);
    }
  }

  lemma SameCellReflexive(c: Cell, now: int)
    requires CellInv(c, now)
    ensures SameCell(c, c, now)
  {
  }

  /** Same outcomes, and still the same afterwards. */
  lemma SameCellStep(c1: Cell, c2: Cell, e: CellEvent, now: int)
    requires CellInv(c1, now) && SameCell(c1, c2, now) && LegalEvent(c1, e, now)
    ensures CellStep(c1, e).1 == CellStep(c2, e).1
    ensures SameCell(CellStep(c1, e).0, CellStep(c2, e).0, TimeOf(e, now))
  {
    SameCellLater(c1, c2, now, TimeOf(e, now));
    if c1.entry.Some? && c1.entry.value.bucket.Some? {
      var b1, b2 := c1.entry.value.bucket.value, c2.entry.value.bucket.value;
      if e.Ask? {
        SameBucketAsked(b1, b2, e.now);
      }
    } else if e.Ask? {
      StepKeepsCellInv(c1, e, now);
    }
  }

  // ---- Quiet events: rejected Acquires, and reloads that change nothing for the account ----

  predicate Quiet(c: Cell, e: CellEvent) {
    match e
    case Ask(_) => CellStep(c, e).1.Rejected()
    case Finish => false
    case Reload(_, limits, listing) => limits == c.limits && listing == c.listing
  }

  lemma UnchangedReloadIsSame(limits: Limits, b: BucketValue, now: int)
    requires limits.requestsPerMinute == b.rpm && limits.burst == b.burst && b.rpm != 0 && b.last <= now
    ensures ApplyRate(limits, Some(b), now) == Some(Advanced(b, now))
    ensures SameBucket(b, Advanced(b, now), now)
  {
    AdvancedIsSame(b, now);
  }

  /** Neither a rejection nor an unchanged reload refills or drains the bucket. An unchanged reload of a
      listed account with idle state keeps that state, and bounded memory says an unlisted one has none. */
  lemma QuietEventIsInvisible(c: Cell, e: CellEvent, now: int)
    requires CellInv(c, now) && LegalEvent(c, e, now) && Quiet(c, e)
    ensures SameCell(c, CellStep(c, e).0, TimeOf(e, now))
  {
    if e.Ask? {
      FirstAskRejectedIff(c.limits, e.now);
    }
    if c.entry.Some? && c.entry.value.bucket.Some? {
      var b := c.entry.value.bucket.value;
      AdvancedIsSame(b, e.now);
      if e.Reload? {
        UnchangedReloadIsSame(c.limits, b, e.now);
      } else if !AtCapacity(c.limits, c.entry.value) {
        RejectedAskOnlyAdvances(b, e.now);
      }
    }
  }
}
