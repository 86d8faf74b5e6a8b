/** The token bucket of golang.org/x/time/rate v0.12.0, which internal/ratelimit/limiter.go uses,
    in exact integers: one token is TOKEN units, and a rate of rpm requests per minute adds rpm units
    per nanosecond. Delays are whole nanoseconds, truncated, as time.Duration is. */
module TokenBucket {
  import opened Common

  const TOKEN: int := 60_000_000_000
  const INF_DURATION: int := 0x7FFF_FFFF_FFFF_FFFF

  /** The part of a bucket that decides later reservations. `last` is the time of the last refill;
      0 is the zero time of a bucket never used. */
  datatype BucketValue = BucketValue(rpm: int, burst: int, tokens: int, last: int)

  datatype Reservation = Reservation(ok: bool, rpm: int, timeToAct: int)

  function Fresh(rpm: int, burst: int): BucketValue {
    BucketValue(rpm, burst, burst * TOKEN, 0)
  }

  function Accrued(rpm: int, elapsed: int): int {
    if rpm <= 0 then 0 else rpm * elapsed
  }

  /** Units in the bucket at time t: refill since `last`, capped at the burst. */
  function Level(b: BucketValue, t: int): int {
    Min(b.burst * TOKEN, b.tokens + Accrued(b.rpm, if t < b.last then 0 else t - b.last))
  }

  function Advanced(b: BucketValue, t: int): BucketValue {
    b.(tokens := Level(b, t), last := t)
  }

  /** Whole nanoseconds, rounded toward zero, in which `units` accrue. */
  function NanosFor(rpm: int, units: int): int {
    if rpm <= 0 then INF_DURATION
    else if units < 0 then -((-units) / rpm)
    else Min(INF_DURATION, units / rpm)
  }

  // ---- The library's operations ----

  function Reserve(b: BucketValue, t: int): (r: (Reservation, BucketValue)) {
    var tokens := Level(b, t) - TOKEN;
    var wait := if tokens < 0 then NanosFor(b.rpm, -tokens) else 0;
    if 1 <= b.burst && wait <= INF_DURATION
    then (Reservation(true, b.rpm, t + wait), b.(tokens := tokens, last := t))
    else (Reservation(false, b.rpm, 0), b)
  }

  function DelayFrom(r: Reservation, t: int): int {
    if !r.ok then INF_DURATION else Max(0, r.timeToAct - t)
  }

  /** CancelAt gives back what later reservations have not already used; `lastEvent` is the latest
      time any reservation may act. */
  function Cancel(b: BucketValue, r: Reservation, lastEvent: int, t: int): BucketValue {
    var restore := TOKEN - Accrued(r.rpm, lastEvent - r.timeToAct);
    if !r.ok || r.timeToAct < t || restore <= 0 then b
    else b.(tokens := Min(b.burst * TOKEN, Level(b, t) + restore), last := t)
  }

  /** When the reservation before r may act, if r is the latest. */
  function EventBefore(r: Reservation): int {
    r.timeToAct + NanosFor(r.rpm, -TOKEN)
  }

  function SetLimit(b: BucketValue, t: int, rpm: int): BucketValue {
    Advanced(b, t).(rpm := rpm)
  }

  function SetBurst(b: BucketValue, t: int, burst: int): BucketValue {
    Advanced(b, t).(burst := burst)
  }

  // ---- What Acquire does with them ----

  /** How long Acquire would have to wait for a token at time t. */
  function Delay(b: BucketValue, t: int): int {
    DelayFrom(Reserve(b, t).0, t)
  }

  /** The bucket after Acquire asked it for a token at time t: reserved, and given back at once when
      the token is not there yet. */
  function Asked(b: BucketValue, t: int): BucketValue {
    var (r, b') := Reserve(b, t);
    if !r.ok || DelayFrom(r, t) > 0 then Cancel(b', r, r.timeToAct, t) else b'
  }

  // ---- Refill ----

  /** Refilling in two steps is refilling in one: the cap does not lose or create tokens. */
  lemma RefillSplits(b: BucketValue, t1: int, t2: int)
    requires b.last <= t1 <= t2
    ensures Level(Advanced(b, t1), t2) == Level(b, t2)
  {
    Distribute(b.rpm, t1 - b.last, t2 - t1);
    assert b.rpm > 0 ==> b.rpm * (t1 - b.last) >= 0;
  }

  /** A bucket gains at most rpm units per nanosecond, and never loses any to time, once it is at most full. */
  lemma RefillGrows(b: BucketValue, t1: int, t2: int)
    requires b.last <= t1 <= t2
    ensures Level(b, t1) <= Level(b, t2) <= Level(b, t1) + Accrued(b.rpm, t2 - t1)
  {
    Distribute(b.rpm, t1 - b.last, t2 - t1);
    assert b.rpm > 0 ==> b.rpm * (t2 - t1) >= 0;
  }

  // ---- Reserving ----

  /** Reserve-then-cancel at one instant is a pure passage of time, whatever `lastEvent` was before. */
  lemma RejectedAskOnlyAdvances(b: BucketValue, t: int)
    requires 1 <= b.burst && Delay(b, t) > 0
    ensures Asked(b, t) == Advanced(b, t)
  {
    var (r, b') := Reserve(b, t);
    assert r.timeToAct - r.timeToAct == 0;
    assert Accrued(r.rpm, r.timeToAct - r.timeToAct) == 0;
    assert Level(b', t) == b'.tokens by {
      assert b.rpm * 0 == 0;
    }
  }

  lemma GrantedAskTakesOneToken(b: BucketValue, t: int)
    requires Delay(b, t) == 0
    ensures Asked(b, t) == Advanced(b, t).(tokens := Level(b, t) - TOKEN)
    ensures 0 < b.rpm ==> Level(b, t) - TOKEN > -b.rpm
    ensures b.rpm <= 0 ==> Level(b, t) >= TOKEN
  {
    if b.rpm > 0 && Level(b, t) < TOKEN {
      var u := TOKEN - Level(b, t);
      assert u / b.rpm == 0;
      assert u == b.rpm * (u / b.rpm) + u % b.rpm;
    }
  }

  /** The delay of a bucket that can hold a token and does refill. */
  lemma DelayValue(b: BucketValue, t: int)
    requires 1 <= b.burst && 0 < b.rpm
    ensures Delay(b, t) == if Level(b, t) >= TOKEN then 0
                           else Min(INF_DURATION, (TOKEN - Level(b, t)) / b.rpm)
  {
    if Level(b, t) < TOKEN {
      assert (TOKEN - Level(b, t)) / b.rpm >= 0;
    }
  }

  /** A full bucket that can hold a token grants one, at any rate. */
  lemma FullBucketGrants(b: BucketValue, t: int)
    requires 1 <= b.burst && b.tokens == b.burst * TOKEN && b.last <= t
    ensures Level(b, t) == b.burst * TOKEN
    ensures Delay(b, t) == 0
  {
    assert b.rpm > 0 ==> b.rpm * (t - b.last) >= 0;
    assert b.burst * TOKEN >= TOKEN;
  }

  /** A bucket that cannot hold a token grants none, ever. */
  lemma NoBurstNeverGrants(b: BucketValue, t: int)
    requires b.burst < 1
    ensures Delay(b, t) == INF_DURATION && Asked(b, t) == b
  {
  }

  // ---- What each operation leaves, in units ----

  /** New parameters keep what is there, cut to a new burst, and a new rate counts from then on. */
  lemma ParametersKeepEarnings(b: BucketValue, t: int, value: int, later: int)
    requires b.last <= t <= later && b.tokens <= b.burst * TOKEN
    ensures 0 < value ==>
              Level(SetLimit(b, t, value), later) == Min(b.burst * TOKEN, Level(b, t) + value * (later - t))
    ensures 0 < b.rpm ==>
              Level(SetBurst(b, t, value), later) == Min(value * TOKEN, Level(b, t) + b.rpm * (later - t))
  {
  }

  /** A reservation cancelled before it may act gives back its token, less what accrues from then to the latest
      reservation, which has already been promised that much. The one before it acts one token's accrual earlier. */
  lemma CancelGivesBack(b: BucketValue, r: Reservation, lastEvent: int, t: int)
    requires b.last <= t && r.ok && r.rpm > 0 && r.timeToAct <= lastEvent && b.tokens <= b.burst * TOKEN
    ensures Level(Cancel(b, r, lastEvent, t), t) ==
            if t <= r.timeToAct
            then Min(b.burst * TOKEN, Level(b, t) + Max(0, TOKEN - r.rpm * (lastEvent - r.timeToAct)))
            else Level(b, t)
    ensures EventBefore(r) == r.timeToAct - TOKEN / r.rpm
  {
    assert b.rpm * 0 == 0;
  }

  // ---- Observable sameness ----

  /** No reservation at or after time t can tell the buckets apart. */
  ghost predicate SameBucket(b1: BucketValue, b2: BucketValue, t: int) {
    && b1.rpm == b2.rpm && b1.burst == b2.burst
    && b1.last <= t && b2.last <= t
    && Level(b1, t) == Level(b2, t)
  }

  lemma SameBucketLater(b1: BucketValue, b2: BucketValue, t: int, t': int)
    requires SameBucket(b1, b2, t) && t <= t'
    ensures SameBucket(b1, b2, t')
  {
    RefillSplits(b1, t, t');
    RefillSplits(b2, t, t');
  }

  lemma AdvancedIsSame(b: BucketValue, t: int)
    requires b.last <= t
    ensures SameBucket(b, Advanced(b, t), t)
  {
    RefillSplits(b, t, t);
  }

  lemma SameBucketAsked(b1: BucketValue, b2: BucketValue, t: int)
    requires SameBucket(b1, b2, t)
    ensures Delay(b1, t) == Delay(b2, t)
    ensures SameBucket(Asked(b1, t), Asked(b2, t), t)
  {
    if 1 <= b1.burst {
      if Delay(b1, t) > 0 {
        RejectedAskOnlyAdvances(b1, t);
        RejectedAskOnlyAdvances(b2, t);
      }
    }
  }
}
