/** The whole limiter as a value, one step per critical section of internal/ratelimit/limiter.go.
    The class in Limiter.dfy refines these steps; the promises over whole runs are proved here. */
module LimiterSpec {
  import opened Common
  import opened RateConfig
  import opened TokenBucket
  import opened AccountMachine
  import opened AccountRuns

  /** A release closure: `used` is its sync.Once. */
  datatype TicketValue = TicketValue(account: string, used: bool)

  /** `gauge` is the last in-flight value published per account. */
  datatype LimiterValue = LimiterValue(
    cfg: Option<Config>,
    allowed: Option<set<string>>,
    accounts: map<string, Entry>,
    tickets: seq<TicketValue>,
    gauge: map<string, int>)

  datatype Event =
    | Update(now: int, cfg: Option<Config>, allowed: Option<set<string>>)
    | Acquire(now: int, account: string)
    | Release(ticket: nat)

  const INITIAL := LimiterValue(None, None, map[], [], map[])

  // ---- Steps ----

  function ListingOf(allowed: Option<set<string>>, account: string): Listing {
    if allowed.None? then NoList else if account in allowed.value then Listed else Unlisted
  }

  function Lookup<T>(m: map<string, T>, account: string): Option<T> {
    if account in m then Some(m[account]) else None
  }

  function CellOf(v: LimiterValue, account: string): Cell {
    Cell(EffectiveLimits(v.cfg, account), ListingOf(v.allowed, account), Lookup(v.accounts, account))
  }

  function ReloadedEntry(cfg: Option<Config>, allowed: Option<set<string>>, account: string, e: Entry, now: int)
    : Option<Entry>
  {
    Reloaded(EffectiveLimits(cfg, account), ListingOf(allowed, account), e, now)
  }

  function Updated(v: LimiterValue, now: int, cfg: Option<Config>, allowed: Option<set<string>>): LimiterValue {
    v.(cfg := cfg, allowed := allowed,
       accounts := map a | a in v.accounts && ReloadedEntry(cfg, allowed, a, v.accounts[a], now).Some?
                     :: ReloadedEntry(cfg, allowed, a, v.accounts[a], now).value)
  }

  function Acquired(v: LimiterValue, now: int, account: string): (LimiterValue, Outcome) {
    var limits := EffectiveLimits(v.cfg, account);
    var (e, o) := Decide(limits, Ensured(limits, Lookup(v.accounts, account), now), now);
    var v' := v.(accounts := v.accounts[account := e]);
    if o.Admitted?
    then (v'.(tickets := v.tickets + [TicketValue(account, false)], gauge := v.gauge[account := e.inflight]), o)
    else (v', o)
  }

  function Returned(v: LimiterValue, ticket: nat): LimiterValue {
    if ticket >= |v.tickets| || v.tickets[ticket].used then v else
    var account := v.tickets[ticket].account;
    var v' := v.(tickets := v.tickets[ticket := TicketValue(account, true)]);
    if account !in v.accounts then v' else
    var e := v.accounts[account];
    var e' := Released(ListingOf(v.allowed, account), e);
    v'.(gauge := v.gauge[account := e.inflight - 1],
        accounts := if e'.Some? then v.accounts[account := e'.value] else v.accounts - {account})
  }

  function Step(v: LimiterValue, e: Event): (LimiterValue, Outcome) {
    match e
    case Update(now, cfg, allowed) => (Updated(v, now, cfg, allowed), Done)
    case Acquire(now, account) => Acquired(v, now, account)
    case Release(ticket) => (Returned(v, ticket), Done)
  }

  /** Update's loop: `m` has the accounts outside `todo` reloaded, and the others as they were. */
  predicate ReloadedBut(before: map<string, Entry>, todo: set<string>, m: map<string, Entry>,
                        cfg: Option<Config>, allowed: Option<set<string>>, now: int)
  {
    && m.Keys <= before.Keys
    && forall a :: a in before ==>
         Lookup(m, a) == if a in todo then Some(before[a]) else ReloadedEntry(cfg, allowed, a, before[a], now)
  }

  lemma OneMoreReloaded(before: map<string, Entry>, todo: set<string>, m: map<string, Entry>, account: string,
                        m': map<string, Entry>, cfg: Option<Config>, allowed: Option<set<string>>, now: int)
    requires ReloadedBut(before, todo, m, cfg, allowed, now) && account in todo && account in m
    requires var e := ReloadedEntry(cfg, allowed, account, m[account], now);
             m' == if e.Some? then m[account := e.value] else m - {account}
    ensures ReloadedBut(before, todo - {account}, m', cfg, allowed, now)
  {
    assert Lookup(m, account) == Some(before[account]);
    forall a | a in before
      ensures Lookup(m', a) == if a in todo - {account} then Some(before[a])
                               else ReloadedEntry(cfg, allowed, a, before[a], now)
    {
      assert a != account ==> Lookup(m', a) == Lookup(m, a);
    }
  }

  /** Updated, recognised entry by entry. */
  lemma UpdatedIs(v: LimiterValue, now: int, cfg: Option<Config>, allowed: Option<set<string>>,
                  accounts: map<string, Entry>)
    requires ReloadedBut(v.accounts, {}, accounts, cfg, allowed, now)
    ensures Updated(v, now, cfg, allowed) == v.(cfg := cfg, allowed := allowed, accounts := accounts)
  {
    var target := Updated(v, now, cfg, allowed).accounts;
    forall a ensures a in target <==> a in accounts
             ensures a in target ==> target[a] == accounts[a] {
      if a in v.accounts {
        assert Lookup(accounts, a) == ReloadedEntry(cfg, allowed, a, v.accounts[a], now);
      }
    }
    assert target == accounts;
  }

  function Run(v: LimiterValue, es: seq<Event>): (LimiterValue, seq<Outcome>)
    decreases |es|
  {
    if es == [] then (v, []) else
    var (v', o) := Step(v, es[0]);
    var (v'', os) := Run(v', es[1..]);
    (v'', [o] + os)
  }

  // ---- The shared limiter is a product of one-account machines ----

  /** What account `a` sees of an event. */
  function Project(v: LimiterValue, e: Event, a: string): Option<CellEvent> {
    match e
    case Update(now, cfg, allowed) => Some(Reload(now, EffectiveLimits(cfg, a), ListingOf(allowed, a)))
    case Acquire(now, account) => if account == a then Some(Ask(now)) else None
    case Release(i) => if i < |v.tickets| && v.tickets[i] == TicketValue(a, false) then Some(Finish) else None
  }

  function ProjectRun(v: LimiterValue, es: seq<Event>, a: string): seq<CellEvent>
    decreases |es|
  {
    if es == [] then [] else
    var p := Project(v, es[0], a);
    (if p.Some? then [p.value] else []) + ProjectRun(Step(v, es[0]).0, es[1..], a)
  }

  /** The outcomes, among those of the run, of the events account `a` sees. */
  function OutcomesOf(v: LimiterValue, es: seq<Event>, a: string): seq<Outcome>
    decreases |es|
  {
    if es == [] then [] else
    var (v', o) := Step(v, es[0]);
    (if Project(v, es[0], a).Some? then [o] else []) + OutcomesOf(v', es[1..], a)
  }

  lemma StepProjects(v: LimiterValue, e: Event, a: string)
    ensures var (v', o) := Step(v, e);
            var p := Project(v, e, a);
            if p.None? then CellOf(v', a) == CellOf(v, a)
            else (CellOf(v', a), o) == CellStep(CellOf(v, a), p.value)
  {
  }

  /** An account's state and decisions are those of its own machine on its own events. */
  lemma {:induction false} RunIsProduct(v: LimiterValue, es: seq<Event>, a: string)
    ensures CellRun(CellOf(v, a), ProjectRun(v, es, a)) == (CellOf(Run(v, es).0, a), OutcomesOf(v, es, a))
    decreases |es|
  {
    if es != [] {
      var v' := Step(v, es[0]).0;
      StepProjects(v, es[0], a);
      RunIsProduct(v', es[1..], a);
      var p, rest := Project(v, es[0], a), ProjectRun(v', es[1..], a);
      if p.Some? {
        assert ([p.value] + rest)[1..] == rest;
      } else {
        assert ProjectRun(v, es, a) == rest;
        assert OutcomesOf(v, es, a) == OutcomesOf(v', es[1..], a);
      }
    }
  }

  /** Two limiters, with different other accounts, tickets and histories, decide alike for an account that
      starts alike and sees the same events. */
  lemma AccountsDoNotInterfere(v: LimiterValue, es: seq<Event>, w: LimiterValue, fs: seq<Event>, a: string)
    requires CellOf(v, a) == CellOf(w, a) && ProjectRun(v, es, a) == ProjectRun(w, fs, a)
    ensures OutcomesOf(v, es, a) == OutcomesOf(w, fs, a)
    ensures CellOf(Run(v, es).0, a) == CellOf(Run(w, fs).0, a)
  {
    RunIsProduct(v, es, a);
    RunIsProduct(w, fs, a);
  }

  // ---- Accounting ----

  /** Tickets of account `a` not yet released. */
  function Live(tickets: seq<TicketValue>, a: string): nat {
    if tickets == [] then 0
    else Live(tickets[..|tickets| - 1], a) + (if tickets[|tickets| - 1] == TicketValue(a, false) then 1 else 0)
  }

  lemma LiveIssued(tickets: seq<TicketValue>, k: TicketValue, a: string)
    ensures Live(tickets + [k], a) == Live(tickets, a) + (if k == TicketValue(a, false) then 1 else 0)
  {
    assert (tickets + [k])[..|tickets|] == tickets;
  }

  lemma {:induction false} LiveReturned(tickets: seq<TicketValue>, i: nat, a: string)
    requires i < |tickets| && !tickets[i].used
    ensures Live(tickets[i := tickets[i].(used := true)], a)
            == Live(tickets, a) - (if tickets[i].account == a then 1 else 0)
    decreases |tickets|
  {
    var n := |tickets| - 1;
    var marked := tickets[i := tickets[i].(used := true)];
    if i < n {
      LiveReturned(tickets[..n], i, a);
      assert marked[..n] == tickets[..n][i := tickets[i].(used := true)];
    } else {
      assert marked[..n] == tickets[..n];
    }
  }

  /** In-flight counts and the published gauge both equal the number of unreleased tickets. */
  ghost predicate WellCounted(v: LimiterValue) {
    forall a: string :: CountedFor(v, a)
  }

  predicate CountedFor(v: LimiterValue, a: string) {
    && InflightOf(CellOf(v, a)) == Live(v.tickets, a)
    && (if a in v.gauge then v.gauge[a] else 0) == Live(v.tickets, a)
  }

  lemma StepKeepsCount(v: LimiterValue, e: Event)
    requires WellCounted(v)
    ensures WellCounted(Step(v, e).0)
  {
    forall a: string ensures CountedFor(Step(v, e).0, a) {
      assert CountedFor(v, a);
      match e {
        case Update(_, _, _) =>
        case Acquire(now, account) => AcquireKeepsCount(v, now, account, a);
        case Release(i) => ReleaseKeepsCount(v, i, a);
      }
    }
  }

  lemma AcquireKeepsCount(v: LimiterValue, now: int, account: string, a: string)
    requires CountedFor(v, a)
    ensures CountedFor(Acquired(v, now, account).0, a)
  {
    LiveIssued(v.tickets, TicketValue(account, false), a);
  }

  lemma ReleaseKeepsCount(v: LimiterValue, i: nat, a: string)
    requires WellCounted(v)
    ensures CountedFor(Returned(v, i), a)
  {
    assert CountedFor(v, a);
    if i < |v.tickets| && !v.tickets[i].used {
      assert CountedFor(v, v.tickets[i].account);
      LiveReturned(v.tickets, i, a);
      LiveAtLeastOne(v.tickets, i);
    }
  }

  lemma {:induction false} LiveAtLeastOne(tickets: seq<TicketValue>, i: nat)
    requires i < |tickets| && !tickets[i].used
    ensures Live(tickets, tickets[i].account) >= 1
    decreases |tickets|
  {
    if i < |tickets| - 1 {
      LiveAtLeastOne(tickets[..|tickets| - 1], i);
    }
  }

  // ---- Reachable states ----

  /** Every account's machine is in a good state, and the counts add up. */
  ghost predicate LimiterInv(v: LimiterValue, now: int) {
    WellCounted(v) && forall a: string :: CellInv(CellOf(v, a), now)
  }

  /** The clock does not run backwards, and updates carry a validated configuration and a list.
      Any ticket may be released at any time, any number of times. */
  ghost predicate LegalCall(e: Event, now: int) {
    match e
    case Update(t, cfg, allowed) => now <= t && ValidOptional(cfg) && allowed.Some?
    case Acquire(t, _) => now <= t
    case Release(_) => true
  }

  function TimeAfter(e: Event, now: int): int {
    if e.Release? then now else e.now
  }

  ghost predicate LegalCalls(es: seq<Event>, now: int)
    decreases |es|
  {
    es == [] || (LegalCall(es[0], now) && LegalCalls(es[1..], TimeAfter(es[0], now)))
  }

  function LastTime(es: seq<Event>, now: int): int
    decreases |es|
  {
    if es == [] then now else LastTime(es[1..], TimeAfter(es[0], now))
  }

  lemma CellInvLater(c: Cell, now: int, t: int)
    requires CellInv(c, now) && now <= t
    ensures CellInv(c, t)
  {
  }

  lemma InvLater(v: LimiterValue, now: int, t: int)
    requires LimiterInv(v, now) && now <= t
    ensures LimiterInv(v, t)
  {
    forall a: string ensures CellInv(CellOf(v, a), t) {
      CellInvLater(CellOf(v, a), now, t);
    }
  }

  lemma ProjectedEventIsLegal(v: LimiterValue, e: Event, a: string, now: int)
    requires LimiterInv(v, now) && LegalCall(e, now) && Project(v, e, a).Some?
    ensures LegalEvent(CellOf(v, a), Project(v, e, a).value, now)
    ensures TimeOf(Project(v, e, a).value, now) == TimeAfter(e, now)
  {
    if e.Release? {
      assert CountedFor(v, a);
      LiveAtLeastOne(v.tickets, e.ticket);
    }
  }

  lemma StepKeepsLimiterInv(v: LimiterValue, e: Event, now: int)
    requires LimiterInv(v, now) && LegalCall(e, now)
    ensures LimiterInv(Step(v, e).0, TimeAfter(e, now))
  {
    StepKeepsCount(v, e);
    forall a: string ensures CellInv(CellOf(Step(v, e).0, a), TimeAfter(e, now)) {
      StepProjects(v, e, a);
      CellInvLater(CellOf(v, a), now, TimeAfter(e, now));
      var p := Project(v, e, a);
      if p.Some? {
        ProjectedEventIsLegal(v, e, a, now);
        StepKeepsCellInv(CellOf(v, a), p.value, now);
      }
    }
  }

  lemma {:induction false} RunKeepsLimiterInv(v: LimiterValue, es: seq<Event>, now: int)
    requires LimiterInv(v, now) && LegalCalls(es, now)
    ensures LimiterInv(Run(v, es).0, LastTime(es, now)) && now <= LastTime(es, now)
    decreases |es|
  {
    if es != [] {
      StepKeepsLimiterInv(v, es[0], now);
      RunKeepsLimiterInv(Step(v, es[0]).0, es[1..], TimeAfter(es[0], now));
    }
  }

  lemma InitialInv(now: int)
    requires now >= 0
    ensures LimiterInv(INITIAL, now)
  {
    forall a: string ensures CountedFor(INITIAL, a) && CellInv(CellOf(INITIAL, a), now) {
    }
  }

  // ---- What each call does, in terms of the configuration, the list and the unreleased tickets ----

  /** Acquire: refused for concurrency exactly when all slots of the cap are taken; otherwise admitted exactly when
      there is no rate, or a token is there or less than a nanosecond away. An account without state has a full
      bucket. */
  lemma AcquireEffect(v: LimiterValue, now: int, t: int, a: string)
    requires LimiterInv(v, now) && now <= t
    ensures var limits := EffectiveLimits(v.cfg, a);
            var (v', o) := Step(v, Acquire(t, a));
            var busy := 0 < limits.maxConcurrent <= Live(v.tickets, a);
            && (o.TooManyConcurrent? <==> busy)
            && (o.Admitted? <==> !busy && (limits.requestsPerMinute == 0
                                           || CellLevel(CellOf(v, a), t) > TOKEN - limits.requestsPerMinute))
            && (o.TooFast? <==> !o.Admitted? && !busy)
            && (o.Rejected() ==> v'.tickets == v.tickets && v'.gauge == v.gauge)
            && (o.Admitted? ==> && v'.tickets == v.tickets + [TicketValue(a, false)]
                                && v'.gauge == v.gauge[a := Live(v.tickets, a) + 1])
            && (forall b: string :: b != a ==> Lookup(v'.accounts, b) == Lookup(v.accounts, b))
  {
    var c := CellOf(v, a);
    assert CellInv(c, now) && CountedFor(v, a);
    AdmittedIff(c, now, t);
    StepProjects(v, Acquire(t, a), a);
    if c.entry.None? && c.limits.requestsPerMinute > 0 {
      FullBucketGrants(Fresh(c.limits.requestsPerMinute, c.limits.burst), t);
    }
  }

  /** Release: the slot is given back, and the state goes exactly when it was the last one of an account that a
      published list leaves out. The bucket stays as it is. */
  lemma ReleaseEffect(v: LimiterValue, now: int, i: nat)
    requires LimiterInv(v, now) && i < |v.tickets| && !v.tickets[i].used
    ensures var a := v.tickets[i].account;
            var v' := Step(v, Release(i)).0;
            && v'.cfg == v.cfg && v'.allowed == v.allowed
            && v'.tickets == v.tickets[i := TicketValue(a, true)] && Live(v'.tickets, a) == Live(v.tickets, a) - 1
            && v'.gauge == v.gauge[a := Live(v.tickets, a) - 1]
            && a in v.accounts
            && (a in v'.accounts <==> v.allowed.None? || a in v.allowed.value || Live(v.tickets, a) > 1)
            && (a in v'.accounts ==> v'.accounts[a].inflight == Live(v.tickets, a) - 1
                                     && v'.accounts[a].bucket == v.accounts[a].bucket)
            && (forall b: string :: b != a ==> Lookup(v'.accounts, b) == Lookup(v.accounts, b))
  {
    var a := v.tickets[i].account;
    assert CountedFor(v, a);
    LiveAtLeastOne(v.tickets, i);
    LiveReturned(v.tickets, i, a);
  }

  /** Update: an account keeps its state exactly when it is on the new list, if one is given, or has scans running. It
      then keeps its count, and what its bucket had earned or owed by then, up to the new burst, and earns at the new
      rate from then on. */
  lemma UpdateEffect(v: LimiterValue, now: int, t: int, cfg: Option<Config>, allowed: Option<set<string>>, a: string,
                     later: int)
    requires LimiterInv(v, now) && now <= t <= later && ValidOptional(cfg)
    ensures var limits := EffectiveLimits(cfg, a);
            var v' := Step(v, Update(t, cfg, allowed)).0;
            && v'.cfg == cfg && v'.allowed == allowed && v'.tickets == v.tickets && v'.gauge == v.gauge
            && (a in v'.accounts <==>
                  a in v.accounts && ((allowed.Some? && a in allowed.value) || Live(v.tickets, a) > 0))
            && (a in v'.accounts ==>
                  && v'.accounts[a].inflight == v.accounts[a].inflight
                  && (v'.accounts[a].bucket.Some? <==> limits.requestsPerMinute > 0)
                  && (limits.requestsPerMinute > 0 ==>
                        Level(v'.accounts[a].bucket.value, later) ==
                        if v.accounts[a].bucket.Some?
                        then Min(limits.burst * TOKEN,
                                 Level(v.accounts[a].bucket.value, t) + limits.requestsPerMinute * (later - t))
                        else limits.burst * TOKEN))
  {
    var c := CellOf(v, a);
    assert CellInv(c, now) && CellInv(c, t) && CountedFor(v, a);
    assert ValidLimits(EffectiveLimits(cfg, a));
    StepProjects(v, Update(t, cfg, allowed), a);
    if c.entry.Some? {
      ReloadEffect(c, t, EffectiveLimits(cfg, a), ListingOf(allowed, a), later);
    }
  }

  /** From a new limiter, after any calls: every account with state is on the list or has work in flight. */
  lemma BoundedMemory(es: seq<Event>, now: int)
    requires now >= 0 && LegalCalls(es, now)
    ensures var v := Run(INITIAL, es).0;
            v.allowed.Some? ==>
              forall a :: a in v.accounts && a !in v.allowed.value ==> v.accounts[a].inflight == Live(v.tickets, a) > 0
  {
    InitialInv(now);
    RunKeepsLimiterInv(INITIAL, es, now);
    var v := Run(INITIAL, es).0;
    forall a | v.allowed.Some? && a in v.accounts && a !in v.allowed.value
      ensures v.accounts[a].inflight == Live(v.tickets, a) > 0
    {
      assert CellInv(CellOf(v, a), LastTime(es, now)) && CountedFor(v, a);
    }
  }

  /** Validation is what bounds the map: an account off the list, without state, is left stranded by one
      Acquire exactly when its limits set a rate and a burst below one. */
  lemma StrandedIff(v: LimiterValue, now: int, a: string)
    requires now >= 0 && v.allowed.Some? && a !in v.allowed.value && a !in v.accounts
    ensures var v' := Step(v, Acquire(now, a)).0;
            var limits := EffectiveLimits(v.cfg, a);
            (a in v'.accounts && v'.accounts[a].inflight == 0) <==> (limits.requestsPerMinute != 0 && limits.burst < 1)
  {
    FirstAskRejectedIff(EffectiveLimits(v.cfg, a), now);
  }

  /** After any calls at all, validated or not, an account has a bucket exactly when the current configuration
      gives it a rate, with that rate and burst. */
  lemma {:induction false} BucketsAgreeWithConfig(v: LimiterValue, es: seq<Event>, a: string)
    requires a in v.accounts ==> BucketAgrees(EffectiveLimits(v.cfg, a), v.accounts[a])
    ensures var v' := Run(v, es).0; a in v'.accounts ==> BucketAgrees(EffectiveLimits(v'.cfg, a), v'.accounts[a])
    decreases |es|
  {
    if es != [] {
      var p := Project(v, es[0], a);
      StepProjects(v, es[0], a);
      if p.Some? {
        BucketAgreesAlways(CellOf(v, a), p.value);
      }
      assert CellOf(Step(v, es[0]).0, a).entry == Lookup(Step(v, es[0]).0.accounts, a);
      BucketsAgreeWithConfig(Step(v, es[0]).0, es[1..], a);
    }
  }

  /** With validated configurations the library never refuses a reservation outright, neither on a bucket the
      account has nor on the one its first Acquire creates; so a rate rejection reports the reservation's own wait. */
  lemma ReservationsAreOk(es: seq<Event>, now: int, a: string, t: int)
    requires now >= 0 && LegalCalls(es, now)
    ensures var v := Run(INITIAL, es).0;
            var limits := EffectiveLimits(v.cfg, a);
            var bucket := Ensured(limits, Lookup(v.accounts, a), t).bucket;
            var o := Step(v, Acquire(t, a)).1;
            && (a in v.accounts ==> bucket == v.accounts[a].bucket)
            && (bucket.Some? ==> Reserve(bucket.value, t).0.ok)
            && (o.TooFast? ==>
                  && bucket.Some?
                  && o == TooFast(limits.requestsPerMinute, Reserve(bucket.value, t).0.timeToAct - t)
                  && 0 < o.retryAfter <= INF_DURATION)
  {
    InitialInv(now);
    RunKeepsLimiterInv(INITIAL, es, now);
    assert CellInv(CellOf(Run(INITIAL, es).0, a), LastTime(es, now));
  }

  /** Once every ticket of an account is released its count is zero, and it keeps state only while listed. */
  lemma DrainedAccountIsIdle(v: LimiterValue, now: int, a: string)
    requires LimiterInv(v, now)
    requires forall i :: 0 <= i < |v.tickets| && v.tickets[i].account == a ==> v.tickets[i].used
    ensures InflightOf(CellOf(v, a)) == 0
    ensures v.allowed.Some? && a !in v.allowed.value ==> a !in v.accounts
  {
    NoneLive(v.tickets, a);
    assert CountedFor(v, a);
    assert CellInv(CellOf(v, a), now);
  }

  lemma {:induction false} NoneLive(tickets: seq<TicketValue>, a: string)
    requires forall i :: 0 <= i < |tickets| && tickets[i].account == a ==> tickets[i].used
    ensures Live(tickets, a) == 0
    decreases |tickets|
  {
    if tickets != [] {
      NoneLive(tickets[..|tickets| - 1], a);
    }
  }

  // ---- Account promises, over runs of the whole limiter ----

  /** An account's own events form a legal run of its machine. */
  lemma {:induction false} ProjectedRunIsLegal(v: LimiterValue, es: seq<Event>, a: string, now: int, seen: int)
    requires LimiterInv(v, now) && LegalCalls(es, now) && seen <= now
    ensures LegalRun(CellOf(v, a), ProjectRun(v, es, a), seen)
    ensures EndTime(ProjectRun(v, es, a), seen) <= LastTime(es, now)
    decreases |es|
  {
    if es != [] {
      var e, t := es[0], TimeAfter(es[0], now);
      var v', p := Step(v, e).0, Project(v, e, a);
      StepProjects(v, e, a);
      StepKeepsLimiterInv(v, e, now);
      if p.Some? {
        ProjectedEventIsLegal(v, e, a, now);
        ProjectedRunIsLegal(v', es[1..], a, t, TimeOf(p.value, seen));
        var rest := ProjectRun(v', es[1..], a);
        assert ([p.value] + rest)[1..] == rest;
      } else {
        ProjectedRunIsLegal(v', es[1..], a, t, seen);
        assert ProjectRun(v, es, a) == ProjectRun(v', es[1..], a);
      }
    } else {
      assert ProjectRun(v, es, a) == [];
    }
  }

  predicate UpdatesKeepRate(es: seq<Event>, a: string, rpm: int, burst: int) {
    forall i :: 0 <= i < |es| && es[i].Update? ==>
                  AtRate(EffectiveLimits(es[i].cfg, a), ListingOf(es[i].allowed, a), rpm, burst)
  }

  predicate UpdatesKeepCap(es: seq<Event>, a: string, cap: int) {
    forall i :: 0 <= i < |es| && es[i].Update? ==> EffectiveLimits(es[i].cfg, a).maxConcurrent == cap
  }

  lemma {:induction false} ProjectionKeeps(v: LimiterValue, es: seq<Event>, a: string, rpm: int, burst: int, cap: int)
    ensures UpdatesKeepRate(es, a, rpm, burst) ==> KeepsRate(ProjectRun(v, es, a), rpm, burst)
    ensures UpdatesKeepCap(es, a, cap) ==> KeepsCap(ProjectRun(v, es, a), cap)
    decreases |es|
  {
    if es != [] {
      ProjectionKeeps(Step(v, es[0]).0, es[1..], a, rpm, burst, cap);
      if UpdatesKeepRate(es, a, rpm, burst) {
        assert UpdatesKeepRate(es[1..], a, rpm, burst);
      }
      if UpdatesKeepCap(es, a, cap) {
        assert UpdatesKeepCap(es[1..], a, cap);
      }
    }
  }

  /** Rate bound, whatever other accounts do and whatever is rejected, released or reloaded meanwhile. */
  lemma AccountWindow(v: LimiterValue, es: seq<Event>, a: string, t1: int, t2: int, rpm: int, burst: int)
    requires LimiterInv(v, t1) && LegalCalls(es, t1) && LastTime(es, t1) <= t2 && rpm > 0
    requires AtRate(EffectiveLimits(v.cfg, a), ListingOf(v.allowed, a), rpm, burst)
    requires UpdatesKeepRate(es, a, rpm, burst)
    ensures Admissions(OutcomesOf(v, es, a)) * TOKEN <= burst * TOKEN + rpm * (t2 - t1) + Slack(rpm)
  {
    RunIsProduct(v, es, a);
    ProjectedRunIsLegal(v, es, a, t1, t1);
    ProjectionKeeps(v, es, a, rpm, burst, 0);
    WindowBound(CellOf(v, a), ProjectRun(v, es, a), t1, t2, rpm, burst);
  }

  /** The override of account a sets its rate and burst, and a is on the list. */
  predicate OverriddenRate(cfg: Option<Config>, allowed: Option<set<string>>, a: string, rpm: int, burst: int) {
    && cfg.Some? && a in cfg.value.overrides
    && cfg.value.overrides[a].requestsPerMinute == Some(rpm) && cfg.value.overrides[a].burst == Some(burst)
    && allowed.Some? && a in allowed.value
  }

  /** The rate bound of an account with an override is that of the override, whatever the default is or becomes. */
  lemma OverrideWindow(v: LimiterValue, es: seq<Event>, a: string, t1: int, t2: int, rpm: int, burst: int)
    requires LimiterInv(v, t1) && LegalCalls(es, t1) && LastTime(es, t1) <= t2 && rpm > 0
    requires OverriddenRate(v.cfg, v.allowed, a, rpm, burst)
    requires forall i :: 0 <= i < |es| && es[i].Update? ==> OverriddenRate(es[i].cfg, es[i].allowed, a, rpm, burst)
    ensures Admissions(OutcomesOf(v, es, a)) * TOKEN <= burst * TOKEN + rpm * (t2 - t1) + Slack(rpm)
  {
    AccountWindow(v, es, a, t1, t2, rpm, burst);
  }

  /** Concurrency cap, counted in unreleased tickets, from any state on. */
  lemma AccountCap(v: LimiterValue, es: seq<Event>, a: string, now: int, cap: int)
    requires LimiterInv(v, now) && LegalCalls(es, now)
    requires cap > 0 && EffectiveLimits(v.cfg, a).maxConcurrent == cap && UpdatesKeepCap(es, a, cap)
    ensures Live(Run(v, es).0.tickets, a) <= Max(Live(v.tickets, a), cap)
  {
    RunIsProduct(v, es, a);
    ProjectedRunIsLegal(v, es, a, now, now);
    ProjectionKeeps(v, es, a, 0, 0, cap);
    CapHolds(CellOf(v, a), ProjectRun(v, es, a), now, cap);
    RunKeepsLimiterInv(v, es, now);
    assert CountedFor(v, a) && CountedFor(Run(v, es).0, a);
  }

  /** The delay reported by the limiter is exact for the account, whatever the others do meanwhile, except that an
      account off the list, with all its tickets released, has lost its bucket and is admitted at once. */
  lemma AccountRetryAfter(v: LimiterValue, now: int, a: string, es: seq<Event>, later: int)
    requires LimiterInv(v, now)
    requires Step(v, Acquire(now, a)).1.TooFast? && Step(v, Acquire(now, a)).1.retryAfter < INF_DURATION
    requires LegalCalls(es, now) && LastTime(es, now) <= later
    requires var v1 := Step(v, Acquire(now, a)).0; NoGrant(CellOf(v1, a), ProjectRun(v1, es, a))
    ensures var (v1, TooFast(limit, delay)) := Step(v, Acquire(now, a));
            var v2 := Run(v1, es).0;
            && (a !in v2.accounts <==> ListingOf(v2.allowed, a).Unlisted? && Live(v2.tickets, a) == 0)
            && Step(v2, Acquire(later, a)).1 ==
               if a !in v2.accounts then Admitted
               else if 0 < EffectiveLimits(v2.cfg, a).maxConcurrent <= Live(v2.tickets, a)
               then TooManyConcurrent(EffectiveLimits(v2.cfg, a).maxConcurrent)
               else if later < now + delay then TooFast(limit, now + delay - later)
               else Admitted
  {
    var v1 := Step(v, Acquire(now, a)).0;
    StepProjects(v, Acquire(now, a), a);
    StepKeepsLimiterInv(v, Acquire(now, a), now);
    RunIsProduct(v1, es, a);
    ProjectedRunIsLegal(v1, es, a, now, now);
    RunKeepsLimiterInv(v1, es, now);
    assert CellInv(CellOf(v, a), now) && CountedFor(Run(v1, es).0, a);
    RetryAfterIsExact(CellOf(v, a), now, ProjectRun(v1, es, a), later);
    StepProjects(Run(v1, es).0, Acquire(later, a), a);
  }

  // ---- Quiet calls of the whole limiter ----

  /** A rejected Acquire, or an Update that changes no account's effective limits or listing. */
  ghost predicate QuietCall(v: LimiterValue, e: Event) {
    match e
    case Acquire(_, _) => Step(v, e).1.Rejected()
    case Update(_, cfg, allowed) =>
      forall a: string ::
        && EffectiveLimits(cfg, a) == EffectiveLimits(v.cfg, a)
        && ListingOf(allowed, a) == ListingOf(v.allowed, a)
    case Release(_) => false
  }

  ghost function LoudCalls(v: LimiterValue, es: seq<Event>): seq<Event>
    decreases |es|
  {
    if es == [] then [] else
    (if QuietCall(v, es[0]) then [] else [es[0]]) + LoudCalls(Step(v, es[0]).0, es[1..])
  }

  ghost function LoudResults(v: LimiterValue, es: seq<Event>): seq<Outcome>
    decreases |es|
  {
    if es == [] then [] else
    (if QuietCall(v, es[0]) then [] else [Step(v, es[0]).1]) + LoudResults(Step(v, es[0]).0, es[1..])
  }

  /** No call at or after `now` can tell the limiters apart. */
  ghost predicate SameLimiter(v: LimiterValue, w: LimiterValue, now: int) {
    && v.tickets == w.tickets && v.gauge == w.gauge
    && forall a: string :: SameCell(CellOf(v, a), CellOf(w, a), now)
  }

  lemma SameLimiterStep(v: LimiterValue, w: LimiterValue, e: Event, now: int)
    requires LimiterInv(v, now) && SameLimiter(v, w, now) && LegalCall(e, now)
    ensures Step(v, e).1 == Step(w, e).1
    ensures SameLimiter(Step(v, e).0, Step(w, e).0, TimeAfter(e, now))
  {
    var v', w', t := Step(v, e).0, Step(w, e).0, TimeAfter(e, now);
    forall a: string
      ensures SameCell(CellOf(v', a), CellOf(w', a), t)
      ensures Project(v, e, a).Some? ==> Step(v, e).1 == Step(w, e).1
    {
      StepProjects(v, e, a);
      StepProjects(w, e, a);
      assert Project(v, e, a) == Project(w, e, a);
      assert SameCell(CellOf(v, a), CellOf(w, a), now) && CellInv(CellOf(v, a), now);
      if Project(v, e, a).Some? {
        ProjectedEventIsLegal(v, e, a, now);
        SameCellStep(CellOf(v, a), CellOf(w, a), Project(v, e, a).value, now);
      } else {
        SameCellLater(CellOf(v, a), CellOf(w, a), now, t);
      }
    }
    if e.Acquire? {
      assert Project(v, e, e.account).Some?;
      assert SameCell(CellOf(v', e.account), CellOf(w', e.account), t);
    } else if e.Release? && e.ticket < |v.tickets| {
      var a := v.tickets[e.ticket].account;
      assert SameCell(CellOf(v, a), CellOf(w, a), now);
    }
  }

  lemma QuietCallIsInvisible(v: LimiterValue, e: Event, now: int)
    requires LimiterInv(v, now) && LegalCall(e, now) && QuietCall(v, e)
    ensures SameLimiter(v, Step(v, e).0, TimeAfter(e, now))
  {
    var v', t := Step(v, e).0, TimeAfter(e, now);
    forall a: string ensures SameCell(CellOf(v, a), CellOf(v', a), t) {
      StepProjects(v, e, a);
      assert CellInv(CellOf(v, a), now);
      if Project(v, e, a).Some? {
        ProjectedEventIsLegal(v, e, a, now);
        QuietEventIsInvisible(CellOf(v, a), Project(v, e, a).value, now);
      } else {
        SameCellReflexive(CellOf(v, a), now);
        SameCellLater(CellOf(v, a), CellOf(v, a), now, t);
      }
    }
  }

  /** Erase every rejected call and every unchanged reload from a run: all other outcomes, ticket numbers,
      counts and later behaviour stay as they were, for all accounts at once. */
  lemma {:induction false} QuietCallsAreInvisible(v: LimiterValue, w: LimiterValue, es: seq<Event>, now: int)
    requires LimiterInv(v, now) && SameLimiter(v, w, now) && LegalCalls(es, now)
    ensures Run(w, LoudCalls(v, es)).1 == LoudResults(v, es)
    ensures SameLimiter(Run(v, es).0, Run(w, LoudCalls(v, es)).0, LastTime(es, now))
    decreases |es|
  {
    if es != [] {
      var e, t := es[0], TimeAfter(es[0], now);
      var v' := Step(v, e).0;
      StepKeepsLimiterInv(v, e, now);
      if QuietCall(v, e) {
        QuietCallIsInvisible(v, e, now);
        forall a: string ensures SameCell(CellOf(v', a), CellOf(w, a), t) {
          SameCellLater(CellOf(v, a), CellOf(w, a), now, t);
          assert SameCell(CellOf(v, a), CellOf(v', a), t);
          SameThroughMiddle(CellOf(v, a), CellOf(v', a), CellOf(w, a), t);
        }
        QuietCallsAreInvisible(v', w, es[1..], t);
        assert LoudCalls(v, es) == LoudCalls(v', es[1..]);
      } else {
        SameLimiterStep(v, w, e, now);
        QuietCallsAreInvisible(v', Step(w, e).0, es[1..], t);
        var rest := LoudCalls(v', es[1..]);
        assert ([e] + rest)[1..] == rest;
      }
    }
  }

  /** The same for one account, and across limiters: with only its quiet events erased, and whatever the other accounts,
      their reloads and their tickets do, every other outcome of the account stays as it was. */
  lemma AccountQuietCallsAreInvisible(v: LimiterValue, es: seq<Event>, w: LimiterValue, fs: seq<Event>, a: string,
                                      now: int)
    requires LimiterInv(v, now) && LegalCalls(es, now) && CellOf(w, a) == CellOf(v, a)
    requires ProjectRun(w, fs, a) == Loud(CellOf(v, a), ProjectRun(v, es, a))
    ensures OutcomesOf(w, fs, a) == LoudOutcomes(CellOf(v, a), ProjectRun(v, es, a))
    ensures SameCell(CellOf(Run(v, es).0, a), CellOf(Run(w, fs).0, a), LastTime(es, now))
  {
    var c, own := CellOf(v, a), ProjectRun(v, es, a);
    assert CellInv(c, now);
    SameCellReflexive(c, now);
    ProjectedRunIsLegal(v, es, a, now, now);
    QuietEventsAreInvisible(c, c, own, now);
    RunIsProduct(v, es, a);
    RunIsProduct(w, fs, a);
    SameCellLater(CellOf(Run(v, es).0, a), CellOf(Run(w, fs).0, a), EndTime(own, now), LastTime(es, now));
  }
}
