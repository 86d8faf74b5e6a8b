/** internal/ratelimit/middleware.go: a slot is held exactly while the next handler runs, and a refusal
    says when to come back. */
module Middleware {
  import opened Common
  import opened RateConfig
  import opened TokenBucket
  import opened AccountMachine
  import opened AccountRuns
  import opened AccountDebt
  import opened LimiterSpec
  import opened LimiterRates
  import Limiter

  const TOO_MANY_REQUESTS: int := 429

  /** Status, headers (Retry-After in seconds) and the two fields of the JSON body. */
  datatype Response = Response(status: int, contentType: string, retryAfter: int, connectionClose: bool,
                               error: string, reason: string)

  // ---- The 429 response ----

  function Digits(n: nat): (s: string)
    ensures s != [] && forall c :: c in s ==> '0' <= c <= '9'
  {
    (if n < 10 then [] else Digits(n / 10)) + ['0' + (n % 10) as char]
  }

  function ValueOf(s: string): int {
    if s == [] then 0 else ValueOf(s[..|s| - 1]) * 10 + (s[|s| - 1] as int - '0' as int)
  }

  lemma {:induction false} DigitsInvert(n: nat)
    ensures ValueOf(Digits(n)) == n
  {
    var front, d := if n < 10 then [] else Digits(n / 10), '0' + (n % 10) as char;
    assert Digits(n) == front + [d] && (front + [d])[..|front|] == front;
    if n >= 10 {
      DigitsInvert(n / 10);
    }
  }

  /** %d. */
  function Decimal(n: int): string {
    if n < 0 then "-" + Digits(-n) else Digits(n)
  }

  lemma DecimalsDiffer(m: int, n: int)
    requires Decimal(m) == Decimal(n)
    ensures m == n
  {
    var dm, dn := Digits(Max(m, -m)), Digits(Max(n, -n));
    DigitsInvert(Max(m, -m));
    DigitsInvert(Max(n, -n));
    assert dm[0] in dm && dn[0] in dn;
    assert ("-" + dm)[1..] == dm && ("-" + dn)[1..] == dn;
  }

  function Complaint(concurrency: bool, limit: string): string {
    if concurrency then "concurrent scans (" + (limit + ("/" + limit)) + ")" else "requests per minute (" + limit + ")"
  }

  function RejectionMessage(account: string, rejection: Outcome): string
    requires rejection.Rejected()
  {
    "rate limit exceeded for " + account + ": " + Complaint(rejection.TooManyConcurrent?, Decimal(rejection.limit))
  }

  lemma ComplaintsDiffer(c1: bool, limit1: string, c2: bool, limit2: string)
    requires Complaint(c1, limit1) == Complaint(c2, limit2)
    ensures c1 == c2 && limit1 == limit2
  {
    var m1, m2 := Complaint(c1, limit1), Complaint(c2, limit2);
    assert m1[0] == m2[0];
    var skip := if c1 then 18 else 21;
    assert m1[skip..][..|limit1|] == limit1;
    assert m2[skip..][..|limit2|] == limit2;
  }

  /** An account can tell from the message which of its limits it met, and what that limit is. */
  lemma MessageTellsLimit(account: string, r1: Outcome, r2: Outcome)
    requires r1.Rejected() && r2.Rejected() && RejectionMessage(account, r1) == RejectionMessage(account, r2)
    ensures r1.limit == r2.limit && (r1.TooManyConcurrent? <==> r2.TooManyConcurrent?)
  {
    var intro := "rate limit exceeded for " + account + ": ";
    var d1, d2 := Decimal(r1.limit), Decimal(r2.limit);
    SameTail(intro, Complaint(r1.TooManyConcurrent?, d1), Complaint(r2.TooManyConcurrent?, d2));
    ComplaintsDiffer(r1.TooManyConcurrent?, d1, r2.TooManyConcurrent?, d2);
    DecimalsDiffer(r1.limit, r2.limit);
  }

  lemma SameTail(front: string, s: string, t: string)
    requires front + s == front + t
    ensures s == t
  {
    assert (front + s)[|front|..] == s && (front + t)[|front|..] == t;
  }

  method WriteRejection(account: string, rejection: Outcome) returns (r: Response)
    requires rejection.Rejected()
    ensures r.status == 429 && r.contentType == "application/json" && r.connectionClose
    ensures r.reason == if rejection.TooManyConcurrent? then "concurrency" else "rate"
    ensures r.error == RejectionMessage(account, rejection)
    ensures rejection.TooManyConcurrent? ==>
              r.error == "rate limit exceeded for " + account + ": "
                         + ("concurrent scans (" + (Decimal(rejection.limit) + ("/" + Decimal(rejection.limit))) + ")")
    ensures rejection.TooFast? ==>
              r.error == "rate limit exceeded for " + account + ": "
                         + ("requests per minute (" + Decimal(rejection.limit) + ")")
    ensures r.retryAfter == HeaderSeconds(rejection.RetryAfter())
    ensures 1 <= r.retryAfter && rejection.RetryAfter() <= r.retryAfter * SECOND
    ensures forall s :: 1 <= s && rejection.RetryAfter() <= s * SECOND ==> r.retryAfter <= s
  {
    var retryAfter := CeilSeconds(rejection.RetryAfter());
    CeilSecondsIsLeast(rejection.RetryAfter(), retryAfter);
    forall s | 1 <= s && rejection.RetryAfter() <= s * SECOND ensures retryAfter <= s {
      CeilSecondsIsLeast(rejection.RetryAfter(), s);
    }
    if retryAfter < 1 {
      retryAfter := 1;
    }
    var message, limit := "rate limit exceeded for " + account + ": ", Decimal(rejection.limit);
    if rejection.TooManyConcurrent? {
      message := message + ("concurrent scans (" + (limit + ("/" + limit)) + ")");
    } else {
      message := message + ("requests per minute (" + limit + ")");
    }
    var reason := if rejection.TooManyConcurrent? then "concurrency" else "rate";
    r := Response(TOO_MANY_REQUESTS, "application/json", retryAfter, true, message, reason);
  }

  // ---- Retry-After ----

  /** A client that waits as long as the header says, and finds a free slot, is admitted. */
  lemma WaitingAsToldSuffices(v: LimiterValue, now: int, a: string, es: seq<Event>, later: int)
    requires LimiterInv(v, now)
    requires Step(v, Acquire(now, a)).1.TooFast? && Step(v, Acquire(now, a)).1.retryAfter < INF_DURATION
    requires LegalCalls(es, now) && LastTime(es, now) <= later
    requires var v1 := Step(v, Acquire(now, a)).0; NoGrant(CellOf(v1, a), ProjectRun(v1, es, a))
    requires later >= now + HeaderSeconds(Step(v, Acquire(now, a)).1.retryAfter) * SECOND
    ensures var v2 := Run(Step(v, Acquire(now, a)).0, es).0;
            var o := Step(v2, Acquire(later, a)).1;
            o == Admitted || o == TooManyConcurrent(EffectiveLimits(v2.cfg, a).maxConcurrent)
  {
    AccountRetryAfter(v, now, a, es, later);
    var d := Step(v, Acquire(now, a)).1.retryAfter;
    CeilSecondsIsLeast(d, HeaderSeconds(d));
  }

  /** From a new limiter on, with no hypothesis about delays. */
  lemma WaitingAsToldSufficesFromStart(pre: seq<Event>, now: int, a: string, es: seq<Event>, later: int)
    requires AsksAgain(pre, now, a, es, later)
    requires later >= now + HeaderSeconds(Step(Run(INITIAL, pre).0, Acquire(now, a)).1.retryAfter) * SECOND
    ensures var v2 := Run(Step(Run(INITIAL, pre).0, Acquire(now, a)).0, es).0;
            var o := Step(v2, Acquire(later, a)).1;
            o == Admitted || o == TooManyConcurrent(EffectiveLimits(v2.cfg, a).maxConcurrent)
  {
    InitialInv(0);
    RunKeepsLimiterInv(INITIAL, pre, 0);
    InvLater(Run(INITIAL, pre).0, LastTime(pre, 0), now);
    DelayIsFinite(pre, a, now);
    WaitingAsToldSuffices(Run(INITIAL, pre).0, now, a, es, later);
  }

  /** A reload that lowers the rate can push the header past a minute: at 7 requests per minute the second
      request is admitted a fraction of a nanosecond early, and at 1 per minute that debt takes 3 ns to pay. */
  lemma HeaderOverAMinute()
    ensures var c := NewAccount(7, 1);
            var t := 8_571_428_571;
            var es := [Ask(0), Ask(t), Reload(t, Limits(0, 1, 1), Listed), Ask(t)];
            && LegalRun(c, es, 0)
            && CellRun(c, es).1 == [Admitted, Admitted, Done, TooFast(1, 60_000_000_003)]
            && HeaderSeconds(60_000_000_003) == 61
  {
    var c, t := NewAccount(7, 1), 8_571_428_571;
    var e1, e2, e3, e4 := Ask(0), Ask(t), Reload(t, Limits(0, 1, 1), Listed), Ask(t);
    var c1, c2 := CellStep(c, e1).0, CellStep(CellStep(c, e1).0, e2).0;
    var c3 := CellStep(c2, e3).0;
    assert CellStep(c, e1).1 == Admitted && c1.entry == Some(Entry(1, Some(BucketValue(7, 1, 0, 0))));
    assert CellStep(c1, e2).1 == Admitted && c2.entry == Some(Entry(2, Some(BucketValue(7, 1, -3, t))));
    assert c3.entry == Some(Entry(2, Some(BucketValue(1, 1, -3, t))));
    assert CellStep(c3, e4).1 == TooFast(1, 60_000_000_003);
    var es := [e1, e2, e3, e4];
    assert es[1..] == [e2, e3, e4] && es[1..][1..] == [e3, e4];
    assert es[1..][1..][1..] == [e4] && es[1..][1..][1..][1..] == [];
    assert CellRun(c3, [e4]).1 == [TooFast(1, 60_000_000_003)] by { assert [e4][1..] == []; }
    assert CellRun(c2, [e3, e4]).1 == [Done, TooFast(1, 60_000_000_003)];
    assert CellRun(c1, [e2, e3, e4]).1 == [Admitted, Done, TooFast(1, 60_000_000_003)];
    assert LegalRun(c3, [e4], t) by { assert [e4][1..] == []; }
  }

  // ---- Handler ----

  datatype Phase = Running(ticket: nat) | Unlimited | Served | Panicked | Refused(why: Outcome)

  /** One call of the wrapped handler; an empty identity is not limited and holds no ticket. */
  datatype Request = Request(account: string, phase: Phase)

  datatype Server = Server(limiter: LimiterValue, requests: seq<Request>)

  datatype ServerEvent =
    | Arrive(now: int, account: string)
    | End(request: nat, panics: bool)
    | Reconfigure(now: int, cfg: Option<Config>, allowed: Option<set<string>>)

  function ServerStep(s: Server, e: ServerEvent): Server {
    match e
    case Arrive(now, account) =>
      if account == "" then s.(requests := s.requests + [Request(account, Unlimited)]) else
      var (v, o) := Acquired(s.limiter, now, account);
      var phase := if o.Admitted? then Running(|s.limiter.tickets|) else Refused(o);
      Server(v, s.requests + [Request(account, phase)])
    case End(i, panics) =>
      if i >= |s.requests| || !s.requests[i].phase.Running? then s else
      // the deferred release runs on a panic too
      Server(Returned(s.limiter, s.requests[i].phase.ticket),
             s.requests[i := s.requests[i].(phase := if panics then Panicked else Served)])
    case Reconfigure(now, cfg, allowed) => s.(limiter := Updated(s.limiter, now, cfg, allowed))
  }

  function ServerRun(s: Server, es: seq<ServerEvent>): Server
    decreases |es|
  {
    if es == [] then s else ServerRun(ServerStep(s, es[0]), es[1..])
  }

  /** The limiter call a server event makes, if any. */
  function CallOf(s: Server, e: ServerEvent): seq<Event> {
    match e
    case Arrive(now, account) => if account == "" then [] else [Acquire(now, account)]
    case End(i, _) =>
      if i >= |s.requests| || !s.requests[i].phase.Running? then [] else [Release(s.requests[i].phase.ticket)]
    case Reconfigure(now, cfg, allowed) => [Update(now, cfg, allowed)]
  }

  function CallsOf(s: Server, es: seq<ServerEvent>): seq<Event>
    decreases |es|
  {
    if es == [] then [] else CallOf(s, es[0]) + CallsOf(ServerStep(s, es[0]), es[1..])
  }

  /** The limiter inside the server has seen exactly the calls the requests made. */
  lemma {:induction false} ServerDrivesLimiter(s: Server, es: seq<ServerEvent>)
    ensures ServerRun(s, es).limiter == Run(s.limiter, CallsOf(s, es)).0
    decreases |es|
  {
    if es != [] {
      var s', call := ServerStep(s, es[0]), CallOf(s, es[0]);
      ServerDrivesLimiter(s', es[1..]);
      RunAppends(s.limiter, call, CallsOf(s', es[1..]));
      assert call != [] ==> call[1..] == [];
      assert Run(s.limiter, call).0 == s'.limiter;
    }
  }

  /** Requests as tickets: a ticket is live while its request runs. */
  function AsTickets(rs: seq<Request>): (ts: seq<TicketValue>)
    ensures |ts| == |rs| && forall i :: 0 <= i < |rs| ==> ts[i] == TicketValue(rs[i].account, !rs[i].phase.Running?)
  {
    seq(|rs|, i requires 0 <= i < |rs| => TicketValue(rs[i].account, !rs[i].phase.Running?))
  }

  /** Handlers now running for the account. */
  function RunningFor(s: Server, a: string): nat {
    Live(AsTickets(s.requests), a)
  }

  /** Every running handler holds its own unreleased ticket, and the numbers agree for every account. */
  ghost predicate ServerInv(s: Server) {
    && (forall i :: 0 <= i < |s.requests| && s.requests[i].phase.Running? ==>
          HoldsTicket(s, i))
    && (forall i, j :: 0 <= i < j < |s.requests| && s.requests[i].phase.Running? && s.requests[j].phase.Running? ==>
          s.requests[i].phase.ticket != s.requests[j].phase.ticket)
    && (forall a: string :: RunningFor(s, a) == Live(s.limiter.tickets, a))
  }

  predicate HoldsTicket(s: Server, i: nat)
    requires i < |s.requests| && s.requests[i].phase.Running?
  {
    var k := s.requests[i].phase.ticket;
    k < |s.limiter.tickets| && s.limiter.tickets[k] == TicketValue(s.requests[i].account, false)
  }

  lemma ArrivalKeepsServerInv(s: Server, now: int, account: string)
    requires ServerInv(s)
    ensures ServerInv(ServerStep(s, Arrive(now, account)))
  {
    var s' := ServerStep(s, Arrive(now, account));
    var n := |s.requests|;
    assert forall i :: 0 <= i < n ==> s'.requests[i] == s.requests[i];
    forall a: string ensures RunningFor(s', a) == Live(s'.limiter.tickets, a) {
      assert RunningFor(s, a) == Live(s.limiter.tickets, a);
      ArrivalCounts(s, now, account, a);
    }
    forall i: nat | i < |s'.requests| && s'.requests[i].phase.Running? ensures HoldsTicket(s', i) {
      ArrivalHolds(s, now, account, i);
    }
    forall i: nat, j: nat | i < j < |s'.requests| && s'.requests[i].phase.Running? && s'.requests[j].phase.Running?
      ensures s'.requests[i].phase.ticket != s'.requests[j].phase.ticket
    {
      assert HoldsTicket(s, i);
    }
  }

  /** An arrival adds one request, and one ticket exactly when it runs. */
  lemma ArrivalAdds(s: Server, now: int, account: string) returns (r: Request)
    ensures var s' := ServerStep(s, Arrive(now, account));
            && s'.requests == s.requests + [r] && r.account == account
            && s'.limiter.tickets == s.limiter.tickets + if r.phase.Running? then [TicketValue(account, false)] else []
  {
    r := ServerStep(s, Arrive(now, account)).requests[|s.requests|];
  }

  lemma ArrivalCounts(s: Server, now: int, account: string, a: string)
    requires RunningFor(s, a) == Live(s.limiter.tickets, a)
    ensures var s' := ServerStep(s, Arrive(now, account)); RunningFor(s', a) == Live(s'.limiter.tickets, a)
  {
    var r := ArrivalAdds(s, now, account);
    OneMoreOfBoth(s.requests, s.limiter.tickets, r, a);
  }

  lemma OneMoreOfBoth(rs: seq<Request>, tickets: seq<TicketValue>, r: Request, a: string)
    requires Live(AsTickets(rs), a) == Live(tickets, a)
    ensures Live(AsTickets(rs + [r]), a)
            == Live(tickets + if r.phase.Running? then [TicketValue(r.account, false)] else [], a)
  {
    OneMoreRequest(rs, r, a);
    LiveIssued(tickets, TicketValue(r.account, false), a);
    assert tickets + [] == tickets;
  }

  lemma OneMoreRequest(rs: seq<Request>, r: Request, a: string)
    ensures Live(AsTickets(rs + [r]), a)
            == Live(AsTickets(rs), a) + (if r.phase.Running? && r.account == a then 1 else 0)
  {
    assert AsTickets(rs + [r]) == AsTickets(rs) + [TicketValue(r.account, !r.phase.Running?)];
    LiveIssued(AsTickets(rs), TicketValue(r.account, !r.phase.Running?), a);
  }

  lemma ArrivalHolds(s: Server, now: int, account: string, i: nat)
    requires ServerInv(s)
    requires var s' := ServerStep(s, Arrive(now, account)); i < |s'.requests| && s'.requests[i].phase.Running?
    ensures HoldsTicket(ServerStep(s, Arrive(now, account)), i)
  {
    if i < |s.requests| {
      assert HoldsTicket(s, i);
    }
  }

  lemma EndKeepsServerInv(s: Server, i: nat, panics: bool)
    requires ServerInv(s)
    ensures ServerInv(ServerStep(s, End(i, panics)))
  {
    if i < |s.requests| && s.requests[i].phase.Running? {
      var s', k := ServerStep(s, End(i, panics)), s.requests[i].phase.ticket;
      assert HoldsTicket(s, i);
      var rs := AsTickets(s.requests);
      assert AsTickets(s'.requests) == rs[i := rs[i].(used := true)];
      assert s'.limiter.tickets == s.limiter.tickets[k := s.limiter.tickets[k].(used := true)];
      forall a: string ensures RunningFor(s', a) == Live(s'.limiter.tickets, a) {
        LiveReturned(rs, i, a);
        LiveReturned(s.limiter.tickets, k, a);
        assert RunningFor(s, a) == Live(s.limiter.tickets, a);
      }
      forall j | 0 <= j < |s'.requests| && s'.requests[j].phase.Running? ensures HoldsTicket(s', j) {
        assert HoldsTicket(s, j) && j != i;
      }
    }
  }

  lemma {:induction false} ServerRunKeepsInv(s: Server, es: seq<ServerEvent>)
    requires ServerInv(s)
    ensures ServerInv(ServerRun(s, es))
    decreases |es|
  {
    if es != [] {
      match es[0] {
        case Arrive(now, account) => ArrivalKeepsServerInv(s, now, account);
        case End(i, panics) => EndKeepsServerInv(s, i, panics);
        case Reconfigure(now, cfg, allowed) =>
          var s' := ServerStep(s, es[0]);
          assert forall i :: 0 <= i < |s.requests| && s.requests[i].phase.Running? && HoldsTicket(s, i) ==>
                               HoldsTicket(s', i);
          assert forall a: string :: RunningFor(s', a) == RunningFor(s, a);
      }
      ServerRunKeepsInv(ServerStep(s, es[0]), es[1..]);
    }
  }

  /** From a new server: the handlers running for an account are exactly its in-flight count, and once all of
      them have ended, by return or by panic, the account is idle. */
  lemma SlotHeldWhileRunning(es: seq<ServerEvent>, now: int, a: string)
    requires now >= 0 && LegalCalls(CallsOf(Server(INITIAL, []), es), now)
    ensures var s := ServerRun(Server(INITIAL, []), es);
            && InflightOf(CellOf(s.limiter, a)) == RunningFor(s, a)
            && ((forall i :: 0 <= i < |s.requests| && s.requests[i].account == a ==> !s.requests[i].phase.Running?)
                ==> InflightOf(CellOf(s.limiter, a)) == 0)
  {
    var s0 := Server(INITIAL, []);
    var s := ServerRun(s0, es);
    assert ServerInv(s0) by {
      assert forall x: string :: RunningFor(s0, x) == Live(s0.limiter.tickets, x);
    }
    ServerRunKeepsInv(s0, es);
    ServerDrivesLimiter(s0, es);
    InitialInv(now);
    RunKeepsLimiterInv(INITIAL, CallsOf(s0, es), now);
    assert CountedFor(s.limiter, a);
    assert RunningFor(s, a) == Live(s.limiter.tickets, a);
    if forall i :: 0 <= i < |s.requests| && s.requests[i].account == a ==> !s.requests[i].phase.Running? {
      NoneLive(AsTickets(s.requests), a);
    }
  }

  /** After a reload with a cap, running handlers stay within the larger of the cap and their number then. */
  lemma HandlersStayWithinCap(s: Server, es: seq<ServerEvent>, a: string, now: int, cap: int)
    requires ServerInv(s) && LimiterInv(s.limiter, now) && LegalCalls(CallsOf(s, es), now)
    requires cap > 0 && EffectiveLimits(s.limiter.cfg, a).maxConcurrent == cap && UpdatesKeepCap(CallsOf(s, es), a, cap)
    ensures RunningFor(ServerRun(s, es), a) <= Max(RunningFor(s, a), cap)
  {
    ServerDrivesLimiter(s, es);
    ServerRunKeepsInv(s, es);
    AccountCap(s.limiter, CallsOf(s, es), a, now, cap);
    assert RunningFor(s, a) == Live(s.limiter.tickets, a);
    var s' := ServerRun(s, es);
    assert RunningFor(s', a) == Live(s'.limiter.tickets, a);
  }

  /** Handler itself, on the shared object. `meanwhile` is what the rest of the process does to the limiter
      while the next handler runs; it cannot call this request's own release closure. */
  method Handle(l: Limiter.Limiter, tickets: seq<Limiter.Ticket>, account: string, now: int,
                meanwhile: seq<Event>, panics: bool)
    returns (phase: Phase, response: Option<Response>)
    requires l.Valid() && tickets == l.issued
    requires account != "" ==>
               forall i :: 0 <= i < |meanwhile| && meanwhile[i].Release? ==> meanwhile[i].ticket != |tickets|
    modifies l, l.states, l.buckets, tickets
    ensures l.Valid()
    ensures account == "" ==> phase.Unlimited? && response.None? && l.model == Run(old(l.model), meanwhile).0
    ensures account != "" ==>
              var (v, o) := Acquired(old(l.model), now, account);
              if o.Rejected()
              then phase == Refused(o) && l.model == v
                   && response.Some? && response.value.status == 429 && response.value.connectionClose
                   && response.value.reason == (if o.TooManyConcurrent? then "concurrency" else "rate")
                   && response.value.error == RejectionMessage(account, o)
                   && response.value.retryAfter == HeaderSeconds(o.RetryAfter())
              else && phase == (if panics then Panicked else Served) && response.None?
                   && l.model == Returned(Run(v, meanwhile).0, |old(l.model).tickets|)
                   && |old(l.model).tickets| < |l.model.tickets|
                   && l.model.tickets[|old(l.model).tickets|] == TicketValue(account, true)
  {
    response := None;
    if account == "" {
      var rest := Others(l, tickets, meanwhile);
      return Unlimited, None;
    }
    var ticket, o := l.Acquire(account, now);
    if ticket == null {
      var r := WriteRejection(account, o);
      return Refused(o), Some(r);
    }
    Serve(l, tickets, ticket, meanwhile);
    phase := if panics then Panicked else Served;
  }

  /** The next handler of an admitted request runs, and then its slot is released, however it ended. */
  method Serve(l: Limiter.Limiter, tickets: seq<Limiter.Ticket>, ticket: Limiter.Ticket, meanwhile: seq<Event>)
    requires l.Valid() && l.issued == tickets + [ticket]
    requires forall i :: 0 <= i < |meanwhile| && meanwhile[i].Release? ==> meanwhile[i].ticket != |tickets|
    modifies l, l.states, l.buckets, tickets, ticket
    ensures l.Valid()
    ensures l.model == Returned(Run(old(l.model), meanwhile).0, |tickets|)
    ensures |tickets| < |l.model.tickets| && l.model.tickets[|tickets|] == TicketValue(ticket.account, true)
  {
    KeepsTicket(l.model, meanwhile, |tickets|);
    var rest := Others(l, tickets + [ticket], meanwhile);
    assert rest[|tickets|] == ticket;
    assert l.issued[|tickets|].number == |tickets|;
    l.Release(ticket);
  }

  lemma {:induction false} ServerRunAppends(s: Server, es: seq<ServerEvent>, fs: seq<ServerEvent>)
    ensures ServerRun(s, es + fs) == ServerRun(ServerRun(s, es), fs)
    decreases |es|
  {
    if es == [] {
      assert es + fs == fs;
    } else {
      assert (es + fs)[0] == es[0] && (es + fs)[1..] == es[1..] + fs;
      ServerRunAppends(ServerStep(s, es[0]), es[1..], fs);
    }
  }

  lemma {:induction false} KeepsRequest(s: Server, es: seq<ServerEvent>, n: nat)
    requires n < |s.requests| && forall i :: 0 <= i < |es| && es[i].End? ==> es[i].request != n
    ensures n < |ServerRun(s, es).requests| && ServerRun(s, es).requests[n] == s.requests[n]
    decreases |es|
  {
    if es != [] {
      KeepsRequest(ServerStep(s, es[0]), es[1..], n);
    }
  }

  /** Method Handle is a run of this machine: its request arrives, whatever else happens meanwhile, and it ends. The
      limiter and the request end up as Handle's contract says. */
  lemma HandleIsARun(s: Server, now: int, account: string, meanwhile: seq<ServerEvent>, panics: bool)
    requires forall i :: 0 <= i < |meanwhile| && meanwhile[i].End? ==> meanwhile[i].request != |s.requests|
    ensures var n, s1 := |s.requests|, ServerStep(s, Arrive(now, account));
            var s' := ServerRun(s, [Arrive(now, account)] + (meanwhile + [End(n, panics)]));
            var (v, o) := Acquired(s.limiter, now, account);
            var calls := CallsOf(s1, meanwhile);
            && n < |s'.requests| && s'.requests[n].account == account
            && (account == "" ==> s'.requests[n].phase.Unlimited? && s'.limiter == Run(s.limiter, calls).0)
            && (account != "" && o.Rejected() ==>
                  s'.requests[n].phase == Refused(o) && s'.limiter == Run(v, calls).0)
            && (account != "" && !o.Rejected() ==>
                  && s'.requests[n].phase == (if panics then Panicked else Served)
                  && s'.limiter == Returned(Run(v, calls).0, |s.limiter.tickets|))
  {
    var n, s1 := |s.requests|, ServerStep(s, Arrive(now, account));
    var rest := meanwhile + [End(n, panics)];
    assert ([Arrive(now, account)] + rest)[0] == Arrive(now, account) && ([Arrive(now, account)] + rest)[1..] == rest;
    KeepsRequest(s1, meanwhile, n);
    ServerDrivesLimiter(s1, meanwhile);
    ServerRunAppends(s1, meanwhile, [End(n, panics)]);
    assert [End(n, panics)][1..] == [];
  }

  function AsSet(tickets: seq<Limiter.Ticket>): set<Limiter.Ticket> {
    set t | t in tickets
  }

  method Others(l: Limiter.Limiter, tickets: seq<Limiter.Ticket>, es: seq<Event>)
    returns (tickets': seq<Limiter.Ticket>)
    requires l.Valid() && tickets == l.issued
    modifies l, l.states, l.buckets, tickets
    ensures l.Valid() && tickets' == l.issued && tickets <= tickets'
    ensures fresh(l.states - old(l.states)) && fresh(l.buckets - old(l.buckets))
    ensures l.model == Run(old(l.model), es).0
  {
    tickets' := tickets;
    ghost var start := l.model;
    assert es[0..] == es;
    for k := 0 to |es|
      invariant l.Valid() && tickets' == l.issued && tickets <= tickets'
      invariant fresh(l.states - old(l.states)) && fresh(l.buckets - old(l.buckets))
      invariant fresh(AsSet(tickets') - AsSet(tickets))
      invariant Run(start, es).0 == Run(l.model, es[k..]).0
    {
      var outcome;
      outcome, tickets' := Limiter.Perform(l, es[k], tickets');
      assert es[k..][1..] == es[k + 1..];
    }
  }

  /** A ticket nobody releases stays unreleased. */
  lemma {:induction false} KeepsTicket(v: LimiterValue, es: seq<Event>, k: nat)
    requires k < |v.tickets| && forall i :: 0 <= i < |es| && es[i].Release? ==> es[i].ticket != k
    ensures |Run(v, es).0.tickets| > k && Run(v, es).0.tickets[k] == v.tickets[k]
    decreases |es|
  {
    if es != [] {
      KeepsTicket(Step(v, es[0]).0, es[1..], k);
    }
  }
}
