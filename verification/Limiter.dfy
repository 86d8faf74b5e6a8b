/** internal/ratelimit/limiter.go in its own form: shared mutable state, one method per critical section. */
module Limiter {
  import opened Common
  import opened RateConfig
  import TokenBucket
  import AccountMachine
  import opened LimiterSpec

  type Outcome = AccountMachine.Outcome

  /** rate.Limiter of golang.org/x/time/rate. `lastEvent` is the latest time a reservation may act. */
  class Bucket {
    ghost const account: string
    var rpm: int
    var burst: int
    var tokens: int
    var last: int
    var lastEvent: int

    function Value(): TokenBucket.BucketValue
      reads this
    {
      TokenBucket.BucketValue(rpm, burst, tokens, last)
    }

    constructor (ghost account: string, rpm: int, burst: int)
      ensures this.account == account && Value() == TokenBucket.Fresh(rpm, burst)
    {
      this.account := account;
      this.rpm, this.burst, tokens, last, lastEvent := rpm, burst, burst * TokenBucket.TOKEN, 0, 0;
    }

    method Advance(t: int) returns (available: int)
      ensures available == TokenBucket.Level(Value(), t)
    {
      var since := last;
      if t < since {
        since := t;
      }
      available := tokens + TokenBucket.Accrued(rpm, t - since);
      if available > burst * TokenBucket.TOKEN {
        available := burst * TokenBucket.TOKEN;
      }
    }

    method ReserveOne(t: int) returns (r: TokenBucket.Reservation)
      modifies this
      ensures (r, Value()) == TokenBucket.Reserve(old(Value()), t)
      ensures lastEvent == if r.ok then r.timeToAct else old(lastEvent)
    {
      var available := Advance(t);
      available := available - TokenBucket.TOKEN;
      var wait := 0;
      if available < 0 {
        wait := TokenBucket.NanosFor(rpm, -available);
      }
      if 1 <= burst && wait <= TokenBucket.INF_DURATION {
        r := TokenBucket.Reservation(true, rpm, t + wait);
        last, tokens, lastEvent := t, available, r.timeToAct;
      } else {
        r := TokenBucket.Reservation(false, rpm, 0);
      }
    }

    method CancelAt(r: TokenBucket.Reservation, t: int)
      modifies this
      ensures Value() == TokenBucket.Cancel(old(Value()), r, old(lastEvent), t)
      ensures lastEvent == if r.ok && t <= r.timeToAct == old(lastEvent) && t <= TokenBucket.EventBefore(r)
                           then TokenBucket.EventBefore(r) else old(lastEvent)
    {
      if !r.ok || r.timeToAct < t {
        return;
      }
      var restore := TokenBucket.TOKEN - TokenBucket.Accrued(r.rpm, lastEvent - r.timeToAct);
      if restore <= 0 {
        return;
      }
      var available := Advance(t);
      available := available + restore;
      if available > burst * TokenBucket.TOKEN {
        available := burst * TokenBucket.TOKEN;
      }
      last, tokens := t, available;
      if r.timeToAct == lastEvent {
        var previous := r.timeToAct + TokenBucket.NanosFor(r.rpm, -TokenBucket.TOKEN);
        if previous >= t {
          lastEvent := previous;
        }
      }
    }

    method SetLimitAt(t: int, newRpm: int)
      modifies this
      ensures Value() == TokenBucket.SetLimit(old(Value()), t, newRpm)
    {
      var available := Advance(t);
      last, tokens, rpm := t, available, newRpm;
    }

    method SetBurstAt(t: int, newBurst: int)
      modifies this
      ensures Value() == TokenBucket.SetBurst(old(Value()), t, newBurst)
    {
      var available := Advance(t);
      last, tokens, burst := t, available, newBurst;
    }
  }

  class AccountState {
    ghost const account: string
    var inflight: int
    var rate: Bucket?

    function EntryOf(): AccountMachine.Entry
      reads this, rate
    {
      AccountMachine.Entry(inflight, if rate == null then None else Some(rate.Value()))
    }

    /** The state of account `a`, with its own bucket, and value e. */
    ghost predicate Holds(a: string, e: AccountMachine.Entry)
      reads this, rate
    {
      account == a && (rate != null ==> rate.account == a) && EntryOf() == e
    }

    constructor (ghost account: string)
      ensures this.account == account && inflight == 0 && rate == null
    {
      this.account, inflight, rate := account, 0, null;
    }

    method ApplyRate(limits: Limits, now: int)
      modifies this`rate, rate
      ensures EntryOf().bucket == AccountMachine.ApplyRate(limits, old(EntryOf()).bucket, now)
      ensures rate == null || rate == old(rate) || (fresh(rate) && rate.account == account)
    {
      if limits.requestsPerMinute == 0 {
        rate := null;
        return;
      }
      if rate == null {
        rate := new Bucket(account, limits.requestsPerMinute, limits.burst);
        return;
      }
      rate.SetLimitAt(now, limits.requestsPerMinute);
      rate.SetBurstAt(now, limits.burst);
    }

    /** Both checks of Acquire; the slot is taken only after both pass. */
    method TryEnter(limits: Limits, now: int) returns (o: Outcome)
      modifies this`inflight, rate
      ensures (EntryOf(), o) == AccountMachine.Decide(limits, old(EntryOf()), now)
      ensures o.TooManyConcurrent? <==> 0 < limits.maxConcurrent <= old(inflight)
      ensures inflight == if o.Admitted? then old(inflight) + 1 else old(inflight)
    {
      if limits.maxConcurrent > 0 && inflight >= limits.maxConcurrent {
        return AccountMachine.TooManyConcurrent(limits.maxConcurrent);
      }
      if rate != null {
        var r := rate.ReserveOne(now);
        var delay := TokenBucket.DelayFrom(r, now);
        if !r.ok || delay > 0 {
          rate.CancelAt(r, now);
          return AccountMachine.TooFast(limits.requestsPerMinute, delay);
        }
      }
      inflight := inflight + 1;
      o := AccountMachine.Admitted;
    }
  }

  /** The release closure of one Acquire: it captures the state object, and `used` is its sync.Once. */
  class Ticket {
    const account: string
    const st: AccountState
    ghost const number: nat
    var used: bool

    constructor (account: string, st: AccountState, ghost number: nat)
      ensures this.account == account && this.st == st && this.number == number && !used
    {
      this.account, this.st, this.number, used := account, st, number, false;
    }
  }

  /** These closures, in order, are those values. */
  ghost predicate TicketsMatch(ts: seq<Ticket>, vs: seq<TicketValue>)
    reads ts
  {
    && |vs| == |ts|
    && (forall i :: 0 <= i < |ts| ==> ts[i].number == i)
    && (forall i :: 0 <= i < |ts| ==> vs[i] == TicketValue(ts[i].account, ts[i].used))
  }

  lemma TicketsMatchOneMore(ts: seq<Ticket>, vs: seq<TicketValue>, t: Ticket)
    requires TicketsMatch(ts, vs) && t.number == |ts|
    ensures TicketsMatch(ts + [t], vs + [TicketValue(t.account, t.used)])
  {
  }

  /** The state each unreleased closure captured is the one in the map. */
  ghost predicate CapturedIn(ts: seq<Ticket>, m: map<string, AccountState>)
    reads ts
  {
    forall i :: 0 <= i < |ts| && !ts[i].used ==> ts[i].account in m && m[ts[i].account] == ts[i].st
  }

  lemma CapturedInOneMore(ts: seq<Ticket>, m: map<string, AccountState>, t: Ticket)
    requires CapturedIn(ts, m) && t.account in m && m[t.account] == t.st
    ensures CapturedIn(ts + [t], m)
  {
  }

  lemma CapturedInMore(ts: seq<Ticket>, m: map<string, AccountState>, more: map<string, AccountState>)
    requires CapturedIn(ts, m) && forall a :: a in m ==> a in more && more[a] == m[a]
    ensures CapturedIn(ts, more)
  {
  }

  class Limiter {
    var cfg: Option<Config>
    var allowed: Option<set<string>>
    var accounts: map<string, AccountState>
    ghost var issued: seq<Ticket>          // every closure handed out
    ghost var gauge: map<string, int>      // last value published per account
    ghost var model: LimiterValue          // the state as a value
    ghost var states: set<AccountState>
    ghost var buckets: set<Bucket>

    /** Accounts share neither states nor buckets, and `model` is what they hold. */
    ghost predicate AccountsTied()
      reads this, states, buckets
    {
      AccountsTiedBut(None)
    }

    /** The same, of all accounts but one. */
    ghost predicate AccountsTiedBut(but: Option<string>)
      reads this, states, buckets
    {
      model.cfg == cfg && model.allowed == allowed && AccountsHold(model.accounts, but)
    }

    /** All accounts but one hold these entries, in states and buckets of their own. */
    ghost predicate AccountsHold(entries: map<string, AccountMachine.Entry>, but: Option<string>)
      reads this`accounts, this`states, this`buckets, states, buckets
    {
      && entries.Keys == accounts.Keys
      && (forall a :: a in accounts ==> accounts[a] in states)
      && (forall a :: a in accounts && Some(a) != but ==>
            (accounts[a].rate != null ==> accounts[a].rate in buckets) && accounts[a].Holds(a, entries[a]))
    }

    /** All accounts but one, tied within these states and buckets: what a change to that one's cannot touch. */
    ghost predicate OthersTied(but: string, others: set<AccountState>, theirs: set<Bucket>)
      reads this, others, theirs
    {
      && others <= states && theirs <= buckets
      && model.cfg == cfg && model.allowed == allowed
      && model.accounts.Keys == accounts.Keys
      && (forall a :: a in accounts && a != but ==>
            && accounts[a] in others && (accounts[a].rate != null ==> accounts[a].rate in theirs)
            && accounts[a].Holds(a, model.accounts[a]))
    }

    function OwnBucket(st: AccountState): set<Bucket>
      reads st
    {
      if st.rate == null then {} else {st.rate}
    }

    lemma Isolate(account: string, st: AccountState)
      requires AccountsTied() && account in accounts && accounts[account] == st
      ensures OthersTied(account, states - {st}, buckets - OwnBucket(st))
      ensures st.Holds(account, model.accounts[account]) && st in states
    {
      forall a | a in accounts && a != account
        ensures accounts[a] in states - {st}
        ensures accounts[a].rate != null ==> accounts[a].rate in buckets - OwnBucket(st)
      {
        assert accounts[a].Holds(a, model.accounts[a]) && st.Holds(account, model.accounts[account]);
      }
    }

    lemma Rejoin(account: string, st: AccountState, others: set<AccountState>, theirs: set<Bucket>)
      requires OthersTied(account, others, theirs) && account in accounts && accounts[account] == st && st in states
      ensures AccountsTiedBut(Some(account))
    {
    }

    /** Bring `model` in line with the one account whose state changed. */
    ghost method Sync(account: string, st: AccountState)
      requires AccountsTiedBut(Some(account)) && account in accounts && accounts[account] == st
      requires st.account == account && (st.rate != null ==> st.rate.account == account)
      modifies this`model, this`buckets
      ensures AccountsTied()
      ensures buckets == if st.rate == null then old(buckets) else old(buckets) + {st.rate}
      ensures model == old(model).(accounts := old(model).accounts[account := st.EntryOf()])
    {
      if st.rate != null {
        buckets := buckets + {st.rate};
      }
      model := model.(accounts := model.accounts[account := st.EntryOf()]);
    }

    ghost predicate TicketsTied()
      reads this`model, this`gauge, this`issued, issued
    {
      model.gauge == gauge && TicketsMatch(issued, model.tickets)
    }

    /** No orphans: the state an unreleased ticket captured is the one in the map. */
    ghost predicate NoOrphans()
      reads this`accounts, this`issued, issued
    {
      CapturedIn(issued, accounts)
    }

    ghost predicate Valid()
      reads this, states, buckets, issued
    {
      AccountsTied() && TicketsTied() && NoOrphans() && WellCounted(model)
    }

    constructor ()
      ensures Valid() && fresh(states) && fresh(buckets)
      ensures model == INITIAL && issued == []
    {
      cfg, allowed, accounts := None, None, map[];
      issued, gauge, model, states, buckets := [], map[], INITIAL, {}, {};
      new;
      InitialInv(0);
    }

    method LimitsOf(account: string) returns (limits: Limits)
      ensures limits == EffectiveLimits(cfg, account)
    {
      limits := UNLIMITED;
      if cfg.Some? {
        limits := For(cfg.value, account);
      }
    }

    method Acquire(account: string, now: int) returns (ticket: Ticket?, o: Outcome)
      requires Valid()
      modifies this, states, buckets
      ensures Valid() && fresh(states - old(states)) && fresh(buckets - old(buckets))
      ensures (model, o) == Acquired(old(model), now, account)
      ensures o.TooManyConcurrent? <==>
              0 < EffectiveLimits(cfg, account).maxConcurrent <= Live(old(model).tickets, account)
      ensures ticket != null <==> o.Admitted?
      ensures ticket != null ==> fresh(ticket)
      ensures issued == if ticket == null then old(issued) else old(issued) + [ticket]
    {
      var st;
      st, o := Decide(account, now);
      ticket := null;
      if o.Admitted? {
        ticket := Admit(account, st);
      }
      assert model == Acquired(old(model), now, account).0;
      CountKept(old(model), LimiterSpec.Acquire(now, account), model);
      RefusedAtCap(old(model), now, account);
    }

    /** Acquire up to its verdict: look the state up or create it, and apply both checks. */
    method Decide(account: string, now: int) returns (st: AccountState, o: Outcome)
      requires AccountsTied() && NoOrphans()
      modifies this`accounts, this`model, this`states, this`buckets, states, buckets
      ensures AccountsTied() && NoOrphans() && fresh(states - old(states)) && fresh(buckets - old(buckets))
      ensures account in accounts && accounts[account] == st
      ensures var limits := EffectiveLimits(cfg, account);
              var e := AccountMachine.Ensured(limits, Lookup(old(model).accounts, account), now);
              var d := AccountMachine.Decide(limits, e, now);
              model == old(model).(accounts := old(model).accounts[account := d.0]) && o == d.1
    {
      st, o := Judge(account, now);
      CapturedInMore(issued, old(accounts), accounts);
    }

    method Judge(account: string, now: int) returns (st: AccountState, o: Outcome)
      requires AccountsTied()
      modifies this`accounts, this`model, this`states, this`buckets, states, buckets
      ensures AccountsTied() && fresh(states - old(states)) && fresh(buckets - old(buckets))
      ensures account in accounts && accounts[account] == st
      ensures forall a :: a in old(accounts) ==> a in accounts && accounts[a] == old(accounts)[a]
      ensures var limits := EffectiveLimits(cfg, account);
              var e := AccountMachine.Ensured(limits, Lookup(old(model).accounts, account), now);
              var d := AccountMachine.Decide(limits, e, now);
              model == old(model).(accounts := old(model).accounts[account := d.0]) && o == d.1
    {
      var limits := LimitsOf(account);
      st := StateFor(account, limits, now);
      ghost var e := model.accounts[account];
      o := Enter(account, st, limits, now);
      SecondUpdateWins(old(model).accounts, account, e, model.accounts[account]);
    }

    /** The account's state, created on first use. */
    method StateFor(account: string, limits: Limits, now: int) returns (st: AccountState)
      requires AccountsTied()
      modifies this`accounts, this`model, this`states, this`buckets
      ensures AccountsTied() && fresh(states - old(states)) && fresh(buckets - old(buckets))
      ensures account in accounts && accounts[account] == st
      ensures forall a :: a in old(accounts) ==> a in accounts && accounts[a] == old(accounts)[a]
      ensures var e := AccountMachine.Ensured(limits, Lookup(old(model).accounts, account), now);
              model == old(model).(accounts := old(model).accounts[account := e])
    {
      if account in accounts {
        st := accounts[account];
        assert model.accounts[account := model.accounts[account]] == model.accounts;
      } else {
        st := new AccountState(account);
        st.ApplyRate(limits, now);
        Insert(account, st);
      }
    }

    method Insert(account: string, st: AccountState)
      requires AccountsTied() && account !in accounts
      requires st.account == account && (st.rate != null ==> st.rate.account == account)
      modifies this`accounts, this`model, this`states, this`buckets
      ensures AccountsTied()
      ensures states == old(states) + {st}
      ensures buckets == if st.rate == null then old(buckets) else old(buckets) + {st.rate}
      ensures accounts == old(accounts)[account := st]
      ensures model == old(model).(accounts := old(model).accounts[account := st.EntryOf()])
    {
      accounts := accounts[account := st];
      states := states + {st};
      model := model.(accounts := model.accounts[account := st.EntryOf()]);
      Sync(account, st);
    }

    method Enter(account: string, st: AccountState, limits: Limits, now: int) returns (o: Outcome)
      requires AccountsTied() && account in accounts && accounts[account] == st
      modifies this`model, this`buckets, st`inflight, st.rate
      ensures buckets == old(buckets)
      ensures AccountsTied()
      ensures var d := AccountMachine.Decide(limits, old(model).accounts[account], now);
              o == d.1 && model == old(model).(accounts := old(model).accounts[account := d.0])
    {
      Isolate(account, st);
      ghost var others, theirs := states - {st}, buckets - OwnBucket(st);
      o := st.TryEnter(limits, now);
      Rejoin(account, st, others, theirs);
      Sync(account, st);
    }

    /** What Acquire does for an admitted request: publish the count, and hand out a release closure. */
    method Admit(account: string, st: AccountState) returns (ticket: Ticket)
      requires AccountsTied() && TicketsTied() && NoOrphans() && account in accounts && accounts[account] == st
      modifies this`issued, this`model, this`gauge
      ensures AccountsTied() && TicketsTied() && NoOrphans() && fresh(ticket) && issued == old(issued) + [ticket]
      ensures model == old(model).(tickets := old(model).tickets + [TicketValue(account, false)],
                                   gauge := old(model).gauge[account := st.inflight])
    {
      Publish(account, st.inflight);
      ticket := Issue(account, st);
    }

    method Issue(account: string, st: AccountState) returns (ticket: Ticket)
      requires AccountsTied() && TicketsTied() && NoOrphans() && account in accounts && accounts[account] == st
      modifies this`issued, this`model
      ensures AccountsTied() && TicketsTied() && NoOrphans() && fresh(ticket) && issued == old(issued) + [ticket]
      ensures model == old(model).(tickets := old(model).tickets + [TicketValue(account, false)])
    {
      ticket := new Ticket(account, st, |issued|);
      RecordTicket(ticket);
    }

    ghost method RecordTicket(ticket: Ticket)
      requires AccountsTied() && TicketsTied() && NoOrphans() && ticket.number == |issued| && !ticket.used
      requires ticket.account in accounts && accounts[ticket.account] == ticket.st
      modifies this`issued, this`model
      ensures AccountsTied() && TicketsTied() && NoOrphans() && issued == old(issued) + [ticket]
      ensures model == old(model).(tickets := old(model).tickets + [TicketValue(ticket.account, false)])
    {
      TicketsMatchOneMore(issued, model.tickets, ticket);
      CapturedInOneMore(issued, accounts, ticket);
      issued := issued + [ticket];
      model := model.(tickets := model.tickets + [TicketValue(ticket.account, false)]);
    }

    /** Calling a release closure; every call after the first does nothing. */
    method Release(ticket: Ticket)
      requires Valid()
      requires ticket.number < |issued| && issued[ticket.number] == ticket
      modifies this`accounts, this`gauge, this`model, this`buckets, ticket`used, states`inflight
      ensures buckets == old(buckets)
      ensures Valid()
      ensures ticket.used
      ensures model == Returned(old(model), ticket.number)
    {
      if ticket.used {
        return;
      }
      StepKeepsCount(model, LimiterSpec.Release(ticket.number));
      ReleaseOnce(ticket);
      LiveTicketsStayInMap();
    }

    method ReleaseOnce(ticket: Ticket)
      requires AccountsTied() && TicketsTied() && NoOrphans()
      requires ticket.number < |issued| && issued[ticket.number] == ticket && !ticket.used
      modifies this`accounts, this`gauge, this`model, this`buckets, ticket`used, states`inflight
      ensures AccountsTied() && TicketsTied() && ticket.used && buckets == old(buckets)
      ensures accounts == old(accounts) || accounts == old(accounts) - {ticket.account}
      ensures model == Returned(old(model), ticket.number)
      ensures forall k :: k in issued && !k.used ==> !old(k.used)
    {
      ReturnedIs(model, ticket.number);
      MarkUsed(ticket);
      ReleaseSlot(ticket.account, ticket.st);
    }

    method ReleaseSlot(account: string, st: AccountState)
      requires AccountsTied() && TicketsTied() && account in accounts && accounts[account] == st
      modifies this`accounts, this`gauge, this`model, this`buckets, st`inflight
      ensures AccountsTied() && TicketsTied() && buckets == old(buckets)
      ensures accounts == old(accounts) || accounts == old(accounts) - {account}
      ensures account in old(model).accounts && model == SlotReturned(old(model), account)
    {
      GiveBack(account, st);
      assert TicketsTied();
      Publish(account, st.inflight);
    }

    method MarkUsed(ticket: Ticket)
      requires AccountsTied() && TicketsTied() && NoOrphans()
      requires ticket.number < |issued| && issued[ticket.number] == ticket && !ticket.used
      modifies this`model, ticket`used
      ensures AccountsTied() && TicketsTied() && NoOrphans() && ticket.used
      ensures ticket.number < |old(model).tickets| && model == Marked(old(model), ticket.number)
      ensures forall k :: k in issued && !k.used ==> !old(k.used)
    {
      ticket.used := true;
      model := model.(tickets := model.tickets[ticket.number := TicketValue(ticket.account, true)]);
    }

    ghost method Publish(account: string, inflight: int)
      requires AccountsTied() && TicketsTied()
      modifies this`model, this`gauge
      ensures AccountsTied() && TicketsTied()
      ensures model == old(model).(gauge := old(model).gauge[account := inflight])
    {
      gauge := gauge[account := inflight];
      model := model.(gauge := gauge);
    }

    /** release: the identity guard compares the captured state with the one in the map. */
    method GiveBack(account: string, st: AccountState)
      requires AccountsTied() && account in accounts && accounts[account] == st
      modifies this`accounts, this`model, this`buckets, st`inflight
      ensures AccountsTied() && buckets == old(buckets) && st.inflight == old(st.inflight) - 1
      ensures accounts == old(accounts) || accounts == old(accounts) - {account}
      ensures var e := old(model).accounts[account].(inflight := st.inflight);
              var kept := old(model).accounts[account := e];
              st.inflight == old(model).accounts[account].inflight - 1
              && model == old(model).(accounts :=
                   if e.inflight == 0 && ListingOf(allowed, account).Unlisted? then kept - {account} else kept)
    {
      Decrement(account, st);
      if st.inflight == 0 && allowed.Some? && account !in allowed.value
         && account in accounts && accounts[account] == st {
        Drop(account);
      }
    }

    method Decrement(account: string, st: AccountState)
      requires AccountsTied() && account in accounts && accounts[account] == st
      modifies this`model, this`buckets, st`inflight
      ensures AccountsTied() && buckets == old(buckets)
      ensures var e := old(model).accounts[account];
              model == old(model).(accounts := old(model).accounts[account := e.(inflight := e.inflight - 1)])
    {
      ghost var e := model.accounts[account];
      Isolate(account, st);
      ghost var others, theirs := states - {st}, buckets - OwnBucket(st);
      st.inflight := st.inflight - 1;
      Rejoin(account, st, others, theirs);
      assert st.EntryOf() == e.(inflight := e.inflight - 1);
      Sync(account, st);
    }

    /** When the counts add up, an unreleased ticket's account still has its state. */
    twostate lemma LiveTicketsStayInMap()
      requires old(NoOrphans())
      requires AccountsTied() && TicketsTied() && issued == old(issued) && WellCounted(model)
      requires forall a :: a in accounts ==> a in old(accounts) && accounts[a] == old(accounts)[a]
      requires forall k :: k in issued && !k.used ==> !old(k.used)
      ensures NoOrphans()
    {
      forall i | 0 <= i < |issued| && !issued[i].used
        ensures issued[i].account in accounts && accounts[issued[i].account] == issued[i].st
      {
        LiveAtLeastOne(model.tickets, i);
        assert CountedFor(model, issued[i].account);
      }
    }

    method Update(newCfg: Option<Config>, newAllowed: Option<set<string>>, now: int)
      requires Valid()
      modifies this, states, buckets
      ensures Valid() && fresh(states - old(states)) && fresh(buckets - old(buckets)) && issued == old(issued)
      ensures model == Updated(old(model), now, newCfg, newAllowed)
    {
      StepKeepsCount(model, LimiterSpec.Update(now, newCfg, newAllowed));
      Swap(newCfg, newAllowed, now);
      LiveTicketsStayInMap();
    }

    /** Everything Update does to the limiter. */
    method Swap(newCfg: Option<Config>, newAllowed: Option<set<string>>, now: int)
      requires AccountsTied()
      modifies this`cfg, this`allowed, this`accounts, this`model, this`buckets, states, buckets
      ensures AccountsTied() && (forall b :: b in buckets ==> b in old(buckets) || fresh(b))
      ensures forall a :: a in accounts ==> a in old(accounts) && accounts[a] == old(accounts)[a]
      ensures model == Updated(old(model), now, newCfg, newAllowed)
    {
      cfg, allowed := newCfg, newAllowed;
      model := model.(cfg := newCfg, allowed := newAllowed);
      ReloadAll(now);
      UpdatedIs(old(model), now, newCfg, newAllowed, model.accounts);
    }

    /** Update's loop: afterwards every entry is dropped or re-rated, once. */
    method ReloadAll(now: int)
      requires AccountsTied()
      modifies this`accounts, this`model, this`buckets, states, buckets
      ensures AccountsTied() && (forall b :: b in buckets ==> b in old(buckets) || fresh(b))
      ensures forall a :: a in accounts ==> a in old(accounts) && accounts[a] == old(accounts)[a]
      ensures model == old(model).(accounts := model.accounts)
      ensures ReloadedBut(old(model).accounts, {}, model.accounts, cfg, allowed, now)
    {
      ghost var states0, before := accounts, model.accounts;
      var todo := accounts.Keys;
      while todo != {}
        invariant AccountsTied() && (forall b :: b in buckets ==> b in old(buckets) || fresh(b))
        invariant model == old(model).(accounts := model.accounts)
        invariant todo <= accounts.Keys
        invariant forall a :: a in accounts ==> a in states0 && accounts[a] == states0[a]
        invariant ReloadedBut(before, todo, model.accounts, cfg, allowed, now)
        decreases todo
      {
        var account :| account in todo;
        UpdateOne(account, now, before, todo);
        todo := todo - {account};
      }
    }

    /** The body of Update's loop: drop idle state of an account off the list, re-rate any other. */
    method UpdateOne(account: string, now: int,
                     ghost before: map<string, AccountMachine.Entry>, ghost todo: set<string>)
      requires AccountsTied() && account in accounts && account in todo
      requires ReloadedBut(before, todo, model.accounts, cfg, allowed, now)
      modifies this`accounts, this`model, this`buckets, accounts[account], accounts[account].rate
      ensures AccountsTied() && (forall b :: b in buckets ==> b in old(buckets) || fresh(b))
      ensures accounts == old(accounts) || accounts == old(accounts) - {account}
      ensures model == old(model).(accounts := model.accounts)
      ensures ReloadedBut(before, todo - {account}, model.accounts, cfg, allowed, now)
    {
      DropOrReRate(account, now);
      OneMoreReloaded(before, todo, old(model).accounts, account, model.accounts, cfg, allowed, now);
    }

    method DropOrReRate(account: string, now: int)
      requires AccountsTied() && account in accounts
      modifies this`accounts, this`model, this`buckets, accounts[account], accounts[account].rate
      ensures AccountsTied() && fresh(buckets - old(buckets))
      ensures accounts == old(accounts) || accounts == old(accounts) - {account}
      ensures account in old(model).accounts
      ensures var m := old(model).accounts;
              var e := ReloadedEntry(cfg, allowed, account, m[account], now);
              model == old(model).(accounts := if e.Some? then m[account := e.value] else m - {account})
    {
      var st := accounts[account];
      assert st.Holds(account, model.accounts[account]);
      if (allowed.None? || account !in allowed.value) && st.inflight == 0 {
        Drop(account);
      } else {
        ReRate(account, st, now);
      }
    }

    method Drop(account: string)
      requires AccountsTied()
      modifies this`accounts, this`model
      ensures AccountsTied()
      ensures accounts == old(accounts) - {account}
      ensures model == old(model).(accounts := old(model).accounts - {account})
    {
      accounts := accounts - {account};
      model := model.(accounts := model.accounts - {account});
    }

    method ReRate(account: string, st: AccountState, now: int)
      requires AccountsTied() && account in accounts && accounts[account] == st
      modifies this`model, this`buckets, st`rate, st.rate
      ensures AccountsTied() && fresh(buckets - old(buckets))
      ensures var e := old(model).accounts[account];
              model == old(model).(accounts := old(model).accounts[account :=
                e.(bucket := AccountMachine.ApplyRate(EffectiveLimits(cfg, account), e.bucket, now))])
    {
      var limits := LimitsOf(account);
      ReRateState(account, st, limits, now);
      Sync(account, st);
    }

    method ReRateState(account: string, st: AccountState, limits: Limits, now: int)
      requires AccountsTied() && account in accounts && accounts[account] == st
      modifies st`rate, st.rate
      ensures AccountsTiedBut(Some(account))
      ensures st.account == account && (st.rate != null ==> st.rate.account == account)
      ensures st.rate != null ==> st.rate in buckets || fresh(st.rate)
      ensures account in model.accounts
      ensures var e := model.accounts[account];
              st.EntryOf() == e.(bucket := AccountMachine.ApplyRate(limits, e.bucket, now))
    {
      Isolate(account, st);
      ghost var others, theirs := states - {st}, buckets - OwnBucket(st);
      st.ApplyRate(limits, now);
      Rejoin(account, st, others, theirs);
    }
  }

  lemma RefusedAtCap(v: LimiterValue, now: int, account: string)
    requires WellCounted(v)
    ensures Acquired(v, now, account).1.TooManyConcurrent? <==>
            0 < EffectiveLimits(v.cfg, account).maxConcurrent <= Live(v.tickets, account)
  {
    assert CountedFor(v, account);
  }

  lemma CountKept(v: LimiterValue, e: Event, v': LimiterValue)
    requires WellCounted(v) && v' == Step(v, e).0
    ensures WellCounted(v')
  {
    StepKeepsCount(v, e);
  }

  function Marked(v: LimiterValue, i: nat): LimiterValue
    requires i < |v.tickets|
  {
    v.(tickets := v.tickets[i := TicketValue(v.tickets[i].account, true)])
  }

  function SlotReturned(v: LimiterValue, account: string): LimiterValue
    requires account in v.accounts
  {
    var e := v.accounts[account].(inflight := v.accounts[account].inflight - 1);
    var kept := v.accounts[account := e];
    v.(gauge := v.gauge[account := e.inflight],
       accounts := if e.inflight == 0 && ListingOf(v.allowed, account).Unlisted? then kept - {account} else kept)
  }

  /** Returned, in the order the method changes the state. */
  lemma ReturnedIs(v: LimiterValue, i: nat)
    requires i < |v.tickets| && !v.tickets[i].used && v.tickets[i].account in v.accounts
    ensures Returned(v, i) == SlotReturned(Marked(v, i), v.tickets[i].account)
  {
    var account := v.tickets[i].account;
    var e := v.accounts[account].(inflight := v.accounts[account].inflight - 1);
    assert v.accounts[account := e] - {account} == v.accounts - {account};
  }

  lemma SecondUpdateWins<T>(m: map<string, T>, account: string, x: T, y: T)
    ensures m[account := x][account := y] == m[account := y]
  {
  }

  lemma RunFrom(v: LimiterValue, es: seq<Event>, k: nat, os: seq<Outcome>)
    requires k < |es|
    ensures var (v', o) := Step(v, es[k]);
            Run(v, es[k..]).0 == Run(v', es[k + 1..]).0
            && os + Run(v, es[k..]).1 == (os + [o]) + Run(v', es[k + 1..]).1
  {
    assert es[k..][1..] == es[k + 1..];
  }

  /** Any interleaving of calls, made against the real objects, goes as the value-level run says. */
  method Replay(l: Limiter, es: seq<Event>) returns (os: seq<Outcome>)
    requires l.Valid() && l.issued == []
    modifies l, l.states, l.buckets
    ensures l.Valid()
    ensures (l.model, os) == Run(old(l.model), es)
  {
    os := [];
    ghost var start := l.model;
    assert es[0..] == es && [] + Run(start, es).1 == Run(start, es).1;
    var tickets: seq<Ticket> := [];
    for k := 0 to |es|
      invariant l.Valid() && tickets == l.issued
      invariant fresh(l.states - old(l.states)) && fresh(l.buckets - old(l.buckets)) && fresh(set t | t in tickets)
      invariant Run(start, es) == (Run(l.model, es[k..]).0, os + Run(l.model, es[k..]).1)
    {
      RunFrom(l.model, es, k, os);
      var o;
      o, tickets := Perform(l, es[k], tickets);
      os := os + [o];
    }
    assert es[|es|..] == [] && os + [] == os;
  }

  method Perform(l: Limiter, e: Event, tickets: seq<Ticket>) returns (o: Outcome, tickets': seq<Ticket>)
    requires l.Valid() && tickets == l.issued
    modifies l, l.states, l.buckets, tickets
    ensures l.Valid() && tickets' == l.issued && tickets <= tickets'
    ensures fresh(l.states - old(l.states)) && fresh(l.buckets - old(l.buckets))
    ensures forall t :: t in tickets' ==> t in tickets || fresh(t)
    ensures (l.model, o) == Step(old(l.model), e)
  {
    o, tickets' := AccountMachine.Done, tickets;
    match e {
      case Update(now, cfg, allowed) => l.Update(cfg, allowed, now);
      case Acquire(now, account) =>
        var ticket;
        ticket, o := l.Acquire(account, now);
        if ticket != null {
          tickets' := tickets + [ticket];
        }
      case Release(i) =>
        if i < |tickets| {
          l.Release(tickets[i]);
        }
    }
  }
}
