/** How deep in debt reloads can take one account: a run that changes its rate as often as it likes can add up
    what the rates leave over, and then owes up to the greatest rate less the divisor common to all of them. */
module RateChanges {
  import opened Common
  import opened Divisors
  import opened RateConfig
  import opened TokenBucket
  import opened AccountMachine
  import opened AccountRuns
  import opened AccountDebt

  /** Requests, and reloads that keep the account listed. */
  predicate Playable(es: seq<CellEvent>) {
    forall i :: 0 <= i < |es| ==> es[i].Ask? || (es[i].Reload? && es[i].listing.Listed?)
  }

  predicate RatesFrom(es: seq<CellEvent>, rates: set<nat>) {
    forall i :: 0 <= i < |es| && es[i].Reload? ==>
      es[i].limits.requestsPerMinute >= 0 && es[i].limits.requestsPerMinute in rates
  }

  /** A listed account with a rate, a burst of one, no cap, and state. */
  predicate Ready(c: Cell, t: int) {
    && CellInv(c, t) && c.listing.Listed? && c.entry.Some?
    && c.limits.maxConcurrent == 0 && c.limits.burst == 1 && c.limits.requestsPerMinute > 0
  }

  // ---- Runs after runs ----

  /** es leads from c at time t to c' at time t', with rates in the set. */
  ghost predicate Leads(c: Cell, t: int, es: seq<CellEvent>, c': Cell, t': int, rates: set<nat>) {
    && LegalRun(c, es, t) && EndTime(es, t) <= t' && CellRun(c, es).0 == c'
    && Playable(es) && RatesFrom(es, rates)
  }

  lemma LegalEarlier(c: Cell, es: seq<CellEvent>, t: int, t': int)
    requires Playable(es) && t <= t' && LegalRun(c, es, t')
    ensures LegalRun(c, es, t) && EndTime(es, t) <= EndTime(es, t')
  {
    assert es != [] ==> es[0].Ask? || es[0].Reload?;
  }

  lemma {:induction false} LeadsOn(c: Cell, t: int, es: seq<CellEvent>, c1: Cell, t1: int,
                                   fs: seq<CellEvent>, c2: Cell, t2: int, rates: set<nat>)
    requires Leads(c, t, es, c1, t1, rates) && Leads(c1, t1, fs, c2, t2, rates)
    ensures Leads(c, t, es + fs, c2, t2, rates)
    decreases |es|
  {
    if es == [] {
      assert es + fs == fs;
      LegalEarlier(c, fs, t, t1);
    } else {
      var all := es + fs;
      assert all[0] == es[0] && all[1..] == es[1..] + fs;
      LeadsOn(CellStep(c, es[0]).0, TimeOf(es[0], t), es[1..], c1, t1, fs, c2, t2, rates);
    }
  }

  lemma LeadsInMore(c: Cell, t: int, es: seq<CellEvent>, c': Cell, t': int, rates: set<nat>, more: set<nat>)
    requires Leads(c, t, es, c', t', rates) && rates <= more
    ensures Leads(c, t, es, c', t', more)
  {
  }

  lemma OneEventLeads(c: Cell, t: int, e: CellEvent, rates: set<nat>)
    requires LegalEvent(c, e, t) && Playable([e]) && RatesFrom([e], rates)
    ensures Leads(c, t, [e], CellStep(c, e).0, TimeOf(e, t), rates)
  {
    assert [e][1..] == [];
  }

  // ---- One stretch at one rate ----

  /** With a burst of one, a reload keeps the level, credit or debt, at any rate. */
  lemma ReloadKeepsLevel(c: Cell, t: int, rpm: int)
    requires Ready(c, t) && rpm > 0
    ensures var e := Reload(t, Limits(0, rpm, 1), Listed);
            var c' := CellStep(c, e).0;
            LegalEvent(c, e, t) && Ready(c', t) && c'.limits == Limits(0, rpm, 1) && CellLevel(c', t) == CellLevel(c, t)
  {
    var e := Reload(t, Limits(0, rpm, 1), Listed);
    StepKeepsCellInv(c, e, t);
    RateChangeKeepsEarnings(e.limits, c.entry.value.bucket.value, t, t);
    assert rpm * 0 == 0;
  }

  lemma SpendingLeads(c: Cell, t: int, n: nat, es: seq<CellEvent>, left: int, rpm: nat)
    requires Ready(c, t) && c.limits.requestsPerMinute == rpm && Spends(c, t, n, es, left, rpm)
    ensures var c' := CellRun(c, es).0;
            && Leads(c, t, es, c', t + n, {rpm}) && Ready(c', t + n) && CellLevel(c', t + n) == left
            && (left - CellLevel(c, t) - n * rpm) % TOKEN == 0
  {
    var admitted: int := Admissions(CellRun(c, es).1);
    MultipleOf(left - CellLevel(c, t) - n * rpm, TOKEN, -admitted);
  }

  /** A reload to a rate and n nanoseconds at it change the level by n * rpm, up to whole tokens, and leave no more
      than TOKEN - rpm. */
  lemma Stretch(c: Cell, t: int, n: nat, rpm: nat) returns (es: seq<CellEvent>, c': Cell)
    requires Ready(c, t) && rpm > 0
    ensures Leads(c, t, es, c', t + n, {rpm}) && Ready(c', t + n)
    ensures (CellLevel(c', t + n) - CellLevel(c, t) - n * rpm) % TOKEN == 0
    ensures CellLevel(c', t + n) + rpm <= TOKEN
    ensures CellLevel(c, t) + n * rpm >= 0 ==> 0 < CellLevel(c', t + n) + rpm
  {
    var e := Reload(t, Limits(0, rpm, 1), Listed);
    var c1 := CellStep(c, e).0;
    ReloadKeepsLevel(c, t, rpm);
    OneEventLeads(c, t, e, {rpm});
    var asks, left := Greedy(c1, t, n, rpm, 1);
    SpendingLeads(c1, t, n, asks, left, rpm);
    c' := CellRun(c1, asks).0;
    es := [e] + asks;
    LeadsOn(c, t, [e], c1, t, asks, c', t + n, {rpm});
  }

  // ---- Any multiple of the common divisor ----

  lemma Associate(a: int, b: int, c: int)
    ensures a * (b * c) == (a * b) * c
  {
  }

  /** How long at rate x, if reloads also use rates whose divisor with TOKEN is g, and what is left of d for those. */
  lemma Share(d: int, g: nat, x: nat, level: int) returns (n: nat, rest: int)
    requires g > 0 && d % Gcd(g, x) == 0
    ensures rest % g == 0 && (d - rest - n * x) % TOKEN == 0
    ensures x > 0 ==> level + n * x >= 0
  {
    var p, q := Bezout(g, x);
    var m := d / Gcd(g, x);
    var steps, extra := m * q, Max(0, -level);
    rest := (m * p) * g;
    n := steps % TOKEN + TOKEN * extra;
    MultipleOf(rest, g, m * p);
    SameSteps(steps, extra);
    ShareSum(m, p, q, g, x, Gcd(g, x));
    assert d == m * Gcd(g, x);
    StepsTimes(d - rest, steps, n, x);
    EnoughTime(level, n, x);
  }

  lemma SameSteps(steps: int, extra: nat)
    ensures (steps - (steps % TOKEN + TOKEN * extra)) % TOKEN == 0
  {
    MultipleOf(steps - (steps % TOKEN + TOKEN * extra), TOKEN, steps / TOKEN - extra);
  }

  lemma ShareSum(m: int, p: int, q: int, g: int, x: int, gcd: int)
    requires p * g + q * x == gcd
    ensures m * gcd == (m * p) * g + (m * q) * x
  {
    Distribute(m, p * g, q * x);
    Associate(m, p, g);
    Associate(m, q, x);
  }

  lemma StepsTimes(own: int, steps: int, n: int, x: int)
    requires own == steps * x && (steps - n) % TOKEN == 0
    ensures (own - n * x) % TOKEN == 0
  {
    Distribute(x, steps, -n);
    Combination(TOKEN, x, steps - n, 0, TOKEN);
  }

  lemma EnoughTime(level: int, n: nat, x: nat)
    requires n >= -level
    ensures x > 0 ==> level + n * x >= 0
  {
    if x > 0 {
      AtLeast(n, x);
    }
  }

  /** The share of one rate: a stretch at it, or nothing if it is 0. */
  lemma OneShare(c: Cell, t: int, n: nat, x: nat, rates: set<nat>) returns (es: seq<CellEvent>, c': Cell, t': int)
    requires Ready(c, t) && x in rates
    ensures Leads(c, t, es, c', t', rates) && t <= t' && Ready(c', t')
    ensures (CellLevel(c', t') - CellLevel(c, t) - n * x) % TOKEN == 0
  {
    if x == 0 {
      es, c', t' := [], c, t;
    } else {
      es, c' := Stretch(c, t, n, x);
      t' := t + n;
      LeadsInMore(c, t, es, c', t', {x}, rates);
    }
  }

  /** A run through the rates that moves the level by d, up to whole tokens. */
  lemma {:induction false} Steer(c: Cell, t: int, rates: set<nat>, d: int)
    returns (es: seq<CellEvent>, c': Cell, t': int)
    requires Ready(c, t) && d % GcdOf(TOKEN, rates) == 0
    ensures Leads(c, t, es, c', t', rates) && t <= t' && Ready(c', t')
    ensures (CellLevel(c', t') - CellLevel(c, t) - d) % TOKEN == 0
    decreases |rates|
  {
    if rates == {} {
      es, c', t' := [], c, t;
      MultipleOf(-d, TOKEN, -(d / TOKEN));
    } else {
      var x := Pick(rates);
      var n, rest := Share(d, GcdOf(TOKEN, rates - {x}), x, CellLevel(c, t));
      var first, c1, t1 := OneShare(c, t, n, x, rates);
      var more;
      more, c', t' := Steer(c1, t1, rates - {x}, rest);
      LeadsInMore(c1, t1, more, c', t', rates - {x}, rates);
      LeadsOn(c, t, first, c1, t1, more, c', t', rates);
      es := first + more;
      ThreeParts(CellLevel(c, t), CellLevel(c1, t1), CellLevel(c', t'), n * x, rest, d);
    }
  }

  lemma ThreeParts(l0: int, l1: int, l2: int, own: int, rest: int, d: int)
    requires (l1 - l0 - own) % TOKEN == 0 && (l2 - l1 - rest) % TOKEN == 0 && (d - rest - own) % TOKEN == 0
    ensures (l2 - l0 - d) % TOKEN == 0
  {
    Combination(TOKEN, 1, l1 - l0 - own, 1, l2 - l1 - rest);
    Combination(TOKEN, 1, l2 - l0 - own - rest, -1, d - rest - own);
  }

  /** A run of a new account that ends with what, after one more stretch at rpm, is left of the deepest debt. */
  lemma Approach(rates: set<nat>, rpm: nat) returns (es: seq<CellEvent>, c': Cell, t': int)
    requires rpm in rates && rpm > 0
    ensures Leads(NewAccount(rpm, 1), 0, es, c', t', rates) && Ready(c', t') && t' >= 0
    ensures (CellLevel(c', t') - (GcdOf(TOKEN, rates) - rpm)) % TOKEN == 0
  {
    var g, c := GcdOf(TOKEN, rates), NewAccount(rpm, 1);
    var c1 := CellStep(c, Ask(0)).0;
    FirstAsk(rpm);
    OneEventLeads(c, 0, Ask(0), rates);
    GcdOfDivides(TOKEN, rates, rpm);
    MultipleOf(g, g, 1);
    Combination(g, 1, g, -1, rpm);
    var more;
    more, c', t' := Steer(c1, 0, rates, g - rpm);
    es := [Ask(0)] + more;
    LeadsOn(c, 0, [Ask(0)], c1, 0, more, c', t', rates);
  }

  /** For any rate of the set: a run of a new account that ends owing that rate less the common divisor. */
  lemma DeepestRun(rates: set<nat>, rpm: nat) returns (es: seq<CellEvent>, c': Cell, t': int)
    requires rpm in rates && rpm > 0
    ensures Leads(NewAccount(rpm, 1), 0, es, c', t', rates) && Ready(c', t') && t' >= 0
    ensures CellLevel(c', t') == -(rpm - GcdOf(TOKEN, rates))
  {
    var first, c1, t1 := Approach(rates, rpm);
    var level := CellLevel(c1, t1);
    var n: nat := TOKEN * Max(0, -level);
    EnoughTime(level, n, rpm);
    var last;
    last, c' := Stretch(c1, t1, n, rpm);
    t' := t1 + n;
    LeadsInMore(c1, t1, last, c', t', {rpm}, rates);
    LeadsOn(NewAccount(rpm, 1), 0, first, c1, t1, last, c', t', rates);
    es := first + last;
    WholeTokens(Max(0, -level), rpm);
    OneToken(level, n * rpm, CellLevel(c', t'), GcdOf(TOKEN, rates), rpm);
  }

  lemma WholeTokens(k: int, x: int)
    ensures (TOKEN * k) * x % TOKEN == 0
  {
    Associate(TOKEN, k, x);
    MultipleOf((TOKEN * k) * x, TOKEN, k * x);
  }

  lemma FirstAsk(rpm: int)
    requires rpm > 0
    ensures var c := CellStep(NewAccount(rpm, 1), Ask(0)).0; Ready(c, 0) && CellLevel(c, 0) == 0
  {
    var c := NewAccount(rpm, 1);
    StepKeepsCellInv(c, Ask(0), 0);
    assert rpm * 0 == 0;
    GrantedAskTakesOneToken(Fresh(rpm, 1), 0);
  }

  lemma OneToken(level: int, waited: int, left: int, g: int, rpm: int)
    requires (level - (g - rpm)) % TOKEN == 0 && waited % TOKEN == 0 && (left - level - waited) % TOKEN == 0
    requires 0 < left + rpm <= TOKEN && 0 < g <= TOKEN
    ensures left == -(rpm - g)
  {
    Combination(TOKEN, 1, level - (g - rpm), 1, waited);
    Combination(TOKEN, 1, level - (g - rpm) + waited, 1, left - level - waited);
    var d := left + rpm - g;
    assert d % TOKEN == 0 && -TOKEN < d < TOKEN;
    assert d == TOKEN * (d / TOKEN);
  }
}
