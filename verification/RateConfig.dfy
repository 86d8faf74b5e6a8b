/** The rateLimits section of the allowlist file (internal/ratelimit/config.go). */
module RateConfig {
  import opened Common

  /** Effective limits of one account; 0 means unlimited. */
  datatype Limits = Limits(maxConcurrent: int, requestsPerMinute: int, burst: int)

  /** An override replaces the fields it sets. */
  datatype Override = Override(maxConcurrent: Option<int>, requestsPerMinute: Option<int>, burst: Option<int>)

  datatype Config = Config(defaults: Limits, overrides: map<string, Override>)

  datatype LimitsError = NegativeValue | RateWithoutBurst

  datatype ConfigError = BadDefault(error: LimitsError) | BadOverride(account: string, error: LimitsError)

  const UNLIMITED := Limits(0, 0, 0)

  function Merge(o: Option<int>, inherited: int): int {
    if o.Some? then o.value else inherited
  }

  /** The limits Config.For returns. */
  function LimitsFor(c: Config, account: string): Limits {
    if account !in c.overrides then c.defaults else
    var o := c.overrides[account];
    Limits(Merge(o.maxConcurrent, c.defaults.maxConcurrent),
           Merge(o.requestsPerMinute, c.defaults.requestsPerMinute),
           Merge(o.burst, c.defaults.burst))
  }

  /** What the limiter looks up: an absent configuration limits nothing. */
  function EffectiveLimits(cfg: Option<Config>, account: string): Limits {
    if cfg.None? then UNLIMITED else LimitsFor(cfg.value, account)
  }

  /** A rate needs a bucket that can hold a token; nothing is negative. */
  predicate ValidLimits(l: Limits) {
    && l.maxConcurrent >= 0
    && l.requestsPerMinute >= 0
    && l.burst >= 0
    && (l.requestsPerMinute > 0 ==> l.burst >= 1)
  }

  /** Every account, named in the file or not, gets valid limits. */
  ghost predicate ValidConfig(c: Config) {
    forall account: string :: ValidLimits(LimitsFor(c, account))
  }

  ghost predicate ValidOptional(cfg: Option<Config>) {
    cfg.Some? ==> ValidConfig(cfg.value)
  }

  method For(c: Config, account: string) returns (l: Limits)
    ensures l == LimitsFor(c, account)
    ensures account !in c.overrides ==> l == c.defaults
    ensures account in c.overrides ==>
              var o := c.overrides[account];
              && (o.maxConcurrent.Some? ==> l.maxConcurrent == o.maxConcurrent.value)
              && (o.maxConcurrent.None? ==> l.maxConcurrent == c.defaults.maxConcurrent)
              && (o.requestsPerMinute.Some? ==> l.requestsPerMinute == o.requestsPerMinute.value)
              && (o.requestsPerMinute.None? ==> l.requestsPerMinute == c.defaults.requestsPerMinute)
              && (o.burst.Some? ==> l.burst == o.burst.value)
              && (o.burst.None? ==> l.burst == c.defaults.burst)
  {
    l := c.defaults;
    if account !in c.overrides {
      return;
    }
    var o := c.overrides[account];
    if o.maxConcurrent.Some? {
      l := l.(maxConcurrent := o.maxConcurrent.value);
    }
    if o.requestsPerMinute.Some? {
      l := l.(requestsPerMinute := o.requestsPerMinute.value);
    }
    if o.burst.Some? {
      l := l.(burst := o.burst.value);
    }
  }

  /** The limits in force, field by field: what the override sets, or else the default; without a configuration,
      none. */
  lemma OverridesReplaceFields(cfg: Option<Config>, account: string)
    ensures var l := EffectiveLimits(cfg, account);
            && (cfg.None? ==> l.maxConcurrent == 0 && l.requestsPerMinute == 0 && l.burst == 0)
            && (cfg.Some? && account !in cfg.value.overrides ==> l == cfg.value.defaults)
            && (cfg.Some? && account in cfg.value.overrides ==>
                  var o, d := cfg.value.overrides[account], cfg.value.defaults;
                  && (if o.maxConcurrent.Some? then l.maxConcurrent == o.maxConcurrent.value
                      else l.maxConcurrent == d.maxConcurrent)
                  && (if o.requestsPerMinute.Some? then l.requestsPerMinute == o.requestsPerMinute.value
                      else l.requestsPerMinute == d.requestsPerMinute)
                  && (if o.burst.Some? then l.burst == o.burst.value else l.burst == d.burst))
  {
  }

  function Check(l: Limits): (e: Option<LimitsError>)
    ensures e.None? <==> ValidLimits(l)
    ensures e.None? <==> && l.maxConcurrent >= 0 && l.requestsPerMinute >= 0 && l.burst >= 0
                         && (l.requestsPerMinute > 0 ==> l.burst >= 1)
    ensures e == Some(NegativeValue) <==> l.maxConcurrent < 0 || l.requestsPerMinute < 0 || l.burst < 0
    ensures e == Some(RateWithoutBurst) <==> l.maxConcurrent >= 0 && l.requestsPerMinute > 0 && l.burst == 0
  {
    if l.maxConcurrent < 0 || l.requestsPerMinute < 0 || l.burst < 0 then Some(NegativeValue)
    else if l.requestsPerMinute > 0 && l.burst == 0 then Some(RateWithoutBurst)
    else None
  }

  /** Checking the default and the overrides decides the limits of every possible account name;
      an error names limits that really are wrong. */
  method Validate(c: Config) returns (err: Option<ConfigError>)
    ensures err.None? <==> ValidConfig(c)
    ensures err.None? <==> forall account: string ::
                             var l := LimitsFor(c, account);
                             && l.maxConcurrent >= 0 && l.requestsPerMinute >= 0 && l.burst >= 0
                             && (l.requestsPerMinute > 0 ==> l.burst >= 1)
    ensures err.Some? && err.value.BadDefault? ==> Check(c.defaults) == Some(err.value.error)
    ensures err.Some? && err.value.BadOverride? ==>
              ValidLimits(c.defaults) && err.value.account in c.overrides
              && Check(LimitsFor(c, err.value.account)) == Some(err.value.error)
  {
    var e := Check(c.defaults);
    if e.Some? {
      assert ValidConfig(c) ==> false by {
        UnnamedAccount(c);
      }
      return Some(BadDefault(e.value));
    }
    var todo := c.overrides.Keys;
    while todo != {}
      invariant todo <= c.overrides.Keys
      invariant forall a :: a in c.overrides && a !in todo ==> ValidLimits(LimitsFor(c, a))
      decreases |todo|
    {
      var account :| account in todo;
      var l := For(c, account);
      e := Check(l);
      if e.Some? {
        return Some(BadOverride(account, e.value));
      }
      todo := todo - {account};
    }
    err := None;
  }

  /** The default limits always apply to some account: only finitely many are named. */
  lemma UnnamedAccount(c: Config)
    ensures exists account: string :: account !in c.overrides && LimitsFor(c, account) == c.defaults
  {
    var a := LongerThanAll(c.overrides.Keys);
    assert a !in c.overrides.Keys;
    assert LimitsFor(c, a) == c.defaults;
  }

  lemma LongerThanAll(names: set<string>) returns (a: string)
    ensures forall n :: n in names ==> |n| < |a|
    decreases |names|
  {
    if names == {} {
      a := "x";
    } else {
      var n :| n in names;
      var b := LongerThanAll(names - {n});
      a := b + n + "x";
      forall m | m in names ensures |m| < |a| {
        assert m == n || m in names - {n};
      }
    }
  }
}
