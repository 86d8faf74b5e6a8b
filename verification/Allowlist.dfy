/** internal/auth/allowlist.go: the allowlist file, its hot reload, and the two publications of one load. */
module Allowlist {
  import opened Common
  import opened RateConfig
  import opened LimiterSpec
  import opened AccountMachine
  import Limiter

  /** What reading and decoding the file gave. */
  datatype FileContent = Unreadable | Malformed | Parsed(allowlist: seq<string>, rateLimits: Option<Config>)

  datatype LoadError = ReadFailed | ParseFailed | Invalid(error: ConfigError)

  /** A load succeeds on these, and only these. */
  ghost predicate Loadable(f: FileContent) {
    f.Parsed? && ValidOptional(f.rateLimits)
  }

  function EntriesOf(f: FileContent): set<string>
    requires f.Parsed?
  {
    set e | e in f.allowlist
  }

  function Key(namespace: string, serviceAccount: string): string {
    namespace + "/" + serviceAccount
  }

  /** Kubernetes namespaces contain no slash, so two callers never share an allowlist entry or a bucket. */
  lemma KeysAreDistinct(n1: string, s1: string, n2: string, s2: string)
    requires '/' !in n1 && '/' !in n2 && Key(n1, s1) == Key(n2, s2)
    ensures n1 == n2 && s1 == s2
  {
    var k := Key(n1, s1);
    assert k[|n1|] == '/' && k[|n2|] == '/';
    assert forall i :: 0 <= i < |n1| ==> k[i] == n1[i] && k[i] != '/';
    assert forall i :: 0 <= i < |n2| ==> k[i] == n2[i] && k[i] != '/';
    assert n1 == k[..|n1|] && n2 == k[..|n2|];
    assert s1 == k[|n1| + 1..] && s2 == k[|n2| + 1..];
  }

  /** The caller an entry names: what is before its first slash, and what is after it. */
  function CallerOf(entry: string): Option<(string, string)> {
    if entry == [] then None
    else if entry[0] == '/' then Some(([], entry[1..]))
    else
      var c := CallerOf(entry[1..]);
      if c.None? then None else Some(([entry[0]] + c.value.0, c.value.1))
  }

  lemma {:induction false} CallerOfKey(n: string, s: string)
    requires '/' !in n
    ensures CallerOf(Key(n, s)) == Some((n, s))
  {
    if n != [] {
      CallerOfKey(n[1..], s);
      assert Key(n, s)[0] == n[0] && Key(n, s)[1..] == Key(n[1..], s);
      assert n[0] in n;
      assert [n[0]] + n[1..] == n;
    } else {
      assert Key(n, s)[1..] == s;
    }
  }

  lemma {:induction false} KeyOfCaller(entry: string)
    ensures CallerOf(entry).None? <==> '/' !in entry
    ensures CallerOf(entry).Some? ==>
              '/' !in CallerOf(entry).value.0 && Key(CallerOf(entry).value.0, CallerOf(entry).value.1) == entry
  {
    if entry != [] && entry[0] != '/' {
      KeyOfCaller(entry[1..]);
      assert entry == [entry[0]] + entry[1..];
    }
  }

  /** After a successful load, IsAllowed says yes to a caller in a slash-free namespace exactly when some line of the
      file names this caller; a line without a slash allows nobody, and no line allows two callers. */
  lemma AllowedExactlyTheNamed(f: FileContent, n: string, s: string)
    requires f.Parsed? && '/' !in n
    ensures Key(n, s) in EntriesOf(f) <==>
            exists i :: 0 <= i < |f.allowlist| && CallerOf(f.allowlist[i]) == Some((n, s))
  {
    CallerOfKey(n, s);
    if Key(n, s) in EntriesOf(f) {
      var i :| 0 <= i < |f.allowlist| && f.allowlist[i] == Key(n, s);
    }
    forall i | 0 <= i < |f.allowlist| && CallerOf(f.allowlist[i]) == Some((n, s)) ensures Key(n, s) in EntriesOf(f) {
      KeyOfCaller(f.allowlist[i]);
    }
  }

  class Allowlist {
    var entries: set<string>
    const limiter: Limiter.Limiter?

    constructor (limiter: Limiter.Limiter?)
      ensures this.limiter == limiter && entries == {}
    {
      this.limiter, entries := limiter, {};
    }

    /** One uninterrupted load. `ignored` are the overrides it warns about. */
    method Load(f: FileContent, now: int) returns (err: Option<LoadError>, ignored: set<string>)
      requires limiter != null ==> limiter.Valid()
      modifies this, limiter, if limiter == null then {} else limiter.states,
               if limiter == null then {} else limiter.buckets
      ensures limiter != null ==> limiter.Valid()
      ensures err.None? <==> Loadable(f)
      ensures err == Some(ReadFailed) <==> f.Unreadable?
      ensures err == Some(ParseFailed) <==> f.Malformed?
      ensures err.Some? && err.value.Invalid? <==> f.Parsed? && f.rateLimits.Some? && !ValidConfig(f.rateLimits.value)
      ensures err.Some? ==> ignored == {}
      ensures err.Some? ==> entries == old(entries) && (limiter != null ==> limiter.model == old(limiter.model))
      ensures err.None? ==> entries == EntriesOf(f)
      ensures err.None? && limiter != null ==>
                limiter.model == Updated(old(limiter.model), now, f.rateLimits, Some(EntriesOf(f)))
      ensures err.None? ==>
                ignored == if f.rateLimits.None? then {} else f.rateLimits.value.overrides.Keys - EntriesOf(f)
    {
      ignored := {};
      if f.Unreadable? {
        return Some(ReadFailed), {};
      }
      if f.Malformed? {
        return Some(ParseFailed), {};
      }
      var loaded: set<string> := {};
      for i := 0 to |f.allowlist|
        invariant loaded == set e | e in f.allowlist[..i]
      {
        loaded := loaded + {f.allowlist[i]};
        assert f.allowlist[..i + 1] == f.allowlist[..i] + [f.allowlist[i]];
      }
      assert f.allowlist[..|f.allowlist|] == f.allowlist;
      if f.rateLimits.Some? {
        var invalid := Validate(f.rateLimits.value);
        if invalid.Some? {
          return Some(Invalid(invalid.value)), {};
        }
        var todo := f.rateLimits.value.overrides.Keys;
        while todo != {}
          invariant todo <= f.rateLimits.value.overrides.Keys
          invariant ignored == (f.rateLimits.value.overrides.Keys - todo) - loaded
          decreases todo
        {
          var account :| account in todo;
          if account !in loaded {
            ignored := ignored + {account};
          }
          todo := todo - {account};
        }
      }
      entries := loaded;
      if limiter != null {
        limiter.Update(f.rateLimits, Some(loaded), now);
      }
      err := None;
    }

    method IsAllowed(namespace: string, serviceAccount: string) returns (allowed: bool)
      ensures allowed <==> Key(namespace, serviceAccount) in entries
    {
      allowed := Key(namespace, serviceAccount) in entries;
    }
  }

  // ---- Reloads interleaved with requests ----

  /** Where the single loading goroutine is. */
  datatype Loading = Idle | Checked(file: FileContent) | HalfPublished(file: FileContent)

  /** Ghost history: `seen` are the contents of all loads begun, `published` those whose entries are out,
      and `limitsVersion` how many of those have reached the limiter. */
  datatype System = System(
    entries: set<string>,
    limiter: LimiterValue,
    loading: Loading,
    seen: seq<FileContent>,
    published: seq<FileContent>,
    limitsVersion: nat)

  datatype SystemEvent =
    | BeginLoad(file: FileContent)
    | PublishEntries
    | PublishLimits(now: int)
    | Call(event: Event)

  const BOOT := System({}, INITIAL, Idle, [], [], 0)

  ghost function SystemStep(s: System, e: SystemEvent): System {
    match e
    case BeginLoad(f) =>
      if !s.loading.Idle? then s
      else s.(seen := s.seen + [f], loading := if Loadable(f) then Checked(f) else Idle)
    case PublishEntries =>
      if !s.loading.Checked? || !s.loading.file.Parsed? then s
      else s.(entries := EntriesOf(s.loading.file), loading := HalfPublished(s.loading.file),
              published := s.published + [s.loading.file])
    case PublishLimits(now) =>
      if !s.loading.HalfPublished? || !s.loading.file.Parsed? then s
      else s.(limiter := Updated(s.limiter, now, s.loading.file.rateLimits, Some(EntriesOf(s.loading.file))),
              loading := Idle, limitsVersion := s.limitsVersion + 1)
    case Call(event) =>
      if event.Update? then s else s.(limiter := Step(s.limiter, event).0)
  }

  ghost function SystemRun(s: System, es: seq<SystemEvent>): System
    decreases |es|
  {
    if es == [] then s else SystemRun(SystemStep(s, es[0]), es[1..])
  }

  /** The loadable ones, in order. */
  ghost function Accepted(fs: seq<FileContent>): seq<FileContent> {
    if fs == [] then []
    else Accepted(fs[..|fs| - 1]) + (if Loadable(fs[|fs| - 1]) then [fs[|fs| - 1]] else [])
  }

  lemma AcceptedAppends(fs: seq<FileContent>, f: FileContent)
    ensures Accepted(fs + [f]) == Accepted(fs) + (if Loadable(f) then [f] else [])
  {
    assert (fs + [f])[..|fs|] == fs;
  }

  /** Both views always show a published version: the entries the latest, the limiter the latest or, only
      between the two publications of one load, the one before. */
  ghost predicate SystemInv(s: System) {
    && (forall i :: 0 <= i < |s.published| ==> Loadable(s.published[i]))
    && (s.loading.Idle? || Loadable(s.loading.file))
    && Accepted(s.seen) == s.published + (if s.loading.Checked? then [s.loading.file] else [])
    && |s.published| == s.limitsVersion + (if s.loading.HalfPublished? then 1 else 0)
    && (s.loading.HalfPublished? ==> s.loading.file == s.published[|s.published| - 1])
    && s.entries == (if s.published == [] then {} else EntriesOf(s.published[|s.published| - 1]))
    && (if s.limitsVersion == 0 then s.limiter.cfg.None? && s.limiter.allowed.None?
        else var f := s.published[s.limitsVersion - 1];
             s.limiter.cfg == f.rateLimits && s.limiter.allowed == Some(EntriesOf(f)))
  }

  lemma StepKeepsSystemInv(s: System, e: SystemEvent)
    requires SystemInv(s)
    ensures SystemInv(SystemStep(s, e))
  {
    match e {
      case BeginLoad(f) => AcceptedAppends(s.seen, f);
      case PublishEntries => EntriesStepKeepsInv(s);
      case PublishLimits(now) => LimitsStepKeepsInv(s, now);
      case Call(_) =>
    }
  }

  lemma EntriesStepKeepsInv(s: System)
    requires SystemInv(s)
    ensures SystemInv(SystemStep(s, PublishEntries))
  {
    if s.loading.Checked? {
      var s' := SystemStep(s, PublishEntries);
      var f := s.loading.file;
      assert s'.published == s.published + [f];
      assert s'.published[|s'.published| - 1] == f;
      assert s.limitsVersion > 0 ==> s'.published[s.limitsVersion - 1] == s.published[s.limitsVersion - 1];
    }
  }

  lemma LimitsStepKeepsInv(s: System, now: int)
    requires SystemInv(s)
    ensures SystemInv(SystemStep(s, PublishLimits(now)))
  {
    if s.loading.HalfPublished? {
      assert s.published[s.limitsVersion] == s.loading.file;
    }
  }

  /** Nothing is asked of the files: only that the clock does not run backwards. */
  ghost predicate Monotone(es: seq<SystemEvent>, now: int)
    decreases |es|
  {
    es == [] || (
      match es[0]
      case PublishLimits(t) => now <= t && Monotone(es[1..], t)
      case Call(Acquire(t, _)) => now <= t && Monotone(es[1..], t)
      case _ => Monotone(es[1..], now)
    )
  }

  function SystemTime(es: seq<SystemEvent>, now: int): int
    decreases |es|
  {
    if es == [] then now else
    match es[0]
    case PublishLimits(t) => SystemTime(es[1..], t)
    case Call(Acquire(t, _)) => SystemTime(es[1..], t)
    case _ => SystemTime(es[1..], now)
  }

  /** Over any sequence of file contents, good or bad, with requests at any point between the steps of a load:
      the views stay transactional, and the limiter stays in the states its promises are proved for. */
  lemma {:induction false} ReloadsAreTransactional(s: System, es: seq<SystemEvent>, now: int)
    requires SystemInv(s) && LimiterInv(s.limiter, now) && Monotone(es, now)
    ensures SystemInv(SystemRun(s, es)) && LimiterInv(SystemRun(s, es).limiter, SystemTime(es, now))
    decreases |es|
  {
    if es != [] {
      var e, s' := es[0], SystemStep(s, es[0]);
      StepKeepsSystemInv(s, e);
      match e {
        case PublishLimits(t) =>
          if s.loading.HalfPublished? {
            var f := s.loading.file;
            StepKeepsLimiterInv(s.limiter, Update(t, f.rateLimits, Some(EntriesOf(f))), now);
          } else {
            InvLater(s.limiter, now, t);
          }
          ReloadsAreTransactional(s', es[1..], t);
        case Call(Acquire(t, a)) =>
          StepKeepsLimiterInv(s.limiter, Acquire(t, a), now);
          ReloadsAreTransactional(s', es[1..], t);
        case Call(Release(k)) =>
          StepKeepsLimiterInv(s.limiter, Release(k), now);
          ReloadsAreTransactional(s', es[1..], now);
        case _ =>
          ReloadsAreTransactional(s', es[1..], now);
      }
    }
  }

  /** From boot: memory is bounded whatever the files contained, and when no load is between its two
      publications the limiter works from exactly the allowlist requests are checked against. */
  lemma BootedSystemIsBounded(es: seq<SystemEvent>, now: int)
    requires now >= 0 && Monotone(es, now)
    ensures var s := SystemRun(BOOT, es);
            && (forall a :: a in s.limiter.accounts && s.limiter.allowed.Some? && a !in s.limiter.allowed.value
                  ==> s.limiter.accounts[a].inflight > 0)
            && (s.published != [] && !s.loading.HalfPublished? ==> s.limiter.allowed == Some(s.entries))
            && (!s.loading.HalfPublished? ==> s.limitsVersion == |s.published|)
  {
    InitialInv(now);
    ReloadsAreTransactional(BOOT, es, now);
    var s := SystemRun(BOOT, es);
    forall a | a in s.limiter.accounts && s.limiter.allowed.Some? && a !in s.limiter.allowed.value
      ensures s.limiter.accounts[a].inflight > 0
    {
      assert CellInv(CellOf(s.limiter, a), SystemTime(es, now));
    }
  }

  /** The three steps of a load, with nothing between them, are the method: the entries and the limiter that Load's
      contract gives, and nothing at all for a file that does not load. */
  lemma LoadIsThreeSteps(s: System, f: FileContent, now: int)
    requires s.loading.Idle?
    ensures var s' := SystemRun(s, [BeginLoad(f), PublishEntries, PublishLimits(now)]);
            && s'.loading.Idle? && s'.seen == s.seen + [f]
            && (if Loadable(f)
                then s'.entries == EntriesOf(f)
                     && s'.limiter == Updated(s.limiter, now, f.rateLimits, Some(EntriesOf(f)))
                     && s'.published == s.published + [f] && s'.limitsVersion == s.limitsVersion + 1
                else s' == s.(seen := s'.seen))
  {
    var es := [BeginLoad(f), PublishEntries, PublishLimits(now)];
    assert es[1..] == [PublishEntries, PublishLimits(now)];
    assert es[1..][1..] == [PublishLimits(now)] && es[1..][1..][1..] == [];
    var s1 := SystemStep(s, es[0]);
    var s2 := SystemStep(s1, PublishEntries);
    var s3 := SystemStep(s2, PublishLimits(now));
    assert SystemRun(s2, es[1..][1..]) == SystemRun(s3, []) == s3;
    assert SystemRun(s, es) == SystemRun(s1, es[1..]) == SystemRun(s2, es[1..][1..]);
  }

  /** A load that fails changes neither view nor anything a later event can see. */
  lemma FailedLoadChangesNothing(s: System, f: FileContent, es: seq<SystemEvent>)
    requires s.loading.Idle? && !Loadable(f)
    ensures SystemRun(s, [BeginLoad(f)] + es).(seen := []) == SystemRun(s, es).(seen := [])
  {
    var t := SystemStep(s, BeginLoad(f));
    assert ([BeginLoad(f)] + es)[1..] == es;
    HistoryIsInvisible(s, t, es);
  }

  lemma {:induction false} HistoryIsInvisible(s: System, t: System, es: seq<SystemEvent>)
    requires s.(seen := []) == t.(seen := [])
    ensures SystemRun(s, es).(seen := []) == SystemRun(t, es).(seen := [])
    decreases |es|
  {
    if es != [] {
      HistoryIsInvisible(SystemStep(s, es[0]), SystemStep(t, es[0]), es[1..]);
    }
  }
}
