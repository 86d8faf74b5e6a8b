/** internal/scanner/scanner.go: one verdict per scan, and never clean without a scan that finished clean. */
module Scanner {
  import opened Common
  import opened LogParsing
  import opened DetectionCache
  import opened DetectionCacheObject
  import opened Drivers

  datatype Phase = Manual | RealTime

  /** Failed is the error return; `fileExists` tells its two messages apart. */
  datatype Response = Verdict(status: ScanStatus, signature: string, phase: Phase) | Failed(fileExists: bool)

  /** What is left of the budget when the manual scan has ended. */
  function Remaining(start: int, budget: int, ended: int): int {
    Max(0, start + budget - ended)
  }

  /** The answer of a scan, and the store it leaves: the manual verdict, if there is one, and else what its wait for
      a real-time detection finds. */
  function ScanOutcome(manual: Option<(ScanStatus, string)>, store: Store, path: string, stays: seq<Stay>,
                       fileExists: bool): (Response, Store)
  {
    if manual.Some? then (Verdict(manual.value.0, manual.value.1, Manual), store) else
    var (found, left, _) := WaitFrom(store, path, stays);
    var signature := WatchResult(found);
    (if signature.Some? then Verdict(Infected, signature.value, RealTime) else Failed(fileExists), left)
  }

  // ---- Scan itself ----

  /** Scan, with what the engine, the file system and the other goroutines do as inputs: `during` is what they do to
      the cache up to the end of the manual scan, `watchStart` when the wait's timer starts. The file is deleted
      exactly when there is a verdict. */
  method Scan(engine: Engine, abs: string -> string, cache: Cache, filePath: string, budget: int, start: int,
              run: ToolRun, during: seq<Other>, ended: int, watchStart: int, stays: seq<Stay>, fileExists: bool)
    returns (response: Response, deleted: bool)
    requires cache.Valid() && Possible(stays, Max(start + budget, ended) + (watchStart - ended))
    requires ManualVerdict(engine, run).None? ==>
               !WaitFrom(OthersRun(cache.store, during), abs(filePath), stays).0.StillBlocked?
    modifies cache, cache.added
    ensures cache.Valid()
    ensures deleted <==> response.Verdict?
    ensures response.Failed? ==> response.fileExists == fileExists
    ensures ManualVerdict(engine, run).Some? ==>
              && response == Verdict(ManualVerdict(engine, run).value.0, ManualVerdict(engine, run).value.1, Manual)
              && cache.store == OthersRun(old(cache.store), during)
    ensures var store := OthersRun(old(cache.store), during);
            (response, cache.store) == ScanOutcome(ManualVerdict(engine, run), store, abs(filePath), stays, fileExists)
  {
    var result := ManualScan(engine, run);
    cache.Meanwhile(during);
    var finalStatus: Option<ScanStatus> := None;
    var signature, phase := "", Manual;
    deleted := false;
    if result.Some? && (result.value.0 == Clean || result.value.0 == Infected) {
      finalStatus := Some(result.value.0);
      signature := result.value.1;
      phase := Manual;
    } else {
      var remaining := start + budget - ended;
      if remaining < 0 {
        remaining := 0;
      }
      var rts := WatchRTS(abs, cache, filePath, watchStart + remaining, stays);
      if rts.Some? {
        finalStatus := Some(Infected);
        signature := rts.value;
        phase := RealTime;
      }
      if finalStatus.None? {
        return Failed(fileExists), false;
      }
    }
    deleted := true;
    response := Verdict(finalStatus.value, signature, phase);
  }

  // ---- All scans at once, with the log watcher and everything else that uses the cache ----

  /** AboutToWatch: the manual scan gave no verdict, and that much of the budget was left then. */
  datatype Stage = Scanning | AboutToWatch(remaining: int) | Watching | Answered(response: Response)

  /** The driver, as the machine sees it: paths made absolute, log lines read, tool runs judged. */
  datatype Driver = Driver(
    abs: string -> string,
    detect: string -> Option<Detection>,
    manual: ToolRun -> Option<(ScanStatus, string)>)

  function DriverOf(engine: Engine, abs: string -> string): Driver {
    Driver(abs, ReaderOf(engine), run => ManualVerdict(engine, run))
  }

  /** A log watcher caches only infections, with the line they came from. */
  ghost predicate OnlyInfections(d: Driver) {
    forall line: string :: d.detect(line).Some? ==>
      d.detect(line).value.raw == line && d.detect(line).value.status == INFECTED
  }

  /** `run` and `ended` record the manual scan once it is over, `watched` and `consumer` when it called Wait, if ever,
      and that call. */
  datatype ScanState = ScanState(filePath: string, start: int, budget: int, run: ToolRun, ended: int, watched: int,
                                 consumer: Option<nat>, stage: Stage)

  datatype Service = Service(cache: World, scans: seq<ScanState>)

  datatype ServiceEvent =
    | LogLine(now: int, line: string)
    | BeginScan(now: int, filePath: string, budget: int)
    | ManualEnds(now: int, scan: nat, run: ToolRun)
    | BeginWatch(now: int, scan: nat)
    | Conclude(now: int, scan: nat, fileExists: bool)
    | CacheStep(event: CacheEvent)

  /** Only the log watcher adds to the cache. */
  predicate Legal(e: ServiceEvent, now: int) {
    match e
    case CacheStep(c) => !c.Add? && now <= c.now
    case _ => now <= e.now
  }

  function Conclusion(w: World, pc: Pc, fileExists: bool): Option<Response> {
    match pc
    case Got(k) =>
      if k < |w.history| && w.history[k].detection.status == INFECTED
      then Some(Verdict(Infected, w.history[k].detection.signature, RealTime)) else Some(Failed(fileExists))
    case Missed(_, _) => Some(Failed(fileExists))
    case _ => None
  }

  function Tick(s: Service, now: int): Service {
    s.(cache := s.cache.(clock := now))
  }

  predicate InStage(s: Service, i: nat, stage: Stage) {
    i < |s.scans| && s.scans[i].stage == stage
  }

  function ServiceStep(d: Driver, s: Service, e: ServiceEvent): Service {
    match e
    case LogLine(now, line) =>
      var found := d.detect(line);
      if found.None? then Tick(s, now)
      else s.(cache := WorldStep(s.cache, Add(now, d.abs(found.value.filePath), found.value)))
    case BeginScan(now, filePath, budget) =>
      Tick(s, now).(scans := s.scans + [ScanState(filePath, now, budget, NotStarted, now, now, None, Scanning)])
    case ManualEnds(now, i, run) =>
      if !InStage(s, i, Scanning) then Tick(s, now) else
      var k := s.scans[i].(run := run, ended := now);
      var v := d.manual(run);
      var stage := if v.Some? then Answered(Verdict(v.value.0, v.value.1, Manual))
                   else AboutToWatch(Remaining(k.start, k.budget, now));
      Tick(s, now).(scans := s.scans[i := k.(stage := stage)])
    case BeginWatch(now, i) =>
      if i >= |s.scans| || !s.scans[i].stage.AboutToWatch? then Tick(s, now) else
      var k := s.scans[i];
      Service(WorldStep(s.cache, StartWait(now, d.abs(k.filePath), k.stage.remaining)),
              s.scans[i := k.(stage := Watching, watched := now, consumer := Some(|s.cache.consumers|))])
    case Conclude(now, i, fileExists) =>
      if !InStage(s, i, Watching) || s.scans[i].consumer.None? || s.scans[i].consumer.value >= |s.cache.consumers|
      then Tick(s, now) else
      var r := Conclusion(s.cache, s.cache.consumers[s.scans[i].consumer.value].pc, fileExists);
      if r.None? then Tick(s, now) else Tick(s, now).(scans := s.scans[i := s.scans[i].(stage := Answered(r.value))])
    case CacheStep(c) => if c.Add? then s else s.(cache := WorldStep(s.cache, c))
  }

  function ServiceRun(d: Driver, s: Service, es: seq<ServiceEvent>): Service
    decreases |es|
  {
    if es == [] then s else ServiceRun(d, ServiceStep(d, s, es[0]), es[1..])
  }

  predicate LegalEvents(es: seq<ServiceEvent>, now: int)
    decreases |es|
  {
    es == [] || (Legal(es[0], now) && LegalEvents(es[1..], EventTime(es[0])))
  }

  function EventTime(e: ServiceEvent): int {
    if e.CacheStep? then e.event.now else e.now
  }

  // ---- Provenance ----

  /** Every detection came from a log line that reports that file as infected. */
  predicate FromLog(d: Driver, r: AddRecord) {
    d.detect(r.detection.raw) == Some(r.detection) && r.path == d.abs(r.detection.filePath)
  }

  /** The scan waits, or waited, for its own file, for what was left of its budget when its manual scan ended. */
  predicate WaitsForItsFile(d: Driver, w: World, k: ScanState) {
    k.consumer.Some? ==>
      && k.consumer.value < |w.consumers|
      && w.consumers[k.consumer.value].path == d.abs(k.filePath)
      && w.consumers[k.consumer.value].deadline
         == Max(k.start + k.budget, k.ended) + (k.watched - k.ended)
      && k.ended <= k.watched
  }

  /** Why a scan may say what it says. */
  predicate Justified(d: Driver, w: World, k: ScanState) {
    match k.stage
    case Scanning => k.consumer.None?
    case AboutToWatch(remaining) =>
      && k.consumer.None? && d.manual(k.run).None?
      && remaining == Max(k.start + k.budget, k.ended) - k.ended && k.ended <= w.clock
    case Watching => k.consumer.Some? && d.manual(k.run).None?
    case Answered(Verdict(status, signature, Manual)) =>
      d.manual(k.run) == Some((status, signature)) && k.consumer.None?
    case Answered(Verdict(status, signature, RealTime)) =>
      && status == Infected && d.manual(k.run).None?
      && k.consumer.Some? && k.consumer.value < |w.consumers| && w.consumers[k.consumer.value].pc.Got?
      && w.consumers[k.consumer.value].pc.id < |w.history|
      && w.history[w.consumers[k.consumer.value].pc.id].detection.signature == signature
    case Answered(Failed(_)) =>
      && d.manual(k.run).None?
      && k.consumer.Some? && k.consumer.value < |w.consumers| && w.consumers[k.consumer.value].pc.Missed?
  }

  ghost predicate ServiceInv(d: Driver, s: Service) {
    && OnlyInfections(d)
    && WorldInv(s.cache)
    && (forall k :: 0 <= k < |s.cache.history| ==> FromLog(d, s.cache.history[k]))
    && (forall i :: 0 <= i < |s.scans| ==> WaitsForItsFile(d, s.cache, s.scans[i]))
    && (forall i :: 0 <= i < |s.scans| ==> Justified(d, s.cache, s.scans[i]))
    && (forall i, j :: 0 <= i < j < |s.scans| && s.scans[i].consumer.Some? ==>
          s.scans[i].consumer != s.scans[j].consumer)
  }

  /** What no step of the cache changes: what was added, and whose call a consumer is; an ended call stays ended. */
  predicate Extends(w: World, w': World) {
    && |w.history| <= |w'.history| && |w.consumers| <= |w'.consumers|
    && (forall k :: 0 <= k < |w.history| ==> w'.history[k].(fate := Resident) == w.history[k].(fate := Resident))
    && (forall c :: 0 <= c < |w.consumers| ==>
          && w'.consumers[c].path == w.consumers[c].path && w'.consumers[c].deadline == w.consumers[c].deadline
          && (w.consumers[c].pc.Got? || w.consumers[c].pc.Missed? ==> w'.consumers[c].pc == w.consumers[c].pc))
  }

  lemma WorldStepExtends(w: World, e: CacheEvent)
    ensures Extends(w, WorldStep(w, e))
    ensures !e.Add? ==> |WorldStep(w, e).history| == |w.history|
  {
  }

  lemma ExtendsKeepsScan(d: Driver, w: World, w': World, k: ScanState)
    requires w.clock <= w'.clock && Extends(w, w') && WaitsForItsFile(d, w, k) && Justified(d, w, k)
    ensures WaitsForItsFile(d, w', k) && Justified(d, w', k)
  {
  }

  lemma ExtendsKeepsLog(d: Driver, w: World, w': World, k: nat)
    requires Extends(w, w') && k < |w.history| && FromLog(d, w.history[k])
    ensures FromLog(d, w'.history[k])
  {
    assert w'.history[k].(fate := Resident) == w.history[k].(fate := Resident);
  }

  /** A step of the cache alone. */
  lemma CacheStepKeepsServiceInv(d: Driver, s: Service, w': World)
    requires ServiceInv(d, s) && s.cache.clock <= w'.clock && Extends(s.cache, w') && WorldInv(w')
    requires forall k :: |s.cache.history| <= k < |w'.history| ==> FromLog(d, w'.history[k])
    ensures ServiceInv(d, s.(cache := w'))
  {
    forall i | 0 <= i < |s.scans| ensures WaitsForItsFile(d, w', s.scans[i]) && Justified(d, w', s.scans[i]) {
      ExtendsKeepsScan(d, s.cache, w', s.scans[i]);
    }
    forall k | 0 <= k < |w'.history| ensures FromLog(d, w'.history[k]) {
      if k < |s.cache.history| {
        ExtendsKeepsLog(d, s.cache, w', k);
      }
    }
  }

  lemma TickKeepsServiceInv(d: Driver, s: Service, now: int)
    requires ServiceInv(d, s) && s.cache.clock <= now
    ensures ServiceInv(d, Tick(s, now))
  {
    var e := Wake(now, |s.cache.consumers|);
    StepKeepsWorldInv(s.cache, e);
    WorldStepExtends(s.cache, e);
    CacheStepKeepsServiceInv(d, s, WorldStep(s.cache, e));
  }

  /** One scan changes, to something justified, keeping or newly getting its consumer. */
  lemma ScanChangeKeepsServiceInv(d: Driver, s: Service, i: nat, k: ScanState)
    requires ServiceInv(d, s) && i < |s.scans|
    requires WaitsForItsFile(d, s.cache, k) && Justified(d, s.cache, k)
    requires k.consumer == s.scans[i].consumer
             || (k.consumer.Some? && forall j :: 0 <= j < |s.scans| ==> s.scans[j].consumer != k.consumer)
    ensures ServiceInv(d, s.(scans := s.scans[i := k]))
  {
  }

  lemma WatchKeepsServiceInv(d: Driver, s: Service, now: int, i: nat)
    requires ServiceInv(d, s) && s.cache.clock <= now && i < |s.scans| && s.scans[i].stage.AboutToWatch?
    ensures ServiceInv(d, ServiceStep(d, s, BeginWatch(now, i)))
  {
    var k, n := s.scans[i], |s.cache.consumers|;
    var e := StartWait(now, d.abs(k.filePath), k.stage.remaining);
    assert Justified(d, s.cache, k);
    StepKeepsWorldInv(s.cache, e);
    WorldStepExtends(s.cache, e);
    CacheStepKeepsServiceInv(d, s, WorldStep(s.cache, e));
    forall j | 0 <= j < |s.scans| ensures s.scans[j].consumer != Some(n) {
      assert WaitsForItsFile(d, s.cache, s.scans[j]);
    }
    ScanChangeKeepsServiceInv(d, s.(cache := WorldStep(s.cache, e)), i,
                              k.(stage := Watching, watched := now, consumer := Some(n)));
  }

  lemma ManualEndsKeepsServiceInv(d: Driver, s: Service, now: int, i: nat, run: ToolRun)
    requires ServiceInv(d, s) && s.cache.clock <= now && InStage(s, i, Scanning)
    ensures ServiceInv(d, ServiceStep(d, s, ManualEnds(now, i, run)))
  {
    TickKeepsServiceInv(d, s, now);
    assert Justified(d, s.cache, s.scans[i]);
    ScanChangeKeepsServiceInv(d, Tick(s, now), i, ServiceStep(d, s, ManualEnds(now, i, run)).scans[i]);
  }

  lemma ConcludeKeepsServiceInv(d: Driver, s: Service, now: int, i: nat, fileExists: bool)
    requires ServiceInv(d, s) && s.cache.clock <= now
    ensures ServiceInv(d, ServiceStep(d, s, Conclude(now, i, fileExists)))
  {
    TickKeepsServiceInv(d, s, now);
    if InStage(s, i, Watching) {
      var k := s.scans[i];
      assert Justified(d, s.cache, k) && WaitsForItsFile(d, s.cache, k);
      var c := k.consumer.value;
      assert ConsumerHolds(s.cache, c);
      if s.cache.consumers[c].pc.Got? {
        assert FromLog(d, s.cache.history[s.cache.consumers[c].pc.id]);
      }
      var r := Conclusion(s.cache, s.cache.consumers[c].pc, fileExists);
      if r.Some? {
        ScanChangeKeepsServiceInv(d, Tick(s, now), i, k.(stage := Answered(r.value)));
      }
    }
  }

  lemma StepKeepsServiceInv(d: Driver, s: Service, e: ServiceEvent)
    requires ServiceInv(d, s) && Legal(e, s.cache.clock)
    ensures ServiceInv(d, ServiceStep(d, s, e))
  {
    match e {
      case LogLine(now, line) =>
        var found := d.detect(line);
        if found.None? {
          TickKeepsServiceInv(d, s, now);
        } else {
          var a := Add(now, d.abs(found.value.filePath), found.value);
          StepKeepsWorldInv(s.cache, a);
          WorldStepExtends(s.cache, a);
          CacheStepKeepsServiceInv(d, s, WorldStep(s.cache, a));
        }
      case BeginScan(now, filePath, budget) =>
        TickKeepsServiceInv(d, s, now);
        var s' := ServiceStep(d, s, e);
        assert forall i :: 0 <= i < |s.scans| ==> s'.scans[i] == s.scans[i];
      case ManualEnds(now, i, run) =>
        if InStage(s, i, Scanning) {
          ManualEndsKeepsServiceInv(d, s, now, i, run);
        } else {
          TickKeepsServiceInv(d, s, now);
        }
      case BeginWatch(now, i) =>
        if i < |s.scans| && s.scans[i].stage.AboutToWatch? {
          WatchKeepsServiceInv(d, s, now, i);
        } else {
          TickKeepsServiceInv(d, s, now);
        }
      case Conclude(now, i, fileExists) => ConcludeKeepsServiceInv(d, s, now, i, fileExists);
      case CacheStep(c) =>
        StepKeepsWorldInv(s.cache, c);
        WorldStepExtends(s.cache, c);
        CacheStepKeepsServiceInv(d, s, WorldStep(s.cache, c));
    }
  }

  lemma {:induction false} RunKeepsServiceInv(d: Driver, s: Service, es: seq<ServiceEvent>)
    requires ServiceInv(d, s) && LegalEvents(es, s.cache.clock)
    ensures ServiceInv(d, ServiceRun(d, s, es))
    decreases |es|
  {
    if es != [] {
      StepKeepsServiceInv(d, s, es[0]);
      RunKeepsServiceInv(d, ServiceStep(d, s, es[0]), es[1..]);
    }
  }

  function Start(ttl: int, now: int): Service {
    Service(EmptyWorld(ttl, now), [])
  }

  lemma DriversReportOnlyInfections(engine: Engine, abs: string -> string)
    ensures OnlyInfections(DriverOf(engine, abs))
  {
  }

  lemma CleanIsManual(d: Driver, ttl: int, now: int, es: seq<ServiceEvent>, i: nat)
    requires OnlyInfections(d) && LegalEvents(es, now)
    requires var s := ServiceRun(d, Start(ttl, now), es);
             && i < |s.scans| && s.scans[i].stage.Answered?
             && s.scans[i].stage.response.Verdict? && s.scans[i].stage.response.status.Clean?
    ensures var verdict := d.manual(ServiceRun(d, Start(ttl, now), es).scans[i].run);
            verdict.Some? && verdict.value.0.Clean?
  {
    RunKeepsServiceInv(d, Start(ttl, now), es);
    var s := ServiceRun(d, Start(ttl, now), es);
    assert Justified(d, s.cache, s.scans[i]);
  }

  /** Fail closed: whatever logs say, rivals take or timers do, a scan that answers clean had its own manual
      scan finish clean. */
  lemma CleanMeansScannedClean(engine: Engine, abs: string -> string, ttl: int, now: int, es: seq<ServiceEvent>, i: nat)
    requires LegalEvents(es, now)
    requires var s := ServiceRun(DriverOf(engine, abs), Start(ttl, now), es);
             && i < |s.scans| && s.scans[i].stage.Answered?
             && s.scans[i].stage.response.Verdict? && s.scans[i].stage.response.status.Clean?
    ensures var run := ServiceRun(DriverOf(engine, abs), Start(ttl, now), es).scans[i].run;
            && run.Exited? && run.exitCode == 0
            && (engine.TrendMicro? ==> run.report.Some? && FinishedClean(run.report.value, 0))
            && (engine.ClamAV? ==>
                  forall a: nat, b: nat, c: nat, e: nat :: !ClamMatches(TrimSpace(run.stdout), a, b, c, e))
  {
    DriversReportOnlyInfections(engine, abs);
    CleanIsManual(DriverOf(engine, abs), ttl, now, es, i);
    CleanVerdictMeans(engine, ServiceRun(DriverOf(engine, abs), Start(ttl, now), es).scans[i].run);
  }

  lemma CleanVerdictMeans(engine: Engine, run: ToolRun)
    requires ManualVerdict(engine, run).Some? && ManualVerdict(engine, run).value.0.Clean?
    ensures run.Exited? && run.exitCode == 0
    ensures engine.TrendMicro? ==> run.report.Some? && FinishedClean(run.report.value, 0)
    ensures engine.ClamAV? ==> forall a: nat, b: nat, c: nat, e: nat :: !ClamMatches(TrimSpace(run.stdout), a, b, c, e)
  {
  }

  /** Some event of the run is the log line the record came from. */
  ghost predicate HasItsLine(es: seq<ServiceEvent>, r: AddRecord) {
    exists n :: 0 <= n < |es| && es[n] == LogLine(r.at, r.detection.raw)
  }

  lemma ServiceStepExtends(d: Driver, s: Service, e: ServiceEvent)
    ensures Extends(s.cache, ServiceStep(d, s, e).cache)
  {
    match e {
      case LogLine(now, line) =>
        if d.detect(line).Some? {
          WorldStepExtends(s.cache, Add(now, d.abs(d.detect(line).value.filePath), d.detect(line).value));
        }
      case BeginWatch(now, i) =>
        if i < |s.scans| && s.scans[i].stage.AboutToWatch? {
          WorldStepExtends(s.cache, StartWait(now, d.abs(s.scans[i].filePath), s.scans[i].stage.remaining));
        }
      case CacheStep(c) => WorldStepExtends(s.cache, c);
      case _ => assert ServiceStep(d, s, e).cache == s.cache.(clock := e.now);
    }
  }

  lemma {:induction false} ServiceRunExtends(d: Driver, s: Service, es: seq<ServiceEvent>)
    ensures Extends(s.cache, ServiceRun(d, s, es).cache)
    decreases |es|
  {
    if es != [] {
      ServiceStepExtends(d, s, es[0]);
      ServiceRunExtends(d, ServiceStep(d, s, es[0]), es[1..]);
    }
  }

  /** Whatever the run, only its own log lines add to the cache. */
  lemma {:induction false} NewRecordsHaveLines(d: Driver, s: Service, es: seq<ServiceEvent>, k: nat)
    requires OnlyInfections(d) && |s.cache.history| <= k < |ServiceRun(d, s, es).cache.history|
    ensures HasItsLine(es, ServiceRun(d, s, es).cache.history[k])
    decreases |es|
  {
    var s1, end := ServiceStep(d, s, es[0]), ServiceRun(d, s, es);
    if k < |s1.cache.history| {
      ServiceRunExtends(d, s1, es[1..]);
      assert end.cache.history[k].(fate := Resident) == s1.cache.history[k].(fate := Resident);
      assert es[0] == LogLine(end.cache.history[k].at, end.cache.history[k].detection.raw);
    } else {
      NewRecordsHaveLines(d, s1, es[1..], k);
      var n :| 0 <= n < |es[1..]| && es[1..][n] == LogLine(end.cache.history[k].at, end.cache.history[k].detection.raw);
      assert es[n + 1] == es[1..][n];
    }
  }

  /** A real-time infection rests on a log line of the run that reports this very file with this signature, and that
      no other call or scan has used. */
  lemma RealTimeInfectionHasItsLine(d: Driver, ttl: int, now: int, es: seq<ServiceEvent>, i: nat)
    requires OnlyInfections(d) && LegalEvents(es, now)
    requires AnsweredIn(ServiceRun(d, Start(ttl, now), es), i, RealTime)
    ensures var s := ServiceRun(d, Start(ttl, now), es);
            && s.scans[i].stage.response.status.Infected?
            && exists k :: 0 <= k < |s.cache.history| && RestsOn(d, s, i, k) && HasItsLine(es, s.cache.history[k])
  {
    RunKeepsServiceInv(d, Start(ttl, now), es);
    var s := ServiceRun(d, Start(ttl, now), es);
    assert Justified(d, s.cache, s.scans[i]) && WaitsForItsFile(d, s.cache, s.scans[i]);
    var c := s.scans[i].consumer.value;
    var k := s.cache.consumers[c].pc.id;
    assert ConsumerHolds(s.cache, c) && FateHolds(s.cache, k) && FromLog(d, s.cache.history[k]);
    forall b | 0 <= b < |s.cache.consumers| && s.cache.consumers[b].pc == Got(k) ensures b == c {
      assert ConsumerHolds(s.cache, b);
    }
    NewRecordsHaveLines(d, Start(ttl, now), es, k);
    assert RestsOn(d, s, i, k);
  }

  predicate AnsweredIn(s: Service, i: nat, phase: Phase) {
    && i < |s.scans| && s.scans[i].stage.Answered?
    && s.scans[i].stage.response.Verdict? && s.scans[i].stage.response.phase == phase
  }

  /** Detection k is a report of scan i's file, and only scan i's call has it. */
  predicate RestsOn(d: Driver, s: Service, i: nat, k: nat)
    requires i < |s.scans| && k < |s.cache.history| && s.scans[i].stage.Answered? && s.scans[i].stage.response.Verdict?
  {
    var r := s.cache.history[k];
    var report := d.detect(r.detection.raw);
    && report.Some? && d.abs(report.value.filePath) == d.abs(s.scans[i].filePath)
    && report.value.signature == s.scans[i].stage.response.signature
    && r.at <= s.cache.clock
    && s.scans[i].consumer.Some? && r.fate == Delivered(s.scans[i].consumer.value)
    && (forall c :: 0 <= c < |s.cache.consumers| && s.cache.consumers[c].pc == Got(k) ==>
          s.scans[i].consumer == Some(c))
    && (forall j :: 0 <= j < |s.scans| && j != i ==> s.scans[j].consumer != s.scans[i].consumer)
  }

  /** A scan fails only with no manual verdict, after waiting to the end of its budget, and with nothing left for it:
      every detection of its file from before its last look went to another call, was replaced by a newer one, or
      expired, and then after the budget if detections are kept that long. */
  lemma FailureWaitsOutTheBudget(d: Driver, ttl: int, now: int, es: seq<ServiceEvent>, i: nat)
    requires OnlyInfections(d) && LegalEvents(es, now)
    requires var s := ServiceRun(d, Start(ttl, now), es);
             i < |s.scans| && s.scans[i].stage.Answered? && s.scans[i].stage.response.Failed?
    ensures var s := ServiceRun(d, Start(ttl, now), es);
            var k := s.scans[i];
            && d.manual(k.run).None?
            && k.consumer.Some? && k.consumer.value < |s.cache.consumers|
            && (var call := s.cache.consumers[k.consumer.value];
                && call.pc.Missed? && Max(k.start + k.budget, k.ended) <= call.pc.at <= s.cache.clock
                && call.since <= call.pc.channel
                && forall h :: 0 <= h < |s.cache.history| ==>
                     (h < call.pc.channel && s.cache.history[h].path == d.abs(k.filePath) ==> LostTo(s, ttl, k, h)))
  {
    RunKeepsServiceInv(d, Start(ttl, now), es);
    TtlStays(d, Start(ttl, now), es);
    var s := ServiceRun(d, Start(ttl, now), es);
    var k := s.scans[i];
    assert Justified(d, s.cache, k) && WaitsForItsFile(d, s.cache, k);
    var c := k.consumer.value;
    assert ConsumerHolds(s.cache, c);
    forall h | 0 <= h < |s.cache.history| && h < s.cache.consumers[c].pc.channel
               && s.cache.history[h].path == d.abs(k.filePath)
      ensures LostTo(s, ttl, k, h)
    {
      assert FateHolds(s.cache, h);
      GaveUpOnNothing(s.cache, c, h);
    }
  }

  /** No scan waits longer than its budget allows: its call ends at the end of the budget, or at once if the manual scan
      used it up, later only by what passed between the end of the manual scan and the call. From then on nothing keeps
      a blocked call waiting. */
  lemma WaitEndsWithBudget(d: Driver, ttl: int, now: int, es: seq<ServiceEvent>, i: nat, t: int)
    requires OnlyInfections(d) && LegalEvents(es, now)
    requires var s := ServiceRun(d, Start(ttl, now), es); i < |s.scans| && s.scans[i].consumer.Some?
    ensures var s := ServiceRun(d, Start(ttl, now), es);
            var k, c := s.scans[i], s.scans[i].consumer.value;
            && c < |s.cache.consumers| && k.ended <= k.watched
            && s.cache.consumers[c].deadline == Max(k.start + k.budget, k.ended) + (k.watched - k.ended)
            && (IsBlocked(s.cache, c) && Max(k.start + k.budget, k.ended) + (k.watched - k.ended) <= t ==>
                  HasFailed(ServiceStep(d, s, CacheStep(TimeOut(t, c))), i))
  {
    RunKeepsServiceInv(d, Start(ttl, now), es);
    assert WaitsForItsFile(d, ServiceRun(d, Start(ttl, now), es).cache, ServiceRun(d, Start(ttl, now), es).scans[i]);
  }

  /** Where detection h went instead of to scan k. */
  predicate LostTo(s: Service, ttl: int, k: ScanState, h: nat)
    requires h < |s.cache.history|
  {
    match s.cache.history[h].fate
    case Resident => false
    case Delivered(c) => k.consumer != Some(c)
    case Overwritten(later) => h < later
    case Expired(t) => k.budget <= ttl && k.start <= s.cache.history[h].at ==> k.start + k.budget < t
  }

  /** If detections outlive the budget, one logged for a scan's file since the scan began cannot expire while the
      budget lasts: it is lost only to another call or to a newer detection of the same file. The scan has not failed
      before the budget ends, and while the detection is there and the scan waits or is about to, it can go on, and
      then answers infected with it; with a detection already in hand, it answers infected with that one. */
  lemma DetectionReachesWaitingScan(d: Driver, ttl: int, now: int, es: seq<ServiceEvent>, i: nat, k: nat,
                                    t: int, fileExists: bool)
    requires OnlyInfections(d) && LegalEvents(es, now)
    requires var s := ServiceRun(d, Start(ttl, now), es);
             && i < |s.scans| && s.scans[i].budget <= ttl
             && k < |s.cache.history| && s.cache.history[k].path == d.abs(s.scans[i].filePath)
             && s.scans[i].start <= s.cache.history[k].at && s.cache.clock <= s.scans[i].start + s.scans[i].budget
    ensures var s := ServiceRun(d, Start(ttl, now), es);
            && !s.cache.history[k].fate.Expired?
            && (s.cache.clock < s.scans[i].start + s.scans[i].budget ==> !HasFailed(s, i))
            && (HasDetection(s, i) ==>
                  var own := s.cache.consumers[s.scans[i].consumer.value].pc.id;
                  && own < |s.cache.history|
                  && AnswersInfected(ServiceStep(d, s, Conclude(t, i, fileExists)), i,
                                     s.cache.history[own].detection.signature))
            && (s.cache.history[k].fate.Resident? && s.scans[i].stage.AboutToWatch? ==>
                  AnswersInfected(Started(d, s, i, t, fileExists), i, s.cache.history[k].detection.signature))
            && (s.cache.history[k].fate.Resident? && s.scans[i].stage.Watching? ==>
                  && s.scans[i].consumer.Some?
                  && var c := s.scans[i].consumer.value;
                  && c < |s.cache.consumers|
                  && s.scans[i].start + s.scans[i].budget <= s.cache.consumers[c].deadline
                  && (IsBlocked(s.cache, c) ==> MayWake(s.cache, c))
                  && (IsBlocked(s.cache, c) || IsChecking(s.cache, c) ==>
                        AnswersInfected(Resumed(d, s, i, c, t, fileExists), i, s.cache.history[k].detection.signature)))
  {
    RunKeepsServiceInv(d, Start(ttl, now), es);
    TtlStays(d, Start(ttl, now), es);
    var s := ServiceRun(d, Start(ttl, now), es);
    assert FateHolds(s.cache, k);
    assert WaitsForItsFile(d, s.cache, s.scans[i]);
    if s.scans[i].consumer.Some? {
      assert ConsumerHolds(s.cache, s.scans[i].consumer.value);
    }
    if HasDetection(s, i) {
      OwnDetectionAnswers(d, s, i, t, fileExists);
    }
    if s.cache.history[k].fate.Resident? {
      ResidentDetectionAnswers(d, s, i, k, t, fileExists);
    }
  }

  lemma OwnDetectionAnswers(d: Driver, s: Service, i: nat, t: int, fileExists: bool)
    requires ServiceInv(d, s) && HasDetection(s, i)
    ensures var own := s.cache.consumers[s.scans[i].consumer.value].pc.id;
            && own < |s.cache.history|
            && AnswersInfected(ServiceStep(d, s, Conclude(t, i, fileExists)), i,
                               s.cache.history[own].detection.signature)
  {
    var c := s.scans[i].consumer.value;
    assert ConsumerHolds(s.cache, c);
    assert FromLog(d, s.cache.history[s.cache.consumers[c].pc.id]);
  }

  lemma ResidentDetectionAnswers(d: Driver, s: Service, i: nat, k: nat, t: int, fileExists: bool)
    requires ServiceInv(d, s) && i < |s.scans| && k < |s.cache.history| && s.cache.history[k].fate.Resident?
    requires s.cache.history[k].path == d.abs(s.scans[i].filePath)
    ensures s.scans[i].stage.AboutToWatch? ==>
              AnswersInfected(Started(d, s, i, t, fileExists), i, s.cache.history[k].detection.signature)
    ensures s.scans[i].stage.Watching? ==>
              && s.scans[i].consumer.Some?
              && var c := s.scans[i].consumer.value;
              && (IsBlocked(s.cache, c) ==> MayWake(s.cache, c))
              && (IsBlocked(s.cache, c) || IsChecking(s.cache, c) ==>
                    AnswersInfected(Resumed(d, s, i, c, t, fileExists), i, s.cache.history[k].detection.signature))
  {
    assert Justified(d, s.cache, s.scans[i]) && WaitsForItsFile(d, s.cache, s.scans[i]);
    assert FromLog(d, s.cache.history[k]) && HeldAt(s.cache, s.cache.history[k].path);
    if s.scans[i].stage.Watching? {
      var c := s.scans[i].consumer.value;
      assert ConsumerHolds(s.cache, c);
      if IsBlocked(s.cache, c) || IsChecking(s.cache, c) {
        WakeCheckConclude(d, s, i, k, c, t, fileExists);
      }
    } else if s.scans[i].stage.AboutToWatch? {
      WatchCheckConclude(d, s, i, k, t, fileExists);
    }
  }

  /** Scan i's call ended without a detection, whether or not the scan has answered yet. */
  predicate HasFailed(s: Service, i: nat) {
    && i < |s.scans| && s.scans[i].consumer.Some? && s.scans[i].consumer.value < |s.cache.consumers|
    && s.cache.consumers[s.scans[i].consumer.value].pc.Missed?
  }

  /** Scan i's call ended with a detection, and the scan has not answered yet. */
  predicate HasDetection(s: Service, i: nat) {
    && InStage(s, i, Watching) && s.scans[i].consumer.Some? && s.scans[i].consumer.value < |s.cache.consumers|
    && s.cache.consumers[s.scans[i].consumer.value].pc.Got?
  }

  lemma WatchCheckConclude(d: Driver, s: Service, i: nat, k: nat, t: int, fileExists: bool)
    requires i < |s.scans| && s.scans[i].stage.AboutToWatch?
    requires var path := d.abs(s.scans[i].filePath);
             path in s.cache.store.detections && s.cache.store.detections[path].id == k
    requires k < |s.cache.history| && s.cache.history[k].detection.status == INFECTED
    ensures AnswersInfected(Started(d, s, i, t, fileExists), i, s.cache.history[k].detection.signature)
  {
    var s1 := ServiceStep(d, s, BeginWatch(t, i));
    WakeCheckConclude(d, s1, i, k, |s.cache.consumers|, t, fileExists);
    assert ServiceStep(d, s1, CacheStep(Wake(t, |s.cache.consumers|))) == s1;
  }

  lemma WakeCheckConclude(d: Driver, s: Service, i: nat, k: nat, c: nat, t: int, fileExists: bool)
    requires i < |s.scans| && s.scans[i].stage.Watching? && s.scans[i].consumer == Some(c)
    requires MayWake(s.cache, c) || IsChecking(s.cache, c)
    requires var path := s.cache.consumers[c].path;
             path in s.cache.store.detections && s.cache.store.detections[path].id == k
    requires k < |s.cache.history| && s.cache.history[k].detection.status == INFECTED
    ensures AnswersInfected(Resumed(d, s, i, c, t, fileExists), i, s.cache.history[k].detection.signature)
  {
    var s1 := ServiceStep(d, s, CacheStep(Wake(t, c)));
    var s2 := ServiceStep(d, s1, CacheStep(Check(t, c)));
    assert s2.cache.consumers[c].pc == Got(k);
    assert s2.cache.history[k].detection == s.cache.history[k].detection;
  }

  /** Scan i's call c goes on, checks, and the scan concludes. */
  function Resumed(d: Driver, s: Service, i: nat, c: nat, t: int, fileExists: bool): Service {
    Ending(d, ServiceStep(d, s, CacheStep(Wake(t, c))), i, c, t, fileExists)
  }

  /** Scan i calls Wait, which checks, and the scan concludes. */
  function Started(d: Driver, s: Service, i: nat, t: int, fileExists: bool): Service {
    Ending(d, ServiceStep(d, s, BeginWatch(t, i)), i, |s.cache.consumers|, t, fileExists)
  }

  function Ending(d: Driver, s: Service, i: nat, c: nat, t: int, fileExists: bool): Service {
    ServiceStep(d, ServiceStep(d, s, CacheStep(Check(t, c))), Conclude(t, i, fileExists))
  }

  predicate AnswersInfected(s: Service, i: nat, signature: string) {
    InStage(s, i, Answered(Verdict(Infected, signature, RealTime)))
  }

  lemma {:induction false} TtlStays(d: Driver, s: Service, es: seq<ServiceEvent>)
    ensures ServiceRun(d, s, es).cache.store.ttl == s.cache.store.ttl
    decreases |es|
  {
    if es != [] {
      TtlStays(d, ServiceStep(d, s, es[0]), es[1..]);
    }
  }

  // ---- The method is a run of the machine ----

  /** What others add to the cache is what the log watcher reads from their lines. */
  predicate Reported(d: Driver, e: CacheEvent) {
    e.Add? ==> d.detect(e.detection.raw) == Some(e.detection) && e.path == d.abs(e.detection.filePath)
  }

  predicate OthersReported(d: Driver, others: seq<Other>) {
    forall j :: 0 <= j < |others| ==> Reported(d, OtherEvent(others[j]))
  }

  predicate StaysReported(d: Driver, stays: seq<Stay>) {
    forall i :: 0 <= i < |stays| ==> OthersReported(d, stays[i].others)
  }

  predicate AllReported(d: Driver, es: seq<CacheEvent>) {
    forall n :: 0 <= n < |es| ==> Reported(d, es[n])
  }

  /** Steps of the cache as events of the service: an Add is the log watcher's. */
  function AsServiceEvents(es: seq<CacheEvent>): seq<ServiceEvent> {
    if es == [] then [] else
    [if es[0].Add? then LogLine(es[0].now, es[0].detection.raw) else CacheStep(es[0])] + AsServiceEvents(es[1..])
  }

  /** The log watcher's method, as events of the service: each line is one, lost lines are none. */
  function LinesOf(items: seq<TailItem>): seq<ServiceEvent> {
    if items == [] then [] else
    (if items[0].Lost? then [] else [LogLine(items[0].now, items[0].text)]) + LinesOf(items[1..])
  }

  lemma LogLineIsLogged(engine: Engine, abs: string -> string, s: Service, line: string, now: int)
    ensures ServiceStep(DriverOf(engine, abs), s, LogLine(now, line)).cache.store
            == Logged(ReaderOf(engine), abs, s.cache.store, line, now)
  {
  }

  /** WatchLog's method does to the cache what these events do. */
  lemma {:induction false} WatchLogIsARun(engine: Engine, abs: string -> string, s: Service, items: seq<TailItem>)
    ensures ServiceRun(DriverOf(engine, abs), s, LinesOf(items)).cache.store
            == LoggedAll(ReaderOf(engine), abs, s.cache.store, items)
    decreases |items|
  {
    if items != [] {
      if items[0].Lost? {
        assert LinesOf(items) == LinesOf(items[1..]);
        WatchLogIsARun(engine, abs, s, items[1..]);
      } else {
        var e := LogLine(items[0].now, items[0].text);
        assert LinesOf(items)[0] == e && LinesOf(items)[1..] == LinesOf(items[1..]);
        LogLineIsLogged(engine, abs, s, items[0].text, items[0].now);
        WatchLogIsARun(engine, abs, ServiceStep(DriverOf(engine, abs), s, e), items[1..]);
      }
    }
  }

  lemma {:induction false} CacheRunInService(d: Driver, s: Service, es: seq<CacheEvent>)
    requires AllReported(d, es)
    ensures ServiceRun(d, s, AsServiceEvents(es)) == s.(cache := WorldRun(s.cache, es))
    decreases |es|
  {
    if es != [] {
      var all := AsServiceEvents(es);
      assert Reported(d, es[0]) && AllReported(d, es[1..]);
      assert all[1..] == AsServiceEvents(es[1..]);
      assert ServiceStep(d, s, all[0]) == s.(cache := WorldStep(s.cache, es[0]));
      CacheRunInService(d, ServiceStep(d, s, all[0]), es[1..]);
    }
  }

  lemma {:induction false} OtherEventsReported(d: Driver, others: seq<Other>)
    requires OthersReported(d, others)
    ensures AllReported(d, OtherEvents(others))
    decreases |others|
  {
    if others != [] {
      assert OthersReported(d, others[1..]) && Reported(d, OtherEvent(others[0]));
      OtherEventsReported(d, others[1..]);
    }
  }

  lemma {:induction false} WaitEventsReported(d: Driver, s: Store, c: nat, path: string, stays: seq<Stay>, now: int)
    requires StaysReported(d, stays)
    ensures AllReported(d, WaitEvents(s, c, path, stays, now))
    decreases |stays|
  {
    if path !in s.detections && stays != [] {
      OtherEventsReported(d, stays[0].others);
      assert StaysReported(d, stays[1..]);
      WaitEventsReported(d, OthersRun(s, stays[0].others), c, path, stays[1..], stays[0].until);
    }
  }

  lemma {:induction false} ServiceRunAppends(d: Driver, s: Service, es: seq<ServiceEvent>, fs: seq<ServiceEvent>)
    ensures ServiceRun(d, s, es + fs) == ServiceRun(d, ServiceRun(d, s, es), fs)
    decreases |es|
  {
    if es == [] {
      assert es + fs == fs;
    } else {
      ServiceRunAppends(d, ServiceStep(d, s, es[0]), es[1..], fs);
      assert (es + fs)[1..] == es[1..] + fs;
    }
  }

  /** What one Scan depends on: method Scan's inputs, and when it concludes. */
  datatype ScanInputs = ScanInputs(
    filePath: string, budget: int, start: int, run: ToolRun, during: seq<Other>, ended: int,
    watchStart: int, stays: seq<Stay>, concluded: int, fileExists: bool)

  function WatchDeadline(x: ScanInputs): int {
    Max(x.start + x.budget, x.ended) + (x.watchStart - x.ended)
  }

  /** The answer and the store of method Scan's contract, from a store. */
  function OutcomeOf(d: Driver, store: Store, x: ScanInputs): (Response, Store) {
    ScanOutcome(d.manual(x.run), OthersRun(store, x.during), d.abs(x.filePath), x.stays, x.fileExists)
  }

  /** The inputs that Scan's contract and the log watcher allow, when the cache holds that store. */
  predicate ScanCanEnd(d: Driver, store: Store, x: ScanInputs) {
    && OthersReported(d, x.during) && StaysReported(d, x.stays) && Possible(x.stays, WatchDeadline(x))
    && (d.manual(x.run).None? ==>
          !WaitFrom(OthersRun(store, x.during), d.abs(x.filePath), x.stays).0.StillBlocked?)
  }

  /** A new scan up to the end of its manual scan, with what others do to the cache meanwhile. */
  function ManualEvents(s: Service, x: ScanInputs): seq<ServiceEvent> {
    [BeginScan(x.start, x.filePath, x.budget)]
    + (AsServiceEvents(OtherEvents(x.during)) + [ManualEnds(x.ended, |s.scans|, x.run)])
  }

  /** Scan i's wait, with what others do meanwhile, and its conclusion. */
  function WatchEvents(d: Driver, s: Service, i: nat, x: ScanInputs): seq<ServiceEvent> {
    var wait := WaitEvents(s.cache.store, |s.cache.consumers|, d.abs(x.filePath), x.stays, x.watchStart);
    [BeginWatch(x.watchStart, i)] + (AsServiceEvents(wait) + [Conclude(x.concluded, i, x.fileExists)])
  }

  /** All events of one Scan. */
  function ScanEvents(d: Driver, s: Service, x: ScanInputs): seq<ServiceEvent> {
    var manual := ManualEvents(s, x);
    manual + if d.manual(x.run).Some? then [] else WatchEvents(d, ServiceRun(d, s, manual), |s.scans|, x)
  }

  lemma RunOfThree(d: Driver, s: Service, first: ServiceEvent, es: seq<CacheEvent>, last: ServiceEvent)
    requires AllReported(d, es)
    ensures var s1 := ServiceStep(d, s, first);
            ServiceRun(d, s, [first] + (AsServiceEvents(es) + [last]))
            == ServiceStep(d, s1.(cache := WorldRun(s1.cache, es)), last)
  {
    var s1, rest := ServiceStep(d, s, first), AsServiceEvents(es) + [last];
    assert ([first] + rest)[0] == first && ([first] + rest)[1..] == rest;
    ServiceRunAppends(d, s1, AsServiceEvents(es), [last]);
    CacheRunInService(d, s1, es);
    assert [last][1..] == [];
  }

  lemma ManualEventsEnd(d: Driver, s: Service, x: ScanInputs)
    requires Recorded(s.cache) && OthersReported(d, x.during)
    ensures var s' := ServiceRun(d, s, ManualEvents(s, x));
            && s'.cache.store == OthersRun(s.cache.store, x.during) && Recorded(s'.cache)
            && |s'.scans| == |s.scans| + 1 && s'.scans[|s.scans|].filePath == x.filePath
            && s'.scans[|s.scans|].stage ==
               var v := d.manual(x.run);
               if v.Some? then Answered(Verdict(v.value.0, v.value.1, Manual))
               else AboutToWatch(Max(x.start + x.budget, x.ended) - x.ended)
  {
    var es := OtherEvents(x.during);
    OtherEventsReported(d, x.during);
    RunOfThree(d, s, BeginScan(x.start, x.filePath, x.budget), es, ManualEnds(x.ended, |s.scans|, x.run));
    var w := s.cache.(clock := x.start);
    OthersChangeStore(w, x.during);
    RunKeepsRecorded(w, es);
  }

  lemma WatchEventsEnd(d: Driver, s: Service, i: nat, x: ScanInputs)
    requires Recorded(s.cache) && StaysReported(d, x.stays) && Possible(x.stays, WatchDeadline(x))
    requires i < |s.scans| && s.scans[i].filePath == x.filePath
    requires s.scans[i].stage == AboutToWatch(Max(x.start + x.budget, x.ended) - x.ended)
    requires !WaitFrom(s.cache.store, d.abs(x.filePath), x.stays).0.StillBlocked?
    ensures var s' := ServiceRun(d, s, WatchEvents(d, s, i, x));
            var (response, store) := ScanOutcome(None, s.cache.store, d.abs(x.filePath), x.stays, x.fileExists);
            && InStage(s', i, Answered(response)) && s'.cache.store == store
            && |s'.scans| == |s.scans| && s'.scans[i].filePath == x.filePath
  {
    var path, c := d.abs(x.filePath), |s.cache.consumers|;
    var es := WaitEvents(s.cache.store, c, path, x.stays, x.watchStart);
    WaitEventsReported(d, s.cache.store, c, path, x.stays, x.watchStart);
    RunOfThree(d, s, BeginWatch(x.watchStart, i), es, Conclude(x.concluded, i, x.fileExists));
    var s1 := ServiceStep(d, s, BeginWatch(x.watchStart, i));
    StepKeepsRecorded(s.cache, StartWait(x.watchStart, path, s.scans[i].stage.remaining));
    WaitRuns(s1.cache, c, x.stays, x.watchStart);
    var found := WaitFrom(s.cache.store, path, x.stays).0;
    ConcludeAnswers(d, s1.(cache := WorldRun(s1.cache, es)), i, c, found, x.concluded, x.fileExists);
  }

  lemma ConcludeAnswers(d: Driver, s: Service, i: nat, c: nat, found: WaitResult, concluded: int, fileExists: bool)
    requires i < |s.scans| && s.scans[i].stage == Watching && s.scans[i].consumer == Some(c) && c < |s.cache.consumers|
    requires Ended(found, s.cache.consumers[c].pc) && GotThis(s.cache, found) && !found.StillBlocked?
    ensures var s', signature := ServiceStep(d, s, Conclude(concluded, i, fileExists)), WatchResult(found);
            var response := if signature.Some? then Verdict(Infected, signature.value, RealTime)
                            else Failed(fileExists);
            && InStage(s', i, Answered(response)) && s'.cache.store == s.cache.store
            && |s'.scans| == |s.scans| && s'.scans[i].filePath == s.scans[i].filePath
  {
  }

  // ---- A run in the order of its inputs is legal ----

  function EndClock(es: seq<ServiceEvent>, now: int): int
    decreases |es|
  {
    if es == [] then now else EndClock(es[1..], EventTime(es[0]))
  }

  lemma {:induction false} LegalEventsAppend(es: seq<ServiceEvent>, fs: seq<ServiceEvent>, now: int)
    requires LegalEvents(es, now) && LegalEvents(fs, EndClock(es, now))
    ensures LegalEvents(es + fs, now) && EndClock(es + fs, now) == EndClock(fs, EndClock(es, now))
    decreases |es|
  {
    if es == [] {
      assert es + fs == fs;
    } else {
      assert (es + fs)[0] == es[0] && (es + fs)[1..] == es[1..] + fs;
      LegalEventsAppend(es[1..], fs, EventTime(es[0]));
    }
  }

  lemma {:induction false} ClockFollowsEvents(d: Driver, s: Service, es: seq<ServiceEvent>)
    requires LegalEvents(es, s.cache.clock)
    ensures ServiceRun(d, s, es).cache.clock == EndClock(es, s.cache.clock)
    decreases |es|
  {
    if es != [] {
      var s' := ServiceStep(d, s, es[0]);
      assert s'.cache.clock == EventTime(es[0]);
      ClockFollowsEvents(d, s', es[1..]);
    }
  }

  lemma {:induction false} CacheEventsAreLegal(es: seq<CacheEvent>, now: int)
    requires ClockRuns(es, now)
    ensures LegalEvents(AsServiceEvents(es), now) && EndClock(AsServiceEvents(es), now) == LastClock(es, now)
    decreases |es|
  {
    if es != [] {
      CacheEventsAreLegal(es[1..], es[0].now);
      assert AsServiceEvents(es)[1..] == AsServiceEvents(es[1..]);
    }
  }

  lemma LegalThree(first: ServiceEvent, es: seq<CacheEvent>, last: ServiceEvent, now: int)
    requires !first.CacheStep? && !last.CacheStep? && now <= first.now
    requires ClockRuns(es, first.now) && LastClock(es, first.now) <= last.now
    ensures var all := [first] + (AsServiceEvents(es) + [last]); LegalEvents(all, now) && EndClock(all, now) == last.now
  {
    var rest := AsServiceEvents(es) + [last];
    CacheEventsAreLegal(es, first.now);
    assert [last][1..] == [];
    LegalEventsAppend(AsServiceEvents(es), [last], first.now);
    assert ([first] + rest)[0] == first && ([first] + rest)[1..] == rest;
  }

  /** The inputs are in the order of their times, from `clock` on. */
  predicate ScanInOrder(clock: int, x: ScanInputs) {
    && clock <= x.start && OthersInOrder(x.during, x.start, x.ended) && x.ended <= x.watchStart
    && StaysInOrder(x.stays, x.watchStart) && StaysEnd(x.stays, x.watchStart) <= x.concluded
  }

  lemma ScanEventsAreLegal(d: Driver, s: Service, x: ScanInputs)
    requires ScanInOrder(s.cache.clock, x)
    ensures LegalEvents(ScanEvents(d, s, x), s.cache.clock)
  {
    var manual, i := ManualEvents(s, x), |s.scans|;
    OtherEventsInOrder(x.during, x.start, x.ended);
    LegalThree(BeginScan(x.start, x.filePath, x.budget), OtherEvents(x.during), ManualEnds(x.ended, i, x.run),
               s.cache.clock);
    if d.manual(x.run).Some? {
      assert manual + [] == manual;
    } else {
      var s1 := ServiceRun(d, s, manual);
      var wait := WaitEvents(s1.cache.store, |s1.cache.consumers|, d.abs(x.filePath), x.stays, x.watchStart);
      WaitEventsInOrder(s1.cache.store, |s1.cache.consumers|, d.abs(x.filePath), x.stays, x.watchStart);
      LegalThree(BeginWatch(x.watchStart, i), wait, Conclude(x.concluded, i, x.fileExists), x.ended);
      LegalEventsAppend(manual, WatchEvents(d, s1, i, x), s.cache.clock);
    }
  }

  /** Method Scan, with everything others do to the cache while it runs, is a run of this machine: from any state of the
      service, a new scan with the same inputs ends with the answer and the store of Scan's contract. With its inputs in
      the order of their times the run is legal, so that all that is proved of legal runs holds of it. */
  lemma ScanIsARun(d: Driver, s: Service, x: ScanInputs)
    requires Recorded(s.cache) && ScanCanEnd(d, s.cache.store, x)
    ensures var s' := ServiceRun(d, s, ScanEvents(d, s, x));
            var (response, store) := OutcomeOf(d, s.cache.store, x);
            && |s'.scans| == |s.scans| + 1 && InStage(s', |s.scans|, Answered(response)) && s'.cache.store == store
            && s'.scans[|s.scans|].filePath == x.filePath
    ensures ScanInOrder(s.cache.clock, x) ==> LegalEvents(ScanEvents(d, s, x), s.cache.clock)
  {
    var manual := ManualEvents(s, x);
    var s1 := ServiceRun(d, s, manual);
    ManualEventsEnd(d, s, x);
    if d.manual(x.run).Some? {
      assert manual + [] == manual;
    } else {
      WatchEventsEnd(d, s1, |s.scans|, x);
      ServiceRunAppends(d, s, manual, WatchEvents(d, s1, |s.scans|, x));
    }
    if ScanInOrder(s.cache.clock, x) {
      ScanEventsAreLegal(d, s, x);
    }
  }

  /** Some log line among the events reports this file with this signature. */
  ghost predicate LineReports(d: Driver, es: seq<ServiceEvent>, path: string, signature: string) {
    exists n :: 0 <= n < |es| && es[n].LogLine? && Reports(d, es[n].line, path, signature)
  }

  predicate Reports(d: Driver, line: string, path: string, signature: string) {
    var r := d.detect(line);
    r.Some? && d.abs(r.value.filePath) == path && r.value.signature == signature
  }

  /** End to end, for method Scan: after any legal history of the service, with everything others do meanwhile in the
      order of its times, a real-time infection that Scan returns has a log line, in the history or in its own time,
      that reports this very file with this signature; any other verdict is the engine's own. */
  lemma ScanVerdictHasItsEvidence(d: Driver, ttl: int, now: int, history: seq<ServiceEvent>, x: ScanInputs)
    requires OnlyInfections(d) && LegalEvents(history, now) && ScanInOrder(EndClock(history, now), x)
    requires var store := ServiceRun(d, Start(ttl, now), history).cache.store;
             ScanCanEnd(d, store, x) && OutcomeOf(d, store, x).0.Verdict?
    ensures var s := ServiceRun(d, Start(ttl, now), history);
            var Verdict(status, signature, phase) := OutcomeOf(d, s.cache.store, x).0;
            if phase.RealTime?
            then status.Infected? && LineReports(d, history + ScanEvents(d, s, x), d.abs(x.filePath), signature)
            else d.manual(x.run) == Some((status, signature))
  {
    var s := ServiceRun(d, Start(ttl, now), history);
    var es := ScanEvents(d, s, x);
    if OutcomeOf(d, s.cache.store, x).0.phase.RealTime? {
      RunKeepsServiceInv(d, Start(ttl, now), history);
      StoredIsRecorded(s.cache);
      ClockFollowsEvents(d, Start(ttl, now), history);
      ScanIsARun(d, s, x);
      LegalEventsAppend(history, es, now);
      ServiceRunAppends(d, Start(ttl, now), history, es);
      LineBehindAnswer(d, ttl, now, history + es, |s.scans|);
    }
  }

  lemma StoredIsRecorded(w: World)
    requires WorldInv(w)
    ensures Recorded(w)
  {
    forall p | p in w.store.detections
      ensures w.store.detections[p].id < |w.history|
      ensures w.history[w.store.detections[p].id].detection == w.store.detections[p].detection
    {
      assert HeldAt(w, p);
    }
  }

  lemma LineBehindAnswer(d: Driver, ttl: int, now: int, es: seq<ServiceEvent>, i: nat)
    requires OnlyInfections(d) && LegalEvents(es, now) && AnsweredIn(ServiceRun(d, Start(ttl, now), es), i, RealTime)
    ensures var k := ServiceRun(d, Start(ttl, now), es).scans[i];
            LineReports(d, es, d.abs(k.filePath), k.stage.response.signature)
  {
    RealTimeInfectionHasItsLine(d, ttl, now, es, i);
    var s := ServiceRun(d, Start(ttl, now), es);
    var k :| 0 <= k < |s.cache.history| && RestsOn(d, s, i, k) && HasItsLine(es, s.cache.history[k]);
    var r := s.cache.history[k];
    var n :| 0 <= n < |es| && es[n] == LogLine(r.at, r.detection.raw);
    assert Reports(d, es[n].line, d.abs(s.scans[i].filePath), s.scans[i].stage.response.signature);
  }

  // ---- Delivery, when the timer never beats a closed channel ----

  /** In the run, every timeout comes while the waiter's channel is still open. */
  predicate TimerNeverBeatsChannel(d: Driver, s: Service, es: seq<ServiceEvent>)
    decreases |es|
  {
    es == []
    || ((es[0].CacheStep? && es[0].event.TimeOut? ==> !MayWake(s.cache, es[0].event.consumer))
        && TimerNeverBeatsChannel(d, ServiceStep(d, s, es[0]), es[1..]))
  }

  /** Whoever gave up had seen everything added before that. */
  predicate GaveUpInformed(w: World) {
    forall c, h :: 0 <= c < |w.consumers| && 0 <= h < |w.history| ==>
      (w.consumers[c].pc.Missed? && w.consumers[c].pc.channel <= h ==> w.consumers[c].pc.at <= w.history[h].at)
  }

  lemma CacheStepKeepsInformed(w: World, e: CacheEvent)
    requires WorldInv(w) && w.clock <= e.now && GaveUpInformed(w)
    requires e.TimeOut? ==> !MayWake(w, e.consumer)
    ensures GaveUpInformed(WorldStep(w, e))
  {
    var w' := WorldStep(w, e);
    forall c, h | 0 <= c < |w'.consumers| && w'.consumers[c].pc.Missed? && 0 <= h < |w'.history|
                  && w'.consumers[c].pc.channel <= h
      ensures w'.consumers[c].pc.at <= w'.history[h].at
    {
      WorldStepExtends(w, e);
      if c < |w.consumers| {
        assert ConsumerHolds(w, c);
      }
      assert h < |w.history| ==> w'.history[h].(fate := Resident) == w.history[h].(fate := Resident);
    }
  }

  lemma StepKeepsInformed(d: Driver, s: Service, e: ServiceEvent)
    requires ServiceInv(d, s) && Legal(e, s.cache.clock) && GaveUpInformed(s.cache)
    requires e.CacheStep? && e.event.TimeOut? ==> !MayWake(s.cache, e.event.consumer)
    ensures GaveUpInformed(ServiceStep(d, s, e).cache)
  {
    match e {
      case LogLine(now, line) =>
        if d.detect(line).Some? {
          CacheStepKeepsInformed(s.cache, Add(now, d.abs(d.detect(line).value.filePath), d.detect(line).value));
        }
      case BeginWatch(now, i) =>
        if i < |s.scans| && s.scans[i].stage.AboutToWatch? {
          CacheStepKeepsInformed(s.cache, StartWait(now, d.abs(s.scans[i].filePath), s.scans[i].stage.remaining));
        }
      case CacheStep(c) => CacheStepKeepsInformed(s.cache, c);
      case _ =>
    }
  }

  lemma {:induction false} RunKeepsInformed(d: Driver, s: Service, es: seq<ServiceEvent>)
    requires ServiceInv(d, s) && LegalEvents(es, s.cache.clock) && GaveUpInformed(s.cache)
    requires TimerNeverBeatsChannel(d, s, es)
    ensures GaveUpInformed(ServiceRun(d, s, es).cache)
    decreases |es|
  {
    if es != [] {
      StepKeepsServiceInv(d, s, es[0]);
      StepKeepsInformed(d, s, es[0]);
      RunKeepsInformed(d, ServiceStep(d, s, es[0]), es[1..]);
    }
  }

  /** Then delivery is certain: a scan fails only if every detection of its file that was logged before it gave up went
      to another call, was replaced, or expired, after the budget if the ttl covers it. So that race is the only way
      to miss one. */
  lemma DeliveryIsCertainWithoutRace(d: Driver, ttl: int, now: int, es: seq<ServiceEvent>, i: nat, h: nat)
    requires OnlyInfections(d) && LegalEvents(es, now) && TimerNeverBeatsChannel(d, Start(ttl, now), es)
    requires var s := ServiceRun(d, Start(ttl, now), es);
             && i < |s.scans| && s.scans[i].stage.Answered? && s.scans[i].stage.response.Failed?
             && h < |s.cache.history| && s.cache.history[h].path == d.abs(s.scans[i].filePath)
             && HasFailed(s, i) && s.cache.history[h].at < s.cache.consumers[s.scans[i].consumer.value].pc.at
    ensures LostTo(ServiceRun(d, Start(ttl, now), es), ttl, ServiceRun(d, Start(ttl, now), es).scans[i], h)
  {
    RunKeepsInformed(d, Start(ttl, now), es);
    FailureWaitsOutTheBudget(d, ttl, now, es, i);
  }
}
