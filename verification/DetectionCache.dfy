/** internal/cache/detection.go: detections keyed by absolute path, consumed by whoever takes them first,
    with waiters woken by a channel that every Add closes and replaces. */
module DetectionCache {
  import opened Common

  const DEFAULT_TTL: int := 60_000_000_000

  datatype Detection = Detection(filePath: string, status: string, signature: string, raw: string)

  // ---- The cache as a value, one function per critical section ----

  /** A stored detection with its timestamp. `id` numbers the Adds, and exists only to tell their results apart. */
  datatype Stamped = Stamped(id: nat, detection: Detection, at: int)

  /** `adds` counts the Adds so far: channel number `adds` is the open one, all earlier ones are closed. */
  datatype Store = Store(detections: map<string, Stamped>, adds: nat, ttl: int)

  function Put(s: Store, path: string, d: Detection, now: int): Store {
    s.(detections := s.detections[path := Stamped(s.adds, d, now)], adds := s.adds + 1)
  }

  function Take(s: Store, path: string): (Option<Stamped>, Store) {
    if path in s.detections then (Some(s.detections[path]), s.(detections := s.detections - {path})) else (None, s)
  }

  predicate Stale(s: Store, d: Stamped, now: int) {
    now - d.at > s.ttl
  }

  function Swept(s: Store, now: int): Store {
    s.(detections := map p | p in s.detections && !Stale(s, s.detections[p], now) :: s.detections[p])
  }

  // ---- All goroutines at once ----

  /** Where the result of an Add is. */
  datatype Fate = Resident | Delivered(consumer: nat) | Overwritten(later: nat) | Expired(at: int)

  datatype AddRecord = AddRecord(path: string, detection: Detection, at: int, fate: Fate)

  /** Blocked: waiting on the channel of that number, or the timer. Missed: gave up then, and had last checked when that
      channel was open. */
  datatype Pc = Checking | Blocked(channel: nat) | Got(id: nat) | Missed(at: int, channel: nat)

  /** A call of Wait, or of Get, which checks once. `since` is the number of Adds when it began. */
  datatype Consumer = Consumer(path: string, deadline: int, once: bool, since: nat, checks: nat, pc: Pc)

  datatype World = World(store: Store, history: seq<AddRecord>, consumers: seq<Consumer>, clock: int)

  datatype CacheEvent =
    | Add(now: int, path: string, detection: Detection)
    | Get(now: int, path: string)
    | StartWait(now: int, path: string, timeout: int)
    | Check(now: int, consumer: nat)
    | Wake(now: int, consumer: nat)
    | TimeOut(now: int, consumer: nat)
    | Cleanup(now: int)

  function EmptyWorld(ttl: int, now: int): World {
    World(Store(map[], 0, ttl), [], [], now)
  }

  function Added(w: World, now: int, path: string, d: Detection): World {
    var id := |w.history|;
    var history :=
      if path in w.store.detections && w.store.detections[path].id < id
      then w.history[w.store.detections[path].id := w.history[w.store.detections[path].id].(fate := Overwritten(id))]
      else w.history;
    w.(store := Put(w.store, path, d, now), history := history + [AddRecord(path, d, now, Resident)])
  }

  /** Consumer c's critical section. */
  function Checked(w: World, now: int, c: nat): World
    requires c < |w.consumers|
  {
    var k := w.consumers[c];
    var (found, store) := Take(w.store, k.path);
    var pc := if found.Some? then Got(found.value.id)
              else if k.once then Missed(now, w.store.adds) else Blocked(w.store.adds);
    World(store,
          if found.Some? && found.value.id < |w.history|
          then w.history[found.value.id := w.history[found.value.id].(fate := Delivered(c))] else w.history,
          w.consumers[c := k.(pc := pc, checks := k.checks + 1)],
          w.clock)
  }

  function Arrived(w: World, path: string, deadline: int, once: bool): World {
    w.(consumers := w.consumers + [Consumer(path, deadline, once, w.store.adds, 0, Checking)])
  }

  function Cleaned(w: World, now: int): World {
    w.(store := Swept(w.store, now),
       history := seq(|w.history|, i requires 0 <= i < |w.history| =>
         var r := w.history[i];
         if r.fate.Resident? && now - r.at > w.store.ttl then r.(fate := Expired(now)) else r))
  }

  predicate IsChecking(w: World, c: nat) {
    c < |w.consumers| && w.consumers[c].pc.Checking?
  }

  predicate IsBlocked(w: World, c: nat) {
    c < |w.consumers| && w.consumers[c].pc.Blocked?
  }

  /** A blocked waiter may go on when its channel is closed. */
  predicate MayWake(w: World, c: nat) {
    IsBlocked(w, c) && w.consumers[c].pc.channel < w.store.adds
  }

  predicate MayTimeOut(w: World, now: int, c: nat) {
    IsBlocked(w, c) && w.consumers[c].deadline <= now
  }

  function Effect(w: World, e: CacheEvent): World {
    match e
    case Add(now, path, d) => Added(w, now, path, d)
    case Get(now, path) => Checked(Arrived(w, path, now, true), now, |w.consumers|)
    case StartWait(now, path, timeout) => Arrived(w, path, now + timeout, false)
    case Check(now, c) => if IsChecking(w, c) then Checked(w, now, c) else w
    case Wake(_, c) => if MayWake(w, c) then w.(consumers := w.consumers[c := w.consumers[c].(pc := Checking)]) else w
    case TimeOut(now, c) =>
      if MayTimeOut(w, now, c)
      then w.(consumers := w.consumers[c := w.consumers[c].(pc := Missed(now, w.consumers[c].pc.channel))]) else w
    case Cleanup(now) => Cleaned(w, now)
  }

  function WorldStep(w: World, e: CacheEvent): World {
    Effect(w, e).(clock := e.now)
  }

  function WorldRun(w: World, es: seq<CacheEvent>): World
    decreases |es|
  {
    if es == [] then w else WorldRun(WorldStep(w, es[0]), es[1..])
  }

  predicate ClockRuns(es: seq<CacheEvent>, now: int)
    decreases |es|
  {
    es == [] || (now <= es[0].now && ClockRuns(es[1..], es[0].now))
  }

  // ---- Invariant ----

  /** The map holds exactly the results that are nowhere else. */
  ghost predicate StoreInv(w: World) {
    && |w.history| == w.store.adds
    && (forall p :: p in w.store.detections ==> HeldAt(w, p))
    && (forall k :: 0 <= k < |w.history| && w.history[k].fate.Resident? ==>
          w.history[k].path in w.store.detections && w.store.detections[w.history[k].path].id == k)
  }

  predicate HeldAt(w: World, p: string)
    requires p in w.store.detections
  {
    var d := w.store.detections[p];
    d.id < |w.history| && w.history[d.id] == AddRecord(p, d.detection, d.at, Resident)
  }

  /** Delivered to one consumer, for that path; overwritten by a later Add to that path; or removed more than
      ttl after it was added. */
  predicate FateHolds(w: World, k: nat)
    requires k < |w.history|
  {
    var r := w.history[k];
    r.at <= w.clock &&
    match r.fate
    case Resident => true
    case Delivered(c) => c < |w.consumers| && w.consumers[c].pc == Got(k) && w.consumers[c].path == r.path
    case Overwritten(j) => k < j < |w.history| && w.history[j].path == r.path
    case Expired(t) => r.at + w.store.ttl < t <= w.clock
  }

  /** A waiter checks at most once more than there were Adds since it began, and gives up only at its deadline. While
      it waits, and ever after it gave up, nothing in the cache for its path is older than its last check. */
  predicate ConsumerHolds(w: World, c: nat)
    requires c < |w.consumers|
  {
    var k := w.consumers[c];
    && k.since <= w.store.adds
    && k.checks <= 1 + w.store.adds - k.since
    && match k.pc
       case Checking => !k.once && k.checks <= w.store.adds - k.since
       case Blocked(g) => && !k.once && k.since <= g <= w.store.adds && 1 <= k.checks <= 1 + g - k.since
                          && (k.path in w.store.detections ==> g <= w.store.detections[k.path].id)
       case Got(id) => id < |w.history| && w.history[id].fate == Delivered(c) && 1 <= k.checks
       case Missed(t, g) => && k.deadline <= t <= w.clock && 1 <= k.checks && k.since <= g <= w.store.adds
                            && (k.path in w.store.detections ==> g <= w.store.detections[k.path].id)
  }

  ghost predicate WorldInv(w: World) {
    && StoreInv(w)
    && (forall k :: 0 <= k < |w.history| ==> FateHolds(w, k))
    && (forall c :: 0 <= c < |w.consumers| ==> ConsumerHolds(w, c))
  }

  lemma AddKeepsStore(w: World, now: int, path: string, d: Detection)
    requires StoreInv(w)
    ensures StoreInv(WorldStep(w, Add(now, path, d)))
  {
    var w' := WorldStep(w, Add(now, path, d));
    assert path in w.store.detections ==> HeldAt(w, path);
    forall p | p in w'.store.detections ensures HeldAt(w', p) {
      assert p in w.store.detections ==> HeldAt(w, p);
    }
  }

  lemma AddKeepsFate(w: World, now: int, path: string, d: Detection, k: nat)
    requires StoreInv(w) && w.clock <= now && k <= |w.history| && (k < |w.history| ==> FateHolds(w, k))
    ensures FateHolds(WorldStep(w, Add(now, path, d)), k)
  {
    assert path in w.store.detections ==> HeldAt(w, path);
  }

  lemma AddKeepsInv(w: World, now: int, path: string, d: Detection)
    requires WorldInv(w) && w.clock <= now
    ensures WorldInv(WorldStep(w, Add(now, path, d)))
  {
    var w' := WorldStep(w, Add(now, path, d));
    AddKeepsStore(w, now, path, d);
    forall k: nat | k < |w'.history| ensures FateHolds(w', k) {
      AddKeepsFate(w, now, path, d, k);
    }
    forall c | 0 <= c < |w'.consumers| ensures ConsumerHolds(w', c) {
      assert ConsumerHolds(w, c);
    }
  }

  lemma CheckKeepsInv(w: World, now: int, c: nat)
    requires StoreInv(w) && w.clock <= now && IsChecking(w, c)
    requires forall k :: 0 <= k < |w.history| ==> FateHolds(w, k)
    requires forall b :: 0 <= b < |w.consumers| && b != c ==> ConsumerHolds(w, b)
    requires var k := w.consumers[c];
             k.since <= w.store.adds && k.checks <= w.store.adds - k.since && (k.once ==> k.deadline <= now)
    ensures WorldInv(Checked(w, now, c).(clock := now))
  {
    var w' := Checked(w, now, c).(clock := now);
    var path := w.consumers[c].path;
    assert path in w.store.detections ==> HeldAt(w, path);
    forall p | p in w'.store.detections ensures HeldAt(w', p) {
      assert HeldAt(w, p);
    }
    forall k | 0 <= k < |w'.history| ensures FateHolds(w', k) {
      assert FateHolds(w, k);
    }
    forall b | 0 <= b < |w'.consumers| ensures ConsumerHolds(w', b) {
      if b != c {
        assert ConsumerHolds(w, b);
      }
    }
  }

  /** Any change to consumers that leaves finished calls alone and good ones good. */
  lemma ConsumersKeepInv(w: World, w': World)
    requires WorldInv(w) && w'.store == w.store && w'.history == w.history && w.clock <= w'.clock
    requires |w.consumers| <= |w'.consumers|
    requires forall c :: 0 <= c < |w.consumers| ==>
               && w'.consumers[c].path == w.consumers[c].path
               && (w.consumers[c].pc.Got? ==> w'.consumers[c] == w.consumers[c])
    requires forall c :: 0 <= c < |w'.consumers| ==> ConsumerHolds(w', c)
    ensures WorldInv(w')
  {
    forall p | p in w'.store.detections ensures HeldAt(w', p) {
      assert HeldAt(w, p);
    }
    forall k | 0 <= k < |w'.history| ensures FateHolds(w', k) {
      assert FateHolds(w, k);
    }
  }

  lemma ConsumerStepKeepsInv(w: World, e: CacheEvent)
    requires WorldInv(w) && w.clock <= e.now && (e.StartWait? || e.Wake? || e.TimeOut?)
    ensures WorldInv(WorldStep(w, e))
  {
    var w' := WorldStep(w, e);
    forall c | 0 <= c < |w'.consumers| ensures ConsumerHolds(w', c) {
      if c < |w.consumers| {
        assert ConsumerHolds(w, c);
      }
    }
    ConsumersKeepInv(w, w');
  }

  lemma CleanupKeepsInv(w: World, now: int)
    requires WorldInv(w) && w.clock <= now
    ensures WorldInv(WorldStep(w, Cleanup(now)))
  {
    var w' := WorldStep(w, Cleanup(now));
    forall p | p in w'.store.detections ensures HeldAt(w', p) {
      assert HeldAt(w, p);
    }
    forall k | 0 <= k < |w'.history|
      ensures FateHolds(w', k)
      ensures w'.history[k].fate.Resident? ==>
                && w'.history[k].path in w'.store.detections
                && w'.store.detections[w'.history[k].path].id == k
    {
      assert FateHolds(w, k);
      if w.history[k].fate.Resident? {
        assert HeldAt(w, w.history[k].path);
      }
    }
    forall c | 0 <= c < |w'.consumers| ensures ConsumerHolds(w', c) {
      assert ConsumerHolds(w, c);
    }
  }

  lemma StepKeepsWorldInv(w: World, e: CacheEvent)
    requires WorldInv(w) && w.clock <= e.now
    ensures WorldInv(WorldStep(w, e))
  {
    match e {
      case Add(now, path, d) => AddKeepsInv(w, now, path, d);
      case Cleanup(now) => CleanupKeepsInv(w, now);
      case Get(now, path) => GetKeepsInv(w, now, path);
      case Check(now, c) =>
        if IsChecking(w, c) {
          assert ConsumerHolds(w, c);
          CheckKeepsInv(w, now, c);
        } else {
          ConsumerStepKeepsInv(w, TimeOut(now, |w.consumers|));
        }
      case _ => ConsumerStepKeepsInv(w, e);
    }
  }

  lemma GetKeepsInv(w: World, now: int, path: string)
    requires WorldInv(w) && w.clock <= now
    ensures WorldInv(WorldStep(w, Get(now, path)))
  {
    var w1 := Arrived(w, path, now, true);
    forall p | p in w1.store.detections ensures HeldAt(w1, p) {
      assert HeldAt(w, p);
    }
    forall k | 0 <= k < |w1.history| ensures FateHolds(w1, k) {
      assert FateHolds(w, k);
    }
    forall c | 0 <= c < |w.consumers| ensures ConsumerHolds(w1, c) {
      assert ConsumerHolds(w, c);
    }
    CheckKeepsInv(w1, now, |w.consumers|);
  }

  lemma {:induction false} RunKeepsWorldInv(w: World, es: seq<CacheEvent>)
    requires WorldInv(w) && ClockRuns(es, w.clock)
    ensures WorldInv(WorldRun(w, es))
    decreases |es|
  {
    if es != [] {
      StepKeepsWorldInv(w, es[0]);
      RunKeepsWorldInv(WorldStep(w, es[0]), es[1..]);
    }
  }

  // ---- What it means ----

  /** No lost wake-up: over any interleaving, a blocked waiter whose path is in the cache has a closed channel,
      and on going on takes that very detection unless a rival comes first. */
  lemma NoLostWakeUp(ttl: int, start: int, es: seq<CacheEvent>, c: nat, now: int)
    requires ClockRuns(es, start)
    requires var w := WorldRun(EmptyWorld(ttl, start), es);
             IsBlocked(w, c) && w.consumers[c].path in w.store.detections
    ensures var w := WorldRun(EmptyWorld(ttl, start), es);
            && MayWake(w, c)
            && WorldStep(WorldStep(w, Wake(now, c)), Check(now, c)).consumers[c].pc
               == Got(w.store.detections[w.consumers[c].path].id)
  {
    RunKeepsWorldInv(EmptyWorld(ttl, start), es);
    var w := WorldRun(EmptyWorld(ttl, start), es);
    assert ConsumerHolds(w, c);
  }

  /** At most one consumer gets the result of an Add, and gets what was added, for its own path. */
  lemma DeliveredAtMostOnce(ttl: int, start: int, es: seq<CacheEvent>, b: nat, c: nat)
    requires ClockRuns(es, start)
    requires var w := WorldRun(EmptyWorld(ttl, start), es);
             b < |w.consumers| && c < |w.consumers| && w.consumers[b].pc.Got? && w.consumers[c].pc == w.consumers[b].pc
    ensures var w := WorldRun(EmptyWorld(ttl, start), es);
            && b == c
            && w.consumers[b].pc.id < |w.history|
            && w.history[w.consumers[b].pc.id].path == w.consumers[b].path
  {
    RunKeepsWorldInv(EmptyWorld(ttl, start), es);
    var w := WorldRun(EmptyWorld(ttl, start), es);
    assert ConsumerHolds(w, b) && ConsumerHolds(w, c);
    assert FateHolds(w, w.consumers[b].pc.id);
  }

  /** Conservation: every Add is resident at its path and nothing else is, was delivered for that path, was
      overwritten there later, or expired more than ttl after it was added. */
  lemma EveryAddIsAccountedFor(ttl: int, start: int, es: seq<CacheEvent>, k: nat)
    requires ClockRuns(es, start) && k < |WorldRun(EmptyWorld(ttl, start), es).history|
    ensures var w := WorldRun(EmptyWorld(ttl, start), es);
            && FateHolds(w, k)
            && (w.history[k].fate.Resident? <==>
                  w.history[k].path in w.store.detections
                  && w.store.detections[w.history[k].path] == Stamped(k, w.history[k].detection, w.history[k].at))
  {
    RunKeepsWorldInv(EmptyWorld(ttl, start), es);
    var w := WorldRun(EmptyWorld(ttl, start), es);
    if w.history[k].path in w.store.detections {
      assert HeldAt(w, w.history[k].path);
    }
  }

  /** A wait that found nothing lasted until its deadline; any wait checks at most once more than there were
      Adds meanwhile. */
  lemma WaitIsPatientAndBounded(ttl: int, start: int, es: seq<CacheEvent>, c: nat)
    requires ClockRuns(es, start) && c < |WorldRun(EmptyWorld(ttl, start), es).consumers|
    ensures var w := WorldRun(EmptyWorld(ttl, start), es);
            var k := w.consumers[c];
            && k.checks <= 1 + (w.store.adds - k.since)
            && (k.pc.Missed? ==> k.checks >= 1 && k.deadline <= k.pc.at <= w.clock)
  {
    RunKeepsWorldInv(EmptyWorld(ttl, start), es);
    assert ConsumerHolds(WorldRun(EmptyWorld(ttl, start), es), c);
  }

  /** A waiter that gave up left nothing behind: of its path, no detection added before its last check is still in
      the cache. */
  lemma GaveUpOnNothing(w: World, c: nat, k: nat)
    requires WorldInv(w) && c < |w.consumers| && w.consumers[c].pc.Missed? && k < |w.history|
    requires w.history[k].path == w.consumers[c].path && k < w.consumers[c].pc.channel
    ensures !w.history[k].fate.Resident?
  {
    assert ConsumerHolds(w, c);
  }

  /** What is already there is returned at once, even with no time to wait. */
  lemma PresentIsReturnedAtOnce(w: World, now: int, path: string, timeout: int)
    requires path in w.store.detections
    ensures var w' := WorldStep(WorldStep(w, StartWait(now, path, timeout)), Check(now, |w.consumers|));
            w'.consumers[|w.consumers|].pc == Got(w.store.detections[path].id) && path !in w'.store.detections
  {
  }

  /** In a run of a new cache: Add number k was made since `scanStart`, and the clock is within the budget. */
  ghost predicate AddedInBudget(ttl: int, start: int, es: seq<CacheEvent>, k: nat, scanStart: int, budget: int) {
    var w := WorldRun(EmptyWorld(ttl, start), es);
    ClockRuns(es, start) && k < |w.history| && scanStart <= w.history[k].at && w.clock <= scanStart + budget
  }

  /** No detection added since a scan began expires within its budget. */
  ghost predicate OutlivesBudget(ttl: int, budget: int) {
    forall start: int, es: seq<CacheEvent>, k: nat, scanStart: int ::
      AddedInBudget(ttl, start, es, k, scanStart, budget) ==>
      !WorldRun(EmptyWorld(ttl, start), es).history[k].fate.Expired?
  }

  /** Exactly when the cache keeps detections for the whole budget, over all runs. */
  lemma BudgetFitsExpiry(ttl: int, budget: int)
    ensures OutlivesBudget(ttl, budget) <==> budget < 0 || budget <= ttl
  {
    if budget < 0 || budget <= ttl {
      forall start: int, es: seq<CacheEvent>, k: nat, scanStart: int
        | AddedInBudget(ttl, start, es, k, scanStart, budget)
        ensures !WorldRun(EmptyWorld(ttl, start), es).history[k].fate.Expired?
      {
        RunKeepsWorldInv(EmptyWorld(ttl, start), es);
        TtlIsConstant(EmptyWorld(ttl, start), es);
        assert FateHolds(WorldRun(EmptyWorld(ttl, start), es), k);
      }
    } else {
      ExpiresInBudget(ttl, budget);
    }
  }

  lemma ExpiresInBudget(ttl: int, budget: int)
    requires 0 <= budget && ttl < budget
    ensures !OutlivesBudget(ttl, budget)
  {
    var t := Max(ttl + 1, 0);
    var w, add, sweep := EmptyWorld(ttl, 0), Add(0, "", Detection("", "", "", "")), Cleanup(t);
    var es := [add, sweep];
    assert es[1..] == [sweep] && es[1..][1..] == [];
    var w1 := WorldStep(w, add);
    var w' := WorldStep(w1, sweep);
    assert WorldRun(w1, [sweep]) == WorldRun(w', [sweep][1..]) == w';
    assert WorldRun(w, es) == w';
    assert w'.history[0].fate == Expired(t);
    assert AddedInBudget(ttl, 0, es, 0, 0, budget);
  }

  lemma {:induction false} TtlIsConstant(w: World, es: seq<CacheEvent>)
    ensures WorldRun(w, es).store.ttl == w.store.ttl
    decreases |es|
  {
    if es != [] {
      TtlIsConstant(WorldStep(w, es[0]), es[1..]);
    }
  }

  // ---- One Wait among everything else ----

  /** What other goroutines can do to the cache; a rival's successful check is a take. */
  datatype Other = Adds(now: int, path: string, detection: Detection) | Takes(now: int, path: string) | Sweeps(now: int)

  /** One stay in the select of Wait: what happened meanwhile, for which instant the timer was set if that case was
      taken, and when the stay ended. */
  datatype Stay = Stay(others: seq<Other>, timer: Option<int>, until: int)

  /** StillBlocked: the described stays are over and the call has not returned. */
  datatype WaitResult = Found(d: Stamped) | TimedOut(at: int) | StillBlocked

  function OthersRun(s: Store, others: seq<Other>): Store
    decreases |others|
  {
    if others == [] then s else
    var s' := match others[0]
      case Adds(now, p, d) => Put(s, p, d, now)
      case Takes(_, p) => Take(s, p).1
      case Sweeps(now) => Swept(s, now);
    OthersRun(s', others[1..])
  }

  /** The select can take the case it takes: the call's own timer has fired, or the channel was closed. */
  predicate Possible(stays: seq<Stay>, deadline: int) {
    forall i :: 0 <= i < |stays| ==>
      if stays[i].timer.Some? then stays[i].timer.value == deadline <= stays[i].until
      else exists k :: 0 <= k < |stays[i].others| && stays[i].others[k].Adds?
  }

  function AddsIn(others: seq<Other>): nat {
    if others == [] then 0 else (if others[0].Adds? then 1 else 0) + AddsIn(others[1..])
  }

  function AddsDuring(stays: seq<Stay>): nat {
    if stays == [] then 0 else AddsIn(stays[0].others) + AddsDuring(stays[1..])
  }

  lemma {:induction false} OthersCountAdds(s: Store, others: seq<Other>)
    ensures OthersRun(s, others).adds == s.adds + AddsIn(others)
    ensures OthersRun(s, others).ttl == s.ttl
    decreases |others|
  {
    if others != [] {
      var s' := match others[0]
        case Adds(now, p, d) => Put(s, p, d, now)
        case Takes(_, p) => Take(s, p).1
        case Sweeps(now) => Swept(s, now);
      OthersCountAdds(s', others[1..]);
    }
  }

  lemma {:induction false} AddAmongOthers(others: seq<Other>, k: nat)
    requires k < |others| && others[k].Adds?
    ensures AddsIn(others) >= 1
    decreases |others|
  {
    if k > 0 {
      AddAmongOthers(others[1..], k - 1);
    }
  }

  /** Wait(path) from here on: check, stay, check again. The number counts the checks. */
  function WaitFrom(s: Store, path: string, stays: seq<Stay>): (WaitResult, Store, nat)
    decreases |stays|
  {
    var (found, s1) := Take(s, path);
    if found.Some? then (Found(found.value), s1, 1)
    else if stays == [] then (StillBlocked, s, 1)
    else
      var s2 := OthersRun(s, stays[0].others);
      if stays[0].timer.Some? then (TimedOut(stays[0].until), s2, 1) else
      var (r, s3, n) := WaitFrom(s2, path, stays[1..]);
      (r, s3, n + 1)
  }

  function OtherEvent(o: Other): CacheEvent {
    match o
    case Adds(now, p, d) => Add(now, p, d)
    case Takes(now, p) => Get(now, p)
    case Sweeps(now) => Cleanup(now)
  }

  function OtherEvents(others: seq<Other>): (es: seq<CacheEvent>)
    ensures |es| == |others|
  {
    if others == [] then [] else [OtherEvent(others[0])] + OtherEvents(others[1..])
  }

  /** The same, as steps of consumer c among all goroutines. */
  function WaitEvents(s: Store, c: nat, path: string, stays: seq<Stay>, now: int): seq<CacheEvent>
    decreases |stays|
  {
    if path in s.detections || stays == [] then [Check(now, c)] else
    var others := OtherEvents(stays[0].others);
    var until := stays[0].until;
    [Check(now, c)] + (others +
      (if stays[0].timer.Some? then [TimeOut(until, c)]
       else [Wake(until, c)] + WaitEvents(OthersRun(s, stays[0].others), c, path, stays[1..], until)))
  }

  lemma {:induction false} WorldRunAppends(w: World, es: seq<CacheEvent>, fs: seq<CacheEvent>)
    ensures WorldRun(w, es + fs) == WorldRun(WorldRun(w, es), fs)
    decreases |es|
  {
    if es == [] {
      assert es + fs == fs;
    } else {
      var all := es + fs;
      assert all[0] == es[0] && all[1..] == es[1..] + fs;
      WorldRunAppends(WorldStep(w, es[0]), es[1..], fs);
    }
  }

  lemma {:induction false} OthersAreEvents(w: World, others: seq<Other>, c: nat)
    requires c < |w.consumers|
    ensures var w' := WorldRun(w, OtherEvents(others));
            w'.store == OthersRun(w.store, others) && c < |w'.consumers| && w'.consumers[c] == w.consumers[c]
    decreases |others|
  {
    if others != [] {
      var es := OtherEvents(others);
      assert es[0] == OtherEvent(others[0]) && es[1..] == OtherEvents(others[1..]);
      OthersAreEvents(WorldStep(w, es[0]), others[1..], c);
    }
  }

  lemma {:induction false} OthersChangeStore(w: World, others: seq<Other>)
    ensures WorldRun(w, OtherEvents(others)).store == OthersRun(w.store, others)
    decreases |others|
  {
    if others != [] {
      var es := OtherEvents(others);
      assert es[0] == OtherEvent(others[0]) && es[1..] == OtherEvents(others[1..]);
      OthersChangeStore(WorldStep(w, es[0]), others[1..]);
    }
  }

  predicate Ended(r: WaitResult, pc: Pc) {
    match r
    case Found(d) => pc == Got(d.id)
    case TimedOut(at) => pc.Missed? && pc.at == at
    case StillBlocked => pc.Blocked?
  }

  // ---- Times that do not run backwards ----

  function LastClock(es: seq<CacheEvent>, now: int): int
    decreases |es|
  {
    if es == [] then now else LastClock(es[1..], es[0].now)
  }

  lemma {:induction false} ClockRunsOn(es: seq<CacheEvent>, fs: seq<CacheEvent>, now: int)
    requires ClockRuns(es, now) && ClockRuns(fs, LastClock(es, now))
    ensures ClockRuns(es + fs, now) && LastClock(es + fs, now) == LastClock(fs, LastClock(es, now))
    decreases |es|
  {
    if es == [] {
      assert es + fs == fs;
    } else {
      assert (es + fs)[0] == es[0] && (es + fs)[1..] == es[1..] + fs;
      ClockRunsOn(es[1..], fs, es[0].now);
    }
  }

  /** What others do from one time to another, in order. */
  predicate OthersInOrder(others: seq<Other>, from: int, until: int)
    decreases |others|
  {
    if others == [] then from <= until
    else from <= others[0].now && OthersInOrder(others[1..], others[0].now, until)
  }

  /** Each stay begins when the one before it ends. */
  predicate StaysInOrder(stays: seq<Stay>, from: int)
    decreases |stays|
  {
    stays == [] || (OthersInOrder(stays[0].others, from, stays[0].until) && StaysInOrder(stays[1..], stays[0].until))
  }

  function StaysEnd(stays: seq<Stay>, from: int): int
    decreases |stays|
  {
    if stays == [] then from else StaysEnd(stays[1..], stays[0].until)
  }

  lemma {:induction false} OtherEventsInOrder(others: seq<Other>, from: int, until: int)
    requires OthersInOrder(others, from, until)
    ensures ClockRuns(OtherEvents(others), from) && from <= LastClock(OtherEvents(others), from) <= until
    decreases |others|
  {
    if others != [] {
      var es := OtherEvents(others);
      assert es[0] == OtherEvent(others[0]) && es[1..] == OtherEvents(others[1..]);
      OtherEventsInOrder(others[1..], others[0].now, until);
    }
  }

  lemma {:induction false} StaysEndLater(stays: seq<Stay>, from: int)
    requires StaysInOrder(stays, from)
    ensures from <= StaysEnd(stays, from)
    decreases |stays|
  {
    if stays != [] {
      OtherEventsInOrder(stays[0].others, from, stays[0].until);
      StaysEndLater(stays[1..], stays[0].until);
    }
  }

  lemma OneEventClock(e: CacheEvent)
    ensures ClockRuns([e], e.now) && LastClock([e], e.now) == e.now
  {
    assert [e][0] == e && [e][1..] == [];
    assert LastClock([e][1..], e.now) == e.now;
  }

  lemma {:induction false} WaitEventsInOrder(s: Store, c: nat, path: string, stays: seq<Stay>, now: int)
    requires StaysInOrder(stays, now)
    ensures var es := WaitEvents(s, c, path, stays, now);
            ClockRuns(es, now) && LastClock(es, now) <= StaysEnd(stays, now)
    decreases |stays|
  {
    StaysEndLater(stays, now);
    var check := Check(now, c);
    OneEventClock(check);
    if path !in s.detections && stays != [] {
      var stay, others := stays[0], OtherEvents(stays[0].others);
      OtherEventsInOrder(stay.others, now, stay.until);
      StaysEndLater(stays[1..], stay.until);
      var more := if stay.timer.Some? then []
                  else WaitEvents(OthersRun(s, stay.others), c, path, stays[1..], stay.until);
      if stay.timer.None? {
        WaitEventsInOrder(OthersRun(s, stay.others), c, path, stays[1..], stay.until);
      }
      var next := if stay.timer.Some? then TimeOut(stay.until, c) else Wake(stay.until, c);
      var tail := [next] + more;
      assert tail[0] == next && tail[1..] == more;
      ClockRunsOn(others, tail, now);
      ClockRunsOn([check], others + tail, now);
      assert stay.timer.Some? ==> tail == [next];
    }
  }

  /** What the store holds is what was added under that number. */
  ghost predicate Recorded(w: World) {
    && |w.history| == w.store.adds
    && forall p :: p in w.store.detections ==>
         && w.store.detections[p].id < |w.history|
         && w.history[w.store.detections[p].id].detection == w.store.detections[p].detection
  }

  lemma AddKeepsRecorded(w: World, now: int, path: string, d: Detection)
    requires Recorded(w)
    ensures Recorded(Added(w, now, path, d))
  {
    var w' := Added(w, now, path, d);
    assert forall k :: 0 <= k < |w.history| ==> w'.history[k].detection == w.history[k].detection;
  }

  lemma CheckKeepsRecorded(w: World, now: int, c: nat)
    requires Recorded(w) && c < |w.consumers|
    ensures Recorded(Checked(w, now, c))
  {
  }

  lemma CleanupKeepsRecorded(w: World, now: int)
    requires Recorded(w)
    ensures Recorded(Cleaned(w, now))
  {
  }

  lemma StepKeepsRecorded(w: World, e: CacheEvent)
    requires Recorded(w)
    ensures Recorded(WorldStep(w, e))
  {
    match e {
      case Add(now, path, d) => AddKeepsRecorded(w, now, path, d);
      case Get(now, path) => CheckKeepsRecorded(Arrived(w, path, now, true), now, |w.consumers|);
      case Check(now, c) =>
        if IsChecking(w, c) {
          CheckKeepsRecorded(w, now, c);
        }
      case Cleanup(now) => CleanupKeepsRecorded(w, now);
      case _ => assert Effect(w, e).store == w.store && Effect(w, e).history == w.history;
    }
  }

  lemma {:induction false} RunKeepsRecorded(w: World, es: seq<CacheEvent>)
    requires Recorded(w)
    ensures Recorded(WorldRun(w, es))
    decreases |es|
  {
    if es != [] {
      StepKeepsRecorded(w, es[0]);
      RunKeepsRecorded(WorldStep(w, es[0]), es[1..]);
    }
  }

  predicate GotThis(w: World, r: WaitResult) {
    r.Found? ==> r.d.id < |w.history| && w.history[r.d.id].detection == r.d.detection
  }

  /** One stay of a waiter that found nothing: it blocks, and the others go on. */
  function AfterStay(w: World, c: nat, stay: Stay, now: int): World {
    WorldRun(WorldStep(w, Check(now, c)), OtherEvents(stay.others))
  }

  lemma StayBlocks(w: World, c: nat, stay: Stay, now: int)
    requires IsChecking(w, c) && !w.consumers[c].once && w.consumers[c].path !in w.store.detections
    ensures var w2 := AfterStay(w, c, stay, now);
            && w2.store == OthersRun(w.store, stay.others) && w2.store.adds == w.store.adds + AddsIn(stay.others)
            && c < |w2.consumers|
            && w2.consumers[c] == w.consumers[c].(pc := Blocked(w.store.adds), checks := w.consumers[c].checks + 1)
            && (Recorded(w) ==> Recorded(w2))
  {
    var w1 := WorldStep(w, Check(now, c));
    OthersAreEvents(w1, stay.others, c);
    OthersCountAdds(w.store, stay.others);
    if Recorded(w) {
      StepKeepsRecorded(w, Check(now, c));
      RunKeepsRecorded(w1, OtherEvents(stay.others));
    }
  }

  lemma StayThen(w: World, c: nat, stay: Stay, now: int, rest: seq<CacheEvent>)
    ensures WorldRun(w, [Check(now, c)] + (OtherEvents(stay.others) + rest))
            == WorldRun(AfterStay(w, c, stay, now), rest)
  {
    var tail := OtherEvents(stay.others) + rest;
    assert ([Check(now, c)] + tail)[1..] == tail;
    WorldRunAppends(WorldStep(w, Check(now, c)), OtherEvents(stay.others), rest);
  }

  lemma CheckTakes(w: World, c: nat, now: int)
    requires IsChecking(w, c) && w.consumers[c].path in w.store.detections
    ensures var w', d := WorldRun(w, [Check(now, c)]), w.store.detections[w.consumers[c].path];
            && w'.store == Take(w.store, w.consumers[c].path).1 && c < |w'.consumers|
            && w'.consumers[c].pc == Got(d.id) && w'.consumers[c].checks == w.consumers[c].checks + 1
            && (Recorded(w) ==> GotThis(w', Found(d)))
  {
    var es := [Check(now, c)];
    assert es[1..] == [];
    assert WorldRun(w, es) == WorldStep(w, Check(now, c));
  }

  lemma CheckBlocks(w: World, c: nat, now: int)
    requires IsChecking(w, c) && !w.consumers[c].once && w.consumers[c].path !in w.store.detections
    ensures var w' := WorldRun(w, [Check(now, c)]);
            && w'.store == w.store && c < |w'.consumers|
            && w'.consumers[c].pc.Blocked? && w'.consumers[c].checks == w.consumers[c].checks + 1
  {
    var es := [Check(now, c)];
    assert es[1..] == [];
    assert WorldRun(w, es) == WorldStep(w, Check(now, c));
  }

  lemma TimesOut(w: World, c: nat, until: int)
    requires MayTimeOut(w, until, c)
    ensures var w' := WorldRun(w, [TimeOut(until, c)]);
            && w'.store == w.store && c < |w'.consumers|
            && w'.consumers[c] == w.consumers[c].(pc := Missed(until, w.consumers[c].pc.channel))
  {
    var es := [TimeOut(until, c)];
    assert es[1..] == [];
    assert WorldRun(w, es) == WorldStep(w, es[0]);
  }

  lemma Wakes(w: World, c: nat, until: int, rest: seq<CacheEvent>)
    requires MayWake(w, c)
    ensures var w' := WorldStep(w, Wake(until, c));
            && WorldRun(w, [Wake(until, c)] + rest) == WorldRun(w', rest)
            && w'.store == w.store && w'.history == w.history && c < |w'.consumers|
            && w'.consumers[c] == w.consumers[c].(pc := Checking)
  {
    var es := [Wake(until, c)] + rest;
    assert es[0] == Wake(until, c) && es[1..] == rest;
  }

  lemma {:induction false} WaitRuns(w: World, c: nat, stays: seq<Stay>, now: int)
    requires IsChecking(w, c) && !w.consumers[c].once && Possible(stays, w.consumers[c].deadline)
    ensures var path := w.consumers[c].path;
            var w' := WorldRun(w, WaitEvents(w.store, c, path, stays, now));
            var (r, s, n) := WaitFrom(w.store, path, stays);
            && w'.store == s && c < |w'.consumers|
            && Ended(r, w'.consumers[c].pc) && w'.consumers[c].checks == w.consumers[c].checks + n
            && (Recorded(w) ==> GotThis(w', r))
    decreases |stays|
  {
    var path := w.consumers[c].path;
    if path in w.store.detections {
      CheckTakes(w, c, now);
    } else if stays == [] {
      CheckBlocks(w, c, now);
    } else {
      var stay, w2 := stays[0], AfterStay(w, c, stays[0], now);
      StayBlocks(w, c, stay, now);
      if stay.timer.Some? {
        StayThen(w, c, stay, now, [TimeOut(stay.until, c)]);
        TimesOut(w2, c, stay.until);
      } else {
        var k :| 0 <= k < |stay.others| && stay.others[k].Adds?;
        AddAmongOthers(stay.others, k);
        var more := WaitEvents(w2.store, c, path, stays[1..], stay.until);
        StayThen(w, c, stay, now, [Wake(stay.until, c)] + more);
        Wakes(w2, c, stay.until, more);
        assert Possible(stays[1..], w.consumers[c].deadline);
        WaitRuns(WorldStep(w2, Wake(stay.until, c)), c, stays[1..], stay.until);
      }
    }
  }

  /** Wait, with its loop, is a run of the cache's machine: same store, same result, same number of checks. With inputs
      in the order of their times, its clock does not run backwards. */
  lemma WaitIsARun(w: World, c: nat, stays: seq<Stay>, now: int)
    requires IsChecking(w, c) && !w.consumers[c].once && Possible(stays, w.consumers[c].deadline)
    ensures var path := w.consumers[c].path;
            var es := WaitEvents(w.store, c, path, stays, now);
            var w' := WorldRun(w, es);
            var (r, s, n) := WaitFrom(w.store, path, stays);
            && w'.store == s && c < |w'.consumers|
            && Ended(r, w'.consumers[c].pc) && w'.consumers[c].checks == w.consumers[c].checks + n
            && (Recorded(w) ==> GotThis(w', r))
            && (w.clock <= now && StaysInOrder(stays, now) ==>
                  ClockRuns(es, w.clock) && LastClock(es, w.clock) <= StaysEnd(stays, now))
  {
    WaitRuns(w, c, stays, now);
    if w.clock <= now && StaysInOrder(stays, now) {
      WaitEventsInOrder(w.store, c, w.consumers[c].path, stays, now);
    }
  }

  /** The loop's measure: at most one check more than there were Adds. */
  lemma {:induction false} WaitChecksAtMost(s: Store, path: string, stays: seq<Stay>, deadline: int)
    requires Possible(stays, deadline)
    ensures var (r, s', n) := WaitFrom(s, path, stays);
            n <= 1 + AddsDuring(stays) && (r.TimedOut? ==> deadline <= r.at)
    decreases |stays|
  {
    if path !in s.detections && stays != [] && stays[0].timer.None? {
      var k :| 0 <= k < |stays[0].others| && stays[0].others[k].Adds?;
      AddAmongOthers(stays[0].others, k);
      assert Possible(stays[1..], deadline);
      WaitChecksAtMost(OthersRun(s, stays[0].others), path, stays[1..], deadline);
    }
  }
}
