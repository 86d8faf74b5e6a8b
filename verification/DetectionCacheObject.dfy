/** The DetectionCache type itself: a map updated in place and a channel closed and replaced by every Add. */
module DetectionCacheObject {
  import opened Common
  import opened DetectionCache

  /** *Detection as stored, with its timestamp. */
  datatype Cached = Cached(detection: Detection, at: int)

  predicate Reports(r: WaitResult, found: Option<Cached>, timedOut: Option<int>) {
    match r
    case Found(d) => found == Some(Cached(d.detection, d.at)) && timedOut.None?
    case TimedOut(at) => found.None? && timedOut == Some(at)
    case StillBlocked => found.None? && timedOut.None?
  }

  class Channel {
    var closed: bool

    constructor ()
      ensures !closed
    {
      closed := false;
    }

    /** Closing a closed channel panics. */
    method Close()
      requires !closed
      modifies this
      ensures closed
    {
      closed := true;
    }
  }

  class Cache {
    var detections: map<string, Cached>
    var added: Channel
    const ttl: int
    ghost var store: Store
    ghost var channels: seq<Channel>   // every channel there has been; the last is `added`

    ghost predicate Valid()
      reads this, channels
    {
      && store.ttl == ttl
      && store.detections.Keys == detections.Keys
      && (forall p :: p in detections ==>
            store.detections[p].detection == detections[p].detection && store.detections[p].at == detections[p].at)
      && |channels| == store.adds + 1 && channels[store.adds] == added
      && (forall i :: 0 <= i < |channels| ==> (channels[i].closed <==> i < store.adds))
    }

    constructor (ttl: int)
      ensures Valid() && fresh(channels)
      ensures store == Store(map[], 0, if ttl == 0 then DEFAULT_TTL else ttl)
      ensures this.ttl == if ttl == 0 then 60_000_000_000 else ttl
    {
      var first := new Channel();
      this.ttl := if ttl == 0 then DEFAULT_TTL else ttl;
      detections, added, channels := map[], first, [first];
      store := Store(map[], 0, if ttl == 0 then DEFAULT_TTL else ttl);
    }

    method Add(path: string, d: Detection, now: int)
      requires Valid()
      modifies this, added
      ensures Valid() && store == Put(old(store), path, d, now)
      ensures old(added).closed && fresh(added) && channels == old(channels) + [added]
    {
      detections := detections[path := Cached(d, now)];
      added.Close();
      added := new Channel();
      channels := channels + [added];
      store := Put(store, path, d, now);
    }

    /** Wait's critical section: take the detection, or remember the channel to wait on. */
    method TakeOrWatch(path: string) returns (found: Option<Cached>, watch: Channel)
      requires Valid()
      modifies this`detections, this`store
      ensures Valid() && store == Take(old(store), path).1
      ensures found.Some? <==> Take(old(store), path).0.Some?
      ensures found.Some? ==>
                && Take(old(store), path).0.value.detection == found.value.detection
                && Take(old(store), path).0.value.at == found.value.at
      ensures watch == added && !watch.closed
    {
      watch := added;
      found := None;
      if path in detections {
        found := Some(detections[path]);
        detections := detections - {path};
      }
      store := Take(store, path).1;
    }

    method Get(path: string) returns (found: Option<Cached>)
      requires Valid()
      modifies this`detections, this`store
      ensures Valid() && store == Take(old(store), path).1
      ensures found == if path in old(detections) then Some(old(detections)[path]) else None
    {
      found := None;
      if path in detections {
        found := Some(detections[path]);
        detections := detections - {path};
      }
      store := Take(store, path).1;
    }

    method Cleanup(now: int)
      requires Valid()
      modifies this`detections, this`store
      ensures Valid() && store == Swept(old(store), now)
      ensures forall p :: p in detections <==> p in old(detections) && now - old(detections)[p].at <= ttl
      ensures forall p :: p in detections ==> detections[p] == old(detections)[p]
    {
      ghost var before := store.detections;
      var todo := detections.Keys;
      while todo != {}
        invariant Valid() && store == old(store).(detections := store.detections)
        invariant todo <= detections.Keys <= before.Keys
        invariant forall p :: p in store.detections ==>
                    store.detections[p] == before[p] && detections[p] == old(detections)[p]
        invariant forall p :: p in before && p !in todo ==>
                    (p in store.detections <==> !Stale(old(store), before[p], now))
        decreases todo
      {
        var path :| path in todo;
        if now - detections[path].at > ttl {
          detections := detections - {path};
          store := store.(detections := store.detections - {path});
        }
        todo := todo - {path};
      }
      assert store.detections == Swept(old(store), now).detections;
    }

    /** Other goroutines' critical sections, while a waiter holds no lock. */
    method Meanwhile(others: seq<Other>)
      requires Valid()
      modifies this, added
      ensures Valid() && store == OthersRun(old(store), others)
      ensures old(channels) <= channels && (added == old(added) || fresh(added))
      ensures forall k :: k in channels ==> k in old(channels) || fresh(k)
    {
      ghost var start := store;
      assert others[0..] == others;
      for k := 0 to |others|
        invariant Valid() && (added == old(added) || fresh(added))
        invariant old(channels) <= channels
        invariant forall k :: k in channels ==> k in old(channels) || fresh(k)
        invariant OthersRun(start, others) == OthersRun(store, others[k..])
      {
        assert others[k..][1..] == others[k + 1..];
        match others[k] {
          case Adds(now, p, d) => Add(p, d, now);
          case Takes(_, p) => var _ := Get(p);
          case Sweeps(now) => Cleanup(now);
        }
      }
      assert others[|others|..] == [];
    }

    /** Wait's retry loop. `stays` describes each stay in its select; the call cannot return before its
        deadline without a detection, because only a closed channel or the timer ends a stay. */
    method Wait(path: string, deadline: int, stays: seq<Stay>) returns (found: Option<Cached>, timedOut: Option<int>)
      requires Valid() && Possible(stays, deadline)
      modifies this, added
      ensures Valid() && forall k :: k in channels ==> k in old(channels) || fresh(k)
      ensures Reports(WaitFrom(old(store), path, stays).0, found, timedOut)
      ensures store == WaitFrom(old(store), path, stays).1
      ensures timedOut.Some? ==> deadline <= timedOut.value
    {
      ghost var start := store;
      WaitChecksAtMost(store, path, stays, deadline);
      var i := 0;
      timedOut := None;
      assert stays[0..] == stays;
      while true
        invariant Valid() && i <= |stays| && (added == old(added) || fresh(added))
        invariant forall k :: k in channels ==> k in old(channels) || fresh(k)
        invariant WaitFrom(start, path, stays).0 == WaitFrom(store, path, stays[i..]).0
        invariant WaitFrom(start, path, stays).1 == WaitFrom(store, path, stays[i..]).1
        decreases |stays| - i
      {
        var watch;
        found, watch := TakeOrWatch(path);
        if found.Some? {
          return found, None;
        }
        if i == |stays| {
          return None, None;
        }
        assert stays[i..][0] == stays[i] && stays[i..][1..] == stays[i + 1..];
        ghost var before := store;
        Meanwhile(stays[i].others);
        if stays[i].timer.Some? {
          return None, Some(stays[i].until);
        }
        // the stay ended because the channel was closed
        ghost var k :| 0 <= k < |stays[i].others| && stays[i].others[k].Adds?;
        AddAmongOthers(stays[i].others, k);
        OthersCountAdds(before, stays[i].others);
        assert watch.closed by {
          assert channels[before.adds] == watch;
        }
        i := i + 1;
      }
    }
  }
}
