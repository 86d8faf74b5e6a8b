/** internal/drivers: from tool output and log lines to verdicts and cached detections. */
module Drivers {
  import opened Common
  import opened LogParsing
  import opened DetectionCache
  import opened DetectionCacheObject

  datatype Engine = TrendMicro | ClamAV

  datatype ScanStatus = Clean | Infected | Error

  const INFECTED := "infected"

  // ---- White space, as strings.TrimSpace sees it ----

  predicate IsUnicodeSpace(c: char) {
    || '\U{09}' <= c <= '\U{0D}' || c == ' ' || c == '\U{85}' || c == '\U{A0}' || c == '\U{1680}'
    || '\U{2000}' <= c <= '\U{200A}' || c == '\U{2028}' || c == '\U{2029}' || c == '\U{202F}' || c == '\U{205F}'
    || c == '\U{3000}'
  }

  function TrimLeft(s: string): (r: string)
    ensures |r| <= |s| && r == s[|s| - |r|..] && (r != [] ==> !IsUnicodeSpace(r[0]))
    ensures forall i :: 0 <= i < |s| - |r| ==> IsUnicodeSpace(s[i])
  {
    if s != [] && IsUnicodeSpace(s[0]) then TrimLeft(s[1..]) else s
  }

  function TrimRight(s: string): (r: string)
    ensures |r| <= |s| && r == s[..|r|] && (r != [] ==> !IsUnicodeSpace(r[|r| - 1]))
    ensures forall i :: |r| <= i < |s| ==> IsUnicodeSpace(s[i])
  {
    if s != [] && IsUnicodeSpace(s[|s| - 1]) then TrimRight(s[..|s| - 1]) else s
  }

  function TrimSpace(s: string): string {
    TrimRight(TrimLeft(s))
  }

  /** r is s without some white space at both ends, and has none left there. */
  ghost predicate OuterSpaceCut(s: string, i: nat, r: string) {
    && i + |r| <= |s| && r == s[i..i + |r|]
    && (r == [] || NoOuterSpace(r))
    && forall k :: 0 <= k < i || i + |r| <= k < |s| ==> IsUnicodeSpace(s[k])
  }

  /** Only white space is cut off, and all of it at both ends. */
  lemma TrimSpaceCutsOuterSpace(s: string) returns (i: nat)
    ensures OuterSpaceCut(s, i, TrimSpace(s))
  {
    var left := TrimLeft(s);
    var r := TrimRight(left);
    i := |s| - |left|;
    TwoCuts(s, left, r);
  }

  lemma TwoCuts(s: string, left: string, r: string)
    requires |left| <= |s| && left == s[|s| - |left|..] && (left != [] ==> !IsUnicodeSpace(left[0]))
    requires forall i :: 0 <= i < |s| - |left| ==> IsUnicodeSpace(s[i])
    requires |r| <= |left| && r == left[..|r|] && (r != [] ==> !IsUnicodeSpace(r[|r| - 1]))
    requires forall i :: |r| <= i < |left| ==> IsUnicodeSpace(left[i])
    ensures OuterSpaceCut(s, |s| - |left|, r)
  {
    var i := |s| - |left|;
    forall k | i + |r| <= k < |s| ensures IsUnicodeSpace(s[k]) {
      assert s[k] == left[k - i];
    }
    if r != [] {
      assert r[0] == left[0];
    }
  }

  // ---- Log lines ----

  /** File path and signature a log line reports. */
  function ParseLogLine(engine: Engine, line: string): Option<(string, string)> {
    match engine
    case TrendMicro => (var g := TmFind(line); if g.None? then None else Some((TrimSpace(g.value), "virus")))
    case ClamAV => ClamFind(line)
  }

  /** What processLogLine caches for the line. */
  function DetectionOf(engine: Engine, line: string): Option<Detection> {
    var p := ParseLogLine(engine, line);
    if p.None? then None else Some(Detection(p.value.0, INFECTED, p.value.1, line))
  }

  predicate NoOuterSpace(path: string) {
    path != [] && !IsUnicodeSpace(path[0]) && !IsUnicodeSpace(path[|path| - 1])
  }

  /** Exactly when a line reporting a file is cached under that very file, whatever else the line says. For Trend Micro:
      no closing parenthesis in the path and no white space around it; for ClamAV: no newline in it. */
  lemma LoggedPathIsCached(engine: Engine, pre: string, id: string, path: string, post: string, signature: string)
    requires path != []
    requires engine.TrendMicro? ==> TmPrintable(pre, id)
    requires engine.ClamAV? ==> signature != [] && forall c :: c in signature ==> !IsSpace(c)
    ensures var line := if engine.TrendMicro? then TmLine(pre, id, path, post) else ClamLine(path, signature);
            DetectionOf(engine, line)
            == Some(Detection(path, INFECTED, if engine.TrendMicro? then "virus" else signature, line))
            <==> if engine.TrendMicro? then ')' !in path && NoOuterSpace(path) else '\n' !in path
  {
    if engine.TrendMicro? {
      var line := TmLine(pre, id, path, post);
      TmFindInvertsPrinting(pre, id, path, post);
      TmCaptures(line);
      if TmFind(line).Some? {
        var i := TrimSpaceCutsOuterSpace(TmFind(line).value);
        if ')' !in path && NoOuterSpace(path) {
          NothingToTrim(path);
        }
      }
    } else {
      ClamFindInvertsPrinting(path, signature);
    }
  }

  /** No log line whatsoever reports a path with a closing parenthesis for Trend Micro. */
  lemma ParenthesisIsNeverReported(line: string)
    ensures DetectionOf(TrendMicro, line).Some? ==> ')' !in DetectionOf(TrendMicro, line).value.filePath
  {
    TmCaptures(line);
    if TmFind(line).Some? {
      var i := TrimSpaceCutsOuterSpace(TmFind(line).value);
    }
  }

  lemma NothingToTrim(path: string)
    requires NoOuterSpace(path)
    ensures TrimSpace(path) == path
  {
  }

  /** A log reader: what a line reports, if anything. */
  type Reader = string -> Option<Detection>

  function ReaderOf(engine: Engine): Reader {
    line => DetectionOf(engine, line)
  }

  function Logged(read: Reader, abs: string -> string, s: Store, line: string, now: int): Store {
    var d := read(line);
    if d.None? then s else Put(s, abs(d.value.filePath), d.value, now)
  }

  /** One item of the tailed log; Lost is a nil line or a line with an error. */
  datatype TailItem = Line(text: string, now: int) | Lost

  function LoggedAll(read: Reader, abs: string -> string, s: Store, items: seq<TailItem>): Store
    decreases |items|
  {
    if items == [] then s else
    var s' := if items[0].Lost? then s else Logged(read, abs, s, items[0].text, items[0].now);
    LoggedAll(read, abs, s', items[1..])
  }

  predicate Readable(read: Reader, item: TailItem) {
    item.Line? && read(item.text).Some?
  }

  /** The item is a line with a detection for that path. */
  predicate ReportsOn(read: Reader, abs: string -> string, item: TailItem, path: string) {
    Readable(read, item) && abs(read(item.text).value.filePath) == path
  }

  /** items[i] is the last item with a detection for the path. */
  predicate LastFor(read: Reader, abs: string -> string, items: seq<TailItem>, path: string, i: nat) {
    && i < |items| && ReportsOn(read, abs, items[i], path)
    && forall j :: i < j < |items| ==> !ReportsOn(read, abs, items[j], path)
  }

  /** The cache holds the detection of that line for the path, with the line's time. */
  predicate HoldsItem(read: Reader, s: Store, item: TailItem, path: string) {
    && Readable(read, item) && path in s.detections
    && s.detections[path].detection == read(item.text).value && s.detections[path].at == item.now
  }

  /** What a log leaves in the cache for a path: the detection of the last line for it, or what was there before. */
  ghost predicate HoldsLastReport(read: Reader, abs: string -> string, before: Store, after: Store,
                                  items: seq<TailItem>, path: string) {
    && ((forall i :: 0 <= i < |items| ==> !ReportsOn(read, abs, items[i], path)) ==>
          && (path in after.detections <==> path in before.detections)
          && (path in after.detections ==> after.detections[path] == before.detections[path]))
    && (forall i: nat :: LastFor(read, abs, items, path, i) ==> HoldsItem(read, after, items[i], path))
  }

  lemma {:induction false} LoggedAllAppends(read: Reader, abs: string -> string, s: Store, items: seq<TailItem>,
                                            more: seq<TailItem>)
    ensures LoggedAll(read, abs, s, items + more) == LoggedAll(read, abs, LoggedAll(read, abs, s, items), more)
    decreases |items|
  {
    if items == [] {
      assert items + more == more;
    } else {
      assert (items + more)[0] == items[0] && (items + more)[1..] == items[1..] + more;
      var s' := if items[0].Lost? then s else Logged(read, abs, s, items[0].text, items[0].now);
      LoggedAllAppends(read, abs, s', items[1..], more);
    }
  }

  /** The last item acts on what the items before it left; a lost one does nothing. */
  lemma LastItem(read: Reader, abs: string -> string, s: Store, items: seq<TailItem>)
    requires items != []
    ensures var n := |items| - 1;
            LoggedAll(read, abs, s, items) ==
            var s' := LoggedAll(read, abs, s, items[..n]);
            if items[n].Lost? then s' else Logged(read, abs, s', items[n].text, items[n].now)
  {
    var n := |items| - 1;
    assert items == items[..n] + [items[n]] && [items[n]][1..] == [];
    LoggedAllAppends(read, abs, s, items[..n], [items[n]]);
  }

  function ReadableItems(read: Reader, items: seq<TailItem>): set<nat> {
    set i | 0 <= i < |items| && Readable(read, items[i])
  }

  lemma OneMoreReadable(read: Reader, items: seq<TailItem>)
    requires items != []
    ensures var n := |items| - 1;
            |ReadableItems(read, items)|
            == |ReadableItems(read, items[..n])| + if Readable(read, items[n]) then 1 else 0
  {
    var n := |items| - 1;
    assert ReadableItems(read, items) - {n} == ReadableItems(read, items[..n]);
  }

  /** Every readable line with a detection is one Add, wherever lost lines stand. */
  lemma {:induction false} LoggedAllCounts(read: Reader, abs: string -> string, s: Store, items: seq<TailItem>)
    ensures LoggedAll(read, abs, s, items).adds == s.adds + |ReadableItems(read, items)|
    ensures LoggedAll(read, abs, s, items).ttl == s.ttl
    decreases |items|
  {
    if items == [] {
      assert ReadableItems(read, items) == {};
    } else {
      LastItem(read, abs, s, items);
      LoggedAllCounts(read, abs, s, items[..|items| - 1]);
      OneMoreReadable(read, items);
    }
  }

  lemma LastForEarlier(read: Reader, abs: string -> string, items: seq<TailItem>, path: string, i: nat)
    requires items != [] && LastFor(read, abs, items, path, i)
    ensures if ReportsOn(read, abs, items[|items| - 1], path) then i == |items| - 1
            else LastFor(read, abs, items[..|items| - 1], path, i)
  {
  }

  lemma {:induction false} LoggedAllHoldsLast(read: Reader, abs: string -> string, s: Store, items: seq<TailItem>,
                                              path: string)
    ensures HoldsLastReport(read, abs, s, LoggedAll(read, abs, s, items), items, path)
    decreases |items|
  {
    if items != [] {
      var n := |items| - 1;
      LastItem(read, abs, s, items);
      LoggedAllHoldsLast(read, abs, s, items[..n], path);
      if forall i :: 0 <= i < |items| ==> !ReportsOn(read, abs, items[i], path) {
        assert forall i :: 0 <= i < n ==> items[..n][i] == items[i];
        assert !ReportsOn(read, abs, items[n], path);
      }
      forall i: nat | LastFor(read, abs, items, path, i)
        ensures HoldsItem(read, LoggedAll(read, abs, s, items), items[i], path)
      {
        LastForEarlier(read, abs, items, path, i);
      }
    }
  }

  method ProcessLogLine(engine: Engine, abs: string -> string, cache: Cache, line: string, now: int)
    requires cache.Valid()
    modifies cache, cache.added
    ensures cache.Valid() && (cache.added == old(cache.added) || fresh(cache.added))
    ensures cache.store == Logged(ReaderOf(engine), abs, old(cache.store), line, now)
  {
    var matches := ParseLogLine(engine, line);
    if matches.Some? {
      var (filePath, signature) := matches.value;
      cache.Add(abs(filePath), Detection(filePath, INFECTED, signature, line), now);
    }
  }

  /** Every readable line is processed, in order, whatever lines are lost between them. */
  method WatchLog(engine: Engine, abs: string -> string, cache: Cache, items: seq<TailItem>)
    requires cache.Valid()
    modifies cache, cache.added
    ensures cache.Valid() && cache.store == LoggedAll(ReaderOf(engine), abs, old(cache.store), items)
    ensures cache.store.adds == old(cache.store.adds) + |ReadableItems(ReaderOf(engine), items)|
    ensures forall path: string :: HoldsLastReport(ReaderOf(engine), abs, old(cache.store), cache.store, items, path)
  {
    ghost var start, read := cache.store, ReaderOf(engine);
    assert items[0..] == items;
    for i := 0 to |items|
      invariant cache.Valid() && (cache.added == old(cache.added) || fresh(cache.added))
      invariant LoggedAll(read, abs, start, items) == LoggedAll(read, abs, cache.store, items[i..])
    {
      assert items[i..][1..] == items[i + 1..];
      if items[i].Lost? {
        continue;
      }
      ProcessLogLine(engine, abs, cache, items[i].text, items[i].now);
    }
    assert items[|items|..] == [];
    LoggedAllCounts(read, abs, start, items);
    forall path: string ensures HoldsLastReport(read, abs, start, cache.store, items, path) {
      LoggedAllHoldsLast(read, abs, start, items, path);
    }
  }

  // ---- On-demand scans ----

  /** The decoded JSON result of dsa_scan; an absent field is None. Of infectedFiles only the names matter. */
  datatype Report = Report(scanned: Option<int>, skipped: Option<int>, infected: Option<int>, errorCode: Option<int>,
                           malwareNames: seq<string>)

  /** Killed: stopped by the scan's own deadline. `report` is None when the result cannot be decoded. */
  datatype ToolRun = Killed | NotStarted | Exited(exitCode: int, report: Option<Report>, stdout: string)

  function OrZero(n: Option<int>): int {
    if n.Some? then n.value else 0
  }

  predicate FinishedClean(r: Report, exitCode: int) {
    && exitCode == 0
    && r.errorCode == Some(0)
    && r.scanned.Some? && r.scanned.value != 0
    && r.skipped.Some? && r.skipped.value <= 0
    && r.infected.Some? && r.infected.value <= 0
    && r.malwareNames == []
  }

  /** parseManualScanOutput. */
  function ParseManualScanOutput(report: Option<Report>, exitCode: int): (r: (ScanStatus, string))
    ensures r.0.Clean? <==> report.Some? && FinishedClean(report.value, exitCode)
    ensures r.0.Clean? <==>
            && report.Some? && exitCode == 0 && report.value.errorCode == Some(0) && report.value.malwareNames == []
            && report.value.scanned.Some? && report.value.scanned.value != 0
            && report.value.skipped.Some? && report.value.skipped.value <= 0
            && report.value.infected.Some? && report.value.infected.value <= 0
    ensures r.0.Infected? <==>
            && report.Some?
            && (exitCode == 1 || exitCode == 3 || report.value.malwareNames != []
                || (report.value.infected.Some? && report.value.infected.value > 0))
    ensures r.1 == if r.0.Infected? && report.value.malwareNames != [] then report.value.malwareNames[0] else ""
  {
    if report.None? then (Error, "") else
    var r := report.value;
    if OrZero(r.infected) > 0 || |r.malwareNames| > 0 || exitCode == 1 || exitCode == 3 then
      (Infected, if |r.malwareNames| > 0 then r.malwareNames[0] else "")
    else
      var complete := r.scanned.Some? && r.skipped.Some? && r.infected.Some? && r.errorCode.Some?;
      if !complete || exitCode != 0 || OrZero(r.errorCode) != 0 || OrZero(r.skipped) > 0 || OrZero(r.scanned) == 0
      then (Error, "") else (Clean, "")
  }

  /** Exit codes 1 and 3 mean malware was found, but they are read only after the result was decoded: an undecodable
      result hides them, and the scan is left without a manual verdict. */
  lemma InfectedExitCodeIff(exitCode: int, report: Option<Report>, stdout: string)
    requires exitCode == 1 || exitCode == 3
    ensures ParseManualScanOutput(report, exitCode).0.Infected? <==> report.Some?
    ensures ManualVerdict(TrendMicro, Exited(exitCode, report, stdout)).None? <==> report.None?
    ensures ParseManualScanOutput(None, 1) == (Error, "") && ParseManualScanOutput(None, 3) == (Error, "")
  {
  }

  /** ClamAV's verdict: a FOUND line decides before the exit code does. */
  function ClamVerdict(stdout: string, exitCode: int): (ScanStatus, string) {
    var m := ClamFind(TrimSpace(stdout));
    if m.Some? then (Infected, m.value.1)
    else if exitCode == 0 then (Clean, "") else if exitCode == 1 then (Infected, "") else (Error, "")
  }

  method ClamManualScan(stdout: string, exitCode: int) returns (status: ScanStatus, signature: string)
    ensures (status, signature) == ClamVerdict(stdout, exitCode)
    ensures status.Infected? <==>
            exitCode == 1 || exists i: nat, j: nat, k: nat, l: nat :: ClamMatches(TrimSpace(stdout), i, j, k, l)
    ensures status.Clean? <==>
            exitCode == 0 && forall i: nat, j: nat, k: nat, l: nat :: !ClamMatches(TrimSpace(stdout), i, j, k, l)
    ensures signature != [] ==>
              exists i: nat, j: nat, k: nat, l: nat ::
                ClamMatches(TrimSpace(stdout), i, j, k, l) && signature == TrimSpace(stdout)[k..l]
    ensures (exists i: nat, j: nat, k: nat, l: nat :: ClamMatches(TrimSpace(stdout), i, j, k, l)) ==>
              && ClamFrom(TrimSpace(stdout), 0).Some?
              && var (i, j, k, l) := ClamFrom(TrimSpace(stdout), 0).value;
              && l <= |TrimSpace(stdout)| && k < l && signature == TrimSpace(stdout)[k..l]
  {
    signature := "";
    var output := TrimSpace(stdout);
    var matches := ClamFind(output);
    if matches.Some? {
      status := Infected;
      signature := matches.value.1;
    } else {
      if exitCode == 0 {
        status := Clean;
      } else if exitCode == 1 {
        status := Infected;
      } else {
        status := Error;
      }
    }
  }

  /** Driver.ManualScan; None is its error return. */
  function ManualScan(engine: Engine, run: ToolRun): Option<(ScanStatus, string)> {
    if !run.Exited? then None
    else if engine.TrendMicro? then Some(ParseManualScanOutput(run.report, run.exitCode))
    else Some(ClamVerdict(run.stdout, run.exitCode))
  }

  /** The manual scan's verdict, if it reached one. */
  function ManualVerdict(engine: Engine, run: ToolRun): Option<(ScanStatus, string)> {
    var r := ManualScan(engine, run);
    if r.Some? && !r.value.0.Error? then r else None
  }

  /** Which runs give a verdict, and which: the tool must have run to its end, and then an error is no verdict. */
  lemma ManualVerdictIff(engine: Engine, run: ToolRun)
    ensures var v := ManualVerdict(engine, run);
            && (!run.Exited? ==> v.None?)
            && (run.Exited? && engine.TrendMicro? ==>
                  v == var r := ParseManualScanOutput(run.report, run.exitCode);
                       if r.0.Clean? || r.0.Infected? then Some(r) else None)
            && (run.Exited? && engine.ClamAV? ==>
                  var found := ClamFind(TrimSpace(run.stdout));
                  v == if found.Some? then Some((Infected, found.value.1))
                       else if run.exitCode == 0 then Some((Clean, ""))
                       else if run.exitCode == 1 then Some((Infected, "")) else None)
  {
  }

  // ---- Real-time detections ----

  /** WatchRTS: the signature of an infection, or ErrNoRTSDetection; there is no clean answer. */
  method WatchRTS(abs: string -> string, cache: Cache, filePath: string, deadline: int, stays: seq<Stay>)
    returns (signature: Option<string>)
    requires cache.Valid() && Possible(stays, deadline)
    modifies cache, cache.added
    ensures cache.Valid() && cache.store == WaitFrom(old(cache.store), abs(filePath), stays).1
    ensures signature == WatchResult(WaitFrom(old(cache.store), abs(filePath), stays).0)
    ensures var found := WaitFrom(old(cache.store), abs(filePath), stays).0;
            && (signature.Some? <==> found.Found? && found.d.detection.status == "infected")
            && (signature.Some? ==> signature.value == found.d.detection.signature)
  {
    var cached, _ := cache.Wait(abs(filePath), deadline, stays);
    if cached.None? {
      return None;
    }
    if cached.value.detection.status != INFECTED {
      return None;
    }
    signature := Some(cached.value.detection.signature);
  }

  function WatchResult(r: WaitResult): Option<string> {
    if r.Found? && r.d.detection.status == INFECTED then Some(r.d.detection.signature) else None
  }
}
