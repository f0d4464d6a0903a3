/** The animated console of the landing page: a bounded buffer of log lines
    that a timer extends from a cyclic list of canned entries, paused while
    the pointer is over it. */
module ConsoleDemo {
  import opened Optional

  /** One line of the console. */
  datatype LogLine = LogLine(
    id: int, time: string, badge: string, badgeText: string,
    component: string, message: string, source: Option<string>, data: Option<string>)

  /** A canned entry: a log line without its id and time. */
  datatype CannedLog = CannedLog(
    badge: string, badgeText: string, component: string, message: string,
    source: Option<string>, data: Option<string>)

  /** The console shows at most this many lines. */
  const MaxLogs: nat := 8

  const InitialLogs: seq<LogLine> := [
    LogLine(1, "[10:30:45]", "info", "ℹ️ INFO", "App", "Application started", None, None),
    LogLine(2, "[10:30:45]", "debug", "🐛 DEBUG", "UserProfile", "fetchUser()",
      Some("@ src/components/UserProfile.tsx:42"), None),
    LogLine(3, "", "debug", "", "", "", None, Some("   📊 Data: { userId: 123, name: \"John\" }")),
    LogLine(4, "[10:30:46]", "debug", "🐛 DEBUG", "UserProfile", "🎨 Render #1 (2.34ms)",
      Some("@ src/components/UserProfile.tsx:67"), None),
    LogLine(5, "[10:30:47]", "warn", "⚠️ WARN", "DataService", "Cache miss for key: user_123", None, None),
    LogLine(6, "[10:30:48]", "debug", "🐛 DEBUG", "UserProfile", "📦 Props changed", None, None),
    LogLine(7, "", "debug", "", "", "", None, Some("   { name: { prev: null, next: \"John Doe\" } }"))
  ]

  const AdditionalLogs: seq<CannedLog> := [
    CannedLog("info", "ℹ️ INFO", "App", "Route changed to /dashboard", None, None),
    CannedLog("debug", "🐛 DEBUG", "Dashboard", "🚀 Mounted", Some("@ src/pages/Dashboard.tsx:12"), None),
    CannedLog("debug", "🐛 DEBUG", "DataService", "fetchDashboardData() started",
      Some("@ src/services/DataService.ts:45"), None),
    CannedLog("debug", "🐛 DEBUG", "DataService", "✅ fetchDashboardData() completed (156.78ms)", None, None),
    CannedLog("debug", "🐛 DEBUG", "Dashboard", "🎨 Render #1 (3.45ms)", Some("@ src/pages/Dashboard.tsx:67"), None),
    CannedLog("warn", "⚠️ WARN", "Analytics", "Tracking pixel failed to load", None, None),
    CannedLog("debug", "🐛 DEBUG", "Chart", "📦 Props changed", Some("@ src/components/Chart.tsx:23"), None)
  ]

  /** The canned entry a tick with this index appends: the list is used
      cyclically. */
  function CannedAt(logIndex: nat): (e: CannedLog)
    ensures e in AdditionalLogs
  {
    AdditionalLogs[logIndex % |AdditionalLogs|]
  }

  /** The canned tables: seven initial lines numbered 1 to 7 and seven
      entries to cycle through. A line has a time label exactly when it has
      a badge text, and every badge, initial or canned, has a badge class. */
  lemma CannedTables()
    ensures |InitialLogs| == 7 && |AdditionalLogs| == 7
    ensures forall k :: 0 <= k < |InitialLogs| ==> InitialLogs[k].id == k + 1
    ensures forall l :: l in InitialLogs ==> (l.time != "" <==> l.badgeText != "")
    ensures forall l :: l in InitialLogs ==> GetBadgeClass(l.badge) != ""
    ensures forall e :: e in AdditionalLogs ==> GetBadgeClass(e.badge) != ""
  {
  }

  /** `l` holds the content of the canned entry `e`. */
  predicate Carries(l: LogLine, e: CannedLog) {
    l.badge == e.badge && l.badgeText == e.badgeText && l.component == e.component &&
    l.message == e.message && l.source == e.source && l.data == e.data
  }

  /** The canned entry stamped with an id (`Date.now()`) and, when it has a
      badge, a time label built from the local clock reading. */
  function Stamp(e: CannedLog, now: int, clock: string): (l: LogLine)
    ensures Carries(l, e) && l.id == now
    ensures l.time != "" <==> e.badgeText != ""
  {
    LogLine(now, if e.badgeText != "" then "[" + clock + "]" else "",
      e.badge, e.badgeText, e.component, e.message, e.source, e.data)
  }

  function Min(a: nat, b: nat): nat {
    if a <= b then a else b
  }

  /** The buffer update of `addLog`: append, then keep the last eight. Only
      the oldest lines are evicted and the survivors keep their order. */
  function Push(prev: seq<LogLine>, x: LogLine): (r: seq<LogLine>)
    ensures |r| == Min(MaxLogs, |prev| + 1)
    ensures r[|r| - 1] == x
    ensures r == (prev + [x])[|prev| + 1 - |r|..]
    ensures r[..|r| - 1] == prev[|prev| - (|r| - 1)..]
  {
    var updated := prev + [x];
    if |updated| > MaxLogs then updated[|updated| - MaxLogs..] else updated
  }

  /** The last (at most eight) lines of `s`. */
  function Window(s: seq<LogLine>): (w: seq<LogLine>)
    ensures |w| == Min(MaxLogs, |s|)
  {
    s[|s| - Min(MaxLogs, |s|)..]
  }

  /** Pushing onto the window of a history gives the window of the extended
      history: the buffer is always the most recent lines. */
  lemma PushWindow(s: seq<LogLine>, x: LogLine)
    ensures Push(Window(s), x) == Window(s + [x])
  {
    var w := Window(s);
    var r := Push(w, x);
    var t := Window(s + [x]);
    assert |r| == |t|;
    forall k | 0 <= k < |r|
      ensures r[k] == t[k]
    {
      if k < |r| - 1 {
        assert r[k] == w[|w| - (|r| - 1) + k];
      }
    }
  }

  /** One more line in the history keeps the buffer its window. */
  lemma ExtendHistory(hist: seq<LogLine>, x: LogLine)
    ensures Push(Window(InitialLogs + hist), x) == Window(InitialLogs + (hist + [x]))
  {
    PushWindow(InitialLogs + hist, x);
    assert InitialLogs + (hist + [x]) == (InitialLogs + hist) + [x];
  }

  /** Entry k of a history carries canned entry k, and so does the next one. */
  ghost predicate Follows(hist: seq<LogLine>) {
    forall k :: 0 <= k < |hist| ==> Carries(hist[k], CannedAt(k))
  }

  lemma CarriesExtend(hist: seq<LogLine>, x: LogLine)
    requires Follows(hist) && Carries(x, CannedAt(|hist|))
    ensures Follows(hist + [x])
  {
    forall k | 0 <= k < |hist| + 1
      ensures Carries((hist + [x])[k], CannedAt(k))
    {
      if k < |hist| {
        assert (hist + [x])[k] == hist[k];
      }
    }
  }

  /** Once the buffer is full, a push evicts exactly its oldest line. */
  lemma PushEvictsOldest(prev: seq<LogLine>, x: LogLine)
    requires |prev| == MaxLogs
    ensures Push(prev, x) == prev[1..] + [x]
  {
  }

  /** `getBadgeClass`: the four badge names map to their classes, anything
      else to no class. */
  function GetBadgeClass(badge: string): (cls: string)
    ensures badge in {"info", "debug", "warn", "error"} ==> cls == "log-badge-" + badge
    ensures badge !in {"info", "debug", "warn", "error"} ==> cls == ""
  {
    match badge
    case "info" => "log-badge-info"
    case "debug" => "log-badge-debug"
    case "warn" => "log-badge-warn"
    case "error" => "log-badge-error"
    case _ => ""
  }

  /** The state of the console component. */
  class Console {
    var logs: seq<LogLine>
    var logIndex: nat
    var isPaused: bool
    /** Every line a tick has appended, oldest first. */
    ghost var appended: seq<LogLine>

    /** Tick k appended canned entry k (cyclically), and the buffer is the last
        lines of the initial lines followed by everything appended. */
    ghost predicate Valid()
      reads this
    {
      |appended| == logIndex && Follows(appended) &&
      logs == Window(InitialLogs + appended)
    }

    constructor ()
      ensures Valid()
      ensures logs == InitialLogs && logIndex == 0 && !isPaused && appended == []
    {
      logs := InitialLogs;
      logIndex := 0;
      isPaused := false;
      appended := [];
      assert InitialLogs + [] == InitialLogs;
    }

    /** `addLog`, run by the timer; `now` and `clock` stand for `Date.now()`
        and the local time label. A paused tick is skipped, not deferred. */
    method Tick(now: int, clock: string)
      requires Valid()
      modifies this
      ensures Valid()
      ensures isPaused == old(isPaused)
      ensures old(isPaused) ==>
        logs == old(logs) && logIndex == old(logIndex) && appended == old(appended)
      ensures !old(isPaused) ==>
        var e := Stamp(CannedAt(old(logIndex)), now, clock);
        logs == Push(old(logs), e) && logIndex == old(logIndex) + 1 &&
        appended == old(appended) + [e]
      ensures |logs| <= MaxLogs
    {
      if isPaused {
        return;
      }
      var newLog := Stamp(AdditionalLogs[logIndex % |AdditionalLogs|], now, clock);
      var updated := logs + [newLog];
      if |updated| > MaxLogs {
        updated := updated[|updated| - MaxLogs..];
      }
      assert updated == Push(logs, newLog);
      ExtendHistory(appended, newLog);
      CarriesExtend(appended, newLog);
      logs := updated;
      appended := appended + [newLog];
      logIndex := logIndex + 1;
    }

    /** `handleMouseEnter`: pause. */
    method Hover()
      requires Valid()
      modifies this
      ensures Valid() && isPaused
      ensures logs == old(logs) && logIndex == old(logIndex) && appended == old(appended)
    {
      isPaused := true;
    }

    /** `handleMouseLeave`: resume. */
    method Unhover()
      requires Valid()
      modifies this
      ensures Valid() && !isPaused
      ensures logs == old(logs) && logIndex == old(logIndex) && appended == old(appended)
    {
      isPaused := false;
    }
  }
}
