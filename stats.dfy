/**
 * The statistics summary and the routine that computes it from the log
 * (internal/api/server.go:70-81, 122-230).
 */
module Stats {
  import opened Wrappers
  import opened Probe
  import opened Downtime

  /** The summary served to the dashboard. */
  datatype Stats = Stats(
    currentStatus: string,              // "online" or "offline"
    totalChecks: nat,
    onlineChecks: nat,
    offlineChecks: nat,
    uptimePercentage: int,              // whole percent, rounded down
    totalDowntimeSeconds: int,
    downtimeEvents: seq<DowntimeEvent>, // most recent first
    recentDowntime: Option<DowntimeEvent>,
    timeSinceLastCheck: Option<Time>)   // timestamp of the last entry

  /** The number of online entries. */
  function CountOnline(logs: seq<LogEntry>): (n: nat)
    ensures n <= |logs|
  {
    if logs == [] then 0
    else CountOnline(logs[..|logs| - 1]) + (if Online(logs[|logs| - 1]) then 1 else 0)
  }

  /** The number of offline entries. */
  function CountOffline(logs: seq<LogEntry>): (n: nat)
    ensures n <= |logs|
  {
    if logs == [] then 0
    else CountOffline(logs[..|logs| - 1]) + (if Online(logs[|logs| - 1]) then 0 else 1)
  }

  /** One more entry adds one to exactly one of the two counts. */
  lemma CountStep(logs: seq<LogEntry>, i: nat)
    requires i < |logs|
    ensures CountOnline(logs[..i + 1]) == CountOnline(logs[..i]) + (if Online(logs[i]) then 1 else 0)
    ensures CountOffline(logs[..i + 1]) == CountOffline(logs[..i]) + (if Online(logs[i]) then 0 else 1)
  {
    assert logs[..i + 1][..i] == logs[..i];
  }

  /** Every entry is counted exactly once, as online or as offline. */
  lemma {:induction false} CountsPartition(logs: seq<LogEntry>)
    ensures CountOnline(logs) + CountOffline(logs) == |logs|
  {
    if logs != [] {
      CountsPartition(logs[..|logs| - 1]);
    }
  }

  /** The sum of the durations of `events`, in seconds. */
  function TotalDuration(events: seq<DowntimeEvent>): int
  {
    if events == [] then 0
    else TotalDuration(events[..|events| - 1]) + events[|events| - 1].duration
  }

  /** `s` read back to front. */
  function Reversed<T>(s: seq<T>): (r: seq<T>)
    ensures |r| == |s|
    ensures forall k :: 0 <= k < |s| ==> r[k] == s[|s| - 1 - k]
  {
    if s == [] then [] else [s[|s| - 1]] + Reversed(s[..|s| - 1])
  }

  /** Reverses `a` in place by swapping its two ends and moving inwards. */
  method ReverseInPlace<T>(a: array<T>)
    modifies a
    ensures a[..] == Reversed(old(a[..]))
  {
    ghost var s := a[..];
    var n := a.Length;
    for i := 0 to n / 2
      invariant forall k :: 0 <= k < i ==> a[k] == s[n - 1 - k] && a[n - 1 - k] == s[k]
      invariant forall k :: i <= k < n - i ==> a[k] == s[k]
    {
      var j := n - 1 - i;
      a[i], a[j] := a[j], a[i];
    }
    forall k | 0 <= k < n
      ensures a[k] == Reversed(s)[k]
    {
      if n / 2 <= k < n - n / 2 {
        assert k == n - 1 - k;
      } else if k >= n - n / 2 {
        assert a[n - 1 - (n - 1 - k)] == s[n - 1 - k];
      }
    }
  }

  /** `s` copied into a fresh backing array and reversed there in place. */
  method ReverseSlice<T>(s: seq<T>) returns (r: seq<T>)
    ensures r == Reversed(s)
  {
    var buffer := new T[|s|](k requires 0 <= k < |s| => s[k]);
    assert buffer[..] == s;
    ReverseInPlace(buffer);
    r := buffer[..];
  }

  /**
   * Uptime as a whole percentage of the checks that were online: 0 when
   * there were no checks, otherwise `online * 100 / total` rounded down.
   */
  function UptimePercentage(online: nat, total: nat): nat
  {
    if total == 0 then 0 else online * 100 / total
  }

  /**
   * The uptime is the largest whole percentage not above the true share of
   * online checks, and it is at most 100 when the online checks are among
   * the total.
   */
  lemma UptimeBounds(online: nat, total: nat)
    ensures total == 0 ==> UptimePercentage(online, total) == 0
    ensures total > 0 ==> var p := UptimePercentage(online, total);
      p * total <= online * 100 < (p + 1) * total
    ensures online <= total ==> UptimePercentage(online, total) <= 100
  {
  }

  /** The local state of the aggregation loop after some entries. */
  datatype Tally = Tally(
    downtimeEvents: seq<DowntimeEvent>,   // oldest first
    onlineChecks: nat,
    offlineChecks: nat,
    totalDowntimeSeconds: int,
    lastStatus: bool,                     // verdict of the last entry read
    statusInitialized: bool,              // some entry has been read
    downtimeStart: Time,                  // start of the open downtime period
    downtimeFailedHosts: seq<string>,     // failed hosts when it opened
    lastCheckTime: Option<Time>,
    currentStatus: string)

  /** The state before any entry is read. */
  function InitialTally(): Tally
  {
    Tally([], 0, 0, 0, false, false, 0, [], None, "online")
  }

  /**
   * Reading one entry: an online entry ends the open downtime period, if
   * any, and an offline entry opens one unless one is open already.
   */
  function Step(t: Tally, entry: LogEntry): Tally
  {
    if Online(entry) then
      var closes := t.statusInitialized && !t.lastStatus;
      var duration := entry.timestamp - t.downtimeStart;
      var closed := DowntimeEvent(t.downtimeStart, Some(entry.timestamp), duration, false, t.downtimeFailedHosts);
      Tally(if closes then t.downtimeEvents + [closed] else t.downtimeEvents,
            t.onlineChecks + 1, t.offlineChecks,
            if closes then t.totalDowntimeSeconds + duration else t.totalDowntimeSeconds,
            true, true, t.downtimeStart, t.downtimeFailedHosts,
            Some(entry.timestamp), "online")
    else
      var opens := !t.statusInitialized || t.lastStatus;
      Tally(t.downtimeEvents, t.onlineChecks, t.offlineChecks + 1, t.totalDowntimeSeconds,
            false, true,
            if opens then entry.timestamp else t.downtimeStart,
            if opens then FailedHosts(entry.results) else t.downtimeFailedHosts,
            Some(entry.timestamp), "offline")
  }

  /** Each entry read raises exactly one of the two counters, by one. */
  lemma StepCountsOne(t: Tally, entry: LogEntry)
    ensures Step(t, entry).onlineChecks + Step(t, entry).offlineChecks == t.onlineChecks + t.offlineChecks + 1
    ensures Step(t, entry).onlineChecks > t.onlineChecks <==> Online(entry)
    ensures Step(t, entry).offlineChecks > t.offlineChecks <==> !Online(entry)
  {
  }

  /** The state after reading every entry of `logs` in order. */
  function Tallied(logs: seq<LogEntry>): Tally
  {
    if logs == [] then InitialTally() else Step(Tallied(logs[..|logs| - 1]), logs[|logs| - 1])
  }

  /** The counters after reading `logs[..i]`. */
  lemma {:induction false} TalliedCounts(logs: seq<LogEntry>, i: nat)
    requires i <= |logs|
    ensures Tallied(logs[..i]).onlineChecks == CountOnline(logs[..i])
    ensures Tallied(logs[..i]).offlineChecks == CountOffline(logs[..i])
  {
    if i > 0 {
      TalliedCounts(logs, i - 1);
      assert logs[..i][..i - 1] == logs[..i - 1];
      CountStep(logs, i - 1);
    }
  }

  /** The status and the last check time after reading `logs[..i]`. */
  lemma TalliedStatus(logs: seq<LogEntry>, i: nat)
    requires i <= |logs|
    ensures var t := Tallied(logs[..i]);
      && (t.statusInitialized <==> i > 0)
      && (i > 0 ==> t.lastStatus == Online(logs[i - 1]))
      && t.currentStatus == (if i > 0 && !Online(logs[i - 1]) then "offline" else "online")
      && t.lastCheckTime == (if i == 0 then None else Some(logs[i - 1].timestamp))
  {
  }

  /** The running downtime total is the sum of the events read so far. */
  lemma {:induction false} TalliedTotal(logs: seq<LogEntry>, i: nat)
    requires i <= |logs|
    ensures Tallied(logs[..i]).totalDowntimeSeconds == TotalDuration(Tallied(logs[..i]).downtimeEvents)
  {
    if i > 0 {
      TalliedTotal(logs, i - 1);
      assert logs[..i][..i - 1] == logs[..i - 1];
      var t := Tallied(logs[..i - 1]);
      var e := DowntimeEvent(t.downtimeStart, Some(logs[i - 1].timestamp),
                             logs[i - 1].timestamp - t.downtimeStart, false, t.downtimeFailedHosts);
      TotalDurationSnoc(t.downtimeEvents, e);
    }
  }

  /** Reading an online entry keeps the loop's knowledge of the runs. */
  lemma StepOnlineScanned(logs: seq<LogEntry>, now: Time, i: nat, rs: nat, t: Tally)
    requires i < |logs| && Online(logs[i])
    requires Scanned(logs, now, i, rs, t.statusInitialized && !t.lastStatus,
                     t.downtimeStart, t.downtimeFailedHosts, t.downtimeEvents)
    ensures var t' := Step(t, logs[i]);
      Scanned(logs, now, i + 1, i + 1, t'.statusInitialized && !t'.lastStatus,
              t'.downtimeStart, t'.downtimeFailedHosts, t'.downtimeEvents)
  {
    var open := t.statusInitialized && !t.lastStatus;
    ScanOnline(logs, now, i, rs, open, t.downtimeStart, t.downtimeFailedHosts, t.downtimeEvents);
    var t' := Step(t, logs[i]);
    if open {
      var closed := DowntimeEvent(t.downtimeStart, Some(logs[i].timestamp),
                                  logs[i].timestamp - t.downtimeStart, false, t.downtimeFailedHosts);
      assert t'.downtimeEvents == t.downtimeEvents + [closed];
    }
  }

  /** Reading an offline entry keeps the loop's knowledge of the runs. */
  lemma StepOfflineScanned(logs: seq<LogEntry>, now: Time, i: nat, rs: nat, t: Tally) returns (rs': nat)
    requires i < |logs| && !Online(logs[i])
    requires Scanned(logs, now, i, rs, t.statusInitialized && !t.lastStatus,
                     t.downtimeStart, t.downtimeFailedHosts, t.downtimeEvents)
    ensures var t' := Step(t, logs[i]);
      Scanned(logs, now, i + 1, rs', t'.statusInitialized && !t'.lastStatus,
              t'.downtimeStart, t'.downtimeFailedHosts, t'.downtimeEvents)
  {
    var open := t.statusInitialized && !t.lastStatus;
    ScanOffline(logs, now, i, rs, open, t.downtimeStart, t.downtimeFailedHosts, t.downtimeEvents);
    rs' := if open then rs else i;
  }

  /**
   * The events after reading `logs[..i]` are those of the runs that have
   * ended, and the open period, if any, is the run that began at `runStart`.
   */
  lemma {:induction false} TalliedRuns(logs: seq<LogEntry>, i: nat, now: Time) returns (runStart: nat)
    requires i <= |logs|
    ensures var t := Tallied(logs[..i]);
      Scanned(logs, now, i, runStart, t.statusInitialized && !t.lastStatus,
              t.downtimeStart, t.downtimeFailedHosts, t.downtimeEvents)
  {
    if i == 0 {
      runStart := 0;
    } else {
      var rs := TalliedRuns(logs, i - 1, now);
      assert logs[..i][..i - 1] == logs[..i - 1];
      var t := Tallied(logs[..i - 1]);
      assert Tallied(logs[..i]) == Step(t, logs[i - 1]);
      if Online(logs[i - 1]) {
        StepOnlineScanned(logs, now, i - 1, rs, t);
        runStart := i;
      } else {
        runStart := StepOfflineScanned(logs, now, i - 1, rs, t);
      }
    }
  }

  /**
   * A state after the whole log is final when it has a period open exactly
   * if the log ends offline, and the closed events read so far, followed by
   * the ongoing event when one is open, are exactly the downtime events.
   */
  ghost predicate Final(logs: seq<LogEntry>, now: Time, t: Tally)
  {
    var open := t.statusInitialized && !t.lastStatus;
    var ongoing := DowntimeEvent(t.downtimeStart, None, now - t.downtimeStart, true, t.downtimeFailedHosts);
    && (open <==> (logs != [] && !Online(logs[|logs| - 1])))
    && (open ==> Downtimes(logs, now) == t.downtimeEvents + [ongoing])
    && (!open ==> Downtimes(logs, now) == t.downtimeEvents)
  }

  /** The state after reading the whole log is final. */
  lemma TalliedEnd(logs: seq<LogEntry>, now: Time)
    ensures Final(logs, now, Tallied(logs))
  {
    var runStart := TalliedRuns(logs, |logs|, now);
    assert logs[..|logs|] == logs;
    var t := Tallied(logs);
    assert Tallied(logs[..|logs|]) == t;
    EndScanned(logs, now, runStart, t);
  }

  /** A state that knows the runs of the whole log is final. */
  lemma EndScanned(logs: seq<LogEntry>, now: Time, rs: nat, t: Tally)
    requires Scanned(logs, now, |logs|, rs, t.statusInitialized && !t.lastStatus,
                     t.downtimeStart, t.downtimeFailedHosts, t.downtimeEvents)
    ensures Final(logs, now, t)
  {
    var open := t.statusInitialized && !t.lastStatus;
    ScanEnd(logs, now, rs, open, t.downtimeStart, t.downtimeFailedHosts, t.downtimeEvents);
    if open {
      assert !Online(logs[|logs| - 1]);
    }
  }

  /**
   * The aggregation over the log, oldest entry first. One pass classifies
   * each entry, counts it, and opens or closes downtime events as the
   * verdict changes; a log that ends offline adds an ongoing event measured
   * to `now`; the events are then reversed in place, most recent first.
   */
  method CalculateStats(logs: seq<LogEntry>, now: Time) returns (stats: Stats)
    ensures stats.totalChecks == |logs|
    ensures stats.onlineChecks == CountOnline(logs) && stats.offlineChecks == CountOffline(logs)
    ensures stats.onlineChecks + stats.offlineChecks == stats.totalChecks
    ensures stats.currentStatus == (if logs != [] && !Online(logs[|logs| - 1]) then "offline" else "online")
    ensures stats.timeSinceLastCheck == (if logs == [] then None else Some(logs[|logs| - 1].timestamp))
    ensures stats.uptimePercentage == UptimePercentage(stats.onlineChecks, stats.totalChecks)
    ensures 0 <= stats.uptimePercentage <= 100
    ensures stats.downtimeEvents == Reversed(Downtimes(logs, now))
    ensures stats.totalDowntimeSeconds == TotalDuration(stats.downtimeEvents)
    ensures stats.recentDowntime == (if stats.downtimeEvents == [] then None else Some(stats.downtimeEvents[0]))
  {
    var downtimeEvents: seq<DowntimeEvent> := [];
    var onlineChecks, offlineChecks := 0, 0;
    var totalDowntimeSeconds := 0;

    var lastStatus := false;
    var downtimeStart: Time := 0;
    var downtimeFailedHosts: seq<string> := [];
    var lastCheckTime: Option<Time> := None;
    var currentStatus := "online";
    var statusInitialized := false;

    for i := 0 to |logs|
      invariant Tally(downtimeEvents, onlineChecks, offlineChecks, totalDowntimeSeconds,
                      lastStatus, statusInitialized, downtimeStart, downtimeFailedHosts,
                      lastCheckTime, currentStatus) == Tallied(logs[..i])
    {
      var entry := logs[i];
      var internetOnline, failedHosts := ClassifyEntry(entry);
      lastCheckTime := Some(entry.timestamp);
      assert logs[..i + 1][..i] == logs[..i];

      if internetOnline {
        onlineChecks := onlineChecks + 1;
        if statusInitialized && !lastStatus {
          // this entry ends the downtime period
          var endTime := entry.timestamp;
          var duration := endTime - downtimeStart;
          totalDowntimeSeconds := totalDowntimeSeconds + duration;
          var downEvent := DowntimeEvent(downtimeStart, Some(endTime), duration, false, downtimeFailedHosts);
          downtimeEvents := downtimeEvents + [downEvent];
        }
        lastStatus := true;
        currentStatus := "online";
      } else {
        offlineChecks := offlineChecks + 1;
        if !statusInitialized || lastStatus {
          // this entry starts a downtime period
          downtimeStart := entry.timestamp;
          downtimeFailedHosts := failedHosts;
        }
        lastStatus := false;
        currentStatus := "offline";
      }
      statusInitialized := true;
    }

    assert logs[..|logs|] == logs;
    TalliedCounts(logs, |logs|);
    CountsPartition(logs);
    TalliedStatus(logs, |logs|);
    TalliedTotal(logs, |logs|);
    TalliedEnd(logs, now);

    if statusInitialized && !lastStatus && lastCheckTime.Some? {
      // the log ends offline: the last period is still going on
      var duration := now - downtimeStart;
      var downEvent := DowntimeEvent(downtimeStart, None, duration, true, downtimeFailedHosts);
      TotalDurationSnoc(downtimeEvents, downEvent);
      downtimeEvents := downtimeEvents + [downEvent];
      totalDowntimeSeconds := totalDowntimeSeconds + duration;
    }
    assert downtimeEvents == Downtimes(logs, now);

    var totalChecks := |logs|;
    var uptimePercentage := UptimePercentage(onlineChecks, totalChecks);
    UptimeBounds(onlineChecks, totalChecks);

    // most recent first
    ghost var chronological := downtimeEvents;
    downtimeEvents := ReverseSlice(downtimeEvents);
    TotalDurationReversed(chronological);

    var recentDowntime: Option<DowntimeEvent> := None;
    if |downtimeEvents| > 0 {
      recentDowntime := Some(downtimeEvents[0]);
    }

    stats := Stats(currentStatus, totalChecks, onlineChecks, offlineChecks, uptimePercentage,
                   totalDowntimeSeconds, downtimeEvents, recentDowntime, lastCheckTime);
  }

  /**
   * Most recent first: only the first event can be ongoing, and it is when
   * the log ends offline; on a log in timestamp order the start times do
   * not increase.
   */
  lemma NewestFirst(logs: seq<LogEntry>, now: Time)
    ensures var r := Reversed(Downtimes(logs, now));
      forall p :: 0 <= p < |r| ==>
        (r[p].isOngoing <==> p == 0 && logs != [] && !Online(logs[|logs| - 1]))
    ensures var r := Reversed(Downtimes(logs, now));
      Ascending(logs) ==> forall p, q :: 0 <= p < q < |r| ==> r[q].startTime <= r[p].startTime
  {
    DowntimesOngoing(logs, now);
    if Ascending(logs) {
      DowntimesChronological(logs, now);
    }
  }

  /** Adding one event at the end adds its duration. */
  lemma TotalDurationSnoc(events: seq<DowntimeEvent>, e: DowntimeEvent)
    ensures TotalDuration(events + [e]) == TotalDuration(events) + e.duration
  {
  }

  /** Adding one event in front adds its duration. */
  lemma {:induction false} TotalDurationCons(e: DowntimeEvent, events: seq<DowntimeEvent>)
    ensures TotalDuration([e] + events) == e.duration + TotalDuration(events)
  {
    if events != [] {
      var init := events[..|events| - 1];
      assert ([e] + events)[..|events|] == [e] + init;
      TotalDurationCons(e, init);
    }
  }

  /** Reversing the events leaves the total downtime unchanged. */
  lemma {:induction false} TotalDurationReversed(events: seq<DowntimeEvent>)
    ensures TotalDuration(Reversed(events)) == TotalDuration(events)
  {
    if events != [] {
      var init := events[..|events| - 1];
      assert Reversed(events) == [events[|events| - 1]] + Reversed(init);
      TotalDurationCons(events[|events| - 1], Reversed(init));
      TotalDurationReversed(init);
    }
  }
}
