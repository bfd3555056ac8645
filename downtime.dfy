/**
 * Downtime intervals (internal/api/server.go:83-90) and a reference
 * definition of them that works run by run: every maximal run of offline
 * entries is one interval, opened by the run's first entry and closed by
 * the online entry that follows the run, or still ongoing when the log
 * ends offline.
 */
module Downtime {
  import opened Wrappers
  import opened Probe

  /** A period during which every probed host failed. */
  datatype DowntimeEvent = DowntimeEvent(
    startTime: Time,
    endTime: Option<Time>,   // None while the period is still ongoing
    duration: int,           // seconds
    isOngoing: bool,
    failedHosts: seq<string>)

  /** The log is in non-decreasing timestamp order. */
  predicate Ascending(logs: seq<LogEntry>)
  {
    forall i, j :: 0 <= i < j < |logs| ==> logs[i].timestamp <= logs[j].timestamp
  }

  /** `logs[k..m]` is a maximal run of offline entries. */
  predicate MaximalOfflineRun(logs: seq<LogEntry>, k: int, m: int)
  {
    && 0 <= k < m <= |logs|
    && (forall i :: k <= i < m ==> !Online(logs[i]))
    && (k == 0 || Online(logs[k - 1]))
    && (m == |logs| || Online(logs[m]))
  }

  /** Entry `k` opens a run: it is offline and is first or follows an online entry. */
  predicate OpensRun(logs: seq<LogEntry>, k: int)
  {
    0 <= k < |logs| && !Online(logs[k]) && (k == 0 || Online(logs[k - 1]))
  }

  /**
   * The event the run `logs[k..m]` stands for: it starts at the run's first
   * entry and keeps that entry's failed hosts; it ends at the online entry
   * after the run, or, if there is none, it is ongoing and measured to `now`.
   */
  function EventOfRun(logs: seq<LogEntry>, k: nat, m: nat, now: Time): DowntimeEvent
    requires k < m <= |logs|
  {
    var start := logs[k].timestamp;
    var hosts := FailedHosts(logs[k].results);
    if m < |logs| then
      DowntimeEvent(start, Some(logs[m].timestamp), logs[m].timestamp - start, false, hosts)
    else
      DowntimeEvent(start, None, now - start, true, hosts)
  }

  /** The index of the first online entry at or after `k`, or `|logs|` if there is none. */
  function RunEnd(logs: seq<LogEntry>, k: nat): (m: nat)
    requires k <= |logs|
    ensures k <= m <= |logs|
    ensures k < |logs| && !Online(logs[k]) ==> k < m
    decreases |logs| - k
  {
    if k == |logs| || Online(logs[k]) then k else RunEnd(logs, k + 1)
  }

  /** The events of the runs that open before index `j`, oldest first. */
  function RunsBefore(logs: seq<LogEntry>, j: nat, now: Time): seq<DowntimeEvent>
    requires j <= |logs|
  {
    if j == 0 then []
    else
      RunsBefore(logs, j - 1, now)
      + (if OpensRun(logs, j - 1) then [EventOfRun(logs, j - 1, RunEnd(logs, j - 1), now)] else [])
  }

  /** The downtime events of `logs`, oldest first, one per maximal offline run. */
  function Downtimes(logs: seq<LogEntry>, now: Time): seq<DowntimeEvent>
  {
    RunsBefore(logs, |logs|, now)
  }

  /** The indices below `j` that open a run, in increasing order. */
  function Openers(logs: seq<LogEntry>, j: nat): (ks: seq<nat>)
    requires j <= |logs|
    ensures forall p :: 0 <= p < |ks| ==> OpensRun(logs, ks[p]) && ks[p] < j
    ensures forall p, q :: 0 <= p < q < |ks| ==> ks[p] < ks[q]
  {
    if j == 0 then []
    else Openers(logs, j - 1) + (if OpensRun(logs, j - 1) then [j - 1] else [])
  }

  /** A run ends at the first online entry after its start. */
  lemma {:induction false} RunEndIs(logs: seq<LogEntry>, k: nat, m: nat)
    requires k <= m <= |logs|
    requires forall i :: k <= i < m ==> !Online(logs[i])
    requires m == |logs| || Online(logs[m])
    ensures RunEnd(logs, k) == m
    decreases m - k
  {
    if k < m {
      RunEndIs(logs, k + 1, m);
    }
  }

  /** Everything from `k` up to `RunEnd(logs, k)` is offline, and what follows is online. */
  lemma {:induction false} RunEndRun(logs: seq<LogEntry>, k: nat)
    requires k <= |logs|
    ensures forall i :: k <= i < RunEnd(logs, k) ==> !Online(logs[i])
    ensures RunEnd(logs, k) == |logs| || Online(logs[RunEnd(logs, k)])
    decreases |logs| - k
  {
    if k < |logs| && !Online(logs[k]) {
      RunEndRun(logs, k + 1);
    }
  }

  /** A run opened at `k` is maximal exactly when it ends where `RunEnd` says. */
  lemma MaximalRunIff(logs: seq<LogEntry>, k: int, m: int)
    ensures MaximalOfflineRun(logs, k, m) <==> OpensRun(logs, k) && m == RunEnd(logs, k)
  {
    if MaximalOfflineRun(logs, k, m) {
      RunEndIs(logs, k, m);
    }
    if OpensRun(logs, k) && m == RunEnd(logs, k) {
      RunEndRun(logs, k);
    }
  }

  /** The run opened at `k` ends before the next opener `k2`. */
  lemma RunEndsBeforeNextOpener(logs: seq<LogEntry>, k: nat, k2: nat)
    requires OpensRun(logs, k) && OpensRun(logs, k2) && k < k2
    ensures RunEnd(logs, k) < k2
  {
    RunEndRun(logs, k);
  }

  /** The `p`-th event before `j` is the event of the `p`-th opener before `j`. */
  lemma {:induction false} RunsBeforeIndexed(logs: seq<LogEntry>, j: nat, now: Time)
    requires j <= |logs|
    ensures |RunsBefore(logs, j, now)| == |Openers(logs, j)|
    ensures forall p :: 0 <= p < |Openers(logs, j)| ==>
      RunsBefore(logs, j, now)[p] == EventOfRun(logs, Openers(logs, j)[p], RunEnd(logs, Openers(logs, j)[p]), now)
  {
    if j > 0 {
      RunsBeforeIndexed(logs, j - 1, now);
    }
  }

  /** Every index below `j` that opens a run is among the openers. */
  lemma {:induction false} OpenersComplete(logs: seq<LogEntry>, j: nat, k: nat)
    requires k < j <= |logs| && OpensRun(logs, k)
    ensures k in Openers(logs, j)
  {
    if k < j - 1 {
      OpenersComplete(logs, j - 1, k);
    }
  }

  /**
   * The downtime events are, in order, the events of the maximal offline
   * runs of the log: the `p`-th event belongs to the `p`-th run, runs are
   * listed by increasing start index, and no maximal run is missing.
   */
  lemma DowntimesIndexed(logs: seq<LogEntry>, now: Time)
    ensures var ks := Openers(logs, |logs|);
      && |Downtimes(logs, now)| == |ks|
      && (forall p :: 0 <= p < |ks| ==> MaximalOfflineRun(logs, ks[p], RunEnd(logs, ks[p])))
      && (forall p :: 0 <= p < |ks| ==>
            Downtimes(logs, now)[p] == EventOfRun(logs, ks[p], RunEnd(logs, ks[p]), now))
      && (forall p, q :: 0 <= p < q < |ks| ==> ks[p] < ks[q])
      && (forall k, m :: MaximalOfflineRun(logs, k, m) ==> k in ks)
  {
    var ks := Openers(logs, |logs|);
    RunsBeforeIndexed(logs, |logs|, now);
    forall p | 0 <= p < |ks|
      ensures MaximalOfflineRun(logs, ks[p], RunEnd(logs, ks[p]))
    {
      MaximalRunIff(logs, ks[p], RunEnd(logs, ks[p]));
    }
    forall k, m | MaximalOfflineRun(logs, k, m)
      ensures k in ks
    {
      OpenersComplete(logs, |logs|, k);
    }
  }

  /** An event is a downtime event exactly when it is the event of some maximal offline run. */
  lemma DowntimesAreMaximalRuns(logs: seq<LogEntry>, now: Time, e: DowntimeEvent)
    ensures e in Downtimes(logs, now) <==>
      exists k, m :: MaximalOfflineRun(logs, k, m) && e == EventOfRun(logs, k, m, now)
  {
    var ks := Openers(logs, |logs|);
    DowntimesIndexed(logs, now);
    if e in Downtimes(logs, now) {
      var p :| 0 <= p < |Downtimes(logs, now)| && Downtimes(logs, now)[p] == e;
      assert MaximalOfflineRun(logs, ks[p], RunEnd(logs, ks[p]));
    }
    if exists k, m :: MaximalOfflineRun(logs, k, m) && e == EventOfRun(logs, k, m, now) {
      var k, m :| MaximalOfflineRun(logs, k, m) && e == EventOfRun(logs, k, m, now);
      MaximalRunIff(logs, k, m);
      var p :| 0 <= p < |ks| && ks[p] == k;
      assert Downtimes(logs, now)[p] == e;
    }
  }

  /**
   * Only the last event can be ongoing, and it is ongoing exactly when the
   * log ends offline.
   */
  lemma DowntimesOngoing(logs: seq<LogEntry>, now: Time)
    ensures var d := Downtimes(logs, now);
      forall p :: 0 <= p < |d| ==>
        (d[p].isOngoing <==> p == |d| - 1 && !Online(logs[|logs| - 1]))
    ensures var d := Downtimes(logs, now);
      (exists p :: 0 <= p < |d| && d[p].isOngoing) <==> (logs != [] && !Online(logs[|logs| - 1]))
  {
    var d := Downtimes(logs, now);
    var ks := Openers(logs, |logs|);
    DowntimesIndexed(logs, now);
    forall p | 0 <= p < |d|
      ensures d[p].isOngoing ==> p == |d| - 1 && !Online(logs[|logs| - 1])
    {
      RunEndRun(logs, ks[p]);
      if p < |d| - 1 {
        RunEndsBeforeNextOpener(logs, ks[p], ks[p + 1]);
      }
    }
    if logs != [] && !Online(logs[|logs| - 1]) {
      var k := RunStartOf(logs, |logs| - 1);
      MaximalRunIff(logs, k, |logs|);
      var p :| 0 <= p < |ks| && ks[p] == k;
      assert d[p].isOngoing;
    }
  }

  /** The offline entry `i` belongs to a maximal run that opens at the returned index. */
  lemma {:induction false} RunStartOf(logs: seq<LogEntry>, i: nat) returns (k: nat)
    requires i < |logs| && !Online(logs[i])
    ensures OpensRun(logs, k) && k <= i
    ensures forall j :: k <= j <= i ==> !Online(logs[j])
  {
    if i == 0 || Online(logs[i - 1]) {
      k := i;
    } else {
      k := RunStartOf(logs, i - 1);
    }
  }

  /**
   * On a log in timestamp order the events are in order too: start times
   * do not decrease, and a closed event ends no later than the next starts.
   */
  lemma DowntimesChronological(logs: seq<LogEntry>, now: Time)
    requires Ascending(logs)
    ensures var d := Downtimes(logs, now);
      forall p, q :: 0 <= p < q < |d| ==>
        d[p].startTime <= d[q].startTime
        && d[p].endTime.Some? && d[p].endTime.value <= d[q].startTime
  {
    var d := Downtimes(logs, now);
    var ks := Openers(logs, |logs|);
    DowntimesIndexed(logs, now);
    forall p, q | 0 <= p < q < |d|
      ensures d[p].startTime <= d[q].startTime
      ensures d[p].endTime.Some? && d[p].endTime.value <= d[q].startTime
    {
      RunEndsBeforeNextOpener(logs, ks[p], ks[q]);
    }
  }

  /**
   * On a log in timestamp order, measured at a time no earlier than its
   * last entry, no event has a negative duration.
   */
  lemma DowntimesNonNegative(logs: seq<LogEntry>, now: Time)
    requires Ascending(logs)
    requires logs != [] ==> logs[|logs| - 1].timestamp <= now
    ensures forall e :: e in Downtimes(logs, now) ==> e.duration >= 0
  {
    var d := Downtimes(logs, now);
    var ks := Openers(logs, |logs|);
    DowntimesIndexed(logs, now);
    forall p | 0 <= p < |d|
      ensures d[p].duration >= 0
    {
      if RunEnd(logs, ks[p]) == |logs| {
        assert logs[ks[p]].timestamp <= logs[|logs| - 1].timestamp;
      }
    }
  }

  /**
   * What the aggregation loop knows after reading `logs[..i]`. While a run
   * is open (`open`), it began at `runStart`, with its start time and failed
   * hosts, and its event is the last of those of the runs opened so far;
   * otherwise the events read are those of all runs opened so far and the
   * last entry read, if any, was online.
   */
  ghost predicate Scanned(logs: seq<LogEntry>, now: Time, i: nat, runStart: nat, open: bool,
                          start: Time, hosts: seq<string>, events: seq<DowntimeEvent>)
  {
    && i <= |logs|
    && (open ==> && runStart < i
                 && OpensRun(logs, runStart)
                 && (forall k :: runStart <= k < i ==> !Online(logs[k]))
                 && start == logs[runStart].timestamp
                 && hosts == FailedHosts(logs[runStart].results)
                 && RunsBefore(logs, i, now) == events + [EventOfRun(logs, runStart, RunEnd(logs, runStart), now)])
    && (!open ==> && (i == 0 || Online(logs[i - 1]))
                  && RunsBefore(logs, i, now) == events)
  }

  /** An online entry closes the open run, if there is one. */
  lemma ScanOnline(logs: seq<LogEntry>, now: Time, i: nat, runStart: nat, open: bool,
                   start: Time, hosts: seq<string>, events: seq<DowntimeEvent>)
    requires i < |logs| && Online(logs[i])
    requires Scanned(logs, now, i, runStart, open, start, hosts, events)
    ensures open ==> (EventOfRun(logs, runStart, RunEnd(logs, runStart), now) ==
      DowntimeEvent(start, Some(logs[i].timestamp), logs[i].timestamp - start, false, hosts))
    ensures open ==> Scanned(logs, now, i + 1, i + 1, false, start, hosts,
                             events + [EventOfRun(logs, runStart, RunEnd(logs, runStart), now)])
    ensures !open ==> Scanned(logs, now, i + 1, i + 1, false, start, hosts, events)
  {
    if open {
      RunEndIs(logs, runStart, i);
    }
  }

  /** An offline entry opens a run unless one is open already. */
  lemma ScanOffline(logs: seq<LogEntry>, now: Time, i: nat, runStart: nat, open: bool,
                    start: Time, hosts: seq<string>, events: seq<DowntimeEvent>)
    requires i < |logs| && !Online(logs[i])
    requires Scanned(logs, now, i, runStart, open, start, hosts, events)
    ensures open ==> Scanned(logs, now, i + 1, runStart, true, start, hosts, events)
    ensures !open ==> Scanned(logs, now, i + 1, i, true, logs[i].timestamp, FailedHosts(logs[i].results), events)
  {
  }

  /** At the end of the log an open run becomes the ongoing event. */
  lemma ScanEnd(logs: seq<LogEntry>, now: Time, runStart: nat, open: bool,
                start: Time, hosts: seq<string>, events: seq<DowntimeEvent>)
    requires Scanned(logs, now, |logs|, runStart, open, start, hosts, events)
    ensures open ==> EventOfRun(logs, runStart, RunEnd(logs, runStart), now) == DowntimeEvent(start, None, now - start, true, hosts)
    ensures open ==> Downtimes(logs, now) == events + [EventOfRun(logs, runStart, RunEnd(logs, runStart), now)]
    ensures !open ==> Downtimes(logs, now) == events
  {
    if open {
      RunEndIs(logs, runStart, |logs|);
    }
  }
}
