# Downtime statistics of an internet-connectivity monitor

The monitor probes a handful of hosts on a schedule. It appends one log
entry per round: a timestamp and one probe result per host. The HTTP
`/api/stats` endpoint summarises a window of the log with `calculateStats`
(internal/api/server.go:124-230). This project models that routine and its
record types, and proves what the summary means:

- **Per-round verdict.** The internet is down in a round exactly when no
  probe in it succeeded. The round's failed-host list keeps the failing
  hosts in probe order (module `Probe`, `probe.dfy`).
- **Downtime events.** A reference definition, `Downtime.Downtimes`,
  gives one event per maximal run of offline entries.
  - The event starts at the run's first entry.
  - It keeps the failed hosts of that first entry.
  - It ends at the online entry that follows the run. If the log ends
    offline, the event is ongoing and its duration is measured to `now`.
  - Lemmas show that these are exactly the events of the maximal runs and
    come in run order. Only the last event can be ongoing, and it is
    ongoing exactly when the log ends offline. On a log in timestamp order,
    the events are chronological, and when `now` is no earlier than the
    last entry no duration is negative (module `Downtime`, `downtime.dfy`).
- **The aggregation loop.** `Stats.CalculateStats` is the loop itself. It
  reads the entries one by one, updates the same local state as the Go
  code, appends closed events, and adds the ongoing one at the end. Then it
  reverses the list with the same index-swapping loop, in place on the
  array that backs it.
  - Its contract ties every field of the result to the reference
    definitions: the counts, the status, the last check time, the uptime,
    the events (most recent first), the total downtime and the most recent
    event.
  - The proof goes through `Stats.Tallied`, a fold of the loop body
    `Stats.Step` over the log, with lemmas linking the fold to the
    reference definitions (module `Stats`, `stats.dfy`).

Timestamps are whole seconds (`Probe.Time`, an `int`). The current time,
read by `time.Since` in the source, is the parameter `now`.

## Model

| member | source | states |
|---|---|---|
| Probe.Online | internal/api/server.go:139-150 | the round's verdict: online when some probe succeeded; its meaning is stated by Probe.AnySuccessMeans |
| Probe.FailedHosts | internal/api/server.go:140-148 | the failing hosts of a round in probe order, never more of them than probes; membership and order are stated by Probe.FailedHostsMembers and Probe.AllFailedListsEveryHost |
| Probe.AnySuccessMeans | internal/api/server.go:139-150 | a round is online exactly when some probe in it succeeded, so a round with no results is offline |
| Probe.FailedHostsMembers | internal/api/server.go:140-148 | a host is in the round's failed-host list exactly when some probe of that host failed |
| Probe.AllFailedListsEveryHost | internal/api/server.go:140-148 | when every probe failed, the failed-host list is every probed host, in probe order |
| Probe.NoFailedHostsIffAllSucceeded | internal/api/server.go:140-148 | the failed-host list is empty exactly when every probe succeeded |
| Probe.ClassifyEntry | internal/api/server.go:139-150 | the inner loop's verdict and failed-host list are the round's verdict and failed-host list |
| Downtime.RunEndIs | internal/api/server.go:153-170 | a run of offline entries ends at the first online entry after it, or at the end of the log |
| Downtime.RunEndRun | internal/api/server.go:153-183 | every entry from a run's start up to its end is offline, and the entry at its end is online |
| Downtime.MaximalRunIff | internal/api/server.go:153-183 | a maximal offline run is exactly one that starts at an opening entry and ends where the next online entry is |
| Downtime.RunEndsBeforeNextOpener | internal/api/server.go:157-180 | a run ends before the next run opens |
| Downtime.RunsBeforeIndexed | internal/api/server.go:153-183 | the p-th event is the event of the p-th run, in order of the runs' openings |
| Downtime.OpenersComplete | internal/api/server.go:177-180 | every entry that opens a run is listed among the openings |
| Downtime.Openers | internal/api/server.go:177-180 | the listed openings open a run and increase strictly |
| Downtime.DowntimesIndexed | internal/api/server.go:153-200 | one event per maximal offline run, in run order, none missing; each starts at its run's first entry with that entry's failed hosts and ends at the following online entry or is ongoing |
| Downtime.DowntimesAreMaximalRuns | internal/api/server.go:153-200 | an event is a downtime event exactly when it is the event of some maximal offline run |
| Downtime.DowntimesOngoing | internal/api/server.go:189-198 | only the last event can be ongoing; one is ongoing exactly when the log is non-empty and ends offline |
| Downtime.RunStartOf | internal/api/server.go:177-180 | every offline entry belongs to a run that some earlier-or-same entry opens |
| Downtime.DowntimesChronological | internal/api/server.go:157-169 | on a log in timestamp order, start times do not decrease and each event but the last is closed no later than the next one starts |
| Downtime.DowntimesNonNegative | internal/api/server.go:153-200 | on a log in timestamp order measured at or after its last entry, no event has a negative duration |
| Downtime.RunEnd | internal/api/server.go:153-170 | the end of a run lies between its start and the end of the log, and past the start when the start is offline |
| Downtime.ScanOnline | internal/api/server.go:153-172 | an online entry closes the open period with the event of its run, ending at this entry, or changes nothing when no period is open |
| Downtime.ScanOffline | internal/api/server.go:173-183 | an offline entry opens a period with its timestamp and failed hosts unless one is open, in which case start and hosts are kept |
| Downtime.ScanEnd | internal/api/server.go:189-200 | at the end of the log an open period becomes the ongoing event, measured to `now` |
| Stats.CountsPartition | internal/api/server.go:153-202 | online and offline counts add up to the number of entries |
| Stats.CountStep | internal/api/server.go:153-174 | unfolds the reference counts at a prefix: one more entry adds one to the online count when it is online and to the offline count otherwise |
| Stats.StepCountsOne | internal/api/server.go:153-174 | the loop body raises exactly one of the two counters, by one: the online counter for an online entry, the offline counter otherwise |
| Stats.Reversed | internal/api/server.go:208-212 | the reversed list has the same length and its k-th element is the original's k-th from the end |
| Stats.ReverseInPlace | internal/api/server.go:208-212 | the index-swapping loop over the backing array leaves it holding the reverse of its old contents, with nothing added or dropped |
| Stats.ReverseSlice | internal/api/server.go:208-212 | the event list, reversed in place in its backing array, reads as the reverse of the chronological list |
| Stats.UptimePercentage | internal/api/server.go:202-206 | the uptime figure: 0 without checks, otherwise the online share of the checks as a whole percentage; its meaning is stated by Stats.UptimeBounds |
| Stats.UptimeBounds | internal/api/server.go:202-206 | uptime is 0 without checks, otherwise the whole percentage of online checks rounded down, and at most 100 when the online checks are among the total |
| Stats.InitialTally | internal/api/server.go:125-135 | the loop's initial local state: no events, zero counters and total, status not yet initialised, no last check, status "online"; what it leads to is stated by Stats.TalliedCounts, Stats.TalliedStatus and Stats.TalliedRuns |
| Stats.Step | internal/api/server.go:138-185 | the loop body on one entry: count it, close the open period on an online entry, open one on an offline entry when none is open; its effect is stated by Stats.StepCountsOne, Stats.StepOnlineScanned and Stats.StepOfflineScanned |
| Stats.TalliedCounts | internal/api/server.go:153-174 | after any prefix the loop's counters are the online and offline counts of that prefix |
| Stats.TalliedStatus | internal/api/server.go:129-185 | after any prefix the status flags, current status and last check time describe its last entry, or are the initial ones for an empty prefix |
| Stats.TalliedTotal | internal/api/server.go:157-169 | the running downtime total is the sum of the durations of the events closed so far |
| Stats.StepOnlineScanned | internal/api/server.go:153-172 | the loop body on an online entry keeps the loop's account of the runs |
| Stats.StepOfflineScanned | internal/api/server.go:173-185 | the loop body on an offline entry keeps the loop's account of the runs |
| Stats.TalliedRuns | internal/api/server.go:137-186 | after any prefix the loop's events are those of the runs already closed, and an open period is the run in progress |
| Stats.TalliedEnd | internal/api/server.go:137-200 | after the whole log a period is open exactly when the log ends offline, and the events, with the ongoing one added, are the reference events |
| Stats.EndScanned | internal/api/server.go:188-200 | a loop state that accounts for every run of the log yields the reference events |
| Stats.CalculateStats | internal/api/server.go:124-230 | counts, status, last check time, uptime, the events most recent first, their total duration and the most recent event, each tied to its reference definition |
| Stats.NewestFirst | internal/api/server.go:189-217 | after reversal only the first event can be ongoing, exactly when the log ends offline; on a log in timestamp order start times do not increase |
| Stats.TotalDurationSnoc | internal/api/server.go:157-200 | appending an event adds its duration to the total |
| Stats.TotalDurationCons | internal/api/server.go:208-212 | putting an event in front adds its duration to the total |
| Stats.TotalDurationReversed | internal/api/server.go:208-212 | reversing the events leaves the total downtime unchanged |

## Left out

- The HTTP handlers `handleIndex`, `handleLogs` and `handleStats`, and their RFC 3339 query parsing (internal/api/server.go:27-120). They are request plumbing and JSON encoding.
- internal/monitor/ping.go is not part of this model. It does network probing, timeouts, console output and a ticker loop. Only its `PingResult` record (lines 11-17) is modelled, as `Probe.PingResult`.
- internal/storage/file.go is not part of this model. It does file I/O, JSON, locking and the time-window filter. Only its `LogEntry` record (lines 22-25) is modelled, as `Probe.LogEntry`.
- cmd/monitrix/main.go is not part of this model. It covers configuration, goroutines and signal handling.
- The wall clock: `time.Since(downtimeStart)` becomes `now - downtimeStart`, with `now` as a parameter.
- Stats.UptimePercentage: modelled as a whole percentage rounded down, `online * 100 / total`. The source computes a float64, `float64(online) / float64(total) * 100`. Floating point is not modelled.
- `TotalDowntimeHours` (internal/api/server.go:225) is not a field of `Stats.Stats`. It is `totalDowntimeSeconds / 3600` as a float, and the model keeps the exact seconds in `totalDowntimeSeconds`.
- Durations: timestamps are whole seconds, so `int64(end.Sub(start).Seconds())` is plain subtraction. Sub-second truncation does not arise, and int64 overflow of durations and of the running total is not modelled.
- `RecentDowntime` and `TimeSinceLastCheck` are pointers in the source: one into the event slice, one to an entry's timestamp. The model returns the values, so aliasing is not captured.
- The event slice is a sequence value while the loop appends to it. For the reversal it is copied into a fresh array, which the swap loop reverses in place. Capacity growth of `append` and sharing of the slice's backing array are not captured.
- Stats.CalculateStats: rounds with no probe results are counted as offline checks and can open or extend a downtime period, because `allFailed` starts true (internal/api/server.go:139). They are not skipped, and `totalChecks` counts them.
