/**
 * One sampling round of the monitor and its online/offline verdict
 * (internal/monitor/ping.go:11-17, internal/storage/file.go:22-25,
 * internal/api/server.go:138-150).
 */
module Probe {

  /** Timestamps are whole seconds. */
  type Time = int

  /** The outcome of probing one host in one round. */
  datatype PingResult = PingResult(
    host: string,
    success: bool,
    latencyMs: int,
    error: string,
    timestamp: Time)

  /** One line of the log: a timestamp and the results of every host probed then. */
  datatype LogEntry = LogEntry(timestamp: Time, results: seq<PingResult>)

  /**
   * The all-fail rule: the connection counts as up when at least one host
   * answered. An entry without any result is therefore offline.
   */
  predicate Online(entry: LogEntry)
  {
    AnySuccess(entry.results)
  }

  /** Some probe in `results` succeeded (see AnySuccessMeans). */
  predicate AnySuccess(results: seq<PingResult>)
  {
    results != [] && (results[|results| - 1].success || AnySuccess(results[..|results| - 1]))
  }

  lemma {:induction false} AnySuccessMeans(results: seq<PingResult>)
    ensures AnySuccess(results) <==> exists i :: 0 <= i < |results| && results[i].success
  {
    if results != [] {
      var init := results[..|results| - 1];
      assert forall i :: 0 <= i < |init| ==> init[i] == results[i];
      AnySuccessMeans(init);
    }
  }

  /** The hosts whose probe failed, in the order the results list them. */
  function FailedHosts(results: seq<PingResult>): (hosts: seq<string>)
    ensures |hosts| <= |results|
  {
    if results == [] then []
    else
      var last := results[|results| - 1];
      var before := FailedHosts(results[..|results| - 1]);
      if last.success then before else before + [last.host]
  }

  /** A host is reported exactly when one of its probes failed. */
  lemma {:induction false} FailedHostsMembers(results: seq<PingResult>)
    ensures forall h :: h in FailedHosts(results) <==>
      exists i :: 0 <= i < |results| && results[i].host == h && !results[i].success
  {
    if results != [] {
      var init := results[..|results| - 1];
      assert forall i :: 0 <= i < |init| ==> init[i] == results[i];
      FailedHostsMembers(init);
    }
  }

  /** When every probe failed, every host is reported, in input order. */
  lemma {:induction false} AllFailedListsEveryHost(results: seq<PingResult>)
    requires forall i :: 0 <= i < |results| ==> !results[i].success
    ensures |FailedHosts(results)| == |results|
    ensures forall i :: 0 <= i < |results| ==> FailedHosts(results)[i] == results[i].host
  {
    if results != [] {
      var init := results[..|results| - 1];
      assert forall i :: 0 <= i < |init| ==> init[i] == results[i];
      AllFailedListsEveryHost(init);
    }
  }

  /** No host is reported as failed exactly when every probe succeeded. */
  lemma {:induction false} NoFailedHostsIffAllSucceeded(results: seq<PingResult>)
    ensures FailedHosts(results) == [] <==> forall i :: 0 <= i < |results| ==> results[i].success
  {
    if results != [] {
      var init := results[..|results| - 1];
      assert forall i :: 0 <= i < |init| ==> init[i] == results[i];
      NoFailedHostsIffAllSucceeded(init);
    }
  }

  /**
   * The inner loop of the aggregation: scans the results once, clearing
   * `allFailed` at the first success and collecting every failing host.
   */
  method ClassifyEntry(entry: LogEntry) returns (online: bool, failedHosts: seq<string>)
    ensures online == Online(entry)
    ensures failedHosts == FailedHosts(entry.results)
  {
    var allFailed := true;
    failedHosts := [];
    var i := 0;
    while i < |entry.results|
      invariant 0 <= i <= |entry.results|
      invariant allFailed == !AnySuccess(entry.results[..i])
      invariant failedHosts == FailedHosts(entry.results[..i])
    {
      var result := entry.results[i];
      assert entry.results[..i + 1][..i] == entry.results[..i];
      if result.success {
        allFailed := false;
      } else {
        failedHosts := failedHosts + [result.host];
      }
      i := i + 1;
    }
    assert entry.results[..i] == entry.results;
    online := !allFailed;
    AnySuccessMeans(entry.results);
  }
}
