/**
 * The read-only views the list and get handlers assemble from the registry
 * and the result histories.
 */
module Queries {
  import opened Wrappers
  import opened Probe
  import opened History
  import opened Registry

  /** `latestResult?.status || 'pending'`. */
  datatype LatestStatus = Pending | Reported(status: Status)

  /** One element of the list reply: `{ id, ...check, latestStatus, latestResponseTime, lastChecked }`. */
  datatype ListItem = ListItem(
    id: Id,
    check: Check,
    latestStatus: LatestStatus,
    latestResponseTime: Option<int>,
    lastChecked: Option<string>)

  /** The get reply: `{ id, ...check, results }`. */
  datatype Detail = Detail(id: Id, check: Check, results: seq<ResultRecord>)

  /** The create reply: `{ id, ...check }`. */
  datatype Entry = Entry(id: Id, check: Check)

  /** `n || null` for a number: zero is falsy. */
  function NumberOrNull(n: int): Option<int> {
    if n == 0 then None else Some(n)
  }

  /** `s || null` for a string: the empty string is falsy. */
  function StringOrNull(s: string): Option<string> {
    if s == "" then None else Some(s)
  }

  /** The list item of check `id`, taking its latest status, response time
      and timestamp from the last record of `history`. */
  function Enrich(id: Id, check: Check, history: seq<ResultRecord>): (item: ListItem)
    ensures item.id == id && item.check == check
    ensures item.latestStatus == Pending <==> history == []
    ensures item.latestResponseTime == None <==> history == [] || history[|history| - 1].responseTime == 0
    ensures item.lastChecked == None <==> history == [] || history[|history| - 1].timestamp == ""
    ensures history != [] ==>
      var latest := history[|history| - 1];
      && item.latestStatus == Reported(latest.status)
      && (item.latestResponseTime.Some? ==> item.latestResponseTime.value == latest.responseTime)
      && (item.lastChecked.Some? ==> item.lastChecked.value == latest.timestamp)
  {
    if history == [] then ListItem(id, check, Pending, None, None)
    else
      var latest := history[|history| - 1];
      ListItem(id, check, Reported(latest.status), NumberOrNull(latest.responseTime), StringOrNull(latest.timestamp))
  }

  /** `Array.from(healthChecks.entries()).map(...)` over the ids in `ids`. */
  function EnrichAll(ids: seq<Id>, checks: map<Id, Check>, results: map<Id, seq<ResultRecord>>): (items: seq<ListItem>)
    requires forall id :: id in ids ==> id in checks
    ensures |items| == |ids|
    ensures forall i :: 0 <= i < |ids| ==>
      items[i] == Enrich(ids[i], checks[ids[i]], HistoryOf(results, ids[i]))
  {
    if ids == [] then []
    else [Enrich(ids[0], checks[ids[0]], HistoryOf(results, ids[0]))] + EnrichAll(ids[1..], checks, results)
  }

  /** Once a probe's record is pushed onto a history, the list shows that
      probe's status as the latest one. */
  lemma ListedAfterAppend(id: Id, check: Check, h: seq<ResultRecord>, r: ResultRecord)
    requires |h| <= MaxHistory
    ensures Enrich(id, check, LastN(h + [r], MaxHistory)).latestStatus == Reported(r.status)
    ensures Enrich(id, check, LastN(h + [r], MaxHistory)).latestResponseTime == NumberOrNull(r.responseTime)
  {
    AppendBounded(h, r);
  }

  /** Registering a new id with no history appends one pending item to the
      list and changes none of the others. */
  lemma {:induction false} EnrichAllAppendNew(ids: seq<Id>, checks: map<Id, Check>, results: map<Id, seq<ResultRecord>>, x: Id, c: Check)
    requires forall id :: id in ids ==> id in checks
    requires x !in checks && x !in results
    ensures EnrichAll(ids + [x], checks[x := c], results) ==
      EnrichAll(ids, checks, results) + [ListItem(x, c, Pending, None, None)]
  {
    var checks' := checks[x := c];
    if ids == [] {
      assert ids + [x] == [x];
    } else {
      assert (ids + [x])[0] == ids[0] && checks'[ids[0]] == checks[ids[0]];
      assert (ids + [x])[1..] == ids[1..] + [x];
      EnrichAllAppendNew(ids[1..], checks, results, x, c);
    }
  }
}
