/**
 * The monitoring state of the server: `HealthCheckService` together with
 * the two module-level maps it works on, and the route handlers that
 * drive it. Timers are opaque handles; a timer firing is an explicit
 * `Tick` call.
 */
module Service {
  import opened Wrappers
  import opened Probe
  import opened History
  import opened Registry
  import opened Queries

  /** An opaque interval handle, as returned by `setInterval`. */
  type Handle = nat

  /** What an armed interval's callback closed over: the check it probes,
      its url and its period. */
  datatype Timer = Timer(id: Id, url: string, period: int)

  /** The key order lists every registered id exactly once. */
  ghost predicate OrderMatches(order: seq<Id>, checks: map<Id, Check>) {
    Distinct(order) && forall id :: id in order <==> id in checks
  }

  /** Every history is within capacity. */
  ghost predicate HistoriesBounded(results: map<Id, seq<ResultRecord>>) {
    forall id :: id in results ==> |results[id]| <= MaxHistory
  }

  /** Replacing one history by one within capacity keeps every history within capacity. */
  lemma BoundedAfterUpdate(results: map<Id, seq<ResultRecord>>, id: Id, h: seq<ResultRecord>)
    requires HistoriesBounded(results) && |h| <= MaxHistory
    ensures HistoriesBounded(results[id := h])
  {
  }

  /** The handle table and the armed timers match one to one: each id's
      handle is armed and probes that id, and each armed timer is the one
      recorded for its id, so no id has two timers and no timer is leaked. */
  ghost predicate TimersMatch(intervals: map<Id, Handle>, timers: map<Handle, Timer>, nextHandle: Handle) {
    && (forall id :: id in intervals ==> intervals[id] in timers && timers[intervals[id]].id == id)
    && (forall h :: h in timers ==> h < nextHandle && timers[h].id in intervals && intervals[timers[h].id] == h)
  }

  /** The armed timers once the handle of `id`, if it has one, is cleared. */
  function Disarmed(intervals: map<Id, Handle>, timers: map<Handle, Timer>, id: Id): map<Handle, Timer> {
    if id in intervals then timers - {intervals[id]} else timers
  }

  /** `clearInterval` on the handle of `id` and `intervals.delete(id)`
      leave no timer probing `id` and keep the match. */
  lemma DisarmKeepsMatch(intervals: map<Id, Handle>, timers: map<Handle, Timer>, nextHandle: Handle, id: Id)
    requires TimersMatch(intervals, timers, nextHandle) && id in intervals
    ensures TimersMatch(intervals - {id}, timers - {intervals[id]}, nextHandle)
    ensures forall h :: h in timers - {intervals[id]} ==> (timers - {intervals[id]})[h].id != id
  {
  }

  /** While the match holds, the handle recorded for an id is the only
      armed timer probing it. */
  lemma OneTimerPerId(intervals: map<Id, Handle>, timers: map<Handle, Timer>, nextHandle: Handle, id: Id)
    requires TimersMatch(intervals, timers, nextHandle) && id in intervals
    ensures forall h :: h in timers && timers[h].id == id <==> h == intervals[id]
  {
  }

  /** Arming a fresh handle for an id that has none keeps the match. */
  lemma ArmKeepsMatch(intervals: map<Id, Handle>, timers: map<Handle, Timer>, nextHandle: Handle, t: Timer)
    requires TimersMatch(intervals, timers, nextHandle) && t.id !in intervals
    ensures nextHandle !in timers
    ensures TimersMatch(intervals[t.id := nextHandle], timers[nextHandle := t], nextHandle + 1)
  {
  }

  class HealthCheckService {
    /** `healthChecks`: the registry. */
    var checks: map<Id, Check>
    /** The key order of `healthChecks` (a `Map` iterates in insertion order). */
    var order: seq<Id>
    /** `healthCheckResults`: each check's history. */
    var results: map<Id, seq<ResultRecord>>
    /** `this.intervals`: the handle table. */
    var intervals: map<Id, Handle>
    /** The runtime's armed intervals, by handle; `clearInterval` disarms one. */
    var timers: map<Handle, Timer>
    /** Every handle handed out so far is below this one. */
    var nextHandle: Handle

    /** The registry's order lists its keys once each; every history is
        within capacity; and the handle table and the armed timers match one
        to one, so at most one timer probes any id and none is leaked. */
    ghost predicate Valid()
      reads this
    {
      && OrderMatches(order, checks)
      && HistoriesBounded(results)
      && TimersMatch(intervals, timers, nextHandle)
    }

    constructor ()
      ensures Valid()
      ensures checks == map[] && order == [] && results == map[]
      ensures intervals == map[] && timers == map[]
    {
      checks, order, results := map[], [], map[];
      intervals, timers, nextHandle := map[], map[], 0;
    }

    /** The push/shift that completes a probe of `id` (the `then` of the first
        probe and the body of the interval callback). It is applied to any
        id, registered or not, as the source does for a probe that settles
        after its check was deleted. */
    method RecordResult(id: Id, r: ResultRecord)
      requires Valid()
      modifies this
      ensures Valid()
      ensures results == old(results)[id := LastN(old(HistoryOf(results, id)) + [r], MaxHistory)]
      ensures checks == old(checks) && order == old(order)
      ensures intervals == old(intervals) && timers == old(timers) && nextHandle == old(nextHandle)
    {
      var rs := HistoryOf(results, id);
      ghost var pushed := rs + [r];
      rs := rs + [r];
      if |rs| > MaxHistory {
        rs := rs[1..];
      }
      assert rs == LastN(pushed, MaxHistory);
      BoundedAfterUpdate(results, id, rs);
      results := results[id := rs];
    }

    /** `stopMonitoring(id)`: disarm and forget the handle of `id`, if any. */
    method StopMonitoring(id: Id)
      requires Valid()
      modifies this
      ensures Valid()
      ensures intervals == old(intervals) - {id}
      ensures timers == Disarmed(old(intervals), old(timers), id)
      ensures forall h :: h in timers ==> timers[h].id != id
      ensures checks == old(checks) && order == old(order) && results == old(results)
      ensures nextHandle == old(nextHandle)
    {
      if id in intervals {
        var h := intervals[id];
        DisarmKeepsMatch(intervals, timers, nextHandle, id);
        timers := timers - {h};
        intervals := intervals - {id};
      }
    }

    /** `startMonitoring(id, url, interval)`: stop any earlier timer of `id`
        and arm one fresh timer for `id`. The first probe it launches settles
        later, after the caller has returned; that settlement is the call
        `RecordResult(id, CheckUrl(url, run))`, so until then the history
        of `id` is as it was. */
    method StartMonitoring(id: Id, url: string, interval: int)
      requires Valid()
      modifies this
      ensures Valid()
      ensures intervals == old(intervals)[id := old(nextHandle)]
      ensures timers == Disarmed(old(intervals), old(timers), id)[old(nextHandle) := Timer(id, url, interval)]
      ensures results == old(results)
      ensures checks == old(checks) && order == old(order)
    {
      ghost var intervals0, timers0 := intervals, timers;
      StopMonitoring(id);
      assert timers == Disarmed(intervals0, timers0, id);
      Arm(id, url, interval);
    }

    /** `setInterval` for `id` and `this.intervals.set(id, handle)`, on an id
        that has no handle. */
    method Arm(id: Id, url: string, interval: int)
      requires Valid() && id !in intervals
      modifies this
      ensures Valid()
      ensures old(nextHandle) !in old(timers)
      ensures intervals == old(intervals)[id := old(nextHandle)]
      ensures timers == old(timers)[old(nextHandle) := Timer(id, url, interval)]
      ensures nextHandle == old(nextHandle) + 1
      ensures checks == old(checks) && order == old(order) && results == old(results)
    {
      var h, timer := nextHandle, Timer(id, url, interval);
      ArmKeepsMatch(intervals, timers, h, timer);
      nextHandle := h + 1;
      timers := timers[h := timer];
      intervals := intervals[id := h];
    }

    /** The armed timer of `id` fires and its probe completes with `run`. */
    method Tick(id: Id, run: ProbeRun)
      requires Valid() && id in intervals
      modifies this
      ensures Valid()
      ensures results == old(results)[id := LastN(old(HistoryOf(results, id)) + [CheckUrl(old(timers[intervals[id]].url), run)], MaxHistory)]
      ensures checks == old(checks) && order == old(order)
      ensures intervals == old(intervals) && timers == old(timers) && nextHandle == old(nextHandle)
    {
      var timer := timers[intervals[id]];
      RecordResult(id, CheckUrl(timer.url, run));
    }

    /** `stopAll()`: disarm every handle in the table, then clear it. */
    method StopAll()
      requires Valid()
      modifies this
      ensures Valid()
      ensures intervals == map[] && timers == map[]
      ensures checks == old(checks) && order == old(order) && results == old(results)
      ensures nextHandle == old(nextHandle)
    {
      var pending := intervals.Keys;
      while pending != {}
        invariant pending <= intervals.Keys
        invariant intervals == old(intervals) && nextHandle == old(nextHandle)
        invariant checks == old(checks) && order == old(order) && results == old(results)
        invariant forall h :: h in timers <==> h in old(timers) && old(timers)[h].id in pending
        invariant forall h :: h in timers ==> timers[h] == old(timers)[h]
        decreases pending
      {
        var id :| id in pending;
        timers := timers - {intervals[id]};
        pending := pending - {id};
      }
      assert timers.Keys == {};
      intervals := map[];
    }

    /** GET /api/healthchecks/:id. */
    function GetCheck(id: Id): (r: Result<Detail, Error>)
      reads this
      requires Valid()
      ensures r.Failure? <==> id !in checks
      ensures r.Failure? ==> r.error == NotFound && r.error.HttpStatus() == 404
      ensures r.Success? ==>
        && r.value.id == id && r.value.check == checks[id]
        && r.value.results == HistoryOf(results, id)
        && |r.value.results| <= MaxHistory
    {
      if id !in checks then Failure(NotFound)
      else Success(Detail(id, checks[id], HistoryOf(results, id)))
    }

    /** GET /api/healthchecks: one item per registered check, in insertion order. */
    function ListChecks(): (items: seq<ListItem>)
      reads this
      requires Valid()
      ensures |items| == |order| == |checks|
      ensures forall id :: id in checks <==> exists i :: 0 <= i < |items| && items[i].id == id
      ensures forall i :: 0 <= i < |items| ==>
        && items[i].id == order[i]
        && items[i] == Enrich(order[i], checks[order[i]], HistoryOf(results, order[i]))
    {
      DistinctCardinality(order);
      assert checks.Keys == set id | id in order;
      var items := EnrichAll(order, checks, results);
      assert forall i :: 0 <= i < |items| ==> items[i].id == order[i];
      items
    }

    /** `healthChecks.set(id, check)` for an id not yet registered: the id
        goes last in the key order and, having no history, is listed as
        pending. */
    method AddCheck(freshId: Id, check: Check)
      requires Valid() && freshId !in checks
      modifies this
      ensures Valid()
      ensures checks == old(checks)[freshId := check] && order == old(order) + [freshId]
      ensures results == old(results) && intervals == old(intervals)
      ensures timers == old(timers) && nextHandle == old(nextHandle)
      ensures freshId !in results ==>
        ListChecks() == old(ListChecks()) + [ListItem(freshId, check, Pending, None, None)]
    {
      ghost var before := ListChecks();
      assert before == EnrichAll(order, checks, results);
      if freshId !in results {
        EnrichAllAppendNew(order, checks, results, freshId, check);
      }
      DistinctAppend(order, freshId);
      checks, order := checks[freshId := check], order + [freshId];
      assert ListChecks() == EnrichAll(order, checks, results);
    }

    /** POST /api/healthchecks: validate, store the check under `freshId`
        and start monitoring it. The reply goes out before the first probe
        settles, so the new check is listed as pending until a later
        `RecordResult` for it. */
    method CreateCheck(req: CreateRequest, urlParses: string -> bool, freshId: Id, now: string)
      returns (r: Result<Entry, Error>)
      requires Valid() && freshId !in checks
      modifies this
      ensures Valid()
      ensures r.Failure? <==> NewCheck(req, urlParses, now).Failure?
      ensures r.Failure? ==> r.error == NewCheck(req, urlParses, now).error && unchanged(this)
      ensures r.Failure? ==> r.error.HttpStatus() == 400
      ensures r.Success? ==>
        var check := NewCheck(req, urlParses, now).value;
        && r.value == Entry(freshId, check)
        && checks == old(checks)[freshId := check]
        && order == old(order) + [freshId]
        && intervals == old(intervals)[freshId := old(nextHandle)]
        && timers == Disarmed(old(intervals), old(timers), freshId)[old(nextHandle) := Timer(freshId, check.url, check.interval)]
        && results == old(results)
        && (freshId !in old(results) ==>
              ListChecks() == old(ListChecks()) + [ListItem(freshId, check, Pending, None, None)])
      ensures old(intervals.Keys == checks.Keys) ==> intervals.Keys == checks.Keys
    {
      var v := NewCheck(req, urlParses, now);
      if v.Failure? {
        return Failure(v.error);
      }
      var check := v.value;
      ghost var intervals0, timers0, handle0 := intervals, timers, nextHandle;
      AddCheck(freshId, check);
      assert intervals == intervals0 && timers == timers0 && nextHandle == handle0;
      ghost var listed := ListChecks();
      StartMonitoring(freshId, check.url, check.interval);
      assert ListChecks() == EnrichAll(order, checks, results) == listed;
      r := Success(Entry(freshId, check));
    }

    /** DELETE /api/healthchecks/:id: stop monitoring `id` and forget it
        in the registry and in the histories. */
    method DeleteCheck(id: Id) returns (r: Outcome<Error>)
      requires Valid()
      modifies this
      ensures Valid()
      ensures id !in old(checks) ==> r == Fail(NotFound) && unchanged(this)
      ensures r.Fail? ==> r.error.HttpStatus() == 404
      ensures id in old(checks) ==>
        && r == Pass
        && checks == old(checks) - {id}
        && order == Remove(old(order), id)
        && results == old(results) - {id}
        && intervals == old(intervals) - {id}
        && timers == Disarmed(old(intervals), old(timers), id)
        && (forall h :: h in timers ==> timers[h].id != id)
        && GetCheck(id) == Failure(NotFound)
      ensures old(intervals.Keys == checks.Keys) ==> intervals.Keys == checks.Keys
    {
      if id !in checks {
        return Fail(NotFound);
      }
      StopMonitoring(id);
      RemoveDistinct(order, id);
      assert OrderMatches(Remove(order, id), checks - {id});
      checks, order := checks - {id}, Remove(order, id);
      assert HistoriesBounded(results - {id});
      results := results - {id};
      r := Pass;
    }
  }
}
