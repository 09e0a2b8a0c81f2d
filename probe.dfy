/**
 * One probe of a target URL: the record that `HealthCheckService.checkUrl`
 * builds from what the HTTP client reported. The request itself, its 10 s
 * timeout and the clock are outside the model; they arrive as a `ProbeRun`.
 */
module Probe {
  import opened Wrappers

  datatype Status = Online | Offline

  /** What the HTTP client reports: a response (its `ok` flag and status code), or a thrown error. */
  datatype ProbeOutcome = Response(ok: bool, statusCode: int) | Thrown(message: string)

  /** Everything the runtime supplies for one probe: its outcome, the two
      `Date.now()` readings around it and the ISO timestamp taken after it. */
  datatype ProbeRun = ProbeRun(outcome: ProbeOutcome, startTime: int, endTime: int, timestamp: string)

  /** A result record; `None` stands for the source's `null`. */
  datatype ResultRecord = ResultRecord(
    url: string,
    status: Status,
    statusCode: Option<int>,
    responseTime: int,
    timestamp: string,
    error: Option<string>)

  /** A record carries a status code exactly when it carries no error,
      and a record with an error is offline. */
  predicate WellFormed(r: ResultRecord) {
    && (r.statusCode.Some? <==> r.error.None?)
    && (r.error.Some? ==> r.status == Offline)
  }

  /** The record returned by `checkUrl(url)` for the given run. */
  function CheckUrl(url: string, run: ProbeRun): (r: ResultRecord)
    ensures WellFormed(r)
    ensures r.url == url && r.timestamp == run.timestamp
    ensures r.responseTime == run.endTime - run.startTime
    ensures run.outcome.Response? ==>
      && (r.status == Online <==> run.outcome.ok)
      && r.statusCode == Some(run.outcome.statusCode)
      && r.error == None
    ensures run.outcome.Thrown? ==>
      && r.status == Offline
      && r.statusCode == None
      && r.error == Some(run.outcome.message)
  {
    var responseTime := run.endTime - run.startTime;
    match run.outcome
    case Response(ok, code) =>
      ResultRecord(url, if ok then Online else Offline, Some(code), responseTime, run.timestamp, None)
    case Thrown(message) =>
      ResultRecord(url, Offline, None, responseTime, run.timestamp, Some(message))
  }

  /** Reads the client's outcome back off a well-formed record. */
  function OutcomeOf(r: ResultRecord): ProbeOutcome
    requires WellFormed(r)
  {
    match r.error
    case Some(message) => Thrown(message)
    case None => Response(r.status == Online, r.statusCode.value)
  }

  /** A record loses nothing about the outcome it was built from. */
  lemma OutcomeRecoverable(url: string, run: ProbeRun)
    ensures OutcomeOf(CheckUrl(url, run)) == run.outcome
  {
  }

  /** Two probes of one url that give the same record had the same outcome. */
  lemma CheckUrlInjective(url: string, run1: ProbeRun, run2: ProbeRun)
    requires CheckUrl(url, run1) == CheckUrl(url, run2)
    ensures run1.outcome == run2.outcome
  {
    OutcomeRecoverable(url, run1);
    OutcomeRecoverable(url, run2);
  }
}
