# LivelyHealthCheck monitoring core, in Dafny

A model of the monitoring state machine of the LivelyHealthCheck server
(`server.js`). The server keeps a registry of health checks (url, name,
poll interval, creation time), polls each registered url on a timer,
keeps the last 50 probe results of each check, and answers list, get,
create and delete requests.

The model lifts the module-level maps `healthChecks` and
`healthCheckResults` into the class that owns the handle table
`intervals`, so the whole monitoring state is one Dafny class,
`Service.HealthCheckService`:

- `checks` and `order` — the registry, a map plus its key order (a
  JavaScript `Map` iterates in insertion order, which the list reply shows);
- `results` — each check's history of result records;
- `intervals` — the handle table, id to opaque timer handle;
- `timers` — the runtime's armed interval callbacks, by handle, each
  remembering the id, url and period it closed over. `clearInterval`
  removes one. A timer firing and its probe settling is the explicit call
  `Tick(id, run)`.

`Valid()` states the invariants the methods keep: the key order lists
every registered id exactly once; every history holds at most 50
records; and handles and armed timers match one to one, so no id ever
has two timers probing it and no timer outlives its table entry.

Modules:

- `Wrappers` — `Option`, `Result`, `Outcome`.
- `Probe` — the result record `checkUrl` builds from what the HTTP
  client reported (`CheckUrl`), and the fact that the record loses nothing
  about that outcome.
- `History` — keep-the-last-50 (`LastN`), one push (`AppendBounded`) and
  many pushes (`AppendAllKeepsMostRecent`, `AppendAllLength`).
- `Registry` — the stored check, the create request, the create
  handler's validation in its fixed order (`NewCheck`), the error replies,
  and key-order helpers for `Map.delete`.
- `Queries` — the list item (`Enrich`, `EnrichAll`) and the reply shapes.
- `Service` — the class with the monitoring operations and the four
  handlers.

Inputs the server takes from its environment are parameters: the probe's
outcome and its clock readings (`Probe.ProbeRun`), the url parser (a
function `urlParses`), the result of `parseInt` (an optional integer), the
fresh id, and the creation timestamp.

Behaviour of the code that the model keeps as it is:

- A probe that settles after its check was deleted still pushes its
  result, under `healthCheckResults.get(id) || []` (server.js:58, 68),
  and so re-creates a history for the deleted id; `RecordResult` applies
  to any id.
- The server keeps all state in memory and has no save or load.
- Only input that `parseInt` turns into NaN is rejected as an interval,
  so `"5000.5"` is accepted as 5000. The model takes `parseInt`'s result
  as its input.
- `Registry.Error.HttpStatus` and `Registry.Error.Message` give the
  status code and the `error` text of each error reply (server.js:130,
  147, 154, 160-162, 184); the handlers' contracts state the status codes.

## Model

| member | source | states |
|---|---|---|
| `Probe.CheckUrl` | server.js:19-49 | the record is well formed; on a response, status is online iff `response.ok`, the status code is set and the error is null; on a thrown error, status is offline, the status code is null and the error is the message; the response time is end minus start in both cases |
| `Probe.OutcomeRecoverable` | server.js:29-48 | the client's outcome can be read back from the record built from it |
| `Probe.CheckUrlInjective` | server.js:29-48 | two probes of one url give equal records only if their outcomes agree |
| `History.LastN` | server.js:60-61 | the kept part is at most the capacity long, is a suffix of the pushed sequence, and is all of it when shorter than the capacity |
| `History.AppendBounded` | server.js:58-62 | pushing onto a history of at most 50 keeps it at most 50, puts the new result last, and drops only the oldest entry, exactly when the history was full, the rest keeping their order |
| `History.AppendAllKeepsMostRecent` | server.js:66-73 | after any number of pushes the history is exactly the most recent 50 results in push order |
| `History.AppendAllLength` | server.js:57-73 | a history grows by one per push until it holds 50, and stays at 50 from then on |
| `Registry.NewCheck` | server.js:144-171 | the request succeeds exactly when the url is present and non-empty, parses, and the interval is in range; a missing or empty url fails with `MissingUrl`; otherwise an unparsable url fails with `InvalidUrl`; otherwise an interval that is NaN, below 5000 or above 3600000 fails with `InvalidInterval`; on success the check has the request's url, the interval defaulted to 60000, the name `name \|\| url` and the given creation time |
| `Registry.IntervalBoundaries` | server.js:157-163 | 5000 and 3600000 are accepted, 4999, 3600001 and NaN are not, and an omitted interval becomes 60000 with the name defaulting to the url |
| `Registry.MissingUrlFirst` | server.js:146-148 | a missing url is reported whatever the rest of the request holds |
| `Registry.Remove` | server.js:188 | after deleting a key, the key order holds exactly the other keys and is no longer |
| `Registry.RemoveDistinct` | server.js:188 | deleting a key from an order without repetitions leaves none |
| `Registry.RemoveAbsent` | server.js:188 | deleting a key that is not in the order changes nothing |
| `Registry.RemoveKeepsOrder` | server.js:188 | deleting a key leaves the other keys in their insertion order |
| `Queries.Enrich` | server.js:108-119 | the latest status is the last record's status, or pending when there is none; the latest response time is null when there is no record or it is 0, otherwise the last record's; the last-checked time likewise from the last timestamp |
| `Queries.EnrichAll` | server.js:108-119 | one list item per id, in order, each enriched from that id's history or from an empty one |
| `Queries.EnrichAllAppendNew` | server.js:108-119 | registering a new id with no history appends one pending item to the list and leaves the other items as they were |
| `Queries.ListedAfterAppend` | server.js:109-116 | once a probe's record is pushed, the list shows its status and response time as the latest |
| `Service.DisarmKeepsMatch` | server.js:78-84 | clearing an id's handle leaves no timer probing that id and keeps handles and timers one to one |
| `Service.ArmKeepsMatch` | server.js:66-75 | arming a fresh handle for an id without one keeps handles and timers one to one |
| `Service.OneTimerPerId` | server.js:52-75 | the recorded handle is the only armed timer probing its id |
| `Service.HealthCheckService.constructor` | server.js:15-17 | the service starts with empty maps and no timers |
| `Service.HealthCheckService.RecordResult` | server.js:57-63 | the id's history, or an empty one, gets the result pushed and trimmed to 50; nothing else changes |
| `Service.HealthCheckService.StopMonitoring` | server.js:78-84 | the id leaves the table and its timer is disarmed; other ids keep their handles; no-op when the id has none |
| `Service.HealthCheckService.StartMonitoring` | server.js:52-76 | any old timer of the id is disarmed and exactly one fresh one is armed with the given url and period; other ids' timers and the histories are unchanged (the first probe settles later, as a `RecordResult`) |
| `Service.HealthCheckService.Arm` | server.js:66-75 | a fresh handle, armed for the id, is stored under the id; nothing else changes |
| `Service.HealthCheckService.Tick` | server.js:66-73 | a timer firing pushes the record of a probe of the url it closed over onto its id's history and changes nothing else |
| `Service.HealthCheckService.StopAll` | server.js:86-89 | every timer is disarmed and the table is empty; registry and histories unchanged |
| `Service.HealthCheckService.GetCheck` | server.js:125-139 | unknown id gives NotFound, a 404; otherwise the check and its full history, empty if it has none |
| `Service.HealthCheckService.ListChecks` | server.js:107-121 | one item per registered check, in insertion order, each enriched from that check's history |
| `Service.HealthCheckService.AddCheck` | server.js:173 | the new id is registered last in key order with its check; nothing else changes; with no history it is listed as a pending item after the earlier ones |
| `Service.HealthCheckService.CreateCheck` | server.js:143-177 | fails exactly when validation fails, with its error, a 400, and no state change; otherwise adds exactly the new check under the fresh id, last in order, arms exactly one timer for it with its url and interval, leaves other checks, handles, timers and the histories as they were, and, when no history exists under the fresh id, lists the new check as pending after the earlier items |
| `Service.HealthCheckService.DeleteCheck` | server.js:180-192 | unknown id gives NotFound, a 404, and no change; otherwise the id is gone from the registry, the histories and the handle table, its timer alone is disarmed, and the other ids' entries, handles and timers are untouched |

## Left out

- The HTTP request of `checkUrl` (`node-fetch`, its 10 s timeout): its outcome is an input, `Probe.ProbeOutcome`.
- `Date.now()` and `new Date().toISOString()`: clock readings and timestamps are inputs.
- `new URL(url)`: the WHATWG URL parser is the parameter `urlParses`; `parseInt` is represented by its result.
- The random id `hc_<time>_<random>`: the fresh id is a parameter that must not be registered yet.
- `setInterval`/`clearInterval` timing: handles are opaque numbers, and a firing is the call `Tick`.
- The first probe's promise: `StartMonitoring` only arms the timer; the first probe settling, whenever it does, is the call `RecordResult(id, CheckUrl(url, run))`.
- Interleaving of probes in flight: each push is atomic; a probe settling after its check was deleted is a `RecordResult` on an unregistered id.
- `if (intervalId)` in `stopMonitoring`: a Node timer handle is always truthy, so the model tests only that the id has a handle.
- Express routing, the Next.js request handler, `listen`, the `/api/ping` route and the SIGTERM handler's `process.exit` (only its `stopAll` is modelled).
- The reply bodies' JSON encoding and error texts beyond `Registry.Error.Message`.
- `pages/index.js` is not part of this model: it is a display-only React page.
- Persistence: no save or load exists in the code.
