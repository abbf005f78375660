# Auth key sharing detection, modelled in Dafny

This project models the detection core of `api/auth-log.js`, a serverless endpoint. A
game client reports each authentication event to it: an API key, a session id and,
optionally, an IP address and coordinates. The endpoint keeps an in-memory table
(`keyData`) that maps each API key to three things:

- its recent IP sightings;
- its recent location sightings;
- the set of session ids it has used.

Three detectors raise alerts when a key looks shared:

- **multiple IPs**: more than `MAX_IPS_PER_KEY` (3) distinct addresses within the window;
- **concurrent sessions**: more than `MAX_CONCURRENT_SESSIONS` (2) session ids;
- **impossible travel**: more than `SUSPICIOUS_DISTANCE_KM` (500 km) away from the last
  location, at more than 800 km/h, with that location less than `IP_TRACKING_WINDOW`
  (3600 s) old.

The modules follow the program:

- `JsValues` (js_values.dfy) holds what the handler relies on from JavaScript: optional
  JSON fields, truthiness (`""` and `0` are false), `||` as a fallback,
  `split(',')[0]`, and `trim()` with the ECMAScript white-space set.
- `Sequences` (sequences.dfy) holds the two array operations the store uses:
  - `.filter(r => r.timestamp > cutoff)` as `KeepNewer`;
  - `[...new Set(xs)]` as `Distinct`, which keeps first-occurrence order.
- `KeyState` (key_state.dfy) holds the records and constants. It defines cleanup and
  each detector as a pure step from the table before the call to the table after it,
  paired with the detector's result.
- `Detectors` (key_store.dfy) is the table as an object. `KeyStore` has one field,
  `data`, and four methods that update it in place as the JavaScript functions do:
  - `CleanupOldData` is a loop over the keys;
  - `DetectMultipleIPs`, `DetectConcurrentSessions` and `DetectImpossibleTravel`
    create the record lazily, then push, upsert or append.

  Each method is proved to perform its `KeyState` step.
- `DetectionFacts` (detection_facts.dfy) proves properties of those steps:
  - the exact threshold crossings;
  - the speed test as `distance / hours`;
  - what cleanup forgets;
  - the chronological order that every step preserves.
- `AuthLog` (auth_log.dfy) holds the request handler's decision logic:
  - the execution IP taken from the proxy headers;
  - validation of `apiKey` and `sessionId`;
  - the effective IP;
  - cleanup, then the three detectors in their fixed order, then the alerts and the
    response.

  `Decide` states the result of one event as a function of the table before it.
  `Handle` performs it on a `KeyStore` and is proved equal to `Decide`.

Time is one parameter `now`, in milliseconds, for the whole event. The great-circle
distance is a parameter `dist` whose only stated property is that it is never negative.

Three behaviours of the code are easy to misread, and the model keeps them as written:

- A detection does not record the new location. On an impossible-travel detection
  `detectImpossibleTravel` returns before the append (api/auth-log.js:123-131).
  `ImpossibleTravelStep` and `DetectImpossibleTravel` state that the history is
  unchanged on detection.
- Sightings a whole window apart are never compared. The time test is strict
  (api/auth-log.js:111), so two sightings exactly 3600 s apart are not flagged, even
  1113 km apart (`WindowApartNeverFlagged`).
- Cleanup keeps only entries stamped strictly after `now - window`
  (api/auth-log.js:24), so an entry exactly one window old is dropped.

## Model

| member | source | states |
|---|---|---|
| JsValues.BeforeFirstComma | api/auth-log.js:273 | the result is a prefix of the header text and contains no comma; when shorter than the text, the next character is the first comma |
| JsValues.Trim | api/auth-log.js:273 | the result is a contiguous slice of the input; only white space was removed on either side; the result neither starts nor ends with white space |
| AuthLog.ExecutionIp | api/auth-log.js:267-273 | the execution IP has no comma and no surrounding white space, and is never longer than the header value it came from |
| AuthLog.ExecutionIpIsFirstHop | api/auth-log.js:272-273 | for a header that is a comma-free `first` followed by nothing or by a comma, the execution IP is exactly `first` trimmed |
| AuthLog.ExecutionIpOfSingleAddress | api/auth-log.js:272-273 | a header without a comma yields the whole header, trimmed |
| JsValues.BeforeFirstCommaOf | api/auth-log.js:273 | `split(',')[0]` of a comma-free `first` followed by nothing or by a comma is exactly `first` |
| JsValues.Truthy | api/auth-log.js:276 | a string field is truthy exactly when it is present and non-empty (no contract; the definition is the `!x` test) |
| JsValues.NumberTruthy | api/auth-log.js:345 | a number field is truthy exactly when it is present and non-zero (no contract; the definition is the `&&` test) |
| JsValues.OrElse | api/auth-log.js:283 | the logical-or fallback: `a` when it is truthy, otherwise `b` (no contract; the definition) |
| AuthLog.RequestIp | api/auth-log.js:267-270 | the first truthy of `x-forwarded-for`, `x-real-ip` and the remote address, else "unknown" (no contract; the definition) |
| AuthLog.EffectiveIp | api/auth-log.js:283 | the event's `ipAddress` when truthy, otherwise the execution IP (no contract; the definition) |
| AuthLog.HasCoordinates | api/auth-log.js:345 | both coordinates are truthy (no contract; the definition) |
| AuthLog.TravelLocation | api/auth-log.js:345-350 | with truthy coordinates, the location the travel detector receives (latitude, longitude, effective IP); otherwise none (no contract; the definition) |
| AuthLog.SeverityOf | api/auth-log.js:322-356 | WARNING for multiple IPs, ALERT for concurrent sessions, CRITICAL for impossible travel (no contract; the definition; AlertsOfOrdered states that every alert carries it) |
| AuthLog.OutcomeOf | api/auth-log.js:316-350 | cleanup, then the detectors on the cleaned table with the event's key, session, effective IP and location (no contract; the definition that Decide and the AuthLog lemmas use) |
| AuthLog.AlertFor | api/auth-log.js:322-358 | one alert of the detector's type and severity with its result as payload when it fired, otherwise none (no contract; the definition; its properties are in AlertsOfOrdered and AlertsOfMatchDetections) |
| AuthLog.AlertsOf | api/auth-log.js:318-361 | the `alerts` array: detector 1's alert, then detector 2's, then detector 3's (no contract; the definition; its properties are in AlertsOfOrdered and AlertsOfMatchDetections) |
| AuthLog.RunDetectors | api/auth-log.js:321-350 | detectors 1 and 2 in order, then detector 3 when a location is given, each on the table the previous one left (no contract; the definition; its properties are in RunDetectorsRecords, OutcomeKinds, NoLocationOutcome, RunDetectorsTravel and FreshKeyOutcome) |
| AuthLog.Decide | api/auth-log.js:263-381 | the whole handler as a function: a 400 response with the table untouched when a required field is falsy, otherwise cleanup, the detectors and a 200 response (no contract; the definition that Handle is proved equal to and that the AuthLog lemmas are stated about) |
| KeyState.Cutoff | api/auth-log.js:19 | `now - IP_TRACKING_WINDOW * 1000` (no contract; the definition) |
| KeyState.IpsOf | api/auth-log.js:63 | `ipHistory.map(r => r.ip)`: same length, and position by position the entry's IP |
| KeyState.FasterThan | api/auth-log.js:119-123 | `distance / hours > limit` as JavaScript evaluates it, including +Infinity for zero time and the sign flip for negative time (no contract; its meaning is stated by FasterThanIsSpeedComparison, SameInstantFarHopFlagged and ClockSkewNeverFlagged) |
| KeyState.TravelVerdict | api/auth-log.js:107-133 | flagged exactly when the last location is less than a window old, more than 500 km away and FasterThan 800 km/h (no contract; its behaviour is stated in ImpossibleTravelStep and the travel lemmas) |
| KeyState.RecordOf | api/auth-log.js:55-57 | the key's record, or the empty record each detector creates for an unseen key (also at lines 79-81 and 101-103) (no contract; the definition every step contract is stated with) |
| KeyState.DistanceFromLast | api/auth-log.js:107-117 | the distance from the history's last location to the current one (no contract; the definition) |
| KeyState.TravelFlagged | api/auth-log.js:107-123 | a last location exists and `TravelVerdict` on it is a detection: less than a window old, more than 500 km away and left FasterThan 800 km/h (no contract; the definition; ImpossibleTravelStep, RunDetectorsTravel and TravelAlert are stated with it) |
| KeyState.LocationAt | api/auth-log.js:137-142 | the location entry appended for an event: its coordinates, `now` and its IP (no contract; the definition) |
| Sequences.KeepNewer | api/auth-log.js:23-25 | an entry survives the filter exactly when it was present and its timestamp is after the cutoff; the result is never longer |
| Sequences.KeepNewerAppend | api/auth-log.js:23-25 | filtering distributes over concatenation, so surviving entries keep their relative order |
| Sequences.KeepNewerIdempotent | api/auth-log.js:23-25 | filtering twice with one cutoff equals filtering once |
| Sequences.KeepNewerAllStale | api/auth-log.js:23-25 | when no entry is newer than the cutoff, nothing survives |
| Sequences.KeepNewerNonDecreasing | api/auth-log.js:23-25 | filtering a history in timestamp order leaves it in timestamp order |
| Sequences.Distinct | api/auth-log.js:63 | the unique list has exactly the values of the input, each once, and is never longer |
| Sequences.DistinctFirstOccurrenceOrder | api/auth-log.js:63 | unique values are listed in the order of their first occurrence, as a `Set` iterates |
| Sequences.DistinctCount | api/auth-log.js:63 | the length of the unique list is the number of distinct values |
| KeyState.PruneRecord | api/auth-log.js:21-32 | one key after cleanup: sessions untouched; each history keeps exactly the entries newer than `now - window`, and is the `KeepNewer` filter of the old history, so the kept entries keep their order and multiplicity |
| KeyState.PruneStore | api/auth-log.js:17-33 | cleanup keeps every key and its sessions, and keeps exactly the in-window entries of both histories; each key's record becomes `PruneRecord` of its old record, so the last location after cleanup is the last in-window one |
| KeyState.MultipleIpsVerdict | api/auth-log.js:63-74 | detected exactly when the history holds more than MAX_IPS_PER_KEY distinct addresses; the payload gives that count, the threshold, and the list of those addresses as `Distinct` of the history's addresses, so in first-occurrence order |
| KeyState.MultipleIpsStep | api/auth-log.js:54-75 | the key is created if absent, the sighting is appended to its IP history, nothing else changes, and the verdict is on the history including this sighting |
| KeyState.ConcurrentSessionsVerdict | api/auth-log.js:85-96 | detected exactly when more than MAX_CONCURRENT_SESSIONS session ids are stored; the payload gives their number, the threshold and the ids |
| KeyState.ConcurrentSessionsStep | api/auth-log.js:78-97 | the key is created if absent, the session is upserted (the ids become old ids plus this one), nothing else changes, and the verdict is on the updated table |
| KeyState.ImpossibleTravelStep | api/auth-log.js:100-145 | detected exactly when the location history before the call is `TravelFlagged` for the current location (a last location exists, is less than the window old, is more than 500 km away and the JavaScript speed test exceeds 800 km/h); on detection the payload holds that last location, the current one, the distance between them and the elapsed milliseconds, and the history is left as it was; otherwise the new location is appended; IPs and sessions never change |
| Detectors.KeyStore.constructor | api/auth-log.js:14 | the table starts empty |
| Detectors.KeyStore.CleanupOldData | api/auth-log.js:17-33 | the in-place loop over the keys leaves the table equal to `PruneStore` of the old table |
| Detectors.KeyStore.DetectMultipleIPs | api/auth-log.js:54-75 | the in-place update and the returned result are those of `MultipleIpsStep` |
| Detectors.KeyStore.DetectConcurrentSessions | api/auth-log.js:78-97 | the in-place update and the returned result are those of `ConcurrentSessionsStep` |
| Detectors.KeyStore.DetectImpossibleTravel | api/auth-log.js:100-145 | the in-place update, including the early return on detection, and the returned result are those of `ImpossibleTravelStep` |
| DetectionFacts.PruneStoreIdempotent | api/auth-log.js:17-33 | a second cleanup at the same instant changes nothing |
| DetectionFacts.StaleHistoryForgotten | api/auth-log.js:17-33 | once every sighting of a key is a window old, cleanup empties both histories and keeps its sessions |
| DetectionFacts.RecordedIpsAfterStep | api/auth-log.js:60-63 | the addresses counted after a sighting are those counted before, plus the new one |
| DetectionFacts.RepeatedIpKeepsCount | api/auth-log.js:60-65 | a repeated address adds no distinct address and does not change the verdict the old count gave |
| DetectionFacts.NewIpAddsOne | api/auth-log.js:60-65 | a new address adds exactly one, so the (MAX_IPS_PER_KEY+1)-th distinct address is the first one flagged |
| DetectionFacts.RepeatedSessionKeepsCount | api/auth-log.js:83-87 | re-using a session id keeps the set of ids, so it is flagged only if the key was already over the limit |
| DetectionFacts.NewSessionAddsOne | api/auth-log.js:83-87 | a new session id adds one, so the (MAX_CONCURRENT_SESSIONS+1)-th id is the first one flagged |
| DetectionFacts.FasterThanIsSpeedComparison | api/auth-log.js:109-123 | for non-zero elapsed time the speed predicate is exactly `distance / ((ms / 1000) / 3600) > limit` |
| DetectionFacts.SameInstantFarHopFlagged | api/auth-log.js:119-123 | a hop of more than 500 km at the same instant is flagged (the speed is +Infinity) |
| DetectionFacts.ShortHopNeverFlagged | api/auth-log.js:123 | a hop of at most 500 km is never flagged, however fast |
| DetectionFacts.WindowApartNeverFlagged | api/auth-log.js:111 | sightings a full window or more apart are never compared |
| DetectionFacts.ClockSkewNeverFlagged | api/auth-log.js:109-123 | if the clock went backwards the negative quotient is never above 800, so nothing is flagged |
| DetectionFacts.FirstLocationRecorded | api/auth-log.js:105-144 | a key's first location is recorded and never flagged |
| DetectionFacts.ChronologicalLater | api/auth-log.js:59-60 | histories in order and not after `now` stay so at any later instant |
| DetectionFacts.PruneStoreChronological | api/auth-log.js:17-33 | cleanup keeps every history in timestamp order |
| DetectionFacts.MultipleIpsStepChronological | api/auth-log.js:59-60 | appending a sighting stamped `now` keeps the IP history in order |
| DetectionFacts.ConcurrentSessionsStepChronological | api/auth-log.js:83 | recording a session keeps the histories in order |
| DetectionFacts.ImpossibleTravelStepChronological | api/auth-log.js:136-142 | appending a location stamped `now` keeps the location history in order |
| AuthLog.Handle | api/auth-log.js:263-381 | the handler's effect on the table and its response are exactly `Decide` of the old table |
| AuthLog.RunAndCollect | api/auth-log.js:318-361 | running detectors 1, 2 and 3 in order and pushing each alert as it fires leaves the table and the alerts that the three steps define |
| AuthLog.MissingFieldsLeaveStoreUnchanged | api/auth-log.js:276-280 | the 400 response comes exactly when `apiKey` or `sessionId` is missing or empty, and then the table is unchanged |
| AuthLog.AlertsOfOrdered | api/auth-log.js:318-361 | at most three alerts, in strictly increasing detector order (so no type twice), each with its type's fixed severity and a detected payload |
| AuthLog.AlertsOfMatchDetections | api/auth-log.js:320-361 | each alert's payload is its own detector's result (so also of that detector's kind), and an alert type is raised exactly when its detector fired |
| AuthLog.OutcomeKinds | api/auth-log.js:344-361 | each detector returns its own kind of result, and without a location there is no travel result |
| AuthLog.RunDetectorsRecords | api/auth-log.js:321-350 | the detectors append the event's address to the key's IP history and record its session, and they leave other keys alone |
| AuthLog.ValidEventLogged | api/auth-log.js:373-381 | a valid event gets a 200 response whose `alertCount` is the number of alerts and whose `executionIP` is the derived execution IP |
| AuthLog.AlertsInDetectionOrder | api/auth-log.js:318-381 | the response to a valid event lists at most three alerts in detector order with fixed severities, and `alertCount` is their number |
| AuthLog.EventRecorded | api/auth-log.js:283-350 | a valid event creates or updates its key: the effective address at `now` ends the pruned IP history, the session id is stored, and every other key only goes through cleanup |
| AuthLog.ThresholdAlerts | api/auth-log.js:316-342 | the multiple-IP alert is raised exactly when the in-window addresses plus this one exceed MAX_IPS_PER_KEY; the concurrent-session alert exactly when the ids plus this one exceed MAX_CONCURRENT_SESSIONS |
| AuthLog.NoLocationOutcome | api/auth-log.js:321-345 | without a location the travel result is NotDetected and the location history passes through detectors 1 and 2 unchanged |
| AuthLog.TwoEventsKeepChronology | api/auth-log.js:316-350 | two events processed in time order leave every history in timestamp order with nothing after the later instant |
| AuthLog.RunDetectorsTravel | api/auth-log.js:344-358 | the travel result is detected exactly when a location is given and the key's location history before the event is flagged for it, with that history's last entry as previous location, since detectors 1 and 2 leave the location history alone |
| AuthLog.TravelAlertRaised | api/auth-log.js:344-358 | for a valid event the impossible-travel alert is raised exactly when the travel detector fired |
| AuthLog.TravelAlert | api/auth-log.js:345-358 | for a valid event with truthy coordinates the impossible-travel alert is raised exactly when the key's last location after cleanup is less than a window old, more than 500 km away and left faster than 800 km/h |
| AuthLog.NoCoordinatesNoTravelDetection | api/auth-log.js:345-361 | without truthy coordinates (0 included) there is no travel alert, the key is in the table, and its location history is only pruned |
| AuthLog.FreshKeyOutcome | api/auth-log.js:321-350 | for a key with empty histories the event's address and location become the only ones recorded, and neither the IP alert nor the travel alert fires |
| AuthLog.StaleKeyStartsOver | api/auth-log.js:316-361 | when every earlier sighting of a key is a window old, the event starts the key over: there is no IP or travel alert, the event is the only IP sighting, and, with truthy coordinates, the only location |
| AuthLog.DecideKeepsChronology | api/auth-log.js:316-350 | processing an event keeps every history in timestamp order with nothing stamped after `now` |

## Left out

- `calculateDistance` and `toRad` (haversine in floating point) are not modelled. The
  distance is a parameter that is only known to be non-negative.
- Floating point in general is not modelled. Coordinates, distances and speeds are
  exact reals, and NaN coordinates are not modelled.
- KeyState.ImpossibleTravelStep: the travel payload carries the exact distance and the
  elapsed milliseconds. It does not carry the `Math.round`-ed `distanceKm` and
  `timeSeconds`, and `speedKmh` is left out.
- KeyState.ConcurrentSessionsVerdict: the session ids are returned as a set. The order
  of `Object.keys` is not modelled.
- Keys and session ids that collide with `Object.prototype` members (`__proto__`,
  `constructor`) are not modelled. Every string is a fresh key.
- Non-string JSON values in `apiKey`, `sessionId` and `ipAddress`, and array-valued
  headers, are not modelled. Fields are absent or strings; coordinates are absent or
  numbers.
- The thresholds are their defaults. Reading them from the environment with `parseInt`
  is not modelled.
- `sendWebhook` and `createDiscordEmbed` (the Discord notification) are not modelled,
  nor is their effect on the order in which concurrent requests interleave. Each event
  is processed alone, start to finish.
- CORS headers, the OPTIONS and 405 responses, console logging, the ISO timestamp in
  the response and the 500 path on exceptions are not modelled. The model returns the
  400 and 200 responses.
- `Date.now()` is a parameter `now`, used for the whole event. The source reads the
  clock separately: in cleanup (api/auth-log.js:18) and in each detector
  (api/auth-log.js:59, 83, 109, 140). Between those reads the handler awaits
  `sendWebhook`, an outbound `fetch` with no timeout (api/auth-log.js:329, 341, 359). So
  the reads can be a whole webhook round trip apart, which is unbounded. That gap can
  change a verdict. For example, a location 3599.5 s old survives cleanup, and then a
  multiple-IP webhook takes 1 s. The source's window test (api/auth-log.js:111) then
  fails and nothing is compared, but the single-`now` model still compares the two
  locations and may flag them. Likewise, entries the source stamps after a slow webhook
  carry a later time than the model's `now`.
