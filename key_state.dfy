/** The per-key, time-windowed state of api/auth-log.js (the module-level `keyData`)
    and the three detectors that read and update it, as functions from the state
    before a step to the state after it and the detector's verdict. The class in
    key_store.dfy performs the same steps in place. Timestamps are milliseconds,
    as `Date.now()` returns them; one `now` is used for a whole event. */
module KeyState {
  import opened Sequences

  /** The configured thresholds (their defaults when no environment setting is given). */
  const MAX_IPS_PER_KEY: nat := 3
  const MAX_CONCURRENT_SESSIONS: nat := 2
  const SUSPICIOUS_DISTANCE_KM: real := 500.0
  const IP_TRACKING_WINDOW: nat := 3600
  /** The tracking window in milliseconds. */
  const WINDOW_MS: nat := IP_TRACKING_WINDOW * 1000
  /** A speed faster than commercial flight. */
  const IMPOSSIBLE_SPEED_KMH: real := 800.0

  datatype IpEntry = IpEntry(ip: string, timestamp: int)
  datatype LocationEntry = LocationEntry(latitude: real, longitude: real, timestamp: int, ip: string)
  datatype Session = Session(started: int)

  /** What the store keeps for one API key. */
  datatype KeyRecord = KeyRecord(
    ipHistory: seq<IpEntry>,
    locationHistory: seq<LocationEntry>,
    sessions: map<string, Session>)

  /** `keyData`: API key to record. */
  type Store = map<string, KeyRecord>

  /** The record a detector creates on the first sighting of a key. */
  const EMPTY_RECORD := KeyRecord([], [], map[])

  /** The location an event reports (`currentLocation`). */
  datatype Location = Location(latitude: real, longitude: real, ip: string)

  /** Great-circle distance in km between (lat1, lon1) and (lat2, lon2); the haversine
      formula itself is not modelled, only that the distance is never negative. */
  type DistanceFn = f: (real, real, real, real) -> real
    | forall lat1, lon1, lat2, lon2 :: f(lat1, lon1, lat2, lon2) >= 0.0
    witness (lat1: real, lon1: real, lat2: real, lon2: real) => 0.0

  /** A detector's result: `{ detected: false }` or the detected payload. */
  datatype Detection =
    | NotDetected
    | MultipleIpsFound(uniqueIPCount: nat, ips: seq<string>, threshold: nat)
    | ConcurrentSessionsFound(concurrentSessions: nat, threshold: nat, sessionIds: set<string>)
    | ImpossibleTravelFound(previousLocation: LocationEntry, currentLocation: Location,
                            distanceKm: real, elapsedMs: int)
  {
    predicate Detected() { !NotDetected? }
  }

  function IpStamp(e: IpEntry): int { e.timestamp }
  function LocationStamp(e: LocationEntry): int { e.timestamp }

  /** The record of `key`, or the empty record a detector would create for it. */
  function RecordOf(m: Store, key: string): KeyRecord
  {
    if key in m then m[key] else EMPTY_RECORD
  }

  /** `ipHistory.map(r => r.ip)` */
  function IpsOf(h: seq<IpEntry>): (r: seq<string>)
    ensures |r| == |h|
    ensures forall i :: 0 <= i < |h| ==> r[i] == h[i].ip
  {
    if h == [] then [] else [h[0].ip] + IpsOf(h[1..])
  }

  // ---------------------------------------------------------------- cleanup

  /** Entries at or before the cutoff are outside the window. */
  function Cutoff(now: int): int
  {
    now - WINDOW_MS
  }

  /** One key's part of `cleanupOldData`: both histories filtered down to the window. */
  function PruneRecord(rec: KeyRecord, now: int): (r: KeyRecord)
    ensures r.sessions == rec.sessions
    ensures forall e :: e in r.ipHistory <==> e in rec.ipHistory && e.timestamp > Cutoff(now)
    ensures forall e :: e in r.locationHistory <==> e in rec.locationHistory && e.timestamp > Cutoff(now)
    ensures r.ipHistory == KeepNewer(rec.ipHistory, IpStamp, Cutoff(now))
    ensures r.locationHistory == KeepNewer(rec.locationHistory, LocationStamp, Cutoff(now))
  {
    rec.(ipHistory := KeepNewer(rec.ipHistory, IpStamp, Cutoff(now)),
         locationHistory := KeepNewer(rec.locationHistory, LocationStamp, Cutoff(now)))
  }

  /** `cleanupOldData`: every key keeps its record, sessions untouched, and exactly the
      history entries newer than `now - WINDOW_MS`. */
  function PruneStore(m: Store, now: int): (r: Store)
    ensures r.Keys == m.Keys
    ensures forall k :: k in r ==> r[k].sessions == m[k].sessions
    ensures forall k :: k in r ==>
      forall e :: e in r[k].ipHistory <==> e in m[k].ipHistory && e.timestamp > Cutoff(now)
    ensures forall k :: k in r ==>
      forall e :: e in r[k].locationHistory <==> e in m[k].locationHistory && e.timestamp > Cutoff(now)
    ensures forall k :: k in r ==> r[k] == PruneRecord(m[k], now)
  {
    map k | k in m :: PruneRecord(m[k], now)
  }

  // ---------------------------------------------------------- multiple IPs

  /** The multiple-IP verdict on a key's IP history (api/auth-log.js:63-74). */
  function MultipleIpsVerdict(ips: seq<string>): (r: Detection)
    ensures r.NotDetected? || r.MultipleIpsFound?
    ensures r.Detected() <==> |Elements(ips)| > MAX_IPS_PER_KEY
    ensures r.Detected() ==> r.uniqueIPCount == |Elements(ips)| == |r.ips|
    ensures r.Detected() ==> r.threshold == MAX_IPS_PER_KEY
    ensures r.Detected() ==> NoDuplicates(r.ips) && Elements(r.ips) == Elements(ips)
    ensures r.Detected() ==> r.ips == Distinct(ips)
  {
    var unique := Distinct(ips);
    DistinctCount(ips);
    if |unique| > MAX_IPS_PER_KEY then MultipleIpsFound(|unique|, unique, MAX_IPS_PER_KEY)
    else NotDetected
  }

  /** `detectMultipleIPs`: creates the record if needed, appends `{ip, now}` to its IP
      history, and judges the history as it now stands. */
  function MultipleIpsStep(m: Store, key: string, ip: string, now: int): (out: (Store, Detection))
    ensures out.0.Keys == m.Keys + {key}
    ensures forall k :: k in m && k != key ==> out.0[k] == m[k]
    ensures out.0[key].ipHistory == RecordOf(m, key).ipHistory + [IpEntry(ip, now)]
    ensures out.0[key].locationHistory == RecordOf(m, key).locationHistory
    ensures out.0[key].sessions == RecordOf(m, key).sessions
    ensures out.1 == MultipleIpsVerdict(IpsOf(out.0[key].ipHistory))
  {
    var rec := RecordOf(m, key);
    var rec' := rec.(ipHistory := rec.ipHistory + [IpEntry(ip, now)]);
    (m[key := rec'], MultipleIpsVerdict(IpsOf(rec'.ipHistory)))
  }

  // ---------------------------------------------------- concurrent sessions

  /** The concurrent-session verdict on a key's session table (api/auth-log.js:85-96). */
  function ConcurrentSessionsVerdict(sessions: map<string, Session>): (r: Detection)
    ensures r.NotDetected? || r.ConcurrentSessionsFound?
    ensures r.Detected() <==> |sessions.Keys| > MAX_CONCURRENT_SESSIONS
    ensures r.Detected() ==> r.concurrentSessions == |sessions.Keys|
    ensures r.Detected() ==> r.threshold == MAX_CONCURRENT_SESSIONS && r.sessionIds == sessions.Keys
  {
    var activeCount := |sessions|;
    assert activeCount == |sessions.Keys|;
    if activeCount > MAX_CONCURRENT_SESSIONS
    then ConcurrentSessionsFound(activeCount, MAX_CONCURRENT_SESSIONS, sessions.Keys)
    else NotDetected
  }

  /** `detectConcurrentSessions`: creates the record if needed, upserts the session, and
      judges the session table as it now stands. */
  function ConcurrentSessionsStep(m: Store, key: string, sessionId: string, now: int): (out: (Store, Detection))
    ensures out.0.Keys == m.Keys + {key}
    ensures forall k :: k in m && k != key ==> out.0[k] == m[k]
    ensures out.0[key].ipHistory == RecordOf(m, key).ipHistory
    ensures out.0[key].locationHistory == RecordOf(m, key).locationHistory
    ensures out.0[key].sessions == RecordOf(m, key).sessions[sessionId := Session(now)]
    ensures out.0[key].sessions.Keys == RecordOf(m, key).sessions.Keys + {sessionId}
    ensures out.1 == ConcurrentSessionsVerdict(out.0[key].sessions)
  {
    var rec := RecordOf(m, key);
    var sessions := rec.sessions[sessionId := Session(now)];
    assert sessions.Keys == rec.sessions.Keys + {sessionId};
    (m[key := rec.(sessions := sessions)], ConcurrentSessionsVerdict(sessions))
  }

  // ------------------------------------------------------ impossible travel

  /** `distance / hours > limit` as JavaScript evaluates it, with
      `hours = (elapsedMs / 1000) / 3600`: for a positive time the usual comparison; for
      zero time the quotient is +Infinity when the distance is positive and NaN when it
      is zero; for a negative time dividing by a negative number reverses the comparison. */
  predicate FasterThan(distanceKm: real, elapsedMs: int, limitKmh: real)
  {
    if elapsedMs > 0 then distanceKm * 3600000.0 > limitKmh * elapsedMs as real
    else if elapsedMs == 0 then distanceKm > 0.0
    else distanceKm * 3600000.0 < limitKmh * elapsedMs as real
  }

  /** The impossible-travel verdict on the last recorded location (api/auth-log.js:107-133). */
  function TravelVerdict(last: LocationEntry, current: Location, distanceKm: real, now: int): Detection
  {
    var elapsedMs := now - last.timestamp;
    if elapsedMs < WINDOW_MS
       && distanceKm > SUSPICIOUS_DISTANCE_KM
       && FasterThan(distanceKm, elapsedMs, IMPOSSIBLE_SPEED_KMH)
    then ImpossibleTravelFound(last, current, distanceKm, elapsedMs)
    else NotDetected
  }

  /** The entry `detectImpossibleTravel` appends for `current` at `now`. */
  function LocationAt(current: Location, now: int): LocationEntry
  {
    LocationEntry(current.latitude, current.longitude, now, current.ip)
  }

  /** The distance from the last location of a non-empty history to `current`. */
  function DistanceFromLast(hist: seq<LocationEntry>, current: Location, dist: DistanceFn): real
    requires hist != []
  {
    var last := hist[|hist| - 1];
    dist(last.latitude, last.longitude, current.latitude, current.longitude)
  }

  /** The condition under which `detectImpossibleTravel` flags a move to `current` at
      `now`: the history has a last location, and the verdict on it is a detection
      (less than a window old, more than SUSPICIOUS_DISTANCE_KM away, and left faster
      than IMPOSSIBLE_SPEED_KMH). */
  predicate TravelFlagged(hist: seq<LocationEntry>, current: Location, dist: DistanceFn, now: int)
  {
    hist != [] && TravelVerdict(hist[|hist| - 1], current, DistanceFromLast(hist, current, dist), now).Detected()
  }

  /** `detectImpossibleTravel`: compares `current` with the last location recorded before
      the call; on detection it returns without recording, otherwise it appends one entry. */
  function ImpossibleTravelStep(m: Store, key: string, current: Location, dist: DistanceFn, now: int)
    : (out: (Store, Detection))
    ensures out.0.Keys == m.Keys + {key}
    ensures forall k :: k in m && k != key ==> out.0[k] == m[k]
    ensures out.0[key].ipHistory == RecordOf(m, key).ipHistory
    ensures out.0[key].sessions == RecordOf(m, key).sessions
    ensures out.1.NotDetected? || out.1.ImpossibleTravelFound?
    ensures out.1.Detected() <==> TravelFlagged(RecordOf(m, key).locationHistory, current, dist, now)
    ensures var h := RecordOf(m, key).locationHistory;
      out.1.Detected() ==> out.1.previousLocation == h[|h| - 1] && out.1.currentLocation == current
    ensures var h := RecordOf(m, key).locationHistory;
      out.1.Detected() ==>
        && out.1.distanceKm == DistanceFromLast(h, current, dist)
        && out.1.elapsedMs == now - h[|h| - 1].timestamp
    ensures out.1.Detected() ==> out.0[key].locationHistory == RecordOf(m, key).locationHistory
    ensures !out.1.Detected() ==>
      out.0[key].locationHistory == RecordOf(m, key).locationHistory + [LocationAt(current, now)]
  {
    var rec := RecordOf(m, key);
    var h := rec.locationHistory;
    var verdict :=
      if h == [] then NotDetected
      else TravelVerdict(h[|h| - 1], current, DistanceFromLast(h, current, dist), now);
    if verdict.Detected() then (m[key := rec], verdict)
    else (m[key := rec.(locationHistory := h + [LocationAt(current, now)])], NotDetected)
  }
}
