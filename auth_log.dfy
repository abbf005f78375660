/** The decision part of the request handler of api/auth-log.js: derive the caller's
    address, validate the event, run cleanup and the three detectors in their fixed
    order, and collect the alerts. `Decide` states the whole outcome of one event as a
    function of the store before it; `Handle` performs it on a KeyStore. */
module AuthLog {
  import opened JsValues
  import opened Sequences
  import opened KeyState
  import opened DetectionFacts
  import opened Detectors

  datatype AlertType = MultipleIps | ConcurrentSessions | ImpossibleTravel
  datatype Severity = Warning | Alert | Critical

  /** `{ type, severity, data }` as pushed onto `alerts`. */
  datatype AuthAlert = AuthAlert(alertType: AlertType, severity: Severity, data: Detection)

  /** The fields of the request body that the detection logic reads. */
  datatype AuthEvent = AuthEvent(
    apiKey: Option<string>,
    sessionId: Option<string>,
    ipAddress: Option<string>,
    latitude: Option<real>,
    longitude: Option<real>)

  /** `x-forwarded-for`, `x-real-ip` and the socket's remote address. */
  datatype RequestHeaders = RequestHeaders(
    forwardedFor: Option<string>,
    realIp: Option<string>,
    remoteAddress: Option<string>)

  /** Status 400 for missing fields, or status 200 with the alerts and the execution IP. */
  datatype Response =
    | MissingFields
    | Logged(alertCount: nat, alerts: seq<AuthAlert>, executionIP: string)

  /** The severity each alert type is raised with. */
  function SeverityOf(t: AlertType): Severity
  {
    match t
    case MultipleIps => Warning
    case ConcurrentSessions => Alert
    case ImpossibleTravel => Critical
  }

  /** The position of each detector in the fixed order in which they run. */
  function Rank(t: AlertType): nat
  {
    match t
    case MultipleIps => 0
    case ConcurrentSessions => 1
    case ImpossibleTravel => 2
  }

  function RaisedTypes(alerts: seq<AuthAlert>): set<AlertType>
  {
    set a | a in alerts :: a.alertType
  }

  /** The first of the address sources that is truthy, else "unknown". */
  function RequestIp(h: RequestHeaders): string
  {
    OrElse(h.forwardedFor, OrElse(h.realIp, OrElse(h.remoteAddress, "unknown")))
  }

  /** `requestIP.split(',')[0].trim()`: the first hop of the proxy chain, without
      surrounding white space. */
  function ExecutionIp(h: RequestHeaders): (r: string)
    ensures ',' !in r
    ensures r != [] ==> !IsJsSpace(r[0]) && !IsJsSpace(r[|r| - 1])
    ensures |r| <= |RequestIp(h)|
  {
    var first := BeforeFirstComma(RequestIp(h));
    TrimOmits(first, ',');
    Trim(first)
  }

  /** The execution IP is the trimmed first hop: whatever precedes the first comma of
      the chosen header, or the whole header when it has no comma. */
  lemma ExecutionIpIsFirstHop(h: RequestHeaders, first: string, rest: string)
    requires RequestIp(h) == first + rest
    requires ',' !in first
    requires rest == [] || rest[0] == ','
    ensures ExecutionIp(h) == Trim(first)
  {
    BeforeFirstCommaOf(first, rest);
  }

  /** A header holding a single address yields that address, trimmed. */
  lemma ExecutionIpOfSingleAddress(h: RequestHeaders)
    requires ',' !in RequestIp(h)
    ensures ExecutionIp(h) == Trim(RequestIp(h))
  {
    assert RequestIp(h) + [] == RequestIp(h);
    ExecutionIpIsFirstHop(h, RequestIp(h), []);
  }

  /** The address recorded for the event: `eventData.ipAddress || executionIP`. */
  function EffectiveIp(ev: AuthEvent, h: RequestHeaders): string
  {
    OrElse(ev.ipAddress, ExecutionIp(h))
  }

  /** `eventData.latitude && eventData.longitude`: a coordinate of 0 counts as absent. */
  predicate HasCoordinates(ev: AuthEvent)
  {
    NumberTruthy(ev.latitude) && NumberTruthy(ev.longitude)
  }

  /** The alert a detector's result contributes: none, or one of the detector's type. */
  function AlertFor(t: AlertType, d: Detection): seq<AuthAlert>
  {
    if d.Detected() then [AuthAlert(t, SeverityOf(t), d)] else []
  }

  /** The store after the three detectors and each detector's result. */
  datatype Outcome = Outcome(store: Store, multi: Detection, concurrent: Detection, travel: Detection)

  /** Detectors 1, 2 and 3 in their fixed order; the third only when a location is given. */
  function RunDetectors(m: Store, key: string, sessionId: string, ip: string, location: Option<Location>,
                        dist: DistanceFn, now: int): Outcome
  {
    var s1 := MultipleIpsStep(m, key, ip, now);
    var s2 := ConcurrentSessionsStep(s1.0, key, sessionId, now);
    var s3 := if location.Some? then ImpossibleTravelStep(s2.0, key, location.value, dist, now)
              else (s2.0, NotDetected);
    Outcome(s3.0, s1.1, s2.1, s3.1)
  }

  /** The `alerts` array: one alert per detector that fired, in detector order. */
  function AlertsOf(o: Outcome): seq<AuthAlert>
  {
    AlertFor(MultipleIps, o.multi) + AlertFor(ConcurrentSessions, o.concurrent) + AlertFor(ImpossibleTravel, o.travel)
  }

  /** The location for the travel detector, when the event has truthy coordinates. */
  function TravelLocation(ev: AuthEvent, h: RequestHeaders): Option<Location>
  {
    if HasCoordinates(ev) then Some(Location(ev.latitude.value, ev.longitude.value, EffectiveIp(ev, h)))
    else None
  }

  /** The detectors' outcome for a valid event, after cleanup. */
  function OutcomeOf(m: Store, ev: AuthEvent, h: RequestHeaders, dist: DistanceFn, now: int): Outcome
    requires Truthy(ev.apiKey) && Truthy(ev.sessionId)
  {
    RunDetectors(PruneStore(m, now), ev.apiKey.value, ev.sessionId.value, EffectiveIp(ev, h),
                 TravelLocation(ev, h), dist, now)
  }

  /** One event, start to finish: the store after it and the response. */
  function Decide(m: Store, ev: AuthEvent, h: RequestHeaders, dist: DistanceFn, now: int): (Store, Response)
  {
    if !Truthy(ev.apiKey) || !Truthy(ev.sessionId) then (m, MissingFields)
    else
      var o := OutcomeOf(m, ev, h, dist, now);
      (o.store, Logged(|AlertsOf(o)|, AlertsOf(o), ExecutionIp(h)))
  }

  /** `handler`, without the transport, logging and webhook calls. */
  method Handle(store: KeyStore, ev: AuthEvent, headers: RequestHeaders, dist: DistanceFn, now: int)
    returns (response: Response)
    modifies store
    ensures (store.data, response) == Decide(old(store.data), ev, headers, dist, now)
  {
    var executionIP := ExecutionIp(headers);
    if !Truthy(ev.apiKey) || !Truthy(ev.sessionId) {
      return MissingFields;
    }
    var ipAddress := OrElse(ev.ipAddress, executionIP);
    store.CleanupOldData(now);
    var location := None;
    if NumberTruthy(ev.latitude) && NumberTruthy(ev.longitude) {
      location := Some(Location(ev.latitude.value, ev.longitude.value, ipAddress));
    }
    var alerts := RunAndCollect(store, ev.apiKey.value, ev.sessionId.value, ipAddress, location, dist, now);
    response := Logged(|alerts|, alerts, executionIP);
  }

  /** The three detectors in their fixed order, each alert pushed as soon as its detector
      fires; the travel detector runs only when the event gave a location (the handler
      tests the coordinates, which no detector changes). */
  method RunAndCollect(store: KeyStore, apiKey: string, sessionId: string, ipAddress: string,
                       location: Option<Location>, dist: DistanceFn, now: int)
    returns (alerts: seq<AuthAlert>)
    modifies store
    ensures store.data == RunDetectors(old(store.data), apiKey, sessionId, ipAddress, location, dist, now).store
    ensures alerts == AlertsOf(RunDetectors(old(store.data), apiKey, sessionId, ipAddress, location, dist, now))
  {
    alerts := [];
    var multiIPResult := store.DetectMultipleIPs(apiKey, ipAddress, now);
    if multiIPResult.Detected() {
      alerts := alerts + [AuthAlert(MultipleIps, Warning, multiIPResult)];
    }
    assert alerts == AlertFor(MultipleIps, multiIPResult);
    var concurrentResult := store.DetectConcurrentSessions(apiKey, sessionId, now);
    if concurrentResult.Detected() {
      alerts := alerts + [AuthAlert(ConcurrentSessions, Alert, concurrentResult)];
    }
    assert alerts == AlertFor(MultipleIps, multiIPResult) + AlertFor(ConcurrentSessions, concurrentResult);
    ghost var before, m2 := alerts, store.data;
    var travelResult := NotDetected;
    if location.Some? {
      travelResult := store.DetectImpossibleTravel(apiKey, location.value, dist, now);
      if travelResult.Detected() {
        alerts := alerts + [AuthAlert(ImpossibleTravel, Critical, travelResult)];
      }
    }
    assert alerts == before + AlertFor(ImpossibleTravel, travelResult);
    assert (store.data, travelResult)
        == if location.Some? then ImpossibleTravelStep(m2, apiKey, location.value, dist, now) else (m2, NotDetected);
  }

  // ------------------------------------------------------------ properties

  /** An event without a truthy `apiKey` or `sessionId` is rejected with status 400
      before cleanup or any detector runs, so the store is left exactly as it was. */
  lemma MissingFieldsLeaveStoreUnchanged(m: Store, ev: AuthEvent, h: RequestHeaders, dist: DistanceFn, now: int)
    ensures Decide(m, ev, h, dist, now).1.MissingFields? <==> !Truthy(ev.apiKey) || !Truthy(ev.sessionId)
    ensures Decide(m, ev, h, dist, now).1.MissingFields? ==> Decide(m, ev, h, dist, now).0 == m
  {
  }

  /** Alerts come in detector order, so each type appears at most once, and each carries
      its type's fixed severity and a detected payload. */
  lemma AlertsOfOrdered(o: Outcome)
    ensures |AlertsOf(o)| <= 3
    ensures forall i, j :: 0 <= i < j < |AlertsOf(o)| ==>
      Rank(AlertsOf(o)[i].alertType) < Rank(AlertsOf(o)[j].alertType)
    ensures forall a :: a in AlertsOf(o) ==> a.severity == SeverityOf(a.alertType) && a.data.Detected()
  {
    var a1, a2, a3 := AlertFor(MultipleIps, o.multi), AlertFor(ConcurrentSessions, o.concurrent),
                      AlertFor(ImpossibleTravel, o.travel);
    var x1, x2, x3 := AuthAlert(MultipleIps, Warning, o.multi), AuthAlert(ConcurrentSessions, Alert, o.concurrent),
                      AuthAlert(ImpossibleTravel, Critical, o.travel);
    if o.multi.Detected() && o.concurrent.Detected() && o.travel.Detected() {
      assert AlertsOf(o) == [x1, x2, x3];
    } else if o.multi.Detected() && o.concurrent.Detected() {
      assert AlertsOf(o) == [x1, x2];
    } else if o.multi.Detected() && o.travel.Detected() {
      assert AlertsOf(o) == [x1, x3];
    } else if o.concurrent.Detected() && o.travel.Detected() {
      assert AlertsOf(o) == [x2, x3];
    } else {
      assert |AlertsOf(o)| <= 1;
    }
  }

  /** Each alert carries the payload of its own detector's kind, and an alert type is
      raised exactly when its detector fired. */
  lemma AlertsOfMatchDetections(o: Outcome)
    requires o.multi.NotDetected? || o.multi.MultipleIpsFound?
    requires o.concurrent.NotDetected? || o.concurrent.ConcurrentSessionsFound?
    requires o.travel.NotDetected? || o.travel.ImpossibleTravelFound?
    ensures forall a :: a in AlertsOf(o) ==>
      && (a.alertType == MultipleIps <==> a.data.MultipleIpsFound?)
      && (a.alertType == ConcurrentSessions <==> a.data.ConcurrentSessionsFound?)
      && (a.alertType == ImpossibleTravel <==> a.data.ImpossibleTravelFound?)
    ensures forall a :: a in AlertsOf(o) ==>
      a.data == match a.alertType
                case MultipleIps => o.multi
                case ConcurrentSessions => o.concurrent
                case ImpossibleTravel => o.travel
    ensures MultipleIps in RaisedTypes(AlertsOf(o)) <==> o.multi.Detected()
    ensures ConcurrentSessions in RaisedTypes(AlertsOf(o)) <==> o.concurrent.Detected()
    ensures ImpossibleTravel in RaisedTypes(AlertsOf(o)) <==> o.travel.Detected()
  {
    var a1, a2, a3 := AlertFor(MultipleIps, o.multi), AlertFor(ConcurrentSessions, o.concurrent),
                      AlertFor(ImpossibleTravel, o.travel);
    assert forall a :: a in AlertsOf(o) <==> a in a1 || a in a2 || a in a3;
  }

  /** The detectors' results each have their own kind. */
  lemma OutcomeKinds(m: Store, key: string, sessionId: string, ip: string, location: Option<Location>,
                     dist: DistanceFn, now: int)
    ensures var o := RunDetectors(m, key, sessionId, ip, location, dist, now);
      && (o.multi.NotDetected? || o.multi.MultipleIpsFound?)
      && (o.concurrent.NotDetected? || o.concurrent.ConcurrentSessionsFound?)
      && (o.travel.NotDetected? || o.travel.ImpossibleTravelFound?)
      && (location.None? ==> !o.travel.Detected())
  {
  }

  /** The store after a valid event is the detectors' store after cleanup. */
  lemma ValidEventStore(m: Store, ev: AuthEvent, h: RequestHeaders, dist: DistanceFn, now: int)
    requires Truthy(ev.apiKey) && Truthy(ev.sessionId)
    ensures Decide(m, ev, h, dist, now).0 == OutcomeOf(m, ev, h, dist, now).store
  {
  }

  /** The detectors append the address to the key's IP history, record the session, and
      leave every other key alone. */
  lemma RunDetectorsRecords(m: Store, key: string, sessionId: string, ip: string, location: Option<Location>,
                            dist: DistanceFn, now: int)
    ensures var m' := RunDetectors(m, key, sessionId, ip, location, dist, now).store;
      && m'.Keys == m.Keys + {key}
      && m'[key].ipHistory == RecordOf(m, key).ipHistory + [IpEntry(ip, now)]
      && sessionId in m'[key].sessions
      && (forall k :: k in m && k != key ==> m'[k] == m[k])
  {
    var s1 := MultipleIpsStep(m, key, ip, now);
    var s2 := ConcurrentSessionsStep(s1.0, key, sessionId, now);
    assert s2.0[key].ipHistory == RecordOf(m, key).ipHistory + [IpEntry(ip, now)];
    assert sessionId in s2.0[key].sessions;
  }

  /** A valid event is answered with status 200: the alerts of the detectors' outcome,
      their number, and the execution IP. */
  lemma ValidEventLogged(m: Store, ev: AuthEvent, h: RequestHeaders, dist: DistanceFn, now: int)
    requires Truthy(ev.apiKey) && Truthy(ev.sessionId)
    ensures var r := Decide(m, ev, h, dist, now).1;
      && r.Logged?
      && r.alerts == AlertsOf(OutcomeOf(m, ev, h, dist, now))
      && r.alertCount == |r.alerts|
      && r.executionIP == ExecutionIp(h)
  {
  }

  /** The response to a valid event lists the alerts in detector order, each type at
      most once with its fixed severity, and `alertCount` is their number. */
  lemma AlertsInDetectionOrder(m: Store, ev: AuthEvent, h: RequestHeaders, dist: DistanceFn, now: int)
    requires Truthy(ev.apiKey) && Truthy(ev.sessionId)
    ensures var r := Decide(m, ev, h, dist, now).1;
      && r.Logged?
      && r.alertCount == |r.alerts| <= 3
      && (forall i, j :: 0 <= i < j < |r.alerts| ==> Rank(r.alerts[i].alertType) < Rank(r.alerts[j].alertType))
      && (forall a :: a in r.alerts ==> a.severity == SeverityOf(a.alertType) && a.data.Detected())
  {
    ValidEventLogged(m, ev, h, dist, now);
    AlertsOfOrdered(OutcomeOf(m, ev, h, dist, now));
  }

  /** A valid event creates or updates its key's record: the effective address, at
      `now`, ends the IP history, and the session id is among the sessions. Every other
      key only goes through cleanup. */
  lemma EventRecorded(m: Store, ev: AuthEvent, h: RequestHeaders, dist: DistanceFn, now: int)
    requires Truthy(ev.apiKey) && Truthy(ev.sessionId)
    ensures var m' := Decide(m, ev, h, dist, now).0;
      && m'.Keys == m.Keys + {ev.apiKey.value}
      && m'[ev.apiKey.value].ipHistory
         == RecordOf(PruneStore(m, now), ev.apiKey.value).ipHistory + [IpEntry(EffectiveIp(ev, h), now)]
      && ev.sessionId.value in m'[ev.apiKey.value].sessions
      && (forall k :: k in m && k != ev.apiKey.value ==> m'[k] == PruneRecord(m[k], now))
  {
    ValidEventStore(m, ev, h, dist, now);
    RunDetectorsRecords(PruneStore(m, now), ev.apiKey.value, ev.sessionId.value, EffectiveIp(ev, h),
                        TravelLocation(ev, h), dist, now);
  }

  /** The multiple-IP alert is raised exactly when the addresses left in the window,
      together with this event's, number more than MAX_IPS_PER_KEY; the
      concurrent-session alert exactly when the session ids, with this one, number more
      than MAX_CONCURRENT_SESSIONS. */
  lemma ThresholdAlerts(m: Store, ev: AuthEvent, h: RequestHeaders, dist: DistanceFn, now: int)
    requires Truthy(ev.apiKey) && Truthy(ev.sessionId)
    ensures var rec := RecordOf(PruneStore(m, now), ev.apiKey.value);
      var raised := RaisedTypes(Decide(m, ev, h, dist, now).1.alerts);
      && (MultipleIps in raised <==> |Elements(IpsOf(rec.ipHistory)) + {EffectiveIp(ev, h)}| > MAX_IPS_PER_KEY)
      && (ConcurrentSessions in raised
          <==> |rec.sessions.Keys + {ev.sessionId.value}| > MAX_CONCURRENT_SESSIONS)
  {
    var key, ip := ev.apiKey.value, EffectiveIp(ev, h);
    var m0 := PruneStore(m, now);
    RecordedIpsAfterStep(m0, key, ip, now);
    OutcomeKinds(m0, key, ev.sessionId.value, ip, TravelLocation(ev, h), dist, now);
    AlertsOfMatchDetections(OutcomeOf(m, ev, h, dist, now));
  }

  /** Without a location the travel detector does not run: its result is NotDetected and
      the key's location history passes through the other two detectors unchanged. */
  lemma NoLocationOutcome(m: Store, key: string, sessionId: string, ip: string, dist: DistanceFn, now: int)
    ensures var o := RunDetectors(m, key, sessionId, ip, None, dist, now);
      && o.travel == NotDetected
      && o.store[key].locationHistory == RecordOf(m, key).locationHistory
  {
    var s1 := MultipleIpsStep(m, key, ip, now);
    assert s1.0[key].locationHistory == RecordOf(m, key).locationHistory;
    var s2 := ConcurrentSessionsStep(s1.0, key, sessionId, now);
    assert s2.0[key].locationHistory == RecordOf(s1.0, key).locationHistory;
  }

  /** With a location, the travel result is the verdict on the key's last location as it
      stood before the event: detectors 1 and 2 do not touch the location history. */
  lemma RunDetectorsTravel(m: Store, key: string, sessionId: string, ip: string, location: Option<Location>,
                           dist: DistanceFn, now: int)
    ensures var o := RunDetectors(m, key, sessionId, ip, location, dist, now);
      var hist := RecordOf(m, key).locationHistory;
      o.travel.Detected() <==> location.Some? && TravelFlagged(hist, location.value, dist, now)
    ensures var o := RunDetectors(m, key, sessionId, ip, location, dist, now);
      var hist := RecordOf(m, key).locationHistory;
      o.travel.Detected() ==> o.travel.previousLocation == hist[|hist| - 1]
  {
    var s1 := MultipleIpsStep(m, key, ip, now);
    assert RecordOf(s1.0, key).locationHistory == RecordOf(m, key).locationHistory;
    var s2 := ConcurrentSessionsStep(s1.0, key, sessionId, now);
    assert RecordOf(s2.0, key).locationHistory == RecordOf(m, key).locationHistory;
  }

  /** For a valid event with truthy coordinates, the impossible-travel alert is raised
      exactly when the key's last location left by cleanup is less than a window old,
      more than SUSPICIOUS_DISTANCE_KM away and was left faster than 800 km/h. */
  lemma TravelAlert(m: Store, ev: AuthEvent, h: RequestHeaders, dist: DistanceFn, now: int)
    requires Truthy(ev.apiKey) && Truthy(ev.sessionId) && HasCoordinates(ev)
    ensures ImpossibleTravel in RaisedTypes(Decide(m, ev, h, dist, now).1.alerts)
        <==> TravelFlagged(RecordOf(PruneStore(m, now), ev.apiKey.value).locationHistory,
                           TravelLocation(ev, h).value, dist, now)
  {
    TravelAlertRaised(m, ev, h, dist, now);
    RunDetectorsTravel(PruneStore(m, now), ev.apiKey.value, ev.sessionId.value, EffectiveIp(ev, h),
                       TravelLocation(ev, h), dist, now);
  }

  /** The impossible-travel alert of a valid event is raised exactly when the travel
      detector fired. */
  lemma TravelAlertRaised(m: Store, ev: AuthEvent, h: RequestHeaders, dist: DistanceFn, now: int)
    requires Truthy(ev.apiKey) && Truthy(ev.sessionId)
    ensures ImpossibleTravel in RaisedTypes(Decide(m, ev, h, dist, now).1.alerts)
        <==> OutcomeOf(m, ev, h, dist, now).travel.Detected()
  {
    ValidEventLogged(m, ev, h, dist, now);
    OutcomeKinds(PruneStore(m, now), ev.apiKey.value, ev.sessionId.value, EffectiveIp(ev, h),
                 TravelLocation(ev, h), dist, now);
    AlertsOfMatchDetections(OutcomeOf(m, ev, h, dist, now));
  }

  /** Without truthy coordinates (a latitude or longitude of 0 included) the travel
      detector does not run: no travel alert, and the key's location history is only
      pruned. */
  lemma NoCoordinatesNoTravelDetection(m: Store, ev: AuthEvent, h: RequestHeaders, dist: DistanceFn, now: int)
    requires Truthy(ev.apiKey) && Truthy(ev.sessionId) && !HasCoordinates(ev)
    ensures ImpossibleTravel !in RaisedTypes(Decide(m, ev, h, dist, now).1.alerts)
    ensures ev.apiKey.value in Decide(m, ev, h, dist, now).0
    ensures Decide(m, ev, h, dist, now).0[ev.apiKey.value].locationHistory
         == RecordOf(PruneStore(m, now), ev.apiKey.value).locationHistory
  {
    var key := ev.apiKey.value;
    var o := OutcomeOf(m, ev, h, dist, now);
    assert TravelLocation(ev, h) == None;
    ValidEventStore(m, ev, h, dist, now);
    NoLocationOutcome(PruneStore(m, now), key, ev.sessionId.value, EffectiveIp(ev, h), dist, now);
    OutcomeKinds(PruneStore(m, now), key, ev.sessionId.value, EffectiveIp(ev, h), None, dist, now);
    AlertsOfMatchDetections(o);
  }

  /** For a key with empty histories, the detectors record this event's address as the
      only one, flag neither multiple addresses nor travel, and record the location, when
      there is one, as the only one. */
  lemma FreshKeyOutcome(m: Store, key: string, sessionId: string, ip: string, location: Option<Location>,
                        dist: DistanceFn, now: int)
    requires RecordOf(m, key).ipHistory == [] && RecordOf(m, key).locationHistory == []
    ensures var o := RunDetectors(m, key, sessionId, ip, location, dist, now);
      && o.store[key].ipHistory == [IpEntry(ip, now)]
      && !o.multi.Detected()
      && !o.travel.Detected()
      && (location.Some? ==> o.store[key].locationHistory == [LocationAt(location.value, now)])
  {
    var s1 := MultipleIpsStep(m, key, ip, now);
    RecordedIpsAfterStep(m, key, ip, now);
    assert Elements(IpsOf(RecordOf(m, key).ipHistory)) == {};
    var s2 := ConcurrentSessionsStep(s1.0, key, sessionId, now);
    assert RecordOf(s2.0, key).locationHistory == [];
  }

  /** A key whose every sighting lies a window or more in the past starts over: its IP
      history holds just this event, neither the multiple-IP nor the travel alert is
      raised, and a location given with the event becomes the only one recorded. */
  lemma StaleKeyStartsOver(m: Store, ev: AuthEvent, h: RequestHeaders, dist: DistanceFn, now: int)
    requires Truthy(ev.apiKey) && Truthy(ev.sessionId)
    requires forall e :: e in RecordOf(m, ev.apiKey.value).ipHistory ==> e.timestamp <= Cutoff(now)
    requires forall e :: e in RecordOf(m, ev.apiKey.value).locationHistory ==> e.timestamp <= Cutoff(now)
    ensures var (m', r) := Decide(m, ev, h, dist, now);
      && m'[ev.apiKey.value].ipHistory == [IpEntry(EffectiveIp(ev, h), now)]
      && MultipleIps !in RaisedTypes(r.alerts)
      && ImpossibleTravel !in RaisedTypes(r.alerts)
      && (HasCoordinates(ev) ==> m'[ev.apiKey.value].locationHistory == [LocationAt(TravelLocation(ev, h).value, now)])
  {
    var key := ev.apiKey.value;
    var o := OutcomeOf(m, ev, h, dist, now);
    StaleHistoryForgotten(m, key, now);
    ValidEventStore(m, ev, h, dist, now);
    FreshKeyOutcome(PruneStore(m, now), key, ev.sessionId.value, EffectiveIp(ev, h), TravelLocation(ev, h), dist, now);
    OutcomeKinds(PruneStore(m, now), key, ev.sessionId.value, EffectiveIp(ev, h), TravelLocation(ev, h), dist, now);
    AlertsOfMatchDetections(o);
  }

  /** Processing an event keeps every history in arrival order with nothing stamped
      after `now`. */
  lemma DecideKeepsChronology(m: Store, ev: AuthEvent, h: RequestHeaders, dist: DistanceFn, now: int)
    requires Chronological(m, now)
    ensures Chronological(Decide(m, ev, h, dist, now).0, now)
  {
    if Truthy(ev.apiKey) && Truthy(ev.sessionId) {
      var key, ip := ev.apiKey.value, EffectiveIp(ev, h);
      var m0 := PruneStore(m, now);
      PruneStoreChronological(m, now);
      MultipleIpsStepChronological(m0, key, ip, now);
      var (m1, multi) := MultipleIpsStep(m0, key, ip, now);
      ConcurrentSessionsStepChronological(m1, key, ev.sessionId.value, now);
      var (m2, concurrent) := ConcurrentSessionsStep(m1, key, ev.sessionId.value, now);
      if HasCoordinates(ev) {
        ImpossibleTravelStepChronological(m2, key, TravelLocation(ev, h).value, dist, now);
      }
    }
  }

  /** Two events in time order keep the store chronological: the first at `t1`, the
      second at a later `t2`. */
  lemma TwoEventsKeepChronology(m: Store, ev1: AuthEvent, h1: RequestHeaders, t1: int,
                                ev2: AuthEvent, h2: RequestHeaders, t2: int, dist: DistanceFn)
    requires Chronological(m, t1) && t1 <= t2
    ensures Chronological(Decide(Decide(m, ev1, h1, dist, t1).0, ev2, h2, dist, t2).0, t2)
  {
    var m1 := Decide(m, ev1, h1, dist, t1).0;
    DecideKeepsChronology(m, ev1, h1, dist, t1);
    ChronologicalLater(m1, t1, t2);
    DecideKeepsChronology(m1, ev2, h2, dist, t2);
  }
}
