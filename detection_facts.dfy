/** Properties of the key-state steps: where each detector's threshold lies, how the
    speed test relates to `distance / hours`, what cleanup forgets, and the
    chronological order of the histories that every step keeps. */
module DetectionFacts {
  import opened Sequences
  import opened KeyState

  // ---------------------------------------------------------------- cleanup

  /** Cleaning up twice at the same instant changes nothing the first pass did not. */
  lemma PruneStoreIdempotent(m: Store, now: int)
    ensures PruneStore(PruneStore(m, now), now) == PruneStore(m, now)
  {
    var once := PruneStore(m, now);
    forall k | k in once ensures PruneRecord(once[k], now) == once[k] {
      KeepNewerIdempotent(m[k].ipHistory, IpStamp, Cutoff(now));
      KeepNewerIdempotent(m[k].locationHistory, LocationStamp, Cutoff(now));
    }
  }

  /** Once the window has elapsed since every sighting of a key, cleanup empties both of
      its histories (its sessions stay). */
  lemma StaleHistoryForgotten(m: Store, key: string, now: int)
    requires forall e :: e in RecordOf(m, key).ipHistory ==> e.timestamp <= Cutoff(now)
    requires forall e :: e in RecordOf(m, key).locationHistory ==> e.timestamp <= Cutoff(now)
    ensures RecordOf(PruneStore(m, now), key).ipHistory == []
    ensures RecordOf(PruneStore(m, now), key).locationHistory == []
    ensures RecordOf(PruneStore(m, now), key).sessions == RecordOf(m, key).sessions
  {
    KeepNewerAllStale(RecordOf(m, key).ipHistory, IpStamp, Cutoff(now));
    KeepNewerAllStale(RecordOf(m, key).locationHistory, LocationStamp, Cutoff(now));
  }

  // ---------------------------------------------------------- multiple IPs

  lemma IpsOfAppend(h: seq<IpEntry>, e: IpEntry)
    ensures IpsOf(h + [e]) == IpsOf(h) + [e.ip]
  {
    assert forall i :: 0 <= i < |h| ==> (h + [e])[i] == h[i];
  }

  /** The addresses the multiple-IP detector counts after recording `ip` are those it
      counted before, plus `ip`. */
  lemma RecordedIpsAfterStep(m: Store, key: string, ip: string, now: int)
    ensures Elements(IpsOf(MultipleIpsStep(m, key, ip, now).0[key].ipHistory))
         == Elements(IpsOf(RecordOf(m, key).ipHistory)) + {ip}
  {
    IpsOfAppend(RecordOf(m, key).ipHistory, IpEntry(ip, now));
  }

  /** Seeing an address the key was already seen from within the window neither adds a
      distinct address nor changes the verdict that address count already gave. */
  lemma RepeatedIpKeepsCount(m: Store, key: string, ip: string, now: int)
    requires ip in IpsOf(RecordOf(m, key).ipHistory)
    ensures |Elements(IpsOf(MultipleIpsStep(m, key, ip, now).0[key].ipHistory))|
         == |Elements(IpsOf(RecordOf(m, key).ipHistory))|
    ensures MultipleIpsStep(m, key, ip, now).1.Detected()
        <==> |Elements(IpsOf(RecordOf(m, key).ipHistory))| > MAX_IPS_PER_KEY
  {
    RecordedIpsAfterStep(m, key, ip, now);
    assert Elements(IpsOf(RecordOf(m, key).ipHistory)) + {ip} == Elements(IpsOf(RecordOf(m, key).ipHistory));
  }

  /** A new address adds exactly one distinct address, so it is flagged exactly when
      the key had already been seen from MAX_IPS_PER_KEY or more addresses: the
      (MAX_IPS_PER_KEY + 1)-th distinct address is the first one flagged. */
  lemma NewIpAddsOne(m: Store, key: string, ip: string, now: int)
    requires ip !in IpsOf(RecordOf(m, key).ipHistory)
    ensures |Elements(IpsOf(MultipleIpsStep(m, key, ip, now).0[key].ipHistory))|
         == |Elements(IpsOf(RecordOf(m, key).ipHistory))| + 1
    ensures MultipleIpsStep(m, key, ip, now).1.Detected()
        <==> |Elements(IpsOf(RecordOf(m, key).ipHistory))| >= MAX_IPS_PER_KEY
  {
    RecordedIpsAfterStep(m, key, ip, now);
    assert ip !in Elements(IpsOf(RecordOf(m, key).ipHistory));
  }

  // ---------------------------------------------------- concurrent sessions

  /** Re-recording a session id keeps the set of ids, so it is flagged only when the
      key was already over the limit. */
  lemma RepeatedSessionKeepsCount(m: Store, key: string, sessionId: string, now: int)
    requires sessionId in RecordOf(m, key).sessions
    ensures ConcurrentSessionsStep(m, key, sessionId, now).0[key].sessions.Keys
         == RecordOf(m, key).sessions.Keys
    ensures ConcurrentSessionsStep(m, key, sessionId, now).1.Detected()
        <==> |RecordOf(m, key).sessions.Keys| > MAX_CONCURRENT_SESSIONS
  {
    assert RecordOf(m, key).sessions.Keys + {sessionId} == RecordOf(m, key).sessions.Keys;
  }

  /** A new session id adds one session, so the (MAX_CONCURRENT_SESSIONS + 1)-th
      distinct id is the first one flagged. */
  lemma NewSessionAddsOne(m: Store, key: string, sessionId: string, now: int)
    requires sessionId !in RecordOf(m, key).sessions
    ensures |ConcurrentSessionsStep(m, key, sessionId, now).0[key].sessions.Keys|
         == |RecordOf(m, key).sessions.Keys| + 1
    ensures ConcurrentSessionsStep(m, key, sessionId, now).1.Detected()
        <==> |RecordOf(m, key).sessions.Keys| >= MAX_CONCURRENT_SESSIONS
  {
    assert sessionId !in RecordOf(m, key).sessions.Keys;
  }

  // ------------------------------------------------------ impossible travel

  /** For a non-zero time, FasterThan is the comparison `distance / hours > limit` with
      `hours = (elapsedMs / 1000) / 3600`, as api/auth-log.js:109-123 computes it. */
  lemma FasterThanIsSpeedComparison(distanceKm: real, elapsedMs: int, limitKmh: real)
    requires elapsedMs != 0
    ensures var hours := (elapsedMs as real / 1000.0) / 3600.0;
      FasterThan(distanceKm, elapsedMs, limitKmh) <==> distanceKm / hours > limitKmh
  {
    var hours := (elapsedMs as real / 1000.0) / 3600.0;
    var speed := distanceKm / hours;
    assert hours * 3600000.0 == elapsedMs as real;
    assert speed * hours == distanceKm;
    if elapsedMs > 0 {
      assert hours > 0.0;
      assert speed > limitKmh <==> speed * hours > limitKmh * hours;
    } else {
      assert hours < 0.0;
      assert speed > limitKmh <==> speed * hours < limitKmh * hours;
    }
  }

  /** Sightings at the same instant are flagged whenever they are far enough apart
      (the speed is +Infinity). */
  lemma SameInstantFarHopFlagged(last: LocationEntry, current: Location, distanceKm: real)
    requires distanceKm > SUSPICIOUS_DISTANCE_KM
    ensures TravelVerdict(last, current, distanceKm, last.timestamp).Detected()
  {
  }

  /** A hop of at most SUSPICIOUS_DISTANCE_KM is never flagged, however fast. */
  lemma ShortHopNeverFlagged(last: LocationEntry, current: Location, distanceKm: real, now: int)
    requires distanceKm <= SUSPICIOUS_DISTANCE_KM
    ensures !TravelVerdict(last, current, distanceKm, now).Detected()
  {
  }

  /** Sightings a whole window or more apart are never compared: 1113 km covered in
      exactly 3600 s is not flagged, because api/auth-log.js:111 requires the time to be
      strictly below the window. */
  lemma WindowApartNeverFlagged(last: LocationEntry, current: Location, distanceKm: real, now: int)
    requires now - last.timestamp >= WINDOW_MS
    ensures !TravelVerdict(last, current, distanceKm, now).Detected()
  {
  }

  /** If the clock went backwards the quotient has the wrong sign and nothing is flagged. */
  lemma ClockSkewNeverFlagged(last: LocationEntry, current: Location, distanceKm: real, now: int)
    requires now < last.timestamp && distanceKm >= 0.0
    ensures !TravelVerdict(last, current, distanceKm, now).Detected()
  {
    assert IMPOSSIBLE_SPEED_KMH * (now - last.timestamp) as real < 0.0;
  }

  /** With no location recorded for the key, the travel detector records the new one and
      flags nothing. */
  lemma FirstLocationRecorded(m: Store, key: string, current: Location, dist: DistanceFn, now: int)
    requires RecordOf(m, key).locationHistory == []
    ensures !ImpossibleTravelStep(m, key, current, dist, now).1.Detected()
    ensures ImpossibleTravelStep(m, key, current, dist, now).0[key].locationHistory == [LocationAt(current, now)]
  {
  }

  // ------------------------------------------------------ chronological order

  /** A key's histories are in arrival order and none lies after `now`. */
  predicate ChronologicalRecord(rec: KeyRecord, now: int)
  {
    && NonDecreasing(rec.ipHistory, IpStamp)
    && NonDecreasing(rec.locationHistory, LocationStamp)
    && (forall e :: e in rec.ipHistory ==> e.timestamp <= now)
    && (forall e :: e in rec.locationHistory ==> e.timestamp <= now)
  }

  predicate Chronological(m: Store, now: int)
  {
    forall k :: k in m ==> ChronologicalRecord(m[k], now)
  }

  lemma ChronologicalLater(m: Store, now: int, later: int)
    requires Chronological(m, now) && now <= later
    ensures Chronological(m, later)
  {
  }

  /** Appending an entry stamped `now` to a history that lies at or before `now`. */
  lemma AppendNowNonDecreasing<T>(h: seq<T>, e: T, stamp: T -> int, now: int)
    requires NonDecreasing(h, stamp) && stamp(e) == now
    requires forall x :: x in h ==> stamp(x) <= now
    ensures NonDecreasing(h + [e], stamp)
  {
    forall i, j | 0 <= i < j < |h + [e]| ensures stamp((h + [e])[i]) <= stamp((h + [e])[j]) {
      assert (h + [e])[i] == h[i];
      if j < |h| {
        assert (h + [e])[j] == h[j];
      } else {
        assert h[i] in h;
      }
    }
  }

  lemma PruneStoreChronological(m: Store, now: int)
    requires Chronological(m, now)
    ensures Chronological(PruneStore(m, now), now)
  {
    forall k | k in m ensures ChronologicalRecord(PruneStore(m, now)[k], now) {
      KeepNewerNonDecreasing(m[k].ipHistory, IpStamp, Cutoff(now));
      KeepNewerNonDecreasing(m[k].locationHistory, LocationStamp, Cutoff(now));
    }
  }

  lemma MultipleIpsStepChronological(m: Store, key: string, ip: string, now: int)
    requires Chronological(m, now)
    ensures Chronological(MultipleIpsStep(m, key, ip, now).0, now)
  {
    var rec := RecordOf(m, key);
    AppendNowNonDecreasing(rec.ipHistory, IpEntry(ip, now), IpStamp, now);
  }

  lemma ConcurrentSessionsStepChronological(m: Store, key: string, sessionId: string, now: int)
    requires Chronological(m, now)
    ensures Chronological(ConcurrentSessionsStep(m, key, sessionId, now).0, now)
  {
  }

  lemma ImpossibleTravelStepChronological(m: Store, key: string, current: Location, dist: DistanceFn, now: int)
    requires Chronological(m, now)
    ensures Chronological(ImpossibleTravelStep(m, key, current, dist, now).0, now)
  {
    var rec := RecordOf(m, key);
    AppendNowNonDecreasing(rec.locationHistory, LocationAt(current, now), LocationStamp, now);
  }
}
