/** The module-level `keyData` of api/auth-log.js as an object, with the four functions
    that update it in place. Each method is proved to perform the corresponding step of
    module KeyState; the properties of those steps are proved in DetectionFacts. */
module Detectors {
  import opened Sequences
  import opened KeyState

  class KeyStore {
    /** API key to record; records are created lazily and never deleted. */
    var data: Store

    /** The store at process start: empty. */
    constructor ()
      ensures data == map[]
    {
      data := map[];
    }

    /** `cleanupOldData`: visits every key and replaces both of its histories by the
        entries newer than `now - WINDOW_MS`. */
    method CleanupOldData(now: int)
      modifies this
      ensures data == PruneStore(old(data), now)
    {
      var cutoff := Cutoff(now);
      var pending := data.Keys;
      while pending != {}
        invariant data.Keys == old(data).Keys && pending <= data.Keys
        invariant forall k :: k in pending ==> data[k] == old(data)[k]
        invariant forall k :: k in data && k !in pending ==> data[k] == PruneRecord(old(data)[k], now)
        decreases pending
      {
        var key :| key in pending;
        var rec := data[key];
        data := data[key := rec.(ipHistory := KeepNewer(rec.ipHistory, IpStamp, cutoff),
                                 locationHistory := KeepNewer(rec.locationHistory, LocationStamp, cutoff))];
        pending := pending - {key};
      }
      assert data == PruneStore(old(data), now);
    }

    /** `detectMultipleIPs` */
    method DetectMultipleIPs(apiKey: string, ipAddress: string, now: int) returns (result: Detection)
      modifies this
      ensures (data, result) == MultipleIpsStep(old(data), apiKey, ipAddress, now)
    {
      if apiKey !in data {
        data := data[apiKey := EMPTY_RECORD];
      }
      var rec := data[apiKey];
      assert rec == RecordOf(old(data), apiKey);
      data := data[apiKey := rec.(ipHistory := rec.ipHistory + [IpEntry(ipAddress, now)])];
      assert data == old(data)[apiKey := rec.(ipHistory := rec.ipHistory + [IpEntry(ipAddress, now)])];
      var uniqueIPs := Distinct(IpsOf(data[apiKey].ipHistory));
      if |uniqueIPs| > MAX_IPS_PER_KEY {
        result := MultipleIpsFound(|uniqueIPs|, uniqueIPs, MAX_IPS_PER_KEY);
      } else {
        result := NotDetected;
      }
    }

    /** `detectConcurrentSessions` */
    method DetectConcurrentSessions(apiKey: string, sessionId: string, now: int) returns (result: Detection)
      modifies this
      ensures (data, result) == ConcurrentSessionsStep(old(data), apiKey, sessionId, now)
    {
      if apiKey !in data {
        data := data[apiKey := EMPTY_RECORD];
      }
      var rec := data[apiKey];
      assert rec == RecordOf(old(data), apiKey);
      var sessions := rec.sessions[sessionId := Session(now)];
      data := data[apiKey := rec.(sessions := sessions)];
      assert data == old(data)[apiKey := rec.(sessions := sessions)];
      var activeCount := |data[apiKey].sessions|;
      if activeCount > MAX_CONCURRENT_SESSIONS {
        result := ConcurrentSessionsFound(activeCount, MAX_CONCURRENT_SESSIONS, data[apiKey].sessions.Keys);
      } else {
        result := NotDetected;
      }
    }

    /** `detectImpossibleTravel`: on detection it returns before recording the location. */
    method DetectImpossibleTravel(apiKey: string, current: Location, dist: DistanceFn, now: int)
      returns (result: Detection)
      modifies this
      ensures (data, result) == ImpossibleTravelStep(old(data), apiKey, current, dist, now)
    {
      if apiKey !in data {
        data := data[apiKey := EMPTY_RECORD];
      }
      assert data[apiKey] == RecordOf(old(data), apiKey);
      assert data == old(data)[apiKey := RecordOf(old(data), apiKey)];
      var history := data[apiKey].locationHistory;
      if |history| > 0 {
        var last := history[|history| - 1];
        var elapsedMs := now - last.timestamp;
        if elapsedMs < WINDOW_MS {
          var distance := dist(last.latitude, last.longitude, current.latitude, current.longitude);
          if distance > SUSPICIOUS_DISTANCE_KM && FasterThan(distance, elapsedMs, IMPOSSIBLE_SPEED_KMH) {
            return ImpossibleTravelFound(last, current, distance, elapsedMs);
          }
        }
      }
      var rec := data[apiKey];
      assert rec == RecordOf(old(data), apiKey);
      assert !ImpossibleTravelStep(old(data), apiKey, current, dist, now).1.Detected();
      data := data[apiKey := rec.(locationHistory := rec.locationHistory + [LocationAt(current, now)])];
      assert data == ImpossibleTravelStep(old(data), apiKey, current, dist, now).0;
      result := NotDetected;
    }
  }
}
