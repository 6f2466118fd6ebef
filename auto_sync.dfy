/** The throttle in front of the web client's automatic refresh: two refs, the in-flight flag
    and the time of the last start, guard `runAutoSyncRefresh`. The clock reading and the
    session, loading and refresh themselves are inputs; the refresh runs between `Start` and
    `Finish`, during which other attempts may come in. */
module AutoSync {

  const AUTO_SYNC_MIN_INTERVAL_MS := 5000

  /** Whether a refresh may start now: a session is open, no refresh is in flight, nothing is
      loading and the last start is at least the minimum interval ago. */
  predicate MayStart(hasSession: bool, inFlight: bool, isLoading: bool, lastAt: int, now: int) {
    hasSession && !inFlight && !isLoading && now - lastAt >= AUTO_SYNC_MIN_INTERVAL_MS
  }

  /** `autoSyncInFlightRef` and `lastAutoSyncAtRef`. */
  class AutoSyncGuard {
    var inFlight: bool
    var lastAt: int

    constructor ()
      ensures !inFlight && lastAt == 0
    {
      inFlight := false;
      lastAt := 0;
    }

    /** The guard of `runAutoSyncRefresh`: when a refresh may start it marks one in flight and
        records `now`; otherwise it changes nothing. */
    method Start(hasSession: bool, isLoading: bool, now: int) returns (started: bool)
      modifies this
      ensures started <==> MayStart(hasSession, old(inFlight), isLoading, old(lastAt), now)
      ensures started ==> inFlight && lastAt == now
      ensures !started ==> inFlight == old(inFlight) && lastAt == old(lastAt)
    {
      if !hasSession {
        return false;
      }
      if inFlight {
        return false;
      }
      if isLoading {
        return false;
      }
      if now - lastAt < AUTO_SYNC_MIN_INTERVAL_MS {
        return false;
      }
      inFlight := true;
      lastAt := now;
      started := true;
    }

    /** The `finally` after the refresh: the flag drops, the start time stays. */
    method Finish()
      modifies this
      ensures !inFlight && lastAt == old(lastAt)
    {
      inFlight := false;
    }

    /** The effect run when the session goes away: both refs return to their initial values. */
    method ResetSession()
      modifies this
      ensures !inFlight && lastAt == 0
    {
      inFlight := false;
      lastAt := 0;
    }
  }

  /** The start times of a series of attempts at the given clock readings, each finished before
      the next comes in, with a session and nothing loading, from last start `lastAt`. */
  function Starts(lastAt: int, times: seq<int>): seq<int>
    decreases |times|
  {
    if times == [] then []
    else if MayStart(true, false, false, lastAt, times[0]) then [times[0]] + Starts(times[0], times[1..])
    else Starts(lastAt, times[1..])
  }

  /** Every start is an attempt, the first at least the interval after `lastAt`, and two
      consecutive starts at least the interval apart. */
  lemma {:induction false} StartsAreSpaced(lastAt: int, times: seq<int>)
    ensures forall t :: t in Starts(lastAt, times) ==> t in times
    ensures Starts(lastAt, times) != [] ==> Starts(lastAt, times)[0] >= lastAt + AUTO_SYNC_MIN_INTERVAL_MS
    ensures forall i :: 0 <= i < |Starts(lastAt, times)| - 1 ==>
      Starts(lastAt, times)[i + 1] >= Starts(lastAt, times)[i] + AUTO_SYNC_MIN_INTERVAL_MS
    decreases |times|
  {
    if times != [] {
      if MayStart(true, false, false, lastAt, times[0]) {
        StartsAreSpaced(times[0], times[1..]);
        var rest := Starts(times[0], times[1..]);
        assert Starts(lastAt, times) == [times[0]] + rest;
      } else {
        StartsAreSpaced(lastAt, times[1..]);
      }
    }
  }

  /** Attempts with readings that never move past the interval after the last start start
      nothing. */
  lemma {:induction false} NoStartWithinInterval(lastAt: int, times: seq<int>)
    requires forall i :: 0 <= i < |times| ==> times[i] < lastAt + AUTO_SYNC_MIN_INTERVAL_MS
    ensures Starts(lastAt, times) == []
    decreases |times|
  {
    if times != [] {
      NoStartWithinInterval(lastAt, times[1..]);
    }
  }
}
