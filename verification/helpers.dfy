/**
 * The shared helpers of rideshare/utils/helpers.py: the two JSON response
 * envelopes, the nearest-driver search and the ride location update.
 *
 * The network calls the helpers make are parameters here: forward
 * geocoding is a function from the pickup text to an optional point, the
 * reverse-geocoding reply is an input, and the great-circle distance is a
 * function parameter with the argument order of `haversine`.
 */
module Helpers {
  import opened Wrappers
  import opened Choices
  import opened Profiles
  import opened Rides

  const HTTP_200_OK: int := 200
  const HTTP_201_CREATED: int := 201
  const HTTP_400_BAD_REQUEST: int := 400
  const HTTP_403_FORBIDDEN: int := 403
  const HTTP_404_NOT_FOUND: int := 404
  const HTTP_500_INTERNAL_SERVER_ERROR: int := 500

  /** A JSON document; `JData` holds a serialized model instance. */
  datatype Json<D> = JNull | JStr(s: string) | JObj(fields: map<string, Json<D>>) | JData(data: D)

  /** An HTTP response: status code and JSON body. */
  datatype Response<D> = Response(status: int, body: Json<D>)

  /** The `message` entry of a response body, when it has one. */
  function Message<D>(r: Response<D>): Option<string> {
    if r.body.JObj? && "message" in r.body.fields && r.body.fields["message"].JStr?
    then Some(r.body.fields["message"].s)
    else None
  }

  // ---------------------------------------------------------------------
  // Response envelopes
  // ---------------------------------------------------------------------

  /**
   * `success_response`: a body with `message` and `results`, where
   * `results` holds a `data` entry exactly when data is not None.
   */
  function SuccessResponse<D>(data: Json<D> := JNull, successMessage: string := "Success",
                              status: int := HTTP_200_OK): (r: Response<D>)
    ensures r.status == status
    ensures r.body.JObj? && r.body.fields.Keys == {"message", "results"}
    ensures Message(r) == Some(successMessage)
    ensures r.body.fields["results"].JObj?
    ensures "data" in r.body.fields["results"].fields <==> data != JNull
    ensures data != JNull ==> r.body.fields["results"].fields["data"] == data
    ensures r.body.fields["results"].fields.Keys <= {"data"}
  {
    var results := if data != JNull then map["data" := data] else map[];
    Response(status, JObj(map["message" := JStr(successMessage), "results" := JObj(results)]))
  }

  /**
   * `error_response`: a body that always has the three entries `message`,
   * `errors` and `exception_info`; the status defaults to 500.
   */
  function ErrorResponse<D>(errors: Json<D> := JObj(map[]), errorMessage: string := "error",
                            status: int := HTTP_500_INTERNAL_SERVER_ERROR,
                            exceptionInfo: Json<D> := JNull): (r: Response<D>)
    ensures r.status == status
    ensures r.body.JObj? && r.body.fields.Keys == {"message", "errors", "exception_info"}
    ensures Message(r) == Some(errorMessage)
    ensures r.body.fields["errors"] == errors && r.body.fields["exception_info"] == exceptionInfo
  {
    Response(status, JObj(map["message" := JStr(errorMessage), "errors" := errors,
                               "exception_info" := exceptionInfo]))
  }

  /** A client can tell the two envelopes apart by their keys, whatever their arguments. */
  lemma EnvelopesDistinguishable<D>(data: Json<D>, successMessage: string, status: int,
                                    errors: Json<D>, errorMessage: string, errorStatus: int,
                                    exceptionInfo: Json<D>)
    ensures var s := SuccessResponse(data, successMessage, status);
            "results" in s.body.fields && "errors" !in s.body.fields
    ensures var e := ErrorResponse(errors, errorMessage, errorStatus, exceptionInfo);
            "errors" in e.body.fields && "results" !in e.body.fields
    ensures SuccessResponse(data, successMessage, status) != ErrorResponse(errors, errorMessage, errorStatus, exceptionInfo)
  {
  }

  // ---------------------------------------------------------------------
  // Nearest driver
  // ---------------------------------------------------------------------

  datatype Point = Point(lat: real, lon: real)

  /** `haversine(lat1, lon1, lat2, lon2)`, in kilometres. */
  type Distance = (real, real, real, real) -> real

  /** `find_nearest_driver`'s default `radius_km`. */
  const DefaultRadiusKm: real := 5.0

  /** The candidate query: user_type "Driver" and both coordinates non-null. Soft-delete flags are not consulted. */
  predicate IsCandidate(p: Profile) {
    RoleIs(p.role, "Driver") && p.latitude.Some? && p.longitude.Some?
  }

  /** The candidate queryset, in the order the profiles are iterated. */
  function Candidates(profiles: seq<Profile>): (cs: seq<Profile>)
    ensures forall i :: 0 <= i < |cs| ==> IsCandidate(cs[i])
    ensures |cs| <= |profiles|
  {
    if profiles == [] then []
    else (if IsCandidate(profiles[0]) then [profiles[0]] else []) + Candidates(profiles[1..])
  }

  /** The positions among the profiles of the candidates, in order. */
  ghost function CandidatePositions(profiles: seq<Profile>): (idx: seq<nat>)
    ensures |idx| == |Candidates(profiles)|
  {
    if profiles == [] then []
    else
      var rest := CandidatePositions(profiles[1..]);
      (if IsCandidate(profiles[0]) then [0] else []) + seq(|rest|, k requires 0 <= k < |rest| => rest[k] + 1)
  }

  lemma {:induction false} PositionsPickCandidates(profiles: seq<Profile>)
    ensures forall n :: 0 <= n < |CandidatePositions(profiles)| ==>
              CandidatePositions(profiles)[n] < |profiles| &&
              Candidates(profiles)[n] == profiles[CandidatePositions(profiles)[n]]
  {
    if profiles != [] {
      var idx, rest := CandidatePositions(profiles), CandidatePositions(profiles[1..]);
      PositionsPickCandidates(profiles[1..]);
      var h := if IsCandidate(profiles[0]) then 1 else 0;
      assert Candidates(profiles) == (if IsCandidate(profiles[0]) then [profiles[0]] else []) + Candidates(profiles[1..]);
      forall n | h <= n < |idx|
        ensures idx[n] < |profiles| && Candidates(profiles)[n] == profiles[idx[n]]
      {
        assert idx[n] == rest[n - h] + 1;
        assert Candidates(profiles)[n] == Candidates(profiles[1..])[n - h];
      }
    }
  }

  lemma {:induction false} PositionsIncrease(profiles: seq<Profile>)
    ensures forall n, m :: 0 <= n < m < |CandidatePositions(profiles)| ==>
              CandidatePositions(profiles)[n] < CandidatePositions(profiles)[m]
  {
    if profiles != [] {
      var idx, rest := CandidatePositions(profiles), CandidatePositions(profiles[1..]);
      PositionsIncrease(profiles[1..]);
      var h := if IsCandidate(profiles[0]) then 1 else 0;
      forall n, m | 0 <= n < m < |idx|
        ensures idx[n] < idx[m]
      {
        assert idx[m] == rest[m - h] + 1;
        if h <= n {
          assert idx[n] == rest[n - h] + 1;
        }
      }
    }
  }

  lemma {:induction false} PositionsComplete(profiles: seq<Profile>)
    ensures forall i :: 0 <= i < |profiles| && IsCandidate(profiles[i]) ==> i in CandidatePositions(profiles)
  {
    if profiles != [] {
      var idx, rest := CandidatePositions(profiles), CandidatePositions(profiles[1..]);
      PositionsComplete(profiles[1..]);
      var h := if IsCandidate(profiles[0]) then 1 else 0;
      forall i | 0 <= i < |profiles| && IsCandidate(profiles[i])
        ensures i in idx
      {
        if i == 0 {
          assert idx[0] == 0;
        } else {
          assert IsCandidate(profiles[1..][i - 1]);
          var k :| 0 <= k < |rest| && rest[k] == i - 1;
          assert idx[h + k] == i;
        }
      }
    }
  }

  /**
   * The candidates keep the order and multiplicity of the profiles: `idx`
   * maps each candidate to its position among the profiles, strictly
   * increasingly, and every candidate position is hit.
   */
  lemma CandidatesKeepOrder(profiles: seq<Profile>) returns (idx: seq<nat>)
    ensures |idx| == |Candidates(profiles)|
    ensures forall n :: 0 <= n < |idx| ==> idx[n] < |profiles| && Candidates(profiles)[n] == profiles[idx[n]]
    ensures forall n, m :: 0 <= n < m < |idx| ==> idx[n] < idx[m]
    ensures forall i :: 0 <= i < |profiles| && IsCandidate(profiles[i]) ==> i in idx
  {
    idx := CandidatePositions(profiles);
    PositionsPickCandidates(profiles);
    PositionsIncrease(profiles);
    PositionsComplete(profiles);
  }

  /** The candidates are exactly the profiles that pass the candidate query. */
  lemma CandidatesAreTheDrivers(profiles: seq<Profile>)
    ensures forall p :: p in Candidates(profiles) <==> p in profiles && IsCandidate(p)
  {
    var idx := CandidatesKeepOrder(profiles);
    forall p | p in profiles && IsCandidate(p)
      ensures p in Candidates(profiles)
    {
      var i :| 0 <= i < |profiles| && profiles[i] == p;
      var n :| 0 <= n < |idx| && idx[n] == i;
      assert Candidates(profiles)[n] == p;
    }
  }

  function DistanceTo(origin: Point, p: Profile, dist: Distance): real
    requires IsCandidate(p)
  {
    dist(origin.lat, origin.lon, p.latitude.value, p.longitude.value)
  }

  /** The radius test of the loop is inclusive. */
  ghost predicate InRadius(origin: Point, p: Profile, dist: Distance, radiusKm: real) {
    IsCandidate(p) && DistanceTo(origin, p, dist) <= radiusKm
  }

  ghost predicate NoneInRadius(origin: Point, cs: seq<Profile>, dist: Distance, radiusKm: real) {
    forall j :: 0 <= j < |cs| ==> !InRadius(origin, cs[j], dist, radiusKm)
  }

  /**
   * cs[k] is what a stable sort of the in-radius candidates by distance
   * puts first: it is in radius, no in-radius candidate is nearer, and every
   * in-radius candidate before it is strictly farther.
   */
  ghost predicate IsNearest(origin: Point, cs: seq<Profile>, dist: Distance, radiusKm: real, k: int) {
    && 0 <= k < |cs|
    && InRadius(origin, cs[k], dist, radiusKm)
    && (forall j :: 0 <= j < |cs| && InRadius(origin, cs[j], dist, radiusKm) ==>
          DistanceTo(origin, cs[k], dist) <= DistanceTo(origin, cs[j], dist))
    && (forall j :: 0 <= j < k && InRadius(origin, cs[j], dist, radiusKm) ==>
          DistanceTo(origin, cs[k], dist) < DistanceTo(origin, cs[j], dist))
  }

  /** The tie rule leaves no choice: at most one candidate is the nearest. */
  lemma NearestIsUnique(origin: Point, cs: seq<Profile>, dist: Distance, radiusKm: real, k1: int, k2: int)
    requires IsNearest(origin, cs, dist, radiusKm, k1)
    requires IsNearest(origin, cs, dist, radiusKm, k2)
    ensures k1 == k2
  {
  }

  /**
   * `find_nearest_driver`: geocode the pickup text; give up when that
   * yields no point; keep the candidates within radius in a `nearby` list
   * of (distance, profile); return the first entry of a stable sort of
   * that list by distance.
   */
  method FindNearestDriver(pickupLocation: Option<string>, geocode: Option<string> -> Option<Point>,
                           profiles: seq<Profile>, dist: Distance,
                           radiusKm: real := DefaultRadiusKm)
    returns (driver: Option<Profile>)
    ensures geocode(pickupLocation).None? ==> driver.None?
    ensures geocode(pickupLocation).Some? ==>
              (driver.None? <==> NoneInRadius(geocode(pickupLocation).value, Candidates(profiles), dist, radiusKm))
    ensures driver.Some? ==>
              && geocode(pickupLocation).Some?
              && IsCandidate(driver.value)
              && DistanceTo(geocode(pickupLocation).value, driver.value, dist) <= radiusKm
              && exists k :: IsNearest(geocode(pickupLocation).value, Candidates(profiles), dist, radiusKm, k)
                          && Candidates(profiles)[k] == driver.value
  {
    var origin := geocode(pickupLocation);
    if origin.None? {
      return None;
    }
    var o := origin.value;
    var candidates := Candidates(profiles);
    var nearby, from := InRadiusEntries(o, candidates, dist, radiusKm);
    if nearby == [] {
      return None;
    }
    var best := FirstLeast(nearby);
    driver := Some(nearby[best].1);
    ghost var k := from[best];
    forall j | 0 <= j < |candidates| && InRadius(o, candidates[j], dist, radiusKm)
      ensures DistanceTo(o, candidates[k], dist) <= DistanceTo(o, candidates[j], dist)
      ensures j < k ==> DistanceTo(o, candidates[k], dist) < DistanceTo(o, candidates[j], dist)
    {
      var n :| 0 <= n < |nearby| && from[n] == j;
      if j < k {
        assert n < best;
      }
    }
    assert IsNearest(o, candidates, dist, radiusKm, k);
  }

  /**
   * The loop of `find_nearest_driver`: the (distance, profile) entries of
   * the candidates within radius, in candidate order; `from` gives the
   * candidate index of each entry.
   */
  method InRadiusEntries(o: Point, candidates: seq<Profile>, dist: Distance, radiusKm: real)
    returns (nearby: seq<(real, Profile)>, ghost from: seq<nat>)
    requires forall i :: 0 <= i < |candidates| ==> IsCandidate(candidates[i])
    ensures forall n :: 0 <= n < |nearby| ==>
              nearby[n].1 in candidates && InRadius(o, nearby[n].1, dist, radiusKm) &&
              nearby[n].0 == DistanceTo(o, nearby[n].1, dist)
    ensures |from| == |nearby|
    ensures forall n :: 0 <= n < |nearby| ==> from[n] < |candidates| && candidates[from[n]] == nearby[n].1
    ensures forall n, m :: 0 <= n < m < |nearby| ==> from[n] < from[m]
    ensures forall j :: 0 <= j < |candidates| && InRadius(o, candidates[j], dist, radiusKm) ==>
              exists n :: 0 <= n < |nearby| && from[n] == j
  {
    nearby, from := [], [];
    ghost var slot: seq<int> := [];  // for each candidate seen, its entry index, or -1
    for i := 0 to |candidates|
      invariant |from| == |nearby| && |slot| == i
      invariant forall n :: 0 <= n < |nearby| ==>
                  from[n] < i && candidates[from[n]] == nearby[n].1 &&
                  nearby[n].0 == DistanceTo(o, nearby[n].1, dist) && nearby[n].0 <= radiusKm
      invariant forall n, m :: 0 <= n < m < |nearby| ==> from[n] < from[m]
      invariant forall j :: 0 <= j < i && InRadius(o, candidates[j], dist, radiusKm) ==>
                  0 <= slot[j] < |nearby| && from[slot[j]] == j
    {
      var d := candidates[i];
      var km := dist(o.lat, o.lon, d.latitude.value, d.longitude.value);
      if km <= radiusKm {
        slot := slot + [|nearby|];
        nearby := nearby + [(km, d)];
        from := from + [i];
      } else {
        slot := slot + [-1];
      }
    }
    forall j | 0 <= j < |candidates| && InRadius(o, candidates[j], dist, radiusKm)
      ensures exists n :: 0 <= n < |nearby| && from[n] == j
    {
      assert from[slot[j]] == j;
    }
    forall n | 0 <= n < |nearby|
      ensures nearby[n].1 in candidates && InRadius(o, nearby[n].1, dist, radiusKm)
    {
      assert candidates[from[n]] == nearby[n].1;
    }
  }

  /**
   * `nearby.sort(key=lambda x: x[0])` followed by `nearby[0]`: the sort is
   * stable, so the entry it puts first is the first entry of least distance.
   */
  method FirstLeast(nearby: seq<(real, Profile)>) returns (best: nat)
    requires nearby != []
    ensures best < |nearby|
    ensures forall m :: 0 <= m < |nearby| ==> nearby[best].0 <= nearby[m].0
    ensures forall m :: 0 <= m < best ==> nearby[best].0 < nearby[m].0
  {
    best := 0;
    for n := 1 to |nearby|
      invariant 0 <= best < n
      invariant forall m :: 0 <= m < n ==> nearby[best].0 <= nearby[m].0
      invariant forall m :: 0 <= m < best ==> nearby[best].0 < nearby[m].0
    {
      if nearby[n].0 < nearby[best].0 {
        best := n;
      }
    }
  }

  // ---------------------------------------------------------------------
  // Location update
  // ---------------------------------------------------------------------

  /** The reply of the reverse-geocoding service: its HTTP status and the `display_name` entry of its body. */
  datatype ReverseGeocode = ReverseGeocode(statusCode: int, displayName: Option<string>)

  /** What `update_location` did: raised DoesNotExist, or saved the ride and possibly scheduled the movement simulation. */
  datatype LocationOutcome = RideDoesNotExist | LocationSaved(simulationScheduled: bool)

  /**
   * `update_location`: writes the coordinates, overwrites the address with
   * the reply's display name only on a 200 reply, saves, and schedules the
   * movement simulation exactly when the ride's status is Started. The
   * ride is looked up in the whole table, soft-deleted rows included.
   */
  method UpdateLocation(store: RideStore, rideId: nat, lat: real, lon: real, reply: ReverseGeocode)
    returns (outcome: LocationOutcome)
    requires store.Valid()
    modifies store
    ensures store.Valid() && store.nextId == old(store.nextId)
    ensures outcome.RideDoesNotExist? <==> rideId !in old(store.rides)
    ensures outcome.RideDoesNotExist? ==> store.rides == old(store.rides)
    ensures outcome.LocationSaved? ==>
              var before := old(store.rides)[rideId];
              && store.rides == old(store.rides)[rideId := before.(
                   currentLatitude := Some(lat),
                   currentLongitude := Some(lon),
                   currentLocationAddress := if reply.statusCode == HTTP_200_OK then reply.displayName
                                             else before.currentLocationAddress)]
              && (outcome.simulationScheduled <==> StatusIs(before.status, "Started"))
  {
    if rideId !in store.rides {
      return RideDoesNotExist;
    }
    var ride := store.rides[rideId];
    ride := ride.(currentLatitude := Some(lat), currentLongitude := Some(lon));
    if reply.statusCode == HTTP_200_OK {
      ride := ride.(currentLocationAddress := reply.displayName);
    }
    store.Save(ride);
    outcome := LocationSaved(StatusIs(ride.status, "Started"));
  }
}
