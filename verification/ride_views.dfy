/**
 * The ride endpoints of rideshare/rides/views.py. Each handler loads a ride,
 * runs its guards in source order with an early return, and otherwise
 * assigns `driver` and/or `status` on the loaded row and saves it.
 *
 * The acting profile is the authenticated user's profile. A handler whose
 * body sits in `try ... except Exception` answers any exception, including
 * the lookup of a missing ride, with `error_response("Something went
 * wrong.")`; that call passes the text as `errors`, so the body's
 * `message` is the default "error" and the status the default 500.
 */
module RideViews {
  import opened Wrappers
  import opened Choices
  import opened SoftDelete
  import opened Profiles
  import opened Rides
  import opened Helpers

  type RideResponse = Response<Ride>

  /** What the framework renders for `PermissionDenied(detail)` and for `Response({'detail': ...})`. */
  function DetailResponse(detail: string, status: int): (r: RideResponse)
    ensures r.status == status
    ensures r.body.JObj? && r.body.fields.Keys == {"detail"} && r.body.fields["detail"] == JStr(detail)
    ensures Message(r).None?
  {
    Response(status, JObj(map["detail" := JStr(detail)]))
  }

  /** The answer of the `except Exception` clauses. */
  const SomethingWentWrong: RideResponse := ErrorResponse(JStr("Something went wrong."))

  /** The framework's answer to an exception no handler catches; its HTML body is not modelled. */
  const UncaughtException: RideResponse := Response(HTTP_500_INTERNAL_SERVER_ERROR, JNull)

  /** A validated partial-update payload (its status entry, if any), or the serializer's errors. */
  datatype StatusPatch = StatusPatch(status: Option<Status>) | InvalidPatch(errors: map<string, string>)

  function ErrorsJson(errors: map<string, string>): Json<Ride> {
    JObj(map k | k in errors :: JStr(errors[k]))
  }

  /**
   * `RidesViewSet.perform_create` inside the framework's `create`: only a
   * Rider may request a ride; the new row names the requester as rider and
   * is Requested, with no driver, no position and the default flags.
   */
  method RequestRide(store: RideStore, profile: Profile, pickupLocation: Option<string>,
                     dropoffLocation: Option<string>)
    returns (resp: RideResponse)
    requires store.Valid()
    modifies store
    ensures store.Valid()
    ensures !RoleIs(profile.role, "Rider") ==>
              && resp == DetailResponse("Only rider users may request rides.", HTTP_403_FORBIDDEN)
              && store.rides == old(store.rides) && store.nextId == old(store.nextId)
    ensures RoleIs(profile.role, "Rider") ==>
              && resp.status == HTTP_201_CREATED && resp.body.JData?
              && var ride := resp.body.data;
                 && ride.id !in old(store.rides)
                 && store.rides == old(store.rides)[ride.id := ride]
                 && ride.rider == Some(profile.id) && ride.status == Requested && ride.driver.None?
                 && ride.pickupLocation == pickupLocation && ride.dropoffLocation == dropoffLocation
                 && ride.currentLatitude.None? && ride.currentLongitude.None?
                 && ride.currentLocationAddress.None? && ride.flags == NewRow
  {
    if !RoleIs(profile.role, "Rider") {
      return DetailResponse("Only rider users may request rides.", HTTP_403_FORBIDDEN);
    }
    var row := Ride(0, Some(profile.id), None, pickupLocation, dropoffLocation, Requested,
                    None, None, None, NewRow);
    var stored := store.Insert(row);
    resp := Response(HTTP_201_CREATED, JData(stored));
  }

  /**
   * `UpdateRidesStatusViewSet.partial_update`: only the ride's driver may
   * change it, a ride without a driver refuses everyone, and the new status
   * is saved whatever the current one is. The ride is looked up among all
   * rows, soft-deleted ones included.
   */
  method UpdateRideStatus(store: RideStore, rideId: nat, profile: Profile, patch: StatusPatch)
    returns (resp: RideResponse)
    requires store.Valid()
    modifies store
    ensures store.Valid() && store.nextId == old(store.nextId)
    ensures rideId !in old(store.rides) ==>
              resp == SomethingWentWrong && store.rides == old(store.rides)
    ensures rideId in old(store.rides) && old(store.rides)[rideId].driver != Some(profile.id) ==>
              && resp == ErrorResponse(errorMessage := "Only the driver can update the ride status.",
                                       status := HTTP_403_FORBIDDEN)
              && store.rides == old(store.rides)
    ensures rideId in old(store.rides) && old(store.rides)[rideId].driver == Some(profile.id) ==>
              match patch
              case InvalidPatch(errors) =>
                && resp == ErrorResponse(ErrorsJson(errors), status := HTTP_400_BAD_REQUEST)
                && store.rides == old(store.rides)
              case StatusPatch(status) =>
                var updated := old(store.rides)[rideId].(status := status.GetOr(old(store.rides)[rideId].status));
                && store.rides == old(store.rides)[rideId := updated]
                && resp == SuccessResponse(JData(updated))
  {
    if rideId !in store.rides {
      return SomethingWentWrong;
    }
    var ride := store.rides[rideId];
    if ride.driver != Some(profile.id) {
      return ErrorResponse(errorMessage := "Only the driver can update the ride status.",
                           status := HTTP_403_FORBIDDEN);
    }
    match patch
    case InvalidPatch(errors) =>
      resp := ErrorResponse(ErrorsJson(errors), status := HTTP_400_BAD_REQUEST);
    case StatusPatch(status) =>
      if status.Some? {
        ride := ride.(status := status.value);
      }
      store.Save(ride);
      resp := SuccessResponse(JData(ride));
  }

  /**
   * `FindNearestDriverView.post`: looks the ride up among active rows only,
   * requires it to be Requested, and assigns the nearest driver within the
   * default radius of the geocoded pickup. The status stays Requested.
   */
  method FindDriver(store: RideStore, rideId: nat, geocode: Option<string> -> Option<Point>,
                    profiles: seq<Profile>, dist: Distance)
    returns (resp: RideResponse)
    requires store.Valid()
    modifies store
    ensures store.Valid() && store.nextId == old(store.nextId)
    ensures rideId !in old(store.Active()) ==>
              resp == SomethingWentWrong && store.rides == old(store.rides)
    ensures rideId in old(store.Active()) && !StatusIs(old(store.rides)[rideId].status, "Requested") ==>
              && resp == ErrorResponse(errorMessage := "Ride must be in 'Requested' status to assign.",
                                       status := HTTP_400_BAD_REQUEST)
              && store.rides == old(store.rides)
    ensures rideId in old(store.Active()) && StatusIs(old(store.rides)[rideId].status, "Requested") ==>
              var ride := old(store.rides)[rideId];
              var origin := geocode(ride.pickupLocation);
              var cs := Candidates(profiles);
              if origin.None? || NoneInRadius(origin.value, cs, dist, DefaultRadiusKm) then
                && resp == ErrorResponse(errorMessage := "No available drivers within radius.",
                                         status := HTTP_404_NOT_FOUND)
                && store.rides == old(store.rides)
              else
                exists k :: IsNearest(origin.value, cs, dist, DefaultRadiusKm, k)
                     && store.rides == old(store.rides)[rideId := ride.(driver := Some(cs[k].id))]
                     && StatusIs(store.rides[rideId].status, "Requested")
                     && resp == SuccessResponse(JData(ride.(driver := Some(cs[k].id))), status := HTTP_200_OK)
  {
    if rideId !in store.Active() {
      return SomethingWentWrong;
    }
    var ride := store.rides[rideId];
    if !StatusIs(ride.status, "Requested") {
      return ErrorResponse(errorMessage := "Ride must be in 'Requested' status to assign.",
                           status := HTTP_400_BAD_REQUEST);
    }
    var driver := FindNearestDriver(ride.pickupLocation, geocode, profiles, dist);
    if driver.None? {
      return ErrorResponse(errorMessage := "No available drivers within radius.",
                           status := HTTP_404_NOT_FOUND);
    }
    ride := ride.(driver := Some(driver.value.id));
    store.Save(ride);
    resp := SuccessResponse(JData(ride), status := HTTP_200_OK);
  }

  /**
   * `AcceptRideViewSet.accept`: the role guard comes before the status
   * guard; a Requested ride is assigned to the acting driver and becomes
   * Accepted, whether or not a driver was already assigned to it.
   */
  method AcceptRide(store: RideStore, rideId: nat, profile: Profile)
    returns (resp: RideResponse)
    requires store.Valid()
    modifies store
    ensures store.Valid() && store.nextId == old(store.nextId)
    ensures rideId !in old(store.rides) ==>
              resp == SomethingWentWrong && store.rides == old(store.rides)
    ensures rideId in old(store.rides) && !RoleIs(profile.role, "Driver") ==>
              && resp == ErrorResponse(errorMessage := "Only drivers may accept rides.",
                                       status := HTTP_403_FORBIDDEN)
              && store.rides == old(store.rides)
    ensures rideId in old(store.rides) && RoleIs(profile.role, "Driver") && !StatusIs(old(store.rides)[rideId].status, "Requested") ==>
              && resp == DetailResponse("Ride must be requested to be accepted.", HTTP_400_BAD_REQUEST)
              && store.rides == old(store.rides)
    ensures rideId in old(store.rides) && RoleIs(profile.role, "Driver") && StatusIs(old(store.rides)[rideId].status, "Requested") ==>
              var accepted := old(store.rides)[rideId].(driver := Some(profile.id), status := Accepted);
              && store.rides == old(store.rides)[rideId := accepted]
              && resp == SuccessResponse(JData(accepted), status := HTTP_200_OK)
  {
    if rideId !in store.rides {
      return SomethingWentWrong;
    }
    var ride := store.rides[rideId];
    if !RoleIs(profile.role, "Driver") {
      return ErrorResponse(errorMessage := "Only drivers may accept rides.", status := HTTP_403_FORBIDDEN);
    }
    if !StatusIs(ride.status, "Requested") {
      return DetailResponse("Ride must be requested to be accepted.", HTTP_400_BAD_REQUEST);
    }
    ride := ride.(driver := Some(profile.id), status := Accepted);
    store.Save(ride);
    resp := SuccessResponse(JData(ride), status := HTTP_200_OK);
  }

  /**
   * `RideLocationUpdateView.post`: runs `update_location` outside any
   * `try`, so a missing ride surfaces as an uncaught exception; otherwise
   * answers "Location updated" with empty results.
   */
  method UpdateRideLocation(store: RideStore, rideId: nat, lat: real, lon: real, reply: ReverseGeocode)
    returns (resp: RideResponse, simulationScheduled: bool)
    requires store.Valid()
    modifies store
    ensures store.Valid() && store.nextId == old(store.nextId)
    ensures rideId !in old(store.rides) ==>
              resp == UncaughtException && store.rides == old(store.rides) && !simulationScheduled
    ensures rideId in old(store.rides) ==>
              var before := old(store.rides)[rideId];
              && resp == SuccessResponse(successMessage := "Location updated")
              && store.rides == old(store.rides)[rideId := before.(
                   currentLatitude := Some(lat),
                   currentLongitude := Some(lon),
                   currentLocationAddress := if reply.statusCode == HTTP_200_OK then reply.displayName
                                             else before.currentLocationAddress)]
              && (simulationScheduled <==> StatusIs(before.status, "Started"))
  {
    var outcome := UpdateLocation(store, rideId, lat, lon, reply);
    match outcome
    case RideDoesNotExist =>
      return UncaughtException, false;
    case LocationSaved(scheduled) =>
      return SuccessResponse(successMessage := "Location updated"), scheduled;
  }
}
