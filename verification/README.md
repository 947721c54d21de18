# Ride dispatch core of a Django ride-sharing service, in Dafny

This project models the sequential, stateful logic of a small ride-sharing
back end and proves properties of it:

- **Ride endpoints** (`rideshare/rides/views.py`). A rider requests a ride. A
  driver accepts a ride. The system assigns the nearest driver to a ride. The
  assigned driver updates the ride's status. A client reports the ride's
  position. Each endpoint is a method over a `RideStore`, a class that holds
  the rides table as a map from primary key to row. Each method runs the
  source's guards in the source's order, with early returns. Requesting a
  ride inserts a new row. Assigning, accepting and updating the status write
  `driver` and/or `status` on the loaded row and save it. Reporting the
  position writes the coordinates and the address. Each contract gives the
  response and the new table for every branch.
- **Helpers** (`rideshare/utils/helpers.py`). These are the `success_response`
  and `error_response` JSON envelopes, the nearest-driver search and the
  location update. The network is left outside the model:
  - Forward geocoding is a function parameter from pickup text to an optional
    point.
  - The reverse-geocoding reply is an input.
  - The haversine distance is a function parameter `dist(lat1, lon1, lat2, lon2)`.
- **Soft delete** (`rideshare/utils/model_abstract.py`). The two flags
  `is_active` and `deleted`, the four methods that set them, and the filters
  `active()` and `inactive()`.
- **Registration rules** (`rideshare/authentication/serializers.py`). The
  ordered six-step password check, the `full_name` and `phone_number` field
  rules, and `update`'s rule that username := email.

Modules follow the source files: `Wrappers` (Option/Result), `Choices`
(roles and statuses), `SoftDelete`, `Profiles`, `Rides` (the ride row and
`RideStore`), `Helpers`, `RideViews` and `Registration`.

Behaviour of the code that the model keeps:

- There is no compare-and-set and no Conflict outcome. Accepting a ride is a
  plain read-modify-save.
- There is no table of allowed status transitions. The assigned driver may
  save any status from any status.
- Finding a driver sets `driver` but leaves the status at `Requested`.
- Nothing stops a driver from accepting a `Requested` ride that already has an
  assigned driver. The acting driver simply replaces the assigned one.
- In the update-status, find-driver and accept endpoints, a missing ride is
  caught by `except Exception` and answered with
  `error_response("Something went wrong.")`, not NotFound. That call passes
  the text positionally as `errors`, so the body's `message` is the default
  `"error"` and the status is 500.
- Ties in the nearest-driver search go to the first candidate in iteration
  order, because the sort is stable. They do not go to the smallest id.
- The candidate query does not look at soft-delete flags. A soft-deleted
  driver profile can still be matched.
- The ride's status column does not enforce its choices. Each of `Status` and
  `Role` therefore has a case for any other text and a case for null.
- Every role and status guard compares the stored text, as the code does
  (`user_type != 'Rider'`, `ride.status != 'Requested'`). A value such as
  `OtherRole("Driver")` therefore passes the Driver guard.

## Model

| member | source | states |
|---|---|---|
| `Choices.RoleOf` | rideshare/utils/choices.py:12-15 | a stored user_type is Rider exactly when it is the text "Rider" and Driver exactly when it is "Driver"; the result is canonical |
| `Choices.StatusOf` | rideshare/utils/choices.py:17-23 | a stored status is each of the five declared statuses exactly when it is that text and is NoStatus exactly when it is null; the result is canonical |
| `Choices.RoleRoundTrip` | rideshare/authentication/models.py:13 | reading back a written role column gives the role again |
| `Choices.RoleColumnRoundTrip` | rideshare/authentication/models.py:13 | writing back the role read from any column value gives that value again, so no stored text is lost |
| `Choices.StatusRoundTrip` | rideshare/rides/models.py:14 | reading back a written status column gives the status again |
| `Choices.StatusColumnRoundTrip` | rideshare/rides/models.py:14 | any stored status text, such as 'InProgress', is kept as it is |
| `Choices.TextTestsOnCanonical` | rideshare/utils/choices.py:12-23 | on canonical values, the text tests used by the guards coincide with the Rider, Driver, Requested and Started cases |
| `SoftDelete.Deactivated` | rideshare/utils/model_abstract.py:29-32 | after set_inactive the row is in inactive() and not in active(), whatever its flags were |
| `SoftDelete.Activated` | rideshare/utils/model_abstract.py:34-37 | after set_active the row is in active() and not in inactive() |
| `SoftDelete.Deleted` | rideshare/utils/model_abstract.py:39-41 | delete sets deleted and keeps is_active; the row is never in active() afterwards, and it is in inactive() exactly when it was not active |
| `SoftDelete.Restored` | rideshare/utils/model_abstract.py:43-45 | restore clears deleted and keeps is_active; the row is never in inactive() afterwards, and it is in active() exactly when is_active holds |
| `SoftDelete.ActiveRows` | rideshare/utils/model_abstract.py:5-6 | active() holds exactly the rows with is_active true and deleted false, unchanged |
| `SoftDelete.InactiveRows` | rideshare/utils/model_abstract.py:8-9 | inactive() holds exactly the rows with is_active false and deleted true, unchanged |
| `SoftDelete.FiltersDisjoint` | rideshare/utils/model_abstract.py:5-9 | no row is in both filters |
| `SoftDelete.NeitherFilter` | rideshare/utils/model_abstract.py:5-9 | a row is in neither filter exactly when its two flags are equal (active-but-deleted, or inactive-but-restored) |
| `SoftDelete.TransitionsIdempotent` | rideshare/utils/model_abstract.py:29-45 | each of the four methods applied twice gives the flags of applying it once |
| `SoftDelete.AllFlagStatesReachable` | rideshare/utils/model_abstract.py:29-45 | all four flag combinations are reachable from a new row in at most two method calls |
| `SoftDelete.DeleteRestoreInverse` | rideshare/utils/model_abstract.py:39-45 | restore after delete gives back the flags of a row that was not deleted, and the two calls undo each other |
| `Rides.RideStore.Active` | rideshare/rides/views.py:96 | `Rides.objects.active()` holds exactly the stored rides that are active and not deleted |
| `Rides.RideStore.Insert` | rideshare/rides/views.py:27-30 | `serializer.save(...)` stores the row under a fresh primary key; the old rows are kept and the stored row is returned |
| `Rides.RideStore.Save` | rideshare/rides/views.py:151 | `ride.save()` on a loaded row overwrites that row and nothing else; the key counter is unchanged |
| `Rides.RideStore.SetInactive` | rideshare/utils/model_abstract.py:29-32 | only the flags of that row change; it leaves active() and joins inactive() |
| `Rides.RideStore.SetActive` | rideshare/utils/model_abstract.py:34-37 | only the flags of that row change; it joins active() and leaves inactive() |
| `Rides.RideStore.Delete` | rideshare/utils/model_abstract.py:39-41 | the row stays in the table with deleted set, and is no longer in active() |
| `Rides.RideStore.Restore` | rideshare/utils/model_abstract.py:43-45 | the row's deleted flag is cleared and it is not in inactive() |
| `Rides.RideStore.HardDelete` | rideshare/utils/model_abstract.py:47-48 | the row is removed from the table and nothing else changes |
| `Helpers.SuccessResponse` | rideshare/utils/helpers.py:11-25 | the body has exactly `message` and `results`; message is the success message, and `results` has a `data` entry exactly when data is not None; the status defaults to 200 |
| `Helpers.ErrorResponse` | rideshare/utils/helpers.py:28-50 | the body always has exactly `message`, `errors` and `exception_info`, with the given values; the status defaults to 500 |
| `Helpers.EnvelopesDistinguishable` | rideshare/utils/helpers.py:22-50 | a success body never has `errors` and an error body never has `results`, so the two envelopes never coincide |
| `Helpers.Candidates` | rideshare/utils/helpers.py:99-103 | every candidate has user_type "Driver" and both coordinates non-null, and there are no more candidates than profiles |
| `Helpers.CandidatesKeepOrder` | rideshare/utils/helpers.py:99-108 | the candidates are the passing profiles in iteration order and with their multiplicity: their positions among the profiles increase strictly, and every passing position occurs |
| `Helpers.CandidatesAreTheDrivers` | rideshare/utils/helpers.py:99-103 | a profile is a candidate exactly when it has user_type "Driver" and both coordinates non-null |
| `Helpers.NearestIsUnique` | rideshare/utils/helpers.py:109-113 | with the stable-sort tie rule, at most one candidate index is the nearest |
| `Helpers.FindNearestDriver` | rideshare/utils/helpers.py:94-113 | None when geocoding gives no point; otherwise None exactly when no candidate is within the radius (inclusive, default 5 km); a returned driver is a candidate within radius, no in-radius candidate is nearer, and every earlier in-radius candidate is strictly farther |
| `Helpers.InRadiusEntries` | rideshare/utils/helpers.py:104-108 | the loop collects exactly the in-radius candidates, in candidate order, each with its distance |
| `Helpers.FirstLeast` | rideshare/utils/helpers.py:112-113 | the entry a stable sort by distance puts first: no entry has a smaller distance and every earlier entry has a larger one |
| `Helpers.UpdateLocation` | rideshare/utils/helpers.py:52-77 | a missing ride raises and nothing changes; otherwise only that ride changes: coordinates set, address overwritten with the reply's display name only on a 200 reply; the simulation is scheduled exactly when the status is Started; soft-deleted rides are updated too |
| `RideViews.DetailResponse` | rideshare/rides/views.py:143-146 | the body has exactly one entry, `detail`, with the given text, and no `message`; the status is the given one |
| `RideViews.RequestRide` | rideshare/rides/views.py:21-30 | a profile whose user_type text is not "Rider" gets 403 "Only rider users may request rides." and the table is unchanged; a Rider gets 201 and exactly one new row, with a fresh id, the requester as rider, status Requested, no driver, no position and the default flags |
| `RideViews.UpdateRideStatus` | rideshare/rides/views.py:57-78 | a missing ride gives 500 and no change; any profile other than the ride's driver (everyone, when there is no driver) gets 403 "Only the driver can update the ride status." and no change; the driver's valid patch saves the new status whatever the old one, and the driver's invalid patch gives 400 and no change |
| `RideViews.FindDriver` | rideshare/rides/views.py:93-120 | only active, non-deleted rides are found (otherwise 500 with no change); a ride whose status text is not "Requested" gets 400 with no change; no geocoded point or no driver in radius gives 404 "No available drivers within radius." with no change; otherwise only the driver is set, to the unique nearest candidate, and the status stays Requested |
| `RideViews.AcceptRide` | rideshare/rides/views.py:129-162 | a missing ride gives 500; a profile whose user_type text is not "Driver" gets 403 "Only drivers may accept rides." before any status check; a ride whose status text is not "Requested" gets 400; in all of these nothing changes; otherwise driver := acting profile and status := Accepted, and no other field or row changes |
| `RideViews.UpdateRideLocation` | rideshare/rides/views.py:82-87 | a missing ride is an uncaught error with no change; otherwise the answer is "Location updated" and the ride changes exactly as update_location says |
| `Registration.CleanFullName` | rideshare/authentication/serializers.py:15-25 | a missing full_name is reported as Required |
| `Registration.FullNameAccepted` | rideshare/authentication/serializers.py:15-25 | a full name is accepted exactly when its trimmed text has 2 to 100 characters, all ASCII letters or whitespace, and the accepted value is that trimmed text |
| `Registration.FullNameCleanIdempotent` | rideshare/authentication/serializers.py:15-25 | cleaning an accepted full name again accepts it unchanged |
| `Registration.CleanPhoneNumber` | rideshare/authentication/serializers.py:27-37 | a missing phone_number is reported as Required |
| `Registration.PhoneNumberAccepted` | rideshare/authentication/serializers.py:27-37 | a phone number is accepted exactly when its trimmed text is exactly 10 ASCII digits and not already registered |
| `Registration.PhoneNumberCleanIdempotent` | rideshare/authentication/serializers.py:27-37 | cleaning an accepted phone number again accepts it unchanged |
| `Registration.StripLeading` | rideshare/authentication/serializers.py:15-37 | the character field drops the leading whitespace: the result is a suffix of the input, everything dropped is whitespace, and the result does not start with whitespace |
| `Registration.StripTrailing` | rideshare/authentication/serializers.py:15-37 | the trailing whitespace is dropped: the result is a prefix of the input, everything dropped is whitespace, and the result does not end with whitespace |
| `Registration.Strip` | rideshare/authentication/serializers.py:15-37 | the trimmed value is a contiguous slice of the input with only whitespace outside it and no whitespace at either end |
| `Registration.StripIdempotent` | rideshare/authentication/serializers.py:15-37 | trimming a field twice is trimming it once |
| `Registration.ValidateUser` | rideshare/authentication/serializers.py:55-94 | a mismatched or missing confirm_password is always the error keyed `confirm_password`, before any strength check; on success the data is returned unchanged |
| `Registration.ValidateReportsFirstFailure` | rideshare/authentication/serializers.py:64-94 | validation succeeds exactly when all six checks pass; otherwise the single error is that of the first failing check in the order match, length >= 8, uppercase, lowercase, digit, special |
| `Registration.FirstFailure` | rideshare/authentication/serializers.py:64-94 | every check before the returned index passes and the check at it fails, or the index is past the last check |
| `Registration.ValidateStopsAt` | rideshare/authentication/serializers.py:64-94 | when check k is the first to fail, validation raises exactly that check's error; it succeeds iff no check fails |
| `Registration.AcceptedPasswordIsStrong` | rideshare/authentication/serializers.py:64-94 | an accepted password matches its confirmation, has at least 8 characters and contains an uppercase letter, a lowercase letter, a digit and a character that is neither word nor whitespace |
| `Registration.UpdateUser` | rideshare/authentication/serializers.py:99-103 | without an email the update raises KeyError; otherwise username == email afterwards, a given password is stored hashed, every other validated entry is written, and the other fields are kept |

## Left out

- `haversine` (floating-point trigonometry) is the function parameter `dist`. Coordinates are `real`, and the model only copies them and passes them to `dist`.
- `geocode_location` and the reverse-geocoding request are network I/O. Their results are a function parameter and an input. Transport errors and malformed replies, which would raise inside these calls, are not modelled.
- `simulate_ride_movement` (`rideshare/rides/tasks.py`) is a background task. Only the fact that it is scheduled is modelled.
- Listing rides and ride details (`RidesListViewSet`, `RidesDetailsViewSet`) are not modelled. They are read-only serializer output.
- `rideshare/rides/serializers.py` is not part of this model. Request rides carry only pickup and dropoff text and are assumed to pass the serializer. The update-status payload is its status entry or the serializer's errors, taken as an input. Other writable fields of a partial update are not modelled.
- The coordinates are parsed with `float()` in `RideLocationUpdateView.post`. A non-numeric value would raise there; the model takes numbers directly.
- Timestamps (`created_at`, `updated_at`) and the `driver.save()` in the find-driver endpoint are not modelled. That save changes no field the model has.
- The iteration order of the candidate query is whatever order the database returns. It is an input sequence.
- Helpers.FindNearestDriver: the model does not sort the whole `nearby` list. It picks the entry that a stable sort would put first, which is the only one the source uses.
- Concurrency is not modelled. Each handler runs as one step on the table, and the source has no locking to model.
- Character classes are ASCII approximations of Python's Unicode `\s`, `\d` and `\w`. The same holds for the whitespace that `strip()` removes. A non-ASCII letter counts as a special character here, whereas Python counts it as a word character.
- The serializer field rules (trimming, the blank check, all failing validators reported together) follow the framework's character field. The model reports the set of failing rules, not their messages.
- Email and user uniqueness, e-mail syntax, and the 40-character database limit on `full_name` are database or framework checks, so they are not modelled. Phone uniqueness is membership in a given set of registered numbers.
- `make_password` is a hashing function parameter.
- A null `is_active` value is not modelled. Flags are plain booleans.
- Authentication and registration views, URL routing and the Celery configuration are glue and are not modelled.
