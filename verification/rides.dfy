/**
 * The ride row (rideshare/rides/models.py) and the table that stores it.
 *
 * `RideStore` stands for `Rides.objects`: a table of rows keyed by primary
 * key, with the inserts and saves the views perform and the soft-delete
 * methods of rideshare/utils/model_abstract.py applied to a stored row.
 */
module Rides {
  import opened Wrappers
  import opened Choices
  import opened SoftDelete

  /** One row of the rides table; rider and driver are profile primary keys. */
  datatype Ride = Ride(
    id: nat,
    rider: Option<nat>,
    driver: Option<nat>,
    pickupLocation: Option<string>,
    dropoffLocation: Option<string>,
    status: Status,
    currentLatitude: Option<real>,
    currentLongitude: Option<real>,
    currentLocationAddress: Option<string>,
    flags: Flags)

  function FlagsOf(r: Ride): Flags {
    r.flags
  }

  class RideStore {
    /** The rows, keyed by primary key. */
    var rides: map<nat, Ride>
    /** The next primary key the table hands out (an auto-increment counter). */
    var nextId: nat

    ghost predicate Valid()
      reads this
    {
      && 0 < nextId
      && forall id :: id in rides ==> rides[id].id == id && id < nextId
    }

    /** An empty table; Django's primary keys start at 1. */
    constructor ()
      ensures Valid() && rides == map[] && nextId == 1
    {
      rides := map[];
      nextId := 1;
    }

    /** `Rides.objects.active()`: the rows that are active and not deleted. */
    function Active(): (r: map<nat, Ride>)
      reads this
      ensures forall id :: id in r <==> id in rides && IsActive(rides[id].flags)
      ensures forall id :: id in r ==> r[id] == rides[id]
    {
      ActiveRows(rides, FlagsOf)
    }

    /** Inserts a new row under a fresh primary key and returns the stored row. */
    method Insert(row: Ride) returns (stored: Ride)
      requires Valid()
      modifies this
      ensures Valid()
      ensures stored == row.(id := old(nextId))
      ensures stored.id !in old(rides)
      ensures rides == old(rides)[stored.id := stored]
    {
      stored := row.(id := nextId);
      rides := rides[nextId := stored];
      nextId := nextId + 1;
    }

    /** `save()` of a row that was loaded from the table: overwrites every column. */
    method Save(row: Ride)
      requires Valid() && row.id in rides
      modifies this
      ensures Valid() && nextId == old(nextId)
      ensures rides == old(rides)[row.id := row]
    {
      rides := rides[row.id := row];
    }

    /** `set_inactive` then `save` on a stored row. */
    method SetInactive(id: nat)
      requires Valid() && id in rides
      modifies this
      ensures Valid() && nextId == old(nextId)
      ensures rides == old(rides)[id := old(rides)[id].(flags := Deactivated(old(rides)[id].flags))]
      ensures id !in Active() && id in InactiveRows(rides, FlagsOf)
    {
      var row := rides[id];
      row := row.(flags := Deactivated(row.flags));
      Save(row);
    }

    /** `set_active` then `save` on a stored row. */
    method SetActive(id: nat)
      requires Valid() && id in rides
      modifies this
      ensures Valid() && nextId == old(nextId)
      ensures rides == old(rides)[id := old(rides)[id].(flags := Activated(old(rides)[id].flags))]
      ensures id in Active() && id !in InactiveRows(rides, FlagsOf)
    {
      var row := rides[id];
      row := row.(flags := Activated(row.flags));
      Save(row);
    }

    /** The overridden `delete`: only marks the row deleted; the row stays in the table. */
    method Delete(id: nat)
      requires Valid() && id in rides
      modifies this
      ensures Valid() && nextId == old(nextId)
      ensures rides == old(rides)[id := old(rides)[id].(flags := Deleted(old(rides)[id].flags))]
      ensures rides.Keys == old(rides).Keys
      ensures id !in Active()
    {
      var row := rides[id];
      row := row.(flags := Deleted(row.flags));
      Save(row);
    }

    /** `restore` then `save` on a stored row. */
    method Restore(id: nat)
      requires Valid() && id in rides
      modifies this
      ensures Valid() && nextId == old(nextId)
      ensures rides == old(rides)[id := old(rides)[id].(flags := Restored(old(rides)[id].flags))]
      ensures id !in InactiveRows(rides, FlagsOf)
    {
      var row := rides[id];
      row := row.(flags := Restored(row.flags));
      Save(row);
    }

    /** `hard_delete`: removes the row from the table for good. */
    method HardDelete(id: nat)
      requires Valid() && id in rides
      modifies this
      ensures Valid() && nextId == old(nextId)
      ensures rides == old(rides) - {id}
    {
      rides := rides - {id};
    }
  }
}
