/**
 * The soft-delete machinery every stored model inherits
 * (rideshare/utils/model_abstract.py): two booleans, `is_active` and
 * `deleted`, four methods that set them, and the two manager filters
 * `active()` and `inactive()`.
 *
 * The four methods are modelled here as transitions on the pair of flags;
 * `Rides.RideStore` applies them to a stored row in place and saves it.
 */
module SoftDelete {

  datatype Flags = Flags(isActive: bool, deleted: bool)

  /** A freshly created row: `is_active` defaults to True, `deleted` to False. */
  const NewRow: Flags := Flags(true, false)

  /** Membership in `objects.active()`: is_active=True and deleted=False. */
  predicate IsActive(f: Flags) {
    f.isActive && !f.deleted
  }

  /** Membership in `objects.inactive()`: is_active=False and deleted=True. */
  predicate IsInactive(f: Flags) {
    !f.isActive && f.deleted
  }

  /** `set_inactive`: the row leaves active() and joins inactive(), whatever it was before. */
  function Deactivated(f: Flags): (r: Flags)
    ensures IsInactive(r) && !IsActive(r)
  {
    f.(isActive := false, deleted := true)
  }

  /** `set_active`: the row joins active() and leaves inactive(), whatever it was before. */
  function Activated(f: Flags): (r: Flags)
    ensures IsActive(r) && !IsInactive(r)
  {
    f.(isActive := true, deleted := false)
  }

  /** `delete`: marks the row deleted and keeps is_active, so the row is never active() afterwards. */
  function Deleted(f: Flags): (r: Flags)
    ensures r.deleted && r.isActive == f.isActive
    ensures !IsActive(r)
    ensures IsInactive(r) <==> !f.isActive
  {
    f.(deleted := true)
  }

  /** `restore`: clears the deleted mark and keeps is_active, so the row is never inactive() afterwards. */
  function Restored(f: Flags): (r: Flags)
    ensures !r.deleted && r.isActive == f.isActive
    ensures !IsInactive(r)
    ensures IsActive(r) <==> f.isActive
  {
    f.(deleted := false)
  }

  /** `objects.active()` over a table keyed by primary key. */
  function ActiveRows<K(!new), T>(table: map<K, T>, flagsOf: T -> Flags): (r: map<K, T>)
    ensures forall k :: k in r <==> k in table && IsActive(flagsOf(table[k]))
    ensures forall k :: k in r ==> r[k] == table[k]
  {
    map k | k in table && IsActive(flagsOf(table[k])) :: table[k]
  }

  /** `objects.inactive()` over a table keyed by primary key. */
  function InactiveRows<K(!new), T>(table: map<K, T>, flagsOf: T -> Flags): (r: map<K, T>)
    ensures forall k :: k in r <==> k in table && IsInactive(flagsOf(table[k]))
    ensures forall k :: k in r ==> r[k] == table[k]
  {
    map k | k in table && IsInactive(flagsOf(table[k])) :: table[k]
  }

  /** No row is returned by both filters. */
  lemma FiltersDisjoint<K(!new), T>(table: map<K, T>, flagsOf: T -> Flags)
    ensures ActiveRows(table, flagsOf).Keys !! InactiveRows(table, flagsOf).Keys
  {
  }

  /**
   * A row is in neither filter exactly when its two flags agree: an active
   * row that was `delete`d (true, true), or an inactive row that was
   * `restore`d (false, false).
   */
  lemma NeitherFilter(f: Flags)
    ensures !IsActive(f) && !IsInactive(f) <==> f.isActive == f.deleted
  {
  }

  /** Each of the four methods is idempotent. */
  lemma TransitionsIdempotent(f: Flags)
    ensures Deactivated(Deactivated(f)) == Deactivated(f)
    ensures Activated(Activated(f)) == Activated(f)
    ensures Deleted(Deleted(f)) == Deleted(f)
    ensures Restored(Restored(f)) == Restored(f)
  {
  }

  /** Every combination of the two flags is reachable from a new row in at most two method calls. */
  lemma AllFlagStatesReachable(f: Flags)
    ensures f == NewRow
         || f == Deactivated(NewRow)
         || f == Deleted(NewRow)
         || f == Restored(Deactivated(NewRow))
  {
  }

  /** `restore` undoes `delete` and `delete` undoes `restore`, because both keep is_active. */
  lemma DeleteRestoreInverse(f: Flags)
    ensures Restored(Deleted(f)) == Restored(f)
    ensures Deleted(Restored(f)) == Deleted(f)
    ensures !f.deleted ==> Restored(Deleted(f)) == f
  {
  }
}
