/** The profile of an authenticated user (rideshare/authentication/models.py). */
module Profiles {
  import opened Wrappers
  import opened Choices
  import opened SoftDelete

  /**
   * A profile as the dispatch logic reads it: its primary key, its
   * `user_type`, its optional last known position and its soft-delete flags.
   * Coordinates are stored floats; the model only copies and compares them
   * through the distance parameter, so they are `real`.
   */
  datatype Profile = Profile(
    id: nat,
    role: Role,
    latitude: Option<real>,
    longitude: Option<real>,
    flags: Flags)
}
