/**
 * The two closed vocabularies of the system: the profile roles (USER_TYPES) and
 * the ride statuses (RIDE_STATUS) of rideshare/utils/choices.py.
 *
 * Both columns are plain nullable character fields: Django does not enforce the
 * choices when a row is saved, so a stored value may be any text (a test stores
 * 'InProgress') or null. Each datatype therefore has one case per declared
 * choice, one case for any other text and one for null.
 */
module Choices {
  import opened Wrappers

  datatype Role = Rider | Driver | OtherRole(text: string) | NoRole {
    /** The canonical form: an OtherRole never carries the text of a declared role. */
    predicate WellFormed() {
      OtherRole? ==> text != "Rider" && text != "Driver"
    }
  }

  datatype Status = Requested | Accepted | Started | Completed | Cancelled
                  | OtherStatus(text: string) | NoStatus {
    predicate WellFormed() {
      OtherStatus? ==> text !in DeclaredStatusTexts
    }
  }

  const DeclaredStatusTexts: set<string> := {"Requested", "Accepted", "Started", "Completed", "Cancelled"}

  /** The stored column value of a role. */
  function RoleText(r: Role): Option<string> {
    match r
    case Rider => Some("Rider")
    case Driver => Some("Driver")
    case OtherRole(t) => Some(t)
    case NoRole => None
  }

  /**
   * The source compares the stored text (`user_type != 'Rider'`), so every
   * guard on a role goes through its column text: a non-canonical
   * OtherRole("Rider") passes the Rider test just as the text does.
   */
  predicate RoleIs(r: Role, text: string) {
    RoleText(r) == Some(text)
  }

  /** Reads a stored user_type column: the declared texts map to their case. */
  function RoleOf(column: Option<string>): (r: Role)
    ensures r.WellFormed()
    ensures r == Rider <==> column == Some("Rider")
    ensures r == Driver <==> column == Some("Driver")
  {
    match column
    case None => NoRole
    case Some(t) =>
      if t == "Rider" then Rider
      else if t == "Driver" then Driver
      else OtherRole(t)
  }

  /** The stored column value of a status. */
  function StatusText(s: Status): Option<string> {
    match s
    case Requested => Some("Requested")
    case Accepted => Some("Accepted")
    case Started => Some("Started")
    case Completed => Some("Completed")
    case Cancelled => Some("Cancelled")
    case OtherStatus(t) => Some(t)
    case NoStatus => None
  }

  /** The status test of the source (`ride.status == 'Started'`), on the column text. */
  predicate StatusIs(s: Status, text: string) {
    StatusText(s) == Some(text)
  }

  /** Reads a stored status column: the declared texts map to their case. */
  function StatusOf(column: Option<string>): (s: Status)
    ensures s.WellFormed()
    ensures s == Requested <==> column == Some("Requested")
    ensures s == Accepted <==> column == Some("Accepted")
    ensures s == Started <==> column == Some("Started")
    ensures s == Completed <==> column == Some("Completed")
    ensures s == Cancelled <==> column == Some("Cancelled")
    ensures s.NoStatus? <==> column.None?
  {
    match column
    case None => NoStatus
    case Some(t) =>
      if t == "Requested" then Requested
      else if t == "Accepted" then Accepted
      else if t == "Started" then Started
      else if t == "Completed" then Completed
      else if t == "Cancelled" then Cancelled
      else OtherStatus(t)
  }

  /** Reading a role column back after writing it gives the role again. */
  lemma RoleRoundTrip(r: Role)
    requires r.WellFormed()
    ensures RoleOf(RoleText(r)) == r
  {
  }

  /** Writing the role read from a column gives the column again. */
  lemma RoleColumnRoundTrip(column: Option<string>)
    ensures RoleText(RoleOf(column)) == column
  {
  }

  /** Reading a status column back after writing it gives the status again. */
  lemma StatusRoundTrip(s: Status)
    requires s.WellFormed()
    ensures StatusOf(StatusText(s)) == s
  {
  }

  /** Writing the status read from a column gives the column again. */
  lemma StatusColumnRoundTrip(column: Option<string>)
    ensures StatusText(StatusOf(column)) == column
  {
  }

  /** On canonical values the text tests of the guards are the case tests. */
  lemma TextTestsOnCanonical(r: Role, s: Status)
    requires r.WellFormed() && s.WellFormed()
    ensures RoleIs(r, "Rider") <==> r == Rider
    ensures RoleIs(r, "Driver") <==> r == Driver
    ensures StatusIs(s, "Requested") <==> s == Requested
    ensures StatusIs(s, "Started") <==> s == Started
  {
  }
}
