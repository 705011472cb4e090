/** Shared vocabulary: optional values and the roles of the organisation. */
module Basics {
  datatype Option<+T> = None | Some(value: T)

  /** The role strings of the system; any other string is Other. */
  datatype Role = Intern | Employee | Manager | Hr | Admin | SuperAdmin | Other(name: string)

  /** The seniority table; a string that is not in the table reads as 0. */
  function Level(r: Role): nat {
    match r
    case Other(_) => 0
    case Intern => 1
    case Employee => 2
    case Manager => 3
    case Hr => 4
    case Admin => 5
    case SuperAdmin => 6
  }

  predicate IsApprover(r: Role) {
    r.Manager? || r.Hr? || r.Admin? || r.SuperAdmin?
  }
}
