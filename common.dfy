/** Types shared by every layer of the project-management backend model. */
module Common {

  /** Database identifiers (the source's `Long` ids, which are never negative). */
  type Id = nat

  /** A calendar day (`LocalDate`), counted in days from an arbitrary epoch. */
  type Date = int

  /** A Java reference that may be null, or a Spring Data `Optional`. */
  datatype Option<+T> = None | Some(value: T)

  /** The runtime exceptions a service call can end in instead of returning. */
  datatype Error =
    | IllegalArgument  // `Enum.valueOf` given a name that is not a constant
    | NullValue        // `Enum.valueOf(null)` and other dereferences of null

  /** A service call that either returns a value or throws. */
  datatype Result<+T> = Ok(value: T) | Err(error: Error)
}
