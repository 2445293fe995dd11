/** The application-level error kinds shared by the domain, operations and wire crates. */
module AppErrors {
  import opened Uuids

  datatype ApplicationError =
    | InvalidArgument(argument: string, reason: string)
    | NotFound(resource: string, id: Uuid)
    | Internal(report: string)

  /**
   * `ApplicationError::invalid_argument(reason)`: the helper's body is not part
   * of this model, so the argument name is left empty and the message is the reason.
   */
  function InvalidArgumentError(reason: string): ApplicationError {
    InvalidArgument("", reason)
  }
}
