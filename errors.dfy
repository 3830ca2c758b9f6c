/** The exceptions the services throw for a missing entity. */
module Errors {
  import opened Entity

  datatype ServiceError =
    | NoSuchElement(id: Id)   // `Optional.orElseThrow()` on an absent email
    | EntityNotFound(id: Id)  // "Template not found: " + id
}
