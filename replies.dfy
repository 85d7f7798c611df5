/**
 * What a controller answers: a success status with a body, or an error status
 * with the JSON `message` it carries.
 */
module Replies {

  datatype Reply<T> = Success(code: nat, value: T) | Failure(code: nat, message: string)

  /** The text of a failed id cast. The library's full wording is not modelled, only its start. */
  const CastFailed: string := "Cast to ObjectId failed"

  /** The text of a failed schema validation on save (again only its start). */
  const ValidationFailed: string := "validation failed"
}
