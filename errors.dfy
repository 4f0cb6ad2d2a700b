/** The exceptions the services raise. The controllers return an `AppError`'s
    message to the client for `Register`, `Update` and feedback `Create`; they do
    not catch the one `GetByRef` raises, nor any `ArgumentError`, whose message
    here omits the parameter name .NET appends to it. */
module Errors {

  datatype Error =
    /** `ArgumentException` / `ArgumentNullException` from the password helpers */
    | ArgumentError(message: string)
    /** `AppException`, the application's own domain error */
    | AppError(message: string)

  const EmptyPasswordMessage := "Value cannot be empty or whitespace only string."
  const HashLengthMessage := "Invalid length of password hash (64 bytes expected)."
  const SaltLengthMessage := "Invalid length of password salt (128 bytes expected)."
}
