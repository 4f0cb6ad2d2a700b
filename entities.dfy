/** The two database tables' row types. */
module Entities {

  newtype byte = b: int | 0 <= b < 256

  /** A row of the Users table. `passwordHash` and `passwordSalt` are the
      HMAC-SHA512 output and key of the user's password. */
  datatype User = User(
    id: int,
    firstName: string,
    lastName: string,
    username: string,
    gender: string,
    preferredPlatform: string,
    passwordHash: seq<byte>,
    passwordSalt: seq<byte>)

  /** A row of the Feedbacks table; `userRef` is the id of the user who wrote it. */
  datatype Feedback = Feedback(
    id: int,
    comment: string,
    feedbackType: string,
    ratings: int,
    userRef: int)
}
