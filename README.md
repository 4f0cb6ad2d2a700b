# GameReview-Server user and feedback directories in Dafny

This project models the service layer of GameReview-Server, an ASP.NET backend
for game reviews. `UserService` keeps the Users table. It logs users in against
salted HMAC-SHA512 credentials, registers them under unique usernames, patches
and deletes them, and reports gender and platform shares. `FeedbackService` keeps
the Feedbacks table. It allows at most one feedback per user, looks feedback up
by author, and reports the mean rating and the positive and negative shares.

Each service is a class over its table, held as a `seq` in table order. Its
`Valid()` invariant states the table's keys: unique usernames and ids for users,
and one feedback per user. The methods that change a table state the new table
in terms of the old one. Each exception the source throws is a `Failure`
value. The controllers return an `AppError`'s message to the client for
`Register`, `Update` and `FeedbackService.Create`
(Controllers/UsersController.cs:102,159, Controllers/FeedbacksController.cs:60);
they do not catch the "Feedback not added yet" error of `GetByRef`
(Controllers/FeedbacksController.cs:89-94). An `ArgumentError` stands for an
`ArgumentException` from the password helpers; the controllers do not catch
those, and its text leaves out the parameter name that .NET appends to the
message.

The files:
- `wrappers.dfy`: `Option`, `Result`, `Outcome`.
- `text.dfy`: .NET `char.IsWhiteSpace` and `string.IsNullOrWhiteSpace`.
- `errors.dfy`: the exceptions and their messages.
- `entities.dfy`: the `User` and `Feedback` rows.
- `queries.dfy`: the LINQ lookups, counts and sums over a table.
- `reports.dfy`: percentages, means, and `NaN` for a 0/0 division.
- `passwords.dfy`: the creation and verification of credentials.
- `users.dfy`: `UserService`.
- `feedbacks.dfy`: `FeedbackService`.

Behaviour of the code that the contracts pin down:
- `VerifyPasswordHash` returns false at the first mismatching byte (Services/UserService.cs:293-296).
- `Register` refuses a blank password with the application error "Password is required" before it checks the username (Services/UserService.cs:160-165).
- `Login` returns null for an empty username or password, for a username no user has, and for a wrong password (Services/UserService.cs:104-115).
- The emptiness test in `Login` is `IsNullOrEmpty` (Services/UserService.cs:104), so a whitespace-only password gets past it. When the username is stored, `VerifyPasswordHash` then raises the argument error (Services/UserService.cs:286). For an unknown username the answer is still null.
- `GetUsersById` returns null for a missing id (Services/UserService.cs:142).

## Model

| member | source | states |
|---|---|---|
| Passwords.CreatePasswordHash | Services/UserService.cs:262-272 | fails with the empty-password argument error exactly when the password is blank; otherwise the generated 128-byte key is the salt and the hash is the MAC of the password under that key |
| Passwords.PasswordCheck | Services/UserService.cs:283-300 | argument errors in the source's order (blank password, hash not 64 bytes, salt not 128 bytes); succeeds exactly when all three checks pass, and then answers true iff each of the 64 recomputed bytes equals the stored byte |
| Passwords.VerifyPasswordHash | Services/UserService.cs:283-300 | the loop that returns false at the first mismatching byte gives exactly the answer of `PasswordCheck` |
| Passwords.HashRoundTrip | Services/UserService.cs:262-300 | credentials created from a non-blank password verify against that same password |
| Users.Authenticate | Services/UserService.cs:102-119 | null for an empty username or password and for a username no user has; a user returned is a stored user with exactly that username whose hash is the MAC of the password under its salt |
| Users.AuthenticateRegistered | Services/UserService.cs:104-118 | for a stored user with a non-empty username: a whitespace-only password raises the argument error; any other password returns that user iff its MAC matches the stored hash, and null otherwise |
| Users.CredentialsAuthenticate | Services/UserService.cs:167-176 | once a user's hash and salt were made from a password (by `Register` or a password `Update`), logging in with the username and that password returns the user |
| Users.RegisterPreservesTable | Services/UserService.cs:164-173 | appending a user whose username and id are new keeps ids and usernames unique and every row with credentials |
| Users.ReplacePreservesTable | Services/UserService.cs:197-232 | rewriting a row with the same id and a username that is unchanged or unused keeps the table invariant |
| Users.RemovePreservesTable | Services/UserService.cs:243-251 | removing a row keeps the invariant, and the remaining rows are exactly the old rows with a different id |
| Users.UserService.Login | Services/UserService.cs:102-119 | answers exactly `Authenticate` over the current table and changes nothing |
| Users.UserService.GetAllUsers | Services/UserService.cs:127-130 | returns the whole table in table order and changes nothing |
| Users.UserService.GetUsersById | Services/UserService.cs:140-143 | none (null) exactly when no user has the id; otherwise a stored user with that id |
| Users.UserService.Register | Services/UserService.cs:157-177 | "Password is required" on a blank password, then "already taken" when the username is in use, both leaving the table unchanged; success exactly otherwise, appending the user with the next id and hash and salt set together; uniqueness kept |
| Users.UserService.Update | Services/UserService.cs:189-234 | "User not found" for an unknown id; "already taken" when a non-blank username differing from the current one is in use; both leave the table unchanged; otherwise only the target row changes: username only when non-blank and different, each other field only when its patch value is non-blank, hash and salt together only for a non-blank password, id kept; uniqueness kept |
| Users.UserService.PatchProfile | Services/UserService.cs:206-229 | keeps id and username; first name, last name, gender and preferred platform each become the patch value when it is non-blank and stay as they were otherwise; a non-blank password replaces hash and salt together with the MAC under the fresh key and that key, a blank one keeps both |
| Users.UserService.Delete | Services/UserService.cs:243-251 | removes exactly the row with that id when present and changes nothing otherwise; afterwards the rows are exactly the old rows with a different id |
| Users.UserService.GetMaleFemaleRatio | Services/UserService.cs:308-351 | the total is the count of exact "Male", "Female" and "Other" genders, at most the number of users; each percentage is its tally's share of that total (NaN when it is 0), and the three add up to 100 when the total is positive |
| Users.UserService.GetPlatform | Services/UserService.cs:359-418 | the five exact-match tallies sum to at most the number of users; each percentage is its tally's share of their sum (NaN when it is 0), and the five add up to 100 when the sum is positive |
| Reports.Percentage | Services/UserService.cs:337-340 | NaN exactly when the total is 0; otherwise within [0, 100], 0 iff the part is 0 and 100 iff the part is the total |
| Reports.Complement | Services/FeedbackService.cs:148 | NaN stays NaN; otherwise the two values add up to 100 |
| Reports.Mean | Services/FeedbackService.cs:149 | NaN exactly when the count is 0; otherwise mean times count equals the sum |
| Reports.PercentagesOfThree | Services/UserService.cs:337-340 | three shares of their own positive total add up to 100 |
| Reports.PercentagesOfFive | Services/UserService.cs:401-406 | five shares of their own positive total add up to 100 |
| Reports.ComplementOfShare | Services/FeedbackService.cs:146-148 | 100 minus the positive share equals the negative tally's own share of the classified total |
| Reports.MeanWithin | Services/FeedbackService.cs:130-149 | the mean of ratings that all lie in [lo, hi] also lies in [lo, hi] |
| Queries.IndexOf | Services/FeedbackService.cs:103 | none exactly when the value is absent; otherwise the position of its first occurrence |
| Queries.Occurrences | Services/UserService.cs:321-335 | the number of exact matches, never more than the number of elements |
| Feedbacks.ClassifiedAtMostAll | Services/FeedbackService.cs:135-146 | the positive and negative tallies together count exact "Positive", "Semi Positive" and "Negative" types only, and never exceed the number of feedbacks |
| Feedbacks.AddedFeedbackIsFound | Services/FeedbackService.cs:73-106 | after a feedback is appended for a user without one, a lookup for that user finds the appended row |
| Feedbacks.FeedbackService.Create | Services/FeedbackService.cs:70-80 | "Feedback is already taken" when the user already has a feedback, table unchanged; otherwise appends the feedback with the next id and returns it; one feedback per user kept |
| Feedbacks.FeedbackService.GetAll | Services/FeedbackService.cs:88-91 | returns the whole table in table order and changes nothing |
| Feedbacks.FeedbackService.GetByRef | Services/FeedbackService.cs:101-107 | "Feedback not added yet" exactly when no feedback has that user reference; otherwise the first such feedback in table order |
| Feedbacks.FeedbackService.GetAverageRatings | Services/FeedbackService.cs:116-159 | rate is the mean of all ratings over all feedbacks, whatever their type (NaN when there are none); the total is the positive plus negative count, at most the number of feedbacks; the positive share is its percentage of that total, and the negative share is 100 minus it, which equals the negative count's own percentage; changes nothing |

## Left out

- HMAC-SHA512, UTF-8 encoding and random key generation are not modelled. The service holds an arbitrary `Mac` whose results are 64 bytes long. The fresh 128-byte key is a parameter of `Register` and `Update`. No cryptographic property is claimed.
- Null strings are modelled as the empty string. `IsNullOrEmpty` and `IsNullOrWhiteSpace` treat them alike, so every branch is the same. The one difference is the message: a null password raises `ArgumentNullException`, modelled as the blank-password argument error.
- Float arithmetic is replaced by exact reals. Float rounding, and float counters losing precision past 2^24, are not modelled. The one float outcome modelled is `NaN` from a 0/0 division.
- The database is modelled as sequences in insertion order. `SaveChanges` does nothing in the model. Collation is replaced by exact string equality. Each identity column is a counter that starts at 1. A caller-supplied id on `Register` or `Create` is overwritten by the counter.
- `SingleOrDefault` throws when two users match. That case is excluded by the unique-username invariant, which `Login` requires.
- Concurrency is not modelled. Two concurrent requests can both pass the check-then-act uniqueness tests; the model is sequential.
- The HTTP controllers, JWT creation, DTOs and AutoMapper profiles are not part of this model. The DTO fields are folded into the row datatypes.
- The `User` entity is a value, not an object. The source mutates the caller's entity in place and returns that same object. Aliasing of that object is not captured.
- Ids and ratings are unbounded integers. 32-bit overflow of the identity counter or of a rating is not modelled.
- Deleting a user leaves that user's feedback in place, as in the source. The two tables are separate objects and no cascade is modelled.
