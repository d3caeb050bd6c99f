# Credential codec, input checks and user service of a small Go HTTP backend

This project is a Dafny model of the parts of the backend that hold logic:

- **The credential codec and check** (`internal/services/auth/utils/password.go` and
  `config.go`). `HashPassword` appends the server-wide pepper to the password and derives
  a 32-byte key with Argon2id (RFC 9106, version 0x13 = 19, section 3.1). The salt is
  16 random bytes. It writes the self-describing string
  `argon2id$v=19$t=2$m=65536$p=2$<salt>$<hash>`. Salt and hash use the standard alphabet
  of section 4 of RFC 4648 without padding, as section 3.2 of RFC 4648 allows. The string
  is not the PHC string format: it has no leading `$`, and t, m and p are separate fields.
  `VerifyPassword` splits the string on `$` and demands seven fields. It scans `t=`, `m=`
  and `p=` and decodes the salt and the hash. It derives the key again with the parameters
  and hash length read from the string, then compares in constant time.
- **Input checks** for users and products (the two `validation.go` files). It also
  models the id-from-path reader `getIDFromPath` of `internal/handlers/utils.go`.
- **The user service** (`internal/services/auth/auth.go`): Registration, Authorization,
  UpdateUser, GetUserByID and DeleteUser. They run over an in-memory `UserRepository`
  class that stands for the `users` table of `internal/database/users.go`.

Files, one module each: `wrappers.dfy` (Option, Result), `errors.dfy` (the error values),
`strings.dfy` (`strings.Split`, `strings.TrimSpace`), `numbers.dfy` (fixed-width integers,
`%d` formatting and scanning, `strconv.Atoi`), `base64.dfy` (`base64.RawStdEncoding`),
`models.dfy` (the records of `internal/models`), `config.dfy` (the cost constants),
`password.dfy`, `user_validation.dfy`, `product_validation.dfy`, `handlers.dfy`,
`auth_service.dfy`.

How the model stands in for what it cannot see:

- **Argon2id** is a parameter `kdf: KeyDerivation`. It is any deterministic function of
  (secret, salt, parameters, key length) that returns as many bytes as asked for, so every
  lemma holds for every such function. The library panics on a zero time cost, a zero
  parallelism or a zero key length. `VerifyPassword` can reach those values from a stored
  string (`t=0`, `p=0`, an empty hash field). The model reports that case as the distinct
  error `DerivationAbort` and does not call the function.
- **Randomness** is a parameter `RandomRead`: either a filled 16-byte salt or a read error.
- **The pepper** (`os.Getenv("PASSWORD_PEPPER")`) is a parameter of each operation.
- **The database** is the `UserRepository` class: a map from id to row and the next id.
  The next id stands for the sequence behind the `id` column. An insert draws a value from it
  before the uniqueness check, so a refused insert also uses one up. The class
  invariant says that ids start at 1 and that no two rows share an email. The table's
  definition is not part of the source. The unique email is the model's assumption: log-in
  looks a user up by email with `QueryRow`. A write that would break it fails with
  `ConstraintViolation`.

The model keeps these behaviours of the code:

- `HashPassword` checks for a randomness failure before it checks for an empty pepper.
- `VerifyPassword` does not check the pepper itself. `Authorization` refuses an empty pepper
  before it verifies (auth.go:55-58).
- A scan error and a base64 error are passed on to the caller. They are not replaced by the
  "invalid password hash format" error, which only a wrong field count produces.
- The re-derived key always has the stored hash's length, so the compare never sees two
  lengths. A 16-byte salt always gives a 22-character field, never 23.
- `UpdateUser` stores a new password as typed, without hashing it (COALESCE at
  `internal/database/users.go:127`). The model keeps this. `UpdatePasswordThenLogIn` shows
  the consequence: logging in with a new password that has no `$` fails with "invalid password
  hash format".

## Model

| member | source | states |
|---|---|---|
| `Password.CostParamsDerivable` | internal/services/auth/utils/config.go:4-8 | The fixed costs are time 2, memory 65536 KiB and parallelism 2, with a 32-byte key. All are non-zero, so the derivation accepts them. |
| `Password.HashPassword` | internal/services/auth/utils/password.go:14-45 | A randomness failure is reported first, then an empty pepper ("password pepper is not configured"). Success happens exactly when both are fine. On any error the string is empty. |
| `Password.FormatHash` | internal/services/auth/utils/password.go:41-44 | The credential is its seven fields (`argon2id`, `v=`, `t=`, `m=`, `p=`, salt, hash) joined by `$`. Its partners `SplitFormatHash` and `ParseFormatHash` read them back. |
| `Password.HashPasswordShape` | internal/services/auth/utils/password.go:41-44 | A new credential is `argon2id$v=19$t=2$m=65536$p=2$` + base64(salt) + `$` + base64(key). It splits into exactly 7 fields, and the salt and hash fields have 22 and 43 characters. |
| `Password.SplitFormatHash` | internal/services/auth/utils/password.go:41-44 | Splitting a written credential on `$` gives exactly its seven fields, because no digit and no base64 character is a `$`. |
| `Password.ParseHash` | internal/services/auth/utils/password.go:54-88 | Anything that does not split into 7 fields gives "invalid password hash format". With 7 fields, a t, m or p field that does not scan gives the scan error. Otherwise a salt that does not decode, then a hash that does not decode, gives the base64 error, the salt checked first. The read succeeds exactly when all three scans and both decodes succeed, and then it holds the scanned values and the decoded bytes. |
| `Password.ParseFormatHash` | internal/services/auth/utils/password.go:41-88 | Reading a written credential recovers exactly the t, m, p, salt bytes and hash bytes that were written, whatever the version. |
| `Password.Verify` | internal/services/auth/utils/password.go:50-108 | A result of `true` never comes with an error. A credential that cannot be read gives `false` with the read error. |
| `Password.VerifyFormatted` | internal/services/auth/utils/password.go:91-108 | On a written credential, the result is `true` exactly when the key derived with the stored parameters and stored hash length equals the stored hash. A mismatch is `(false, nil)`, not an error. Parameters the library refuses give `DerivationAbort`. |
| `Password.VerifyUnderStoredParameters` | internal/services/auth/utils/password.go:91-98 | A credential made with any accepted parameters verifies with its password and pepper. The check uses the stored parameters, not the current constants. |
| `Password.VerifyHashPassword` | internal/services/auth/utils/password.go:14-106 | Round trip: with a salt and a non-empty pepper, `HashPassword` succeeds. Verifying its credential with the same password and pepper gives `(true, nil)`. |
| `Password.OnlyParameterFieldsMatter` | internal/services/auth/utils/password.go:54-98 | Fields 0 and 1 are never inspected. Two 7-field strings that agree from field 2 on verify alike. |
| `Password.NoSeparatorIsMalformed` | internal/services/auth/utils/password.go:54-57 | A stored string with no `$`, such as a plain password, gives "invalid password hash format" and never `true`. |
| `Password.NotAHashIsMalformed` | internal/services/auth/utils/password.go:54-57 | "not-a-valid-hash" gives the format error, not `false`. |
| `Password.ConstantTimeByteEq` | internal/services/auth/utils/password.go:104 | Branch-free byte equality with 32-bit wrap-around: 1 exactly when the bytes are equal, else 0. |
| `Password.ConstantTimeCompare` | internal/services/auth/utils/password.go:104 | Returns 1 exactly when the slices are equal, else 0, so two empty slices are equal. For equal lengths the OR-of-XOR loop examines every byte, with no early exit. |
| `Password.VerifyPassword` | internal/services/auth/utils/password.go:50-109 | The method with the constant-time compare returns exactly `Verify`'s result. |
| `Base64.Encode` | internal/services/auth/utils/password.go:36-37 | Unpadded standard base64 has length (8n+5)/6, only alphabet characters, and so no `$`. |
| `Base64.Decode` | internal/services/auth/utils/password.go:80-88 | Decoding succeeds exactly when the length is not 1 mod 4 and every character is in the alphabet. The result has 6n/8 bytes. |
| `Base64.DecodeEncode` | internal/services/auth/utils/password.go:80-88 | Decoding what was encoded gives back the bytes. |
| `Numbers.ScanUnsigned` | internal/services/auth/utils/password.go:69-77 | A scan succeeds exactly when the field starts with its prefix, a run of digits follows, and their value is below the type's bound (2^32 for t and m, 2^8 for p). The value read is that of the digit run. Anything after the digits is ignored. |
| `Numbers.ScanDecimal` | internal/services/auth/utils/password.go:69-77 | Scanning `prefix + %d` recovers the number, whatever non-digit text follows it. |
| `Numbers.ScanOverflow` | internal/services/auth/utils/password.go:69-77 | A printed number at or above the bound is refused, not wrapped. For example, `t=4294967296` fails to scan. |
| `Numbers.Atoi` | internal/handlers/utils.go:43 | Reads the text exactly when it is an optional `+` or `-` followed by one or more digits and its value is an int64. The value is that of the digits, negated after a `-`. |
| `Numbers.AtoiFormatInt` | internal/handlers/utils.go:43 | `Atoi` reads back every int64 that `Itoa` prints. |
| `Numbers.AtoiSignedDigits` | internal/handlers/utils.go:43 | Every sign (none, `+` or `-`) followed by digits whose value is an int64 reads as that value. |
| `Numbers.AtoiOutOfRange` | internal/handlers/utils.go:43-46 | A number outside the int64 range is refused (`None`), not wrapped. |
| `Numbers.AtoiNonCanonical` | internal/handlers/utils.go:43 | Leading zeros and a `+` are accepted: "007" and "+7" both read as 7, and "0042" as 42. |
| `Handlers.GetIdFromPath` | internal/handlers/utils.go:30-48 | "invalid URL path" with id 0 happens exactly when there are fewer than 3 `/`-pieces. Otherwise the result is `Atoi` of the third piece: its value with no error, or "invalid product ID" with id 0 when it does not read. |
| `Handlers.IdFromFormattedPath` | internal/handlers/utils.go:35-47 | For every int64 n, `/<resource>/` + decimal(n) gives back n. |
| `Handlers.LaterSegmentsIgnored` | internal/handlers/utils.go:39 | Only the third piece is read. Appending further pieces does not change the result. |
| `Handlers.TrailingPieceExample` | internal/handlers/utils.go:39-47 | "/products/7/x" gives 7. |
| `Handlers.NegativeIdExample` | internal/handlers/utils.go:43-47 | "/users/-3" gives -3. There is no positivity check. |
| `Handlers.LeadingZeroIdExample` | internal/handlers/utils.go:39-47 | "/products/0042" gives 42. |
| `Handlers.MissingIdExample` | internal/handlers/utils.go:35-38 | "/products" gives "invalid URL path" and 0. |
| `Handlers.EmptyIdExample` | internal/handlers/utils.go:39-46 | "/products/" has an empty third piece and gives "invalid product ID" and 0. |
| `Handlers.NonNumericIdExample` | internal/handlers/utils.go:43-46 | "/users/abc" gives "invalid product ID" and 0, even on a user route. |
| `Strings.TrimSpace` | internal/services/auth/utils/validation.go:22 | The trimmed text is empty exactly when every character is Unicode white space. Otherwise it starts and ends with a non-space. |
| `Strings.Split` | internal/services/auth/utils/password.go:54 | `strings.Split` on one character gives at least one piece, and no piece holds the separator. Its partners `JoinSplit` and `SplitJoin` state that it inverts joining. |
| `Strings.JoinSplit` | internal/services/auth/utils/password.go:54 | Joining the pieces of a split with the separator gives back the string. |
| `Strings.SplitJoin` | internal/handlers/utils.go:35 | Splitting a join of pieces that hold no separator gives back the pieces. |
| `UserValidation.ValidateCreateUserInput` | internal/services/auth/utils/validation.go:21-32 | Passes exactly when no field is blank. Otherwise the first blank field, in the order email, name, password, decides the message. |
| `UserValidation.ValidateUpdateUserInput` | internal/services/auth/utils/validation.go:8-19 | The same checks in the same order, applied only to given fields. An absent field is never refused. |
| `UserValidation.UpdateNothingPasses` | internal/services/auth/utils/validation.go:8-19 | An update with every field absent passes. |
| `UserValidation.UpdateAllGivenAgreesWithCreate` | internal/services/auth/utils/validation.go:8-32 | With all fields given, update validation equals create validation. |
| `UserValidation.OneLetterPasses` | internal/services/auth/utils/validation.go:21-32 | There is no format or length check, so "x" is a valid email, name and password. |
| `ProductValidation.ValidateCreateProductInput` | internal/services/products/utils/validation.go:21-32 | Passes exactly when title and description are not blank and the price is positive. Otherwise the first failure, in the order title, description, price, decides the message. |
| `ProductValidation.ValidateUpdateProductInput` | internal/services/products/utils/validation.go:8-19 | The same checks in the same order, applied only to given fields. |
| `ProductValidation.UpdateNothingPasses` | internal/services/products/utils/validation.go:8-19 | An update with every field absent passes. |
| `ProductValidation.UpdateAllGivenAgreesWithCreate` | internal/services/products/utils/validation.go:8-32 | With all fields given, update validation equals create validation. |
| `ProductValidation.PriceBoundary` | internal/services/products/utils/validation.go:28-30 | With a good title and description, a price passes exactly when it is at least 1. There is no upper bound. |
| `AuthService.Coalesce` | internal/database/users.go:122-129 | An absent field keeps its stored value. A given field, the password included, replaces it as given. |
| `AuthService.UserRepository.GetUserByEmail` | internal/database/users.go:22-43 | Returns the row with that email, or "user with email <email> not found". |
| `AuthService.UserRepository.GetUserByID` | internal/database/users.go:76-96 | Returns the row with that id without its credential, or "user with id <id> not found". |
| `AuthService.UserRepository.CreateUser` | internal/database/users.go:98-118 | Inserts a row with the next id and the given password column, and returns it without the credential. An email in use leaves the rows unchanged, but the id sequence still advances. |
| `AuthService.UserRepository.UpdateUser` | internal/database/users.go:120-148 | Applies COALESCE to row `id`. A missing id is `pgx.ErrNoRows`, and the table is then unchanged. |
| `AuthService.UserRepository.DeleteUser` | internal/database/users.go:150-164 | Removes row `id`. A missing id is "user with id <id> not found", and the table is then unchanged. |
| `AuthService.UserService.Registration` | internal/services/auth/auth.go:23-46 | A validation failure returns before hashing or storing. A hashing failure, an empty pepper included, returns before storing. An email in use is refused, leaving the rows unchanged but using up one id. A success stores the row at the next id and advances the sequence by one. The stored password column is the credential, never the plaintext, and it verifies against the password and pepper. |
| `AuthService.UserService.Authorization` | internal/services/auth/auth.go:49-74 | A lookup error is returned unchanged. An empty pepper is refused before verifying. A verify error is returned, and `false` becomes "invalid password". Success returns the stored id, email and name. |
| `AuthService.UserService.GetUserByID` | internal/services/auth/auth.go:84-90 | Returns the repository's answer unchanged. |
| `AuthService.UserService.UpdateUser` | internal/services/auth/auth.go:92-101 | Validates, then passes the input unchanged to the repository. A validation failure leaves the table unchanged. A missing id gives `pgx.ErrNoRows`, and a new email held by another row gives the constraint error, both with the table unchanged. Otherwise COALESCE applies, and a new password is stored as typed. |
| `AuthService.UserService.DeleteUser` | internal/services/auth/auth.go:103-105 | Returns the repository's answer unchanged: the row is removed, or "user with id <id> not found" with the rows unchanged; the id sequence is kept. |
| `AuthService.RegisterThenLogIn` | internal/services/auth/auth.go:23-74 | On an empty table, a valid registration with a non-empty pepper is followed by a successful log-in, which returns the registered user. |
| `AuthService.UpdatePasswordThenLogIn` | internal/services/auth/auth.go:92-100 | For any user in any state of the table: after `UpdateUser` sets their password to non-blank text without `$`, log-in with their email and that password fails with "invalid password hash format", because the text was stored as typed. |

## Left out

- The Argon2id computation itself. It is a parameter, so nothing is proved about a wrong password failing: that would need collision resistance.
- `Password.Verify`: `argon2.IDKey` panics on a zero time cost or parallelism, and a zero key length makes it fail inside BLAKE2b. The server has no recover of its own, so `net/http` recovers the panic and drops that one request. The model returns `DerivationAbort` in these cases instead.
- `Password.Verify`: the cost of a derivation is not modelled. A stored `m=` near 2^32, which a password stored as typed by `UpdateUser` can hold, would ask Argon2 for about 4 TiB of memory.
- `Password.ParseHash`: every `fmt.Sscanf` error becomes the one value `ScanFailure`. Go's messages differ: "expected integer", "input does not match format", an unsigned overflow, or an unexpected end of input.
- That two calls of `HashPassword` pick different salts. The salt is an input, so this non-determinism cannot be stated.
- The real timing of the compare. Only its structure is stated: no early exit, and every byte is examined.
- The `fmt.Println` of the stored credential in `VerifyPassword` (password.go:51). It is logging output.
- The plaintext reset `input.Password = ""` in `Registration` (auth.go:34). `input` is a value parameter, so this overwrites `Registration`'s own copy; the caller's struct is untouched.
- `Numbers.ScanUnsigned`: the white space `fmt.Sscanf` skips before a number is not modelled. A field such as `t= 2` is refused, though Go accepts it.
- `Base64.Decode`: Go's decoder skips `\r` and `\n` inside the text. The model does not, and it does not carry the byte offset of a `CorruptInputError`.
- Strings are sequences of Unicode characters. Go's byte-level handling of invalid UTF-8 in `TrimSpace` and the `[]byte(...)` conversion are not modelled. The derivation receives the peppered string itself.
- `Handlers.GetIdFromPath`: Go's `int` is taken to be 64 bits wide.
- The rest of the repository: `GetAllUsers` (its row order comes from the database), the product repository and product service (pure delegation to the validators above), the HTTP handlers, `respondWithJSON`/`respondWithError`, routing, middleware and environment loading. These are I/O plumbing.
- Database failures other than a missing row and the modelled email constraint, such as lost connections and context cancellation.
