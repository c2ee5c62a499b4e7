# story-book credential and session core, in Dafny

This project models the account and token core of the story-book book-shop
service and proves properties of that model. The core covers:

- the e-mail and password-strength validators;
- salted bcrypt hashing over a random salt;
- JWT issue and verification (HS256, `exp`/`sub`/`role` claims);
- the `Authorization: Bearer` middleware;
- the user service: sign-up, login, token refresh, security-question check,
  password change, profile update and deletion, over a user repository;
- the pure helpers of the book handlers: the data-URL image codec, the
  `page`/`limit` parsing of the list endpoint, and the role checks of the
  create, update and delete endpoints.

The files, one module each:

| file | module | what it holds |
|---|---|---|
| `wrappers.dfy` | `Wrappers` | `Option`, `Result`, `Outcome` |
| `errors.dfy` | `Errors` | the sentinel errors of all packages and their texts |
| `strings.dfy` | `Strings` | Go's `strings.Split`, `SplitN(…, 2)`, `Join`, `TrimPrefix`, `Count`, UTF-8 byte length |
| `base64.dfy` | `Base64` | `base64.StdEncoding`, after section 4 of RFC 4648, with its decode/encode round trip |
| `validate.dfy` | `Validate` | `IsValidEmail`, a recogniser for the e-mail regular expression; `IsStrongPassword`, a rune loop |
| `encrypt.dfy` | `Encrypt` | the salt drawn from an entropy class into an `array`; hashing and comparison over a bcrypt oracle |
| `jwt.dfy` | `Jwt` | claim-map construction by a loop; signing and parsing oracles; the expiry check; the claim copy loop |
| `auth.dfy` | `Auth` | the middleware over a request-context class |
| `replies.dfy` | `Replies` | the handlers' HTTP replies, and the context type assertion `c.Get(key).(string)` under the recovery middleware |
| `users.dfy` | `Users` | the repository as a class over a map; the user service as a class over it |
| `books.dfy` | `Books` | the image codec, `strconv.Atoi`, paging, role checks |

Cryptography is not modelled. The following are oracles, i.e. function-valued
fields of a datatype:

- bcrypt's generate and compare;
- JWT signing;
- JWT parsing, which includes the library's own signature and claim checks.

What the model assumes of bcrypt is stated as a ghost predicate, and each
lemma that relies on it takes it as a precondition:

- `AcceptsOwnHash`: a hash matches the password it was made from;
- `RejectsOtherPasswords`: a hash matches no other input, among inputs
  bcrypt reads whole: under 72 bytes, so that the input and its closing NUL
  fit bcrypt's key, and free of NUL;
- `ReadsKeyPrefix`: bcrypt decides on the first 72 bytes of its input, so
  inputs that agree on their first 72 runes get the same verdict.

Because the salt goes in front of the password, a salted password that
fills the 72-byte key is accepted with anything appended: the password rules
set no maximum length (`Encrypt.ExtendedPasswordAccepted`,
`Users.UserService.RegisteredUserExtendedPasswordLogsIn`).

`crypto/rand` is an `Entropy` object: a pool of bytes it will hand out, plus a
failure flag. The clock is a `now` parameter in Unix seconds. `uuid.NewString`
is a `freshId` parameter.

The model follows the code in these places, where a reader might expect otherwise:

- Deleting a user that does not exist is not an error. `Delete` passes gorm's
  result through, and gorm reports no error for a delete that matches no row.
- An update writes only the request's non-zero fields. This is gorm's
  `Updates(struct)` rule, and the model states it as `Users.Merge`. Without it,
  a profile update would erase the password, and a password change would
  erase the profile.
- The JWT expiry test is `now > int64(exp)`, applied only when `exp` decodes
  as a float. It is made on the truncated value.

## Model

| member | source | states |
|---|---|---|
| `Validate.IsValidEmail` | package/services/validateservice/validate.go:25-31 | the result is nil or `ErrBadEmail`; an accepted address has exactly one `@` |
| `Validate.EmailRecogniserMatchesPattern` | package/services/validateservice/validate.go:8-10 | the recogniser accepts exactly the strings the anchored pattern `^[a-zA-Z0-9._%+-]+@([a-zA-Z0-9-]+\.)+[a-zA-Z]{2,}$` matches (both directions) |
| `Validate.RecogniserSound` | package/services/validateservice/validate.go:8-10 | every accepted string is a local part, `@`, one or more `label.`, and a top label of two or more letters |
| `Validate.RecogniserComplete` | package/services/validateservice/validate.go:8-10 | every string of that pattern is accepted |
| `Validate.AcceptedDomainShape` | package/services/validateservice/validate.go:25-31 | the domain of an accepted address contains a dot, and neither starts nor ends with one |
| `Validate.AcceptsSimpleAddress` | package/services/validateservice/validate.go:25-31 | `a@b.com` is accepted |
| `Validate.RejectsAddressWithoutAt` | package/services/validateservice/validate.go:25-31 | `not-an-email` gives `ErrBadEmail` |
| `Validate.IsStrongPassword` | package/services/validateservice/validate.go:33-54 | the rune loop returns nil exactly when the password has at least `minPasswordSize` bytes and an upper-case letter, a lower-case letter and a digit; otherwise it returns `ErrBadPassword` |
| `Validate.InsertKeepsClass` | package/services/validateservice/validate.go:38-48 | inserting a rune outside a class neither creates nor removes a rune of that class |
| `Validate.OtherCharacterIsNeutral` | package/services/validateservice/validate.go:33-54 | once the length suffices, inserting a rune that is no letter or digit keeps the verdict |
| `Validate.PasswordExamples` | package/services/validateservice/validate.go:33-54 | with a minimum of 8: `short1` and `alllowercase1` are refused and `Valid123` is accepted |
| `Validate.ByteLengthNotRuneCount` | package/services/validateservice/validate.go:34 | the length test counts UTF-8 bytes: seven runes, one of them two bytes long, meet a minimum of 8 |
| `Encrypt.Entropy.Read` | package/services/encryptservice/encrypt.go:49 | fills the whole buffer from the front of the pool and consumes those bytes; a broken source or a short pool is an error and changes nothing |
| `Encrypt.Salt` | package/services/encryptservice/encrypt.go:53 | the salt is as long as the byte count, made of base64 symbols only, never padding |
| `Encrypt.SaltGeneration` | package/services/encryptservice/encrypt.go:47-54 | a failed read gives the joined `ErrGeneratingSalt`; otherwise the salt is `Salt` of the next `SaltLength` pool bytes, which are consumed |
| `Encrypt.HashWithSalt` | package/services/encryptservice/encrypt.go:31-35 | bcrypt is applied to `salt + password` at `MinCost`; its error is joined to `ErrHashingPassword`; on success the salt is returned with the hash |
| `Encrypt.HashPassword` | package/services/encryptservice/encrypt.go:26-36 | a salt failure becomes the bare `ErrGeneratingSalt`; otherwise the result is `HashWithSalt` with the drawn salt |
| `Encrypt.PasswordComparison` | package/services/encryptservice/encrypt.go:38-45 | passes exactly when bcrypt accepts `salt + password` for the hash; a failure is joined to `ErrInvalidPassword` |
| `Encrypt.HashThenCompare` | package/services/encryptservice/encrypt.go:26-45 | if bcrypt accepts its own hashes, the hash and salt returned by hashing make the comparison pass for the same password |
| `Encrypt.HashRejectsOtherPassword` | package/services/encryptservice/encrypt.go:26-45 | if bcrypt matches no other input it reads whole, a different password fails the comparison with `ErrInvalidPassword`, provided both salted passwords are under 72 bytes and free of NUL |
| `Encrypt.SharedKeyPrefixAccepted` | package/services/encryptservice/encrypt.go:26-45 | if bcrypt reads only its first 72 bytes, a password whose salted form agrees with the hashed one on the first 72 runes passes the comparison |
| `Encrypt.ExtendedPasswordAccepted` | package/services/encryptservice/encrypt.go:26-45 | a salted password of 72 runes or more passes with any character appended, and that is a different password |
| `Jwt.ClaimsOf` | package/services/jwtservice/jwt.go:32-42 | when `sub` is absent from the data, the claim map is the one the loop builds, whatever order it visits the keys in |
| `Jwt.ClaimsDetermined` | package/services/jwtservice/jwt.go:32-42 | when `sub` is absent, a claim map satisfies the loop's specification exactly when it equals `ClaimsOf` |
| `Jwt.BuildClaims` | package/services/jwtservice/jwt.go:32-42 | the loop yields `exp`, then every entry, with `id` renamed to `sub`; a `sub` collision is left to the iteration order |
| `Jwt.Signed` | package/services/jwtservice/jwt.go:44-51 | the token is the signer's output; a signing error is joined to `ErrSignToken`; the expiry is returned with it |
| `Jwt.GenerateJWT` | package/services/jwtservice/jwt.go:31-52 | signs the built claims; `exp` is the caller's if present, else `expiresAt` |
| `Jwt.GenerateAccessJWT` | package/services/jwtservice/jwt.go:61-66 | removes `exp` from the caller's map, and signs the claims with `exp = now + AccessDuration` |
| `Jwt.GenerateRefreshJWT` | package/services/jwtservice/jwt.go:54-59 | the same, with `RefreshDuration` |
| `Jwt.Trunc` | package/services/jwtservice/jwt.go:86 | `int64(exp)` truncates toward zero |
| `Jwt.Verify` | package/services/jwtservice/jwt.go:68-97 | success exactly when the library accepted an HMAC token with valid map claims and `now <= int64(exp)`; returns the claims unchanged; each error is listed with its exact condition (both directions) |
| `Jwt.CopyClaims` | package/services/jwtservice/jwt.go:91-94 | the loop's copy equals the claim map |
| `Jwt.ParseJWT` | package/services/jwtservice/jwt.go:68-97 | the result is `Verify` of the parser's verdict |
| `Jwt.ExpiryBoundary` | package/services/jwtservice/jwt.go:85-89 | with an integral `exp = e`, the token is accepted exactly when `now <= e`; later it fails with `ErrLifetimeIsOver` |
| `Jwt.NoNumericExpNeverExpires` | package/services/jwtservice/jwt.go:85-89 | without a numeric `exp`, the code's own check never rejects |
| `Jwt.LifetimeRoundTrip` | package/services/jwtservice/jwt.go:54-97 | for a token issued with lifetime `L` at `now`, whose claims the library returns with JSON numbers as floats: when the library accepts it, it verifies exactly at times `<= now + L`. After `now + L` it is always refused. The code's own `ErrLifetimeIsOver` is the reason only when the library accepted the late token; a library that checks `exp` itself refuses it first, as the wrapped `ErrUnexpectedSigningMethod` |
| `Auth.BearerToken` | internal/middlewares/auth.go:14-22 | an empty header is missing; an accepted header is `Bearer ` + the token, and the token has no space |
| `Auth.BearerFormat` | internal/middlewares/auth.go:19-22 | the format check passes exactly for `Bearer ` followed by a token without spaces |
| `Auth.BearerAccepted` | internal/middlewares/auth.go:19-22 | every such header passes, with that token |
| `Auth.OtherSchemeRejected` | internal/middlewares/auth.go:19-22 | `Token abc` is an invalid header |
| `Auth.DoubleSpaceRejected` | internal/middlewares/auth.go:19-22 | `Bearer  abc` (two spaces) is an invalid header |
| `Auth.EmptyTokenPasses` | internal/middlewares/auth.go:19-22 | `Bearer ` passes the format check with the empty token, which is left to the verifier |
| `Auth.Authenticate` | internal/middlewares/auth.go:14-27 | format errors come first; otherwise the outcome is `Verify` of the parsed token |
| `Auth.FormatErrorsSkipVerifier` | internal/middlewares/auth.go:15-22 | a header that fails the format check is refused whatever the verifier would say |
| `Auth.Middleware` | internal/middlewares/auth.go:11-35 | every failure is a 401 with the error's text, the context untouched and the next handler not run; on success exactly `id := claims["sub"]` and `role := claims["role"]` are set, and the next handler runs once |
| `Users.Merge` | internal/services/userservice/repository.go:50-56 | an all-zero request leaves the record as it is; points are replaced only by a non-zero value |
| `Users.MergeIdempotent` | internal/services/userservice/repository.go:50-56 | applying the same update twice is applying it once |
| `Users.ProfileUpdateKeepsRoleAndCredentials` | internal/services/userservice/handler.go:278-287 | the profile request cannot change role, points, password or salt |
| `Users.PasswordChangeTouchesOnlyCredentials` | internal/services/userservice/handler.go:332-335 | the password request, once hashed, changes exactly the stored password and salt |
| `Users.UserStore.Create` | internal/services/userservice/repository.go:19-21 | inserts the row under its id; a failing database or a taken id is an error, and then nothing is inserted |
| `Users.UserStore.ReadByEmail` | internal/services/userservice/repository.go:23-34 | returns a stored row with that address, `ErrUserNotFound` when there is none, or the database error; the row returned is the one stored under its id |
| `Users.UserStore.ReadById` | internal/services/userservice/repository.go:36-48 | returns the row with that id, `ErrUserNotFound`, or the database error |
| `Users.UserStore.Update` | internal/services/userservice/repository.go:50-67 | merges the request into the row with its id and returns the result; a missing row is `ErrUserNotFound` and nothing changes |
| `Users.UserStore.Delete` | internal/services/userservice/repository.go:69-71 | removes the row if present; a missing row is not an error; an empty id is refused by the database layer as a delete without a condition, and nothing changes |
| `Users.Identity` | internal/services/userservice/service.go:46-48 | the token map holds exactly `id` and `role` |
| `Users.IdentityClaims` | internal/services/userservice/service.go:46-58 | a token for an identity carries exactly `exp`, `sub` = id and `role` |
| `Users.Tokens` | internal/services/userservice/service.go:50-60 | the access token is issued first, then the refresh token; the first signing error is returned |
| `Users.UserService.IssueTokens` | internal/services/userservice/service.go:164-178 | the tokens equal `Tokens`, although both generators share and modify one map |
| `Users.UserService.LoginWith` | internal/services/userservice/service.go:42-60 | a failed comparison returns its error; otherwise the tokens for the stored id and role |
| `Users.UserService.Login` | internal/services/userservice/service.go:33-61 | a database error or an unknown address is returned as is; otherwise the outcome is `LoginWith` for a stored user with that address; the store is not changed |
| `Users.UserService.Registered` | internal/services/userservice/service.go:89-92 | the stored record is the request with a new id, the hash, the salt and role `client`, and nothing else changed |
| `Users.UserService.SignUp` | internal/services/userservice/service.go:63-114 | the checks run in order: lookup, existing account, e-mail, password. The first failure stores nothing and draws no salt. A salt or hashing failure stores nothing. A taken id is a database error. On success the record is stored under the new id. A token failure keeps the record and returns it with empty tokens. Every failure returns empty tokens |
| `Users.UserService.ReadUserById` | internal/services/userservice/service.go:116-123 | the repository's answer |
| `Users.UserService.UpdateUser` | internal/services/userservice/service.go:125-134 | the repository's merge of the request, or its error |
| `Users.UserService.UpdatePassword` | internal/services/userservice/service.go:136-153 | a weak password changes nothing and draws no salt; otherwise the new hash and salt are merged into the stored record; store errors are passed through |
| `Users.UserService.DeleteUser` | internal/services/userservice/service.go:155-162 | the repository's delete, including its refusal of an empty id |
| `Users.UserService.RefreshTokens` | internal/services/userservice/service.go:164-179 | the tokens for the given id and role, without consulting the store |
| `Users.UserService.ResetPassword` | internal/services/userservice/service.go:181-195 | succeeds exactly when the answer equals the stored one, and otherwise fails with `ErrWrongAnswer`; an unknown id or a failing database is an error; nothing is written |
| `Users.UserService.RegisteredUserCanLogIn` | internal/services/userservice/service.go:42-114 | a record stored by sign-up logs in with its password, getting tokens for its id and role `client` |
| `Users.UserService.RegisteredUserOtherPasswordRefused` | internal/services/userservice/service.go:42-44 | any other password is refused with `ErrInvalidPassword`, when both salted passwords are under 72 bytes and free of NUL |
| `Users.UserService.RegisteredUserExtendedPasswordLogsIn` | internal/services/userservice/service.go:42-60 | when the salted password is 72 runes or more, the password with any character appended logs in too, with the record's tokens |
| `Users.ReadUserChecks` | internal/services/userservice/handler.go:215-227 | an empty id is 400; a context `role` that is not a string is a 500 panic; a client's context `id` must be a string (else 500) equal to the requested id (else 403); any other role passes |
| `Users.IssuedIdentityReadsBack` | internal/services/userservice/service.go:46-48 | a token the service issued, read back by the middleware, puts its `id` and `role` in the context as strings, so no handler panics on it |
| `Users.ClientReadsOnlyOwnRecord` | internal/services/userservice/handler.go:221-227 | with a client's issued token, a nonempty id passes exactly when it is the client's own; any other is 403 |
| `Users.StaffReadsEveryRecord` | internal/services/userservice/handler.go:221-227 | with an issued token of any other role, every nonempty id passes |
| `Replies.AsString` | internal/services/bookservice/handler.go:47 | `c.Get(key).(string)` under the recovery middleware: the string, or the 500 reply for any other value |
| `Auth.ContextRoleAfterMiddleware` | internal/middlewares/auth.go:29-30 | the `role` the middleware stores reads back as a string only when the token's `role` claim is a string; an absent or other claim makes the handler panic |
| `Books.FromBytesToString` | internal/services/bookservice/handler.go:340-349 | nil gives the empty string; any other slice gives a `data:` URL |
| `Books.FromStringToBytes` | internal/services/bookservice/handler.go:351-377 | empty input is no image. Only empty input gives no image. `invalid data url` is returned exactly for a `data:` text without a comma. Text without `data:` is plain base64 with no mime type: it is accepted exactly when it decodes, and the image is its decoded bytes. A `data:` text with a comma is accepted exactly when the part after the first comma decodes, and the image is those bytes |
| `Books.DataUrlDecoding` | internal/services/bookservice/handler.go:362-376 | in a `data:` URL, the mime type is the text up to the first `;`; the payload after the first comma is base64-decoded whatever the parameters say |
| `Books.DataUrlRoundTrip` | internal/services/bookservice/handler.go:340-377 | for bytes `b` and a mime type without `,` or `;`, decoding the encoding of `b` gives back `b` and the mime type, or `image/png` if the mime type was empty |
| `Books.NilRoundTrip` | internal/services/bookservice/handler.go:340-354 | no image reads back as no image |
| `Books.PlainBase64Accepted` | internal/services/bookservice/handler.go:357-360 | plain base64 of nonempty bytes is accepted, with no mime type |
| `Books.NotDataUrl` | internal/services/bookservice/handler.go:357 | base64 text never starts with `data:` |
| `Books.MimeNeedsSemicolon` | internal/services/bookservice/handler.go:370-373 | `data:<mime>,<payload>`, for any mime text without `,` or `;` and any payload, gives the decoded payload with an empty mime type, or the base64 error when the payload does not decode |
| `Books.MimeNeedsSemicolonRoundTrip` | internal/services/bookservice/handler.go:370-373 | an encoded image under such a header reads back as the same bytes with no mime type |
| `Books.Deref` | internal/services/bookservice/handler.go:331-338 | nil gives the zero value; otherwise the value pointed to |
| `Books.Atoi` | internal/services/bookservice/handler.go:165-178 | `strconv.Atoi`: an optional sign, then decimal digits only; the result lies in the `int64` range and is the digits' value, negated after `-`; unsigned digits whose value fits are always accepted |
| `Books.AtoiSigned` | internal/services/bookservice/handler.go:165-178 | `+digits` is accepted as their value and `-digits` as its negation, each exactly when the result fits in `int64` |
| `Books.AtoiExamples` | internal/services/bookservice/handler.go:165-178 | `+5` is 5, `007` is 7, `-0` is 0; `1x`, the empty text and a lone `-` are refused |
| `Books.NatDigits` | internal/services/bookservice/handler.go:165-178 | the decimal digits of `n`, which read back as `n`, without leading zeros |
| `Books.AtoiItoa` | internal/services/bookservice/handler.go:165-178 | `Atoi` reads back every `int64` written in decimal |
| `Books.ParsePaging` | internal/services/bookservice/handler.go:158-179 | absent values default to 1 and 10; a present value must parse to at least 1, else `invalid page` or `invalid limit`, and the page is checked first |
| `Books.ImageOf` | internal/services/bookservice/handler.go:57-65 | an absent image is none; a present one must decode, else `invalid image` |
| `Books.CreateChecks` | internal/services/bookservice/handler.go:46-65 | a context `role` that is not a string is a 500 panic; a client gets 403 before the body is read; then an unbound body gives 400; then the image must decode |
| `Books.UpdateChecks` | internal/services/bookservice/handler.go:223-250 | the same order, including the 500 for a non-string role, with an empty id giving 400 before the image is looked at |
| `Books.DeleteChecks` | internal/services/bookservice/handler.go:306-316 | passes exactly for a string role other than `client` and a nonempty id; the role is checked first, and a non-string role is a 500 panic |
| `Books.StaffUpdateKeepsImage` | internal/services/bookservice/handler.go:223-262 | a non-client update with an image written by the codec passes that image's bytes and mime type on |
| `Base64.RoundTrip` | internal/services/bookservice/handler.go:347-348 | `base64.StdEncoding` decoding undoes encoding, for every byte string |
| `Base64.EncodeAlphabet` | package/services/encryptservice/encrypt.go:53 | the encoding holds only symbols and `=`, and its first `n` characters, for `n` bytes, are symbols |
| `Strings.JoinSplit` | internal/middlewares/auth.go:19 | joining the pieces of `strings.Split` gives back the string |
| `Strings.SplitJoin` | internal/middlewares/auth.go:19 | splitting the join of separator-free pieces gives back the pieces |
| `Strings.SplitCount` | internal/middlewares/auth.go:19-20 | `strings.Split` gives one more piece than there are separators |

## Left out

- `Encrypt.HashRejectsOtherPassword` and
  `Users.UserService.RegisteredUserOtherPasswordRefused` hold only for salted
  passwords under 72 bytes without NUL: bcrypt reads only the first 72 bytes
  of its key, so the program accepts a different password that shares them.
  Whether `GenerateFromPassword` refuses inputs over 72 bytes depends on the
  library version, and is left to the `generate` oracle.
- Cryptography is not modelled: bcrypt, HMAC-SHA256 signing, the JWT
  encoding and the library's signature check are oracles. Nothing is
  claimed about irreversibility, unforgeability or salt unpredictability.
  The bcrypt hypotheses are ghost predicates, required by the lemmas that
  use them.
- Salt uniqueness across calls is not modelled. A salt is meant to differ
  from one hash to the next, but that
  depends on the randomness of `crypto/rand`, and here the entropy source is
  a given byte pool.
- The library's own claim validation inside `jwt.Parse` is an oracle that is
  given the clock. That it applies the same `exp` rule as the code, skipping
  an `exp` whose integer part is 0, is the hypothesis `Jwt.ChecksExpiry`,
  not a proved fact.
- Token tampering, and which algorithms the header may name, are not modelled
  beyond the parser's `hmac` flag.
- Time is whole Unix seconds. `time.Duration` nanoseconds and the monotonic
  clock are not modelled. The access and refresh tokens of one call share
  `now`; in the code they read the clock twice.
- Float precision of the JSON round trip of `exp` is not modelled: an integer
  `exp` is assumed to come back as the same float.
- `int64(exp)` for a float outside the `int64` range is not modelled.
- `Validate.IsStrongPassword`: `unicode.IsUpper`, `IsLower` and `IsDigit`
  are restricted to ASCII letters and digits. Other letters and digits count
  as neither.
- Invalid UTF-8 in strings is not modelled: a string is a sequence of runes,
  and its byte length is computed from them.
- `Base64.Decode` returns no bytes on illegal input. Go returns the bytes
  decoded so far, together with the error offset; the callers here discard
  them.
- `Books.FromStringToBytes`: the base64 error text omits the byte offset.
- The request body binding of the book endpoints is a boolean, "the body
  bound".
- The body of the 500 reply after a recovered panic is echo's default; the
  model's text for it is a placeholder.
- The handlers' JSON replies, status selection other than the checks
  modelled, and the context timeouts are HTTP plumbing and are not modelled.
- The `ReadBooks` response assembly (`make` of length n, then `append`) is
  HTTP plumbing and is not modelled.
- The book repository and book service are not modelled: they are
  pass-through database calls.
- `Users.UserStore.ReadByEmail`: the row chosen among several with the same
  address is left open. gorm's `First` takes the lowest primary key.
- Deletion is modelled as removal. The database soft-deletes, so the id of a
  deleted row stays taken for inserts.
- The database error texts are placeholders: a failing database has one
  error text, and a taken id has a duplicate-key text.
- `Users.UserStore.Update`: a missing row is modelled as `ErrUserNotFound`,
  the error the wrapper maps. Whether gorm's `Updates(...).Scan` reports a
  missing row is library behaviour and is not modelled.
- Mutation of the caller's `*entities.User` by `SignUp` and `UpdatePassword`
  is not modelled. The record `SignUp` stores is returned instead.
- The `user == nil` checks after a nil error in `Login` and `ResetPassword`
  are not modelled: the repository never returns both nil, so they cannot be
  reached.
- A negative `SaltLength`, which makes `make` panic, is not modelled: the
  length is a `nat`.
- Go's map iteration order in `generateJWT` is not modelled: the loop picks
  keys by a choice. When the data holds both `id` and `sub`, the final `sub`
  is left open, as in Go. The token contracts that name the exact claim map
  require `sub` to be absent.
- Startup, configuration, the database connection and the HTTP server are
  not modelled.
