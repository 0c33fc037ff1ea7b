# Chirpy: credentials, chirps and admin state, modelled in Dafny

Chirpy is a small Go web server: users register and log in with an email and
a password, post short "chirps" that are screened for length and censored
for profanity, and an admin endpoint shows and resets a page-hit counter.
This project models the decision logic of that server and proves what it
promises:

- **auth package** (`auth.dfy`, with the Argon2id library interface in
  `argon2id.dfy`). `HashPassword` always uses one fixed Argon2id parameter
  set. `CheckPassword` reports every non-match, a malformed hash included, as
  the single `ErrMismatchedHashAndPassword`. The package state
  (`DummyPassword`, `DummyHash`) is a class. Its `Initialize` fills the
  32-byte buffer in place with random bytes and stores the hash of that
  password, or ends the process when hashing fails.
- **user handlers** (`users.dfy`). `createUser` rejects empty fields. It
  stores only the hash and fails closed when hashing fails. `login` performs
  exactly one password check on every request with both fields. That check
  uses the dummy hash whenever the lookup returned an error, and every
  failure gets one identical 401 reply.
- **chirp handlers** (`chirps.dfy`). `validate_chirp`, `createChirp`,
  `getChirp` and `getAllChirps`, with the rune-count length rule applied
  before censoring.
- **censor** (`censor.dfy`, on top of `text.dfy`, which models `strings.Split`,
  `strings.Join` and `strings.ToLower`). This is the in-place word-replacement
  loop, specified by the function `Censored`. The lemmas prove that the word
  count and every non-profane word are preserved, and that censoring is
  idempotent.
- **server state** (`server.dfy`). The hit counter, the metrics middleware,
  and both versions of the admin reset.
- **models and store** (`models.dfy`, `store.dfy`). The record shapes, the
  `ResponseFrom` projection, and the database as an email-keyed table whose
  queries can find a row, find none, or fail.

The handlers whose database and auth calls the model records (`createUser`,
`login`, `createChirp`, `getChirp`) are functions from their decoded inputs
to a `Handled` value. That value holds the reply (status, body, whether it
was logged) and the ordered list of calls the handler made
(`Effects.Effect`): lookups, inserts, `HashPassword` and `CheckPassword`.
The other handlers (`validate_chirp`, `getAllChirps`, `metrics` and both
resets) return the reply, a `Replies.Response`, alone: `getAllChirps` takes
the query's result as its input, and the later `reset` takes the failure of
its delete query as a flag. Counting `CheckCall` entries stands in
for measuring login latency.

The Argon2id library (RFC 9106) is a record of three functions:
`createHash`, `comparePasswordAndHash` and `paramsOf`. What the auth
package relies on it for is stated as hypotheses that lemmas require:

- `RoundTrip`: a created hash verifies its own password.
- `SelfDescribing`: an encoded hash records its parameters.
- `Discriminating`: an idealised no-collision property.

Randomness is supplied as parameters: the salt bytes the library draws, and
the 32 bytes `rand.Read` writes into `DummyPassword`.

In three places the code is looser than a careful design would be. The model
follows the code as written:

- `login` sends every lookup error to the dummy path and answers 401
  (handlers.go:292-293, handlers.go:302). It does not answer a distinct 500
  for a failed query. `Users.Login` and `Users.LoginWithoutRowUsesDummy`
  state this.
- `CheckPassword` has no distinct "malformed hash" outcome
  (internal/auth/auth.go:49-51).
- A failed insert, whether a duplicate email or an unknown `user_id`, is
  answered 500 "Failed to create user" or "Failed to create chirp"
  (handlers.go:248-255, handlers.go:124-131), not a 4xx.
  `Users.CreateUser` and `Chirps.CreateChirp` state this.

Two constants are defined in files that are not part of this model.
`maxChirpLength` (handlers.go:113) is taken to be 140, the value main.go:86
fixes for the earlier version. `devPlatform` (handlers.go:62) is taken to be
`"dev"`. main.go and utils.go both contain `censorProfanity`
(main.go:129-142, utils.go:49-61) and `respondWithError`. The two copies are
identical, so each is modelled once.

## Model

| member | source | states |
|---|---|---|
| Auth.HashPassword | internal/auth/auth.go:32-41 | succeeds exactly when the library's `CreateHash` succeeds with the fixed parameter set |
| Auth.HashPasswordParams | internal/auth/auth.go:17-40 | every hash `HashPassword` returns records memory 19·1024 KiB, 2 iterations, parallelism 1, 16-byte salt, 32-byte key; no per-call variation |
| Auth.CheckPassword | internal/auth/auth.go:45-52 | nil if and only if the library reports a match with no error; every non-match is `ErrMismatchedHashAndPassword`; a match reported with an error returns that error |
| Auth.MalformedHashIsMismatch | internal/auth/auth.go:49-51 | a library error on a non-match (a malformed hash) comes back as the ordinary mismatch error, not as a distinct outcome |
| Auth.HashThenCheck | internal/auth/auth.go:56-58 | under the round-trip hypothesis, a password checks against its own hash |
| Auth.HashThenCheckOther | internal/auth/auth.go:45-51 | under the no-collision hypothesis, any other password gets the mismatch error |
| Auth.BytesToString | internal/auth/auth.go:67 | `string(DummyPassword)` has one character per byte |
| Auth.BytesToStringInjective | internal/auth/auth.go:64-67 | different dummy byte buffers give different dummy passwords |
| Auth.AuthPackage.constructor | internal/auth/auth.go:55-58 | before initialisation: a zeroed buffer of exactly 32 bytes and an empty `DummyHash` |
| Auth.AuthPackage.DummyPasswordText | internal/auth/auth.go:67 | the dummy password string has as many characters as the buffer has bytes |
| Auth.AuthPackage.Initialize | internal/auth/auth.go:61-70 | the buffer holds the random bytes; then either `DummyHash` is `HashPassword(string(DummyPassword))` and the package is initialised, or hashing failed and the process has terminated |
| Auth.DummyHashVerifies | internal/auth/auth.go:56-58 | after initialisation `DummyHash` is a valid hash: the dummy password checks against it |
| Auth.DummyHashParams | internal/auth/auth.go:66-67 | the dummy hash records the same fixed parameters as every stored hash, so checking against it costs the same |
| Models.ResponseFrom | models.go:27-33 | copies ID, CreatedAt, UpdatedAt and Email unchanged |
| Models.ResponseFromIgnoresHash | models.go:18-33 | two users give the same response exactly when their four public fields agree, so the hash never shows |
| Models.ChirpFrom | handlers.go:132 | `Chirp(dbChirp)` copies all five fields (id, timestamps, body, user id) unchanged; also used at handlers.go:149 and handlers.go:201 |
| Models.ChirpConversionRoundTrip | models.go:10-16 | `Chirp(dbChirp)` and the conversion back are inverse, so every field is preserved |
| Store.Find | handlers.go:178-199 | a query finds the row, reports no rows exactly when the key is absent, or fails exactly when the store fails |
| Store.CreateUser | handlers.go:222-248 | the insert succeeds exactly when the store works and the email is new, and stores the given hash |
| Store.CreateChirp | handlers.go:101-124 | the insert succeeds exactly when the store works and the user id exists, and stores the given body |
| Replies.RespondWithJson | utils.go:27-36 | the reply carries exactly the given status and body and is never logged as a server error |
| Replies.WriteHeader | handlers.go:63 | a bare status with no body, not logged (also handlers.go:81 and main.go:82) |
| Replies.RespondWithError | utils.go:38-46 | the given status, the body `{"error": msg}`, logged exactly when the status is 500 or more |
| Users.CreateUser | handlers.go:210-260 | parse failure 500 and empty fields 400, neither hashing nor storing; a hashing failure 500 after the one hash call and with no insert; otherwise the hash call then one insert of the email with the hash; 201 exactly when all succeed, with the public user, not logged; a failed insert (store failure or duplicate email) 500 "Failed to create user" |
| Users.CreateUserStoresOnlyHash | handlers.go:235-247 | anything inserted carries the request's email and the hash `HashPassword` returned, never the plaintext |
| Users.ComparedHash | handlers.go:291-296 | the stored hash when the lookup found the user, the dummy hash on any lookup error |
| Users.Login | handlers.go:262-316 | parse failure 500 and empty fields 400 with no calls; otherwise one lookup then one check against the stored or dummy hash; 200 exactly when the user was found and the check returned nil, with the public user, not logged; every other outcome the same 401 |
| Users.LoginChecksOnce | handlers.go:297-301 | every login with both fields runs exactly one password check |
| Users.LoginWithoutRowUsesDummy | handlers.go:290-296 | an unknown email or a failed query checks against the dummy hash and is refused with 401 whatever the password |
| Users.LoginFailuresIndistinguishable | handlers.go:302-311 | any two failed logins give the identical reply after the same calls: one lookup, one check |
| Users.LoginReturnsRequestedUser | handlers.go:290-315 | on a table filed by email, a 200 login answers with the user whose email was sent |
| Users.LoginCheckUsesCurrentParams | handlers.go:297-301 | when stored hashes use the fixed parameters, the hash every login checks against does too, dummy or not |
| Users.RegisteredUserCanLogIn | handlers.go:235-315 | under the round-trip hypothesis, a user just created logs in with the same password and gets 200 with their public fields |
| Users.RegisteredUserWrongPassword | handlers.go:301-310 | under the no-collision hypothesis, a just-created user with any other password gets the 401 |
| Chirps.LengthError | handlers.go:106-116 | no error exactly for 1 to 140 runes; "Chirp cannot be empty" at 0, "Chirp is too long" above 140 |
| Chirps.ValidateChirp | main.go:144-171 | parse failure 500 "Failed to parse Chirp" with no length check; length errors 400; 200 exactly for 1 to 140 runes, with `{"cleaned_body": censored text}`, not logged |
| Chirps.ValidateChirpBoundary | main.go:154-167 | 140 runes accepted and 141 rejected, counted on the uncensored text; an accepted reply is itself within the limit |
| Chirps.CreateChirp | handlers.go:90-133 | parse failure 500 and length errors 400 with no insert; otherwise one insert of the censored body; 201 exactly when the store works and the user exists, with the stored chirp, not logged; a failed insert (store failure or unknown user id) 500 "Failed to create chirp" |
| Chirps.CreateChirpStoresCensored | handlers.go:118-123 | an inserted body is the censored request body: no longer than it and unchanged by censoring again |
| Chirps.GetChirp | handlers.go:155-202 | invalid id 400 and parse failure 500 without a query; otherwise one lookup, giving 200 with the chirp, 404 naming the id, or 500 |
| Chirps.GetChirpStatuses | handlers.go:159-199 | each of 400, 404, 200 and 500 occurs exactly under its own condition |
| Chirps.GetAllChirps | handlers.go:135-153 | query failure 500; no rows gives `null`; otherwise 200 with one chirp per row, in order, each converting back to its row |
| Censor.CensorProfanity | utils.go:49-61 | the in-place loop returns `Censored(s)`: split on spaces, profane words replaced by `****`, joined with spaces |
| Censor.CensoredWords | utils.go:53-58 | the output has as many space-separated words as the input; each is `****` if the input word there is profane and that word verbatim otherwise |
| Censor.CensorIdempotent | utils.go:50-58 | censoring censored text changes nothing |
| Censor.CensorWordsClean | utils.go:55-57 | no word left after censoring is profane |
| Censor.MaskIsClean | utils.go:50 | `****` is not profane and holds no space |
| Censor.IsProfaneIff | utils.go:55 | a word is profane exactly when it spells one of the listed words with each letter in lower or upper case (KELVIN SIGN as a capital `k`); both directions, for every word |
| Censor.ProfanityIsLowerCase | main.go:122-126 | every listed word is spelled in ASCII lower-case letters only |
| Censor.CaseInsensitiveExample | main.go:122-135 | three sample capitalisations ("Kerfuffle", "SHARBERT", "forNax") are profane and "What" is not |
| Censor.PunctuationExample | utils.go:48-55 | "fornax!" passes the filter uncensored |
| Censor.ProfaneWordIsLong | main.go:122-126 | every profane word is at least as long as `****` |
| Censor.CensorWordsShorter | utils.go:53-58 | replacing words never increases their total length |
| Censor.CensoredNoLonger | utils.go:49-61 | censored text is never longer than the input |
| Text.Split | utils.go:52 | n spaces give n + 1 pieces, none containing a space |
| Text.JoinSplit | utils.go:52-60 | joining the split pieces gives back the text |
| Text.SplitJoin | utils.go:60 | splitting a join of space-free words gives back the words |
| Text.Join | utils.go:60 | no pieces give the empty string; otherwise the text starts with the first piece and ends with the last |
| Text.LowerRune | utils.go:55 | one rune lowers to an ASCII letter exactly when it is one of that letter's cases (the letter, its capital, KELVIN SIGN for `k`, U+0130 for `i`), and no rune is a case of two letters |
| Text.ToLower | utils.go:55 | the rune count is kept and ASCII lower-case letters are unchanged |
| Text.ToLowerIs | utils.go:55 | lower-casing gives an ASCII lower-case word exactly when the text spells that word with each rune one of its letter's cases |
| Text.JoinLength | utils.go:60 | a join's length is the pieces' lengths plus one separator between each two |
| Server.ServerState.constructor | main.go:185-188 | the server starts with zero hits |
| Server.ServerState.MetricsInc | main.go:50-56 | each request through the middleware adds exactly 1 to the hits and is then answered by the wrapped handler |
| Server.ServerState.Metrics | main.go:61-77 | the metrics page shows the current hit count with 200, not logged, never a negative count |
| Server.ServerState.Reset | handlers.go:59-82 | off the dev platform 403 with users and hits unchanged; a failed delete 500 with both unchanged; otherwise no users, hits 0, and 204 |
| Server.ServerState.ResetHits | main.go:80-83 | the earlier reset: hits 0 and 200, unconditionally |
| Server.NoLoginAfterReset | handlers.go:59-82 | once a reset has emptied the users table, every login with both fields gets the single 401 |

## Left out

- The Argon2id key derivation (RFC 9106) and the encoded-hash format are not
  modelled. The library is a record of functions, and its round-trip,
  self-describing and no-collision properties are hypotheses, not proofs.
- The random salt is a parameter, so "two hashes of one password differ" is
  not stated.
- The `crypto/rand.Read` call in `Initialize` is a parameter holding the
  32 bytes it writes. Its ignored error is not modelled.
- Wall-clock timing is not modelled. Equal cost is stated as "one password
  check per login, against a hash with the fixed parameters".
- HTTP plumbing is not modelled: routing, headers, the `readiness` endpoint,
  the HTML text of the metrics page, and server start-up in `main`. Each
  handler's reply is a status and a body value.
- JSON encoding and decoding are not modelled. A decode failure is an input
  (`None`), and a marshal failure in `respondWithJSON` is not modelled.
- The database layer, `internal/database`, is not part of this model. It is
  an email-keyed users table and an id-keyed chirps table. Query failures
  are input flags. Generated ids and timestamps are inputs.
- `uuid.Validate` and `uuid.Parse` are parameters of `Chirps.GetChirp`.
- `atomic.Int32` is modelled as an unbounded integer used by one caller at
  a time: no interleavings and no 32-bit wrap-around.
- Strings are sequences of runes, so invalid UTF-8 is not represented.
- Auth.BytesToString: maps each byte to the character with that code. Go's
  `string([]byte)` keeps the bytes themselves, so only injectivity is
  relied on.
- `strings.ToLower` is modelled only for the runes whose lower case is an
  ASCII letter (`A`-`Z`, U+212A and U+0130, as listed in Go's Unicode case
  tables, which are themselves not modelled). Every other rune is kept
  unchanged. Since every listed word is ASCII lower case
  (`Censor.ProfanityIsLowerCase`), the other runes cannot affect membership
  in the list, and `Censor.IsProfaneIff` states that membership for every
  word.
- Logging is not modelled, except for whether `respondWithError` logs.
  `log.Fatal` in `Initialize` is the `Terminated` phase.
