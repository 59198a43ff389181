# MyNotes core in Dafny

A model of the decision logic of the MyNotes note API (Express and Mongoose):

- the note handlers (`getNotes`, `getNoteByID`, `createNote`, `updateNote`,
  `deleteNote`) as methods of a `NoteStore` class whose note collection is a
  map from note id to title, content and owner;
- the auth handlers (`signup`, `login`, `getUserProfile`, `forgotPassword`,
  `resetPassword`) as methods of a `UserStore` class over a map of users,
  with the reset-secret lifecycle: forgot-password stores the SHA-256 digest
  of a fresh secret with an expiry ten minutes on, reset-password accepts a
  secret once, strictly before the expiry, and clears both fields;
- the user schema: the `required`, `minlength` and `match` validators, the
  `trim` and `lowercase` setters, the email regular expression as a grammar
  predicate with a characterization by shape, the pre-save hook that hashes
  the password only when it was modified, and `matchPassword`.

Every protected handler takes the requester's user id as a parameter: the
`protect` middleware is taken as having authenticated it. The random bytes of
`crypto.randomBytes(20)`, the salt of `bcrypt.genSalt(10)` and `Date.now()`
are parameters too. bcrypt, SHA-256 and JWT signing are symbolic: a digest is
a constructor that records its input, so SHA-256 is injective and
`bcrypt.compare(p, h)` holds exactly when `h` is a digest of the plaintext
`p`.

Files: `wrappers.dfy` (an `Option` type), `http.dfy` (ids and statuses),
`text.dfy` (trim, ASCII lower-casing, email normalisation), `email_pattern.dfy`
(the regular expression), `crypto.dfy` (symbolic primitives), `hex.dfy`
(`Buffer.toString('hex')` and its decoder), `user_model.dfy` (the schema and
the `UserDocument` class with its hook), `auth_controller.dfy` (the
`UserStore` class), `note_controller.dfy` (the `NoteStore` class),
`scenarios.dfy` (clients that call the handlers in sequence).

Mongoose behaviour the model takes as given:

- The `trim` and `lowercase` setters also cast query filters, so
  `User.findOne({ email })` looks up the normalised email.
- `save()` and `create()` validate the cast values first and run the
  user's pre-save hook only if validation passed. Each path reports only its
  first failing validator, `required` first. `required` rejects the empty
  string; `match` does not run on the empty string. A bcrypt digest is 60
  characters long, so a hashed password always passes `required` and
  `minlength`.
- `findOne` on a reset digest that several users hold returns one of them;
  the model leaves the choice open.

The model follows the code in these cases:

- A signup whose fields fail validation is answered with 500:
  `User.create` throws, so the catch branch answers. The `else` branch at
  controllers/authControllers.js:44-46 never runs, since `create` never
  returns a falsy value.
- A reset-password whose new password is too short is answered with 500,
  and the secret stays valid, because `save()` throws before anything is
  written.
- A note request from a user who does not own the note is answered with
  401.

## Model

| member | source | states |
|---|---|---|
| NoteController.CheckAccess | controllers/noteController.js:23-32 | The lookup reports a missing note exactly when the id is absent, a foreign note exactly when it exists and the owner differs, and an owned note otherwise; absence is decided before ownership |
| NoteController.DeniedStatus | controllers/noteController.js:25-32 | A missing note is answered with 404, someone else's with 401 |
| NoteController.NotesOf | controllers/noteController.js:9 | The list holds exactly the notes whose owner is the given user, each with its stored value |
| NoteController.CreateShowsOnlyToOwner | controllers/noteController.js:51-57 | A note created under a fresh id is added to its owner's list and leaves every other user's list as it was |
| NoteController.DeleteHidesFromEveryone | controllers/noteController.js:118 | Deleting a note removes it from its owner's list and changes no list otherwise |
| NoteController.UpdateKeepsLists | controllers/noteController.js:85-89 | Changing a note's title and content moves it into or out of no user's list |
| NoteController.NoteStore.GetNotes | controllers/noteController.js:7-15 | Answers 200 with exactly the requester's notes, as stored, and changes nothing |
| NoteController.NoteStore.GetNoteById | controllers/noteController.js:21-34 | 404 for a missing id, whoever asks; 401 for another user's note; 200 with the note itself for its owner; nothing changes |
| NoteController.NoteStore.CreateNote | controllers/noteController.js:47-57 | Answers 201 and adds one note, under an id not in use, with the given title and content and the requester as owner; every other note is unchanged |
| NoteController.NoteStore.UpdateNote | controllers/noteController.js:68-91 | 404 or 401 leave the collection unchanged; for the owner, only that note's title and content change, its owner stays, and the updated note is returned; no owner ever changes |
| NoteController.NoteStore.DeleteNote | controllers/noteController.js:102-120 | 404 or 401 leave the collection unchanged; for the owner, exactly that note is removed |
| AuthController.FindByEmail | controllers/authControllers.js:21 | Finds a user holding the email exactly when one exists, and the id found holds it |
| AuthController.AcceptsReset | controllers/authControllers.js:158-161 | A user is accepted for a secret at a time exactly when it holds the digest of that secret and an expiry strictly after the time |
| AuthController.IssueReset | controllers/authControllers.js:122-132 | The user keeps name, email and password, holds a digest and an expiry together, and is accepted for a secret and time exactly when the secret is the one issued and the time is before now plus 600000 ms |
| AuthController.ConsumeReset | controllers/authControllers.js:168-170 | The user gets the new password, both reset fields are cleared, and no secret is accepted for it at any time |
| AuthController.ResetCandidates | controllers/authControllers.js:153-161 | The users the reset query can find are exactly those whose digest is that of the secret and whose expiry is strictly after now |
| AuthController.ConsumeRemovesCandidate | controllers/authControllers.js:168-172 | After a reset, that user and only that user is no longer found for any secret at any time: a second reset with the same secret fails |
| AuthController.IssuedSecretWindow | controllers/authControllers.js:125-160 | If no other user accepts the secret, the secret just issued finds exactly its user before the expiry and nobody at or after it |
| AuthController.InsertKeepsValid | models/authModel.js:15 | Inserting a well-formed user with an unregistered email under the next id keeps ids below the counter, emails unique and every user well formed |
| AuthController.ReplaceKeepsValid | models/authModel.js:15 | Replacing a user by a well-formed user with the same email keeps the invariant |
| AuthController.IssueKeepsValid | controllers/authControllers.js:125-134 | A stored user passes validation again, and issuing a secret to it keeps the invariant |
| AuthController.ConsumeKeepsValid | controllers/authControllers.js:168-172 | A stored user with a new password of at least 6 UTF-16 code units passes validation, and consuming its secret with the new digest keeps the invariant |
| AuthController.UserStore.Save | models/authModel.js:37-47 | Writes the document exactly when it passes validation, after the hook has hashed a modified password; a failed validation writes nothing |
| AuthController.UserStore.Signup | controllers/authControllers.js:16-52 | 400 exactly when the normalised email is registered; 500 exactly when it is not and validation fails; otherwise 201, one new user under a fresh id with the trimmed name, normalised email and a bcrypt digest of the password, the user's id, name and email, and a token for that id; on failure nothing changes |
| AuthController.UserStore.Login | controllers/authControllers.js:58-81 | 200 exactly when some user holds the normalised email and the password matches, with that user's summary and token; otherwise 401 for an unknown email and a wrong password alike |
| AuthController.UserStore.GetUserProfile | controllers/authControllers.js:87-100 | 200 with the requester's id, name and email when it exists, 400 otherwise |
| AuthController.UserStore.ForgotPassword | controllers/authControllers.js:111-140 | 404 and no change for an unregistered email; otherwise 200 with the hex text of the random bytes as the secret, and only that user changed: the digest of the secret and an expiry of now plus 600000 ms are stored |
| AuthController.UserStore.ResetPassword | controllers/authControllers.js:151-177 | 400 and no change when no user's digest is that of the secret with an expiry after now; 500 and no change for a new password under 6 UTF-16 code units (JavaScript's `.length`); otherwise 200 with a token for one such user, whose password becomes the digest of the new one and whose reset fields are cleared, and no one else changes |
| UserModel.SchemaErrors | models/authModel.js:7-27 | Validation passes exactly when the name is nonempty, the email matches the pattern and a plaintext password has at least 6 UTF-16 code units (JavaScript's `.length`, so three emoji are enough); each error is reported exactly in its case |
| UserModel.Summary | controllers/authControllers.js:37-42 | A response body carries the user's id, name and email (also at lines 67-72 and 92-96) |
| UserModel.MatchPassword | models/authModel.js:50-52 | `matchPassword` holds exactly when the stored password is a bcrypt digest of the entered plaintext |
| UserModel.EmojiPasswordAccepted | models/authModel.js:25 | A password of three emoji, six code units long, meets `minlength` |
| UserModel.SummaryHidesSecrets | models/authModel.js:26 | A response body depends only on the id, name and email, never on the password or the reset fields |
| UserModel.HookedPassword | models/authModel.js:37-47 | An unmodified password is left as it is; a modified one becomes a bcrypt digest of its value with the drawn salt |
| UserModel.CreatedUserIsStored | models/authModel.js:7-27 | A user created from fields that pass validation is well formed: trimmed name, normalised email matching the pattern, a digest of an accepted plaintext, no reset fields |
| UserModel.UserDocument.New | models/authModel.js:10-17 | A new document holds the trimmed name, the normalised email and the plaintext password, marked modified |
| UserModel.UserDocument.Load | controllers/authControllers.js:115 | The document `findOne` returns holds the stored user's values, with the password not modified (also at lines 158-161) |
| UserModel.UserDocument.SetPassword | controllers/authControllers.js:168 | Assigning the password stores the plaintext and marks the path modified |
| UserModel.UserDocument.PreSave | models/authModel.js:37-47 | The hook hashes the password once when it is modified and leaves it unchanged otherwise |
| Crypto.GenerateToken | controllers/authControllers.js:6-10 | A token is signed for the given id and names it as its subject |
| Crypto.BcryptHash | models/authModel.js:44-45 | A digest records its input, with cost 10 |
| Crypto.CompareHash | models/authModel.js:50-52 | `matchPassword` accepts a password against a digest of a plaintext exactly when the two are equal, whatever the salt |
| Crypto.BcryptCompare | models/authModel.js:51 | `bcrypt.compare` holds only against a digest; CompareHash characterises it: a password matches a digest of a plaintext exactly when the two are equal |
| Crypto.DoubleHashMatchesNothing | models/authModel.js:39-41 | In the model a digest hashed again matches no plaintext, since a digest is never a plaintext here |
| Crypto.RehashLosesPassword | models/authModel.js:39-41 | A password matches its digest, but not that digest hashed again: the user's own password would stop matching, which is why the hook skips an unmodified password |
| Text.Trim | models/authModel.js:10 | The result is no longer than the input and neither begins nor ends with a trimmable character |
| Text.TrimRemovesOnlyTrimmable | models/authModel.js:10 | Trimming keeps a contiguous slice of the input and drops only trimmable characters before and after it |
| Text.TrimIdempotent | models/authModel.js:10 | Trimming a trimmed string changes nothing |
| Text.Utf16Length | models/authModel.js:25 | JavaScript's `.length` counts between one and two code units per character |
| Text.Utf16LengthBmp | models/authModel.js:25 | A string below U+10000 has exactly one code unit per character |
| Text.Utf16LengthOfEmoji | models/authModel.js:25 | Three emoji are three characters but six code units |
| Text.ToLower | models/authModel.js:17 | Lower-casing keeps the length |
| Text.ToLowerSpec | models/authModel.js:17 | Lower-casing leaves no ASCII capital, maps each capital to its small letter and keeps every other character |
| Text.Normalize | models/authModel.js:16-17 | The stored and looked-up email is trimmed, then lower-cased, and no longer than the input; NormalizeIdempotent and LowerTrimCommute characterise it further |
| Text.LowerTrimCommute | models/authModel.js:16-17 | The `trim` and `lowercase` setters commute |
| Text.NormalizeIdempotent | models/authModel.js:16-17 | A stored email is already normalised, so normalising it again changes nothing |
| EmailPattern.MatchesEmailPattern | models/authModel.js:19 | The anchored expression, piece by piece; an accepted string holds an '@'; PatternIffShaped characterises it exactly |
| EmailPattern.DottedIffShaped | models/authModel.js:19 | `\w+([\.-]?\w+)*` accepts exactly the nonempty strings of word characters and separators that begin and end with a word character and hold no two separators in a row |
| EmailPattern.PatternIffShaped | models/authModel.js:19 | The whole expression accepts exactly a shaped local part, one '@', and a shaped domain ending in '.' and 2 or 3 word characters |
| EmailPattern.PatternAtSign | models/authModel.js:19 | An accepted address holds exactly one '@', and the parts before and after it begin and end with a word character |
| EmailPattern.PatternTopLevelDomain | models/authModel.js:19 | An accepted address has at least 6 characters and ends with '.' followed by 2 or 3 word characters |
| EmailPattern.SampleAddressAccepted | models/authModel.js:19 | `ann@x.com` is accepted |
| Hex.DigitValue | controllers/authControllers.js:122 | A character has a value exactly when it is a lower-case hex digit, and the value's digit is that character |
| Hex.HexEncode | controllers/authControllers.js:122 | The hex text has two lower-case hex digits per byte |
| Hex.HexRoundTrip | controllers/authControllers.js:122 | Decoding the hex text of a byte string gives the bytes back |
| Hex.HexEncodeInjective | controllers/authControllers.js:122 | Distinct random byte strings give distinct secrets |
| Scenarios.SignupThenLogin | controllers/authControllers.js:16-81 | After a successful signup, logging in with the same email and password answers 200 with a token for the same user id |
| Scenarios.SignupTwice | controllers/authControllers.js:21-25 | After a successful signup, a second signup with an email that normalises to the same one answers 400 and adds no user |
| Scenarios.ResetOnce | controllers/authControllers.js:111-177 | With a fresh secret, forgot-password and a reset before the expiry succeed, a second reset with the same secret fails at any time, and then the new password logs in and the old one gets 401 |
| Scenarios.ResetAfterExpiry | controllers/authControllers.js:158-165 | A reset at or after the expiry of the secret just issued answers 400 |
| Scenarios.NoteOwnership | controllers/noteController.js:47-57 | A note its owner created is refused to another user with 401, returned to its owner, and listed for its owner only |

## Left out

- I/O and plumbing: the server bootstrap, the database connection, the
  routes and the `protect` middleware (its result is the requester id
  parameter), response message texts, and `console.error`.
- The 500 catch-all branches of every handler for database and
  infrastructure errors. Only the 500 answers that follow from validation
  (signup, reset-password) are modelled.
- A malformed id in a note or profile request: Mongoose's cast error ends in
  the 500 branch. Ids here are numbers, and new ids are drawn from a counter.
- Non-string request bodies, and `undefined` fields: a missing field is
  modelled as the empty string, which the validators treat alike. A missing
  `title` or `content` in `updateNote` is not modelled.
- Login with no password: `bcrypt.compare` throws and the answer is 500; the
  model's password is always a string.
- The JWT's `iat` and `exp` claims and its signature: a token is its subject.
- Text.ToLower, Text.ToLowerSpec, Text.Normalize, AuthController.UserStore.Signup,
  AuthController.UserStore.Login and AuthController.UserStore.ForgotPassword:
  lower-casing covers ASCII only; `toLowerCase` also maps non-ASCII capitals
  (the KELVIN SIGN U+212A to a `k`, for one), which the model keeps as they
  are. So for the email `\U{212A}ann@x.com` the program stores and looks up
  `kann@x.com` (signup 201, or 400 when that address is registered) while
  the model's normalised email fails the pattern (signup 500) and finds no
  user on login or forgot-password.
- EmailPattern.MatchesEmailPattern: the model decides whether the
  expression matches, not how long the program takes; the backtracking
  matcher can take exponential time on long strings that do not match.
- Crypto.DoubleHashMatchesNothing: in the model a digest is never a
  plaintext, so nothing matches a doubled digest; in the program the first
  digest's own 60-character text would.
- UserModel.MatchPassword, Crypto.BcryptCompare, Crypto.CompareHash,
  AuthController.UserStore.Login and Scenarios.ResetOnce:
  bcrypt is modelled as exact, but `bcrypt.compare` looks only at the first
  72 bytes of the UTF-8 password. Two passwords that share those 72 bytes
  match the same digest in the program and different digests in the model,
  so for them the program answers 200 where Login answers 401, and
  ResetOnce's 401 for the old password does not hold.
- Concurrency: two reset-password requests with one secret can both find the
  user before either clears the fields; the model runs handlers one at a time.
- The order of the list `getNotes` returns: the model returns a map.
- The note schema (models/noteModel.js is not part of this model): its
  validators and timestamps.
- `timestamps: true` on the user schema (`createdAt`, `updatedAt`).
- Which paths a fetched document holds: forgot-password and reset-password
  fetch the user without its password (`select: false`); the model loads the
  whole user, which changes nothing since an unmodified password is neither
  validated into failure nor rewritten.
