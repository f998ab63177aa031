# rest_api_ev account lifecycle, in Dafny

This project models the core of the `rest_api_ev` web backend (Express + Mongoose), and
proves properties of that model.

- **Account lifecycle** (`auth_controller.dfy`, module `AuthController`). The handlers
  `register`, `login`, `logout`, `auth`, `getAuth`, `reqEmailVerify`, `verifyEmail`,
  `resetPassword` and `changePassword` are the methods of a `Controller` class, as are the
  helpers `generateToken` and `CreateVerificationEmail`. The class holds:
  - the `Users` collection, as a map from trimmed email to record;
  - the client's session user, as an option;
  - the `Token` collection, one token per account;
  - an outbox of the mails handed to the mailer.

  Each method's postcondition gives the status code, the message and the new state for
  every branch. Every method keeps `Valid()`:
  - the store satisfies the user schema and its unique indexes;
  - every stored token is a genuine token for the account it belongs to;
  - the session holds a well-formed record.

  Two client scenarios chain the handlers: a password change followed by two logins, and
  a registration followed by verification with the mailed token.
- **bcrypt and jsonwebtoken** (`crypto.dfy`, module `Crypto`) are ideal values.
  - A digest is its own type, so a stored password is never a plaintext string.
  - A digest depends on the password only through bcrypt's key: the password's UTF-8
    bytes and a NUL, read round and round for 72 bytes. Bytes past the 72nd never count.
  - A token carries its claims (email, issued-at, expiry one hour later) and a MAC under
    the signing key.
  - Verification checks the MAC first and then the expiry.
- **The user schema** (`users.dfy` and `email_shape.dfy`, modules `Users` and
  `EmailShape`):
  - `trim` uses JavaScript's white-space set;
  - `required` fields;
  - the `is_verified` default;
  - unique username, and email unique up to case;
  - the email pattern `^\w+([.-]?\w+)*@\w+([.-]?\w+)*(\.\w{2,3})+$`. It is transcribed
    clause by clause as a ghost predicate and proved equal to a direct positional check.
- **Request validators** (`validation.dfy`, module `Validation`):
  - the rule table of `createValidationFor`;
  - how each chained validator judges a field: every failing validator adds one
    "Invalid value" error, and an absent field reads as `""`;
  - the reminder's custom time validator, with the pattern
    `^\d{4}-\d{2}-\d{2} \d{2}:\d{2}:\d{2}\.\d+$` proved equal to the renderings of a
    digit-group record;
  - `checkValidationResult`, a loop folding the errors into the 422 message, proved
    against the function that specifies the message.
- **Task list** (`tugas.dfy`, module `Tugas`): `getAllTugas` and `getTugas` are functions
  over the in-memory list. `addTugas` is a method of a `TaskList` class that appends in
  place.

The model keeps these behaviours of the code as they are:
- `login` answers an unknown email ("Invalid email address!") differently from a wrong
  password ("Incorrect password!"), so a client can tell which emails have accounts.
- In `verifyEmail` and `changePassword`, an undecodable or expired token makes
  `jwt.verify` throw. The exception goes to Express's error handler. The handlers' own
  404 "Invalid token or token is expired" answer is reached only by a genuine, unexpired
  token issued for another email.
- `changePassword` does not invalidate the token it used, so the token works again within
  its hour. Verification never consults the token table.
- `reqEmailVerify` with an unknown email answers status 200 with "User not found!".
- A duplicate registration answers 201, the status of a success, with "The email already
  in use!".
- The password length rule is enforced only by the validators (422). The handlers accept
  any password.

## Model

| member | source | states |
|---|---|---|
| Crypto.Hash | controller/auth_controller.js:47 | the digest is produced with cost factor 12 |
| Crypto.Key | controller/auth_controller.js:47 | bcrypt's key is always 72 bytes long |
| Crypto.Cycle | controller/auth_controller.js:47 | reading a byte string round and round gives the requested number of bytes; it starts with the whole string, or is a prefix of it when fewer bytes are read |
| Crypto.CompareHash | controller/auth_controller.js:84 | `bcrypt.compare` accepts the password that was hashed, whatever the salt, and accepts another password exactly when its bcrypt key is the same |
| Crypto.KeyOfLong | controller/auth_controller.js:47 | a password of 72 UTF-8 bytes or more is keyed by its first 72 bytes alone |
| Crypto.CompareTruncates | controller/auth_controller.js:84 | two passwords of at least 72 UTF-8 bytes that agree on the first 72 bytes match each other's hashes |
| Crypto.AsciiUtf8 | controller/auth_controller.js:47 | an ASCII password is encoded one byte per character |
| Crypto.TruncationCollision | controller/auth_controller.js:84 | 72 `a`s then `X` matches the hash of 72 `a`s then `Y` |
| Crypto.ShortKeysDiffer | controller/auth_controller.js:84 | two passwords whose UTF-8 encodings differ, are shorter than 72 bytes and hold no NUL byte have different keys, so neither matches the other's hash |
| Crypto.Compare | controller/auth_controller.js:84 | no ensures: `bcrypt.compare(candidate, hash)`: accepts the candidate exactly when its key equals the key the digest was made from |
| Crypto.EncodeChar | controller/auth_controller.js:47 | a character is 1 to 4 UTF-8 bytes; an ASCII character is its own code, and every byte of any other character is at least 0x80 |
| Crypto.Utf8 | controller/auth_controller.js:47 | a string's UTF-8 encoding has between one and four bytes per character |
| Crypto.Sign | controller/auth_controller.js:9 | the token carries the account's email, is issued now and expires 3600 seconds later |
| Crypto.Verify | controller/auth_controller.js:144 | verification succeeds exactly for a genuine MAC under the key before expiry, and yields the email claim; it reports expiry exactly when the MAC is genuine and the expiry has passed |
| Crypto.VerifySigned | controller/auth_controller.js:9 | a token decodes to its email for one hour after issue and is expired from then on |
| Crypto.VerifyOtherKey | controller/auth_controller.js:144 | a token signed under another secret never verifies |
| Crypto.VerifyTampered | controller/auth_controller.js:144 | a genuine token whose email claim is altered no longer verifies |
| EmailShape.SegmentsIff | models/users.models.js:21 | `([.-]?\w+)*` matches exactly the strings of word characters in which every separator is followed by a word character |
| EmailShape.DottedIff | models/users.models.js:21 | `\w+([.-]?\w+)*` matches exactly those strings that also start with a word character |
| EmailShape.TopLevelsSplit | models/users.models.js:21 | `(\.\w{2,3})+` is a separated run followed by one last `.` and two or three word characters |
| EmailShape.DomainFromParts | models/users.models.js:21 | a dotted name followed by `(\.\w{2,3})+` has the domain shape |
| EmailShape.DomainToParts | models/users.models.js:21 | a domain-shaped string splits into `\w+([.-]?\w+)*` and `(\.\w{2,3})+` |
| EmailShape.MatchesPatternIff | models/users.models.js:21 | the email pattern and the direct positional check accept the same strings |
| EmailShape.EmailShapedChars | models/users.models.js:21 | an accepted email has only word characters, `.`, `-` and `@`, and at least six characters |
| Users.TrimStart | models/users.models.js:6 | drops exactly the leading white space: the result is a suffix, what is dropped is blank, and the result does not start with white space |
| Users.TrimEnd | models/users.models.js:6 | drops exactly the trailing white space, symmetrically |
| Users.Trim | models/users.models.js:18 | the trimmed value has no white space at either end, and an already trimmed value is unchanged |
| Users.TrimInfix | models/users.models.js:12 | the trimmed value is the infix of the input between two runs of white space |
| Users.TrimBlank | models/users.models.js:4-8 | a value trims to the empty string exactly when it is all white space |
| Users.NewUser | models/users.models.js:27-30 | a new record has its text fields trimmed and the given digest as password; `is_verified` is false unless given |
| Users.SatisfiesSchema | models/users.models.js:4-26 | no ensures: `save`'s validators accept a record exactly when name, username and email are non-empty and the email has the `match` pattern's shape; the password digest is always present |
| Users.Clashes | models/users.models.js:11-20 | no ensures: two records collide on a unique index when their usernames are equal or their emails are equal up to case |
| Users.StoreValid | models/users.models.js:4-22 | no ensures: the store accepts a set of records when each is well formed and stored under its own email, and no two distinct records collide on a unique index |
| Users.NewUserSchema | models/users.models.js:4-22 | a new record passes the schema exactly when name and username are not blank and the trimmed email has the pattern's shape |
| Users.MissingFieldRejected | models/users.models.js:4-26 | a missing, empty or blank name, username or email fails `required` |
| Users.EmailShapedIsTrimmed | models/users.models.js:18-21 | an email that passes `match` has no white space to trim |
| Users.InsertKeepsStoreValid | models/users.models.js:9-22 | inserting a well-formed record that clashes with no stored record keeps the store valid |
| Users.UpdateKeepsStoreValid | controller/auth_controller.js:195 | replacing a record's password or flag keeps the store valid |
| Users.StoreEmailsDifferUpToCase | models/users.models.js:16-20 | in a valid store two records never share a username nor emails equal up to case |
| AuthController.SaveOutcome | controller/auth_controller.js:56 | `save` throws exactly when the record fails the schema or clashes with a unique index, and the schema failure is reported first |
| AuthController.Controller.GenerateToken | controller/auth_controller.js:8-16 | the upsert leaves exactly one token for the account, the newly signed one, and every other entry unchanged |
| AuthController.Controller.CreateVerificationEmail | controller/auth_controller.js:104-121 | a verified account gets 403 and nothing changes; otherwise a token is issued and a verification link mailed to the account |
| AuthController.Controller.Save | controller/auth_controller.js:56 | fails as `SaveOutcome` says and changes nothing; otherwise inserts the record under its email |
| AuthController.Controller.Enrol | controller/auth_controller.js:47-63 | a thrown `save` changes nothing; otherwise the record is stored, a token issued and mailed, the session set, and 201 answered |
| AuthController.Controller.Register | controller/auth_controller.js:37-65 | a stored email gets 201 "already in use" and nothing changes; otherwise exactly one record is added, holding the password's hash with `is_verified` false, the session holds it, and a verification mail goes out |
| AuthController.Controller.Login | controller/auth_controller.js:67-97 | 400 while logged in; 422 "Invalid email address!" for an unknown email; 422 "Incorrect password!" for a wrong password; succeeds exactly when logged out with a stored email and a matching password, and then the session holds the stored record |
| AuthController.Controller.Logout | controller/auth_controller.js:99-102 | whatever the state, the session is empty, the answer is 200, and `auth` then answers 401 |
| AuthController.Controller.Auth | controller/auth_controller.js:18-28 | the request passes exactly when a session user exists; otherwise 401 "User not authenticated" |
| AuthController.Controller.GetAuth | controller/auth_controller.js:30-35 | 200 with the session's record |
| AuthController.Controller.ReqEmailVerify | controller/auth_controller.js:123-138 | an unknown email gets 200 "User not found!"; a verified account gets 403; an unverified account gets a new token and a mail, and 201 |
| AuthController.Controller.VerifyEmail | controller/auth_controller.js:140-157 | a token that does not verify throws; a token for another email gets 404 and nothing changes; otherwise only that email's record becomes verified |
| AuthController.Controller.ResetPassword | controller/auth_controller.js:159-187 | an unknown email gets 404; a stored email gets a new token, a reset link mailed to the supplied address, and 200 |
| AuthController.Controller.ChangePassword | controller/auth_controller.js:189-205 | a token that does not verify throws; a token for another email gets 404 and nothing changes; otherwise only that email's record gets the new password's hash |
| AuthController.ChangeThenLogin | controller/auth_controller.js:189-205 | after a password change with a genuine token, logging in with a password whose bcrypt key differs from the new one's fails, and logging in with the new one succeeds |
| AuthController.RegisterThenVerify | controller/auth_controller.js:140-157 | within the hour, the token mailed at registration verifies the new account |
| Validation.CreateValidationFor | utils/validationReq.js:53-54 | an unknown endpoint name gets no rules, and every listed rule has at least one validator |
| Validation.UnknownNamePasses | utils/validationReq.js:53-54 | every request passes the rules of an unknown endpoint name |
| Validation.Parse | utils/validationReq.js:41 | a time of the pattern's shape cuts into well-formed digit groups |
| Validation.RenderParse | utils/validationReq.js:41 | every well-formed digit-group record renders to a string of the shape and parses back to itself |
| Validation.ParseRender | utils/validationReq.js:41 | every string of the shape is the rendering of what it parses to |
| Validation.TimeShapedIff | utils/validationReq.js:41 | the time pattern accepts exactly the renderings of well-formed digit groups |
| Validation.IsVariationSelector | utils/validationReq.js:10 | no ensures: the two characters U+FE0E and U+FE0F, which `isLength` does not count |
| Validation.VisibleLength | utils/validationReq.js:10 | the length `isLength` measures is at most the number of characters, and equals it when the value holds no variation selector |
| Validation.VisibleLengthAppend | utils/validationReq.js:10 | the measured length of a concatenation is the sum of the parts' lengths |
| Validation.SelectorNotCounted | utils/validationReq.js:10 | `passwor` followed by U+FE0F is eight characters long and still fails `isLength({min: 8})` |
| Validation.RunCheck | utils/validationReq.js:10-50 | each validator passes exactly on its condition and otherwise reports "Invalid value"; `isLength` compares the length without variation selectors; the time validator fails on an absent value, on a value not of the shape, and on a date whose instant is NaN or 0 |
| Validation.RunChecks | utils/validationReq.js:7-10 | a chain adds at most one error per validator |
| Validation.RunChecksParams | utils/validationReq.js:7-10 | every error of a chain names the chain's field |
| Validation.RunChecksEmpty | utils/validationReq.js:7-10 | a chain adds no error exactly when each of its validators passes |
| Validation.RunRules | utils/validationReq.js:58-59 | no ensures: `validationResult(req)` holds the errors of every chain of the list, chain after chain in table order, each chain's errors in validator order |
| Validation.RunRulesEmpty | utils/validationReq.js:3-55 | a request passes a rule list exactly when every validator of every chain passes on its field |
| Validation.RunRulesParams | utils/validationReq.js:3-55 | errors name only fields some rule checks |
| Validation.RegisterRules | utils/validationReq.js:5-11 | a register request passes exactly when name and username are non-empty, the email is non-empty and accepted by `isEmail`, and the password has at least 8 characters other than variation selectors |
| Validation.RegisterEmptyRequest | utils/validationReq.js:5-11 | an empty register request gets six errors, one per failing validator, in table order |
| Validation.LoginRules | utils/validationReq.js:12-16 | a login request passes exactly when the email is non-empty and accepted by `isEmail` and the password has at least 8 characters other than variation selectors |
| Validation.EmailOnlyRules | utils/validationReq.js:17-29 | reqverify and reset requests pass exactly when the email is non-empty |
| Validation.VerifyRules | utils/validationReq.js:21-25 | a verify request passes exactly when email and token are non-empty |
| Validation.ChangeRules | utils/validationReq.js:30-36 | a change request passes exactly when the new password has at least 8 characters other than variation selectors and confirmation, email and token are non-empty |
| Validation.ChangeIgnoresConfirmation | utils/validationReq.js:30-36 | a request whose confirmation differs from its new password still passes |
| Validation.ReminderRules | utils/validationReq.js:37-52 | a reminder request passes exactly when title and major are non-empty and the time has the pattern's shape and a non-zero instant |
| Validation.Entry | utils/validationReq.js:65 | one error's part of the message is `(param) msg; ` |
| Validation.ErrorMessage | utils/validationReq.js:62-66 | the message is at least five characters per error |
| Validation.ErrorMessageAppend | utils/validationReq.js:64-66 | the message of a concatenation of error lists is the concatenation of their messages |
| Validation.ErrorMessageCons | utils/validationReq.js:64-66 | the first error's entry opens the message and the others follow in list order |
| Validation.ErrorMessageEmpty | utils/validationReq.js:62-69 | the message is empty exactly when there are no errors |
| Validation.CheckValidationResult | utils/validationReq.js:58-71 | `next` is called exactly when there are no errors; otherwise 422 with the entries of all errors in list order |
| Tugas.Filter | controller/tugas_controller.js:12 | keeps exactly the entries whose category is the requested id, never more entries than the list holds |
| Tugas.FilterAppend | controller/tugas_controller.js:12 | filtering preserves list order: the filter of a concatenation is the concatenation of the filters |
| Tugas.FilterCount | controller/tugas_controller.js:12 | each matching entry is kept as many times as it occurs, and each other entry is dropped |
| Tugas.FilterSingle | controller/tugas_controller.js:12 | a single entry is kept exactly when its category matches |
| Tugas.TaskList.constructor | controller/tugas_controller.js:4 | the list starts as loaded |
| Tugas.TaskList.GetAllTugas | controller/tugas_controller.js:6-8 | 200 with the whole list, as it is |
| Tugas.TaskList.GetTugas | controller/tugas_controller.js:10-14 | 200 with exactly the entries of the requested category, no more entries than the list holds; the list is only read |
| Tugas.TaskList.AddTugas | controller/tugas_controller.js:16-40 | the list grows by exactly one entry built from the four body fields, earlier entries unchanged; the answer is 200 with the updated list, which holds the new entry |
| Tugas.GetAfterAdd | controller/tugas_controller.js:24-29 | after an append, a category's listing is the old listing plus the new entry when its category matches |

## Left out

- Cryptography: bcrypt's key derivation and HS256 are ideal values. The random bcrypt salt
  and the clock are parameters; the signing secret is a constant of the controller.
- Crypto.Hash: only the cost factor is stated. That a digest never equals the plaintext
  holds by typing, and matching is stated by `Crypto.CompareHash`. Blowfish itself is not
  modelled, so two passwords with different keys never collide.
- Crypto: the bcrypt version is taken to be `2a`/`2b`, the ones whose key ends with a NUL
  byte; a password with a lone surrogate code unit is not a Dafny string.
- Mail delivery: `mailer.send` is recorded as an outbox entry, not sent; delivery failures
  (only logged by the source) do not exist in the model. The link's front-end origin is
  not modelled.
- Async ordering: the callback `generateToken` takes runs as part of the handler, so a
  mail request is recorded at once.
- When `reqEmailVerify` meets a verified account, `CreateVerificationEmail` sends the 403
  and the handler's own 201 then fails because headers were already sent. The model gives
  the 403 the client sees and leaves out the second send.
- Persistence: the collections are maps. ObjectIds, `rawResult`, and `findOneAndUpdate`
  options are not modelled. The token table is keyed by the owner's email rather than by
  its ObjectId; email is unique and never changes.
- Query filters pass through the schema's `trim` setter, so lookups use the trimmed email.
  Updates run no validators.
- `uniqueCaseInsensitive` is an option of the mongoose-unique-validator plugin. The model
  follows the schema's declaration (emails unique up to case). The plugin's registration
  is not part of this model.
- Case folding is ASCII only; non-ASCII case pairs are not folded.
- Handler inputs are strings, since the validators run first. A non-string JSON body
  value and an absent `password` reaching `bcrypt.hash` are not modelled.
- The `catchAsync` wrapper and Express's error handler are not part of this model; a
  thrown error is the `Thrown` outcome.
- Express routing is not modelled.
- Validation.RunCheck:
  - validator.js's `isEmail` is a parameter;
  - `new Date(value).getTime()` is a parameter that returns None for NaN;
  - the TypeError text for calling `.match` on an absent time is the one current Node
    versions produce;
  - `isLength` counts Unicode scalar values and subtracts the variation selectors U+FE0E
    and U+FE0F, as validator.js 13 does.
- Validation: the validators read one request map; the separate locations
  express-validator searches (body, query, params, cookies, headers) are not modelled.
- `console.log` of the errors in `checkValidationResult` is I/O and is left out.
- `addTugas`:
  - `fs.writeFile` is file I/O and is left out;
  - the `req.checkBody` calls are modelled as having no effect, since their results are
    never read (an express-validator without the legacy API would make them throw instead);
  - body values are strings or absent.
- `getDB` is a database query, and `models/tokens.models.js` and
  `models/reminder.models.js` only shape records.
- Trim: JavaScript's white-space set is taken as listed in `Users.IsJsWhitespace`.
