# Email/password authentication of react-native-sqliteAuth, in Dafny

This project models the authentication core of a React Native app in
Dafny. The app keeps its users in an on-device SQLite `Users` table. It
holds its session in AsyncStorage and in a Redux slice, and its screens
validate input before they dispatch.

The model has one module per source file, plus the shared pieces those
files lean on:

- `DatabaseService` (`database_service.dfy`) models the credential table.
  It is a class holding the lazily opened connection handle, a flag for
  whether `CREATE TABLE` has run, the rows in insertion order, and the
  `AUTOINCREMENT` counter. The operations are `getDatabase`, `initDB`,
  `createUser`, `loginUser` and `getAllUsers`. The pure definitions
  behind them are `Insert`, `FirstMatch` and `Opened`, with the table's
  `UNIQUE`/`AUTOINCREMENT` invariant.
- `KeyValue` (`key_value.dfy`) models the AsyncStorage calls the code
  makes. It is a class over a string-to-string map.
- `AuthService` (`auth_service.dfy`) models the static `AuthService`:
  `login`, `register`, `logout`, `getCurrentUser`, `isAuthenticated` and
  `updateCurrentUser`, over one `Database` and one `KeyValueStore`.
- `AuthSlice` (`auth_slice.dfy`) models the slice.
  - `AuthState` and `initialState`.
  - The reducer as a total function `Reduce` over all 18 actions: three
    plain reducers plus pending, fulfilled and rejected for each of the
    five thunks.
  - The class `AuthStore`, whose `Dispatch` assigns the state's fields in
    place.
  - The five thunks as methods. Each performs its storage reads and
    writes and returns the action it settles with.
- `TokenUtils` (`token_utils.dfy`) models `generateToken`, `decodeToken`,
  `isTokenExpired` and `isValidToken`. A token is `Bearer_` followed by
  Base64 (section 4 of RFC 4648, module `Base64`). The Base64 is taken of
  the UTF-8 (RFC 3629, module `Utf8`) of the serialised payload.
- `UserView` (`user_view.dfy`) holds `AuthUser`, `Partial<AuthUser>` with
  the spread merge, and the stored text form of a user.
- `Json` (`json.dfy`) is the serialisation both stored texts use. It is
  an injective encoding of integers and strings (see "Left out").
- `Utils` (`utils.dfy`) models `validationHelpers`.
- `Validators` (`validators.dfy`) states each regular expression of
  `validators.ts`, and the inline email pattern of the screens, as a
  predicate on characters.
- `RegisterScreen` (`register_screen.dfy`) and `LoginScreen`
  (`login_screen.dfy`) model the screens. The per-field rules are
  functions. The form and its error map are a class whose
  `updateFormData`, `validateField`, `validateForm` and the guard of
  `handleSubmit` are methods.
- `Text` (`text.dfy`) holds the string helpers: JavaScript whitespace,
  `trim`, `startsWith`, `includes`, `replace` with a string pattern, and
  decimal rendering.
- `Wrappers` (`wrappers.dfy`) holds `Option` (for `T | null`) and
  `Result` (a value, or the message of a thrown `Error`).

I/O becomes state or parameters:

- SQLite becomes the `Database` object.
- AsyncStorage becomes the `KeyValueStore` object.
- Whether the database file can be opened is the `Database`
  constructor's `openFault`.
- Faults of the storage calls are parameters, at the call sites whose
  `catch` changes the outcome: `readFault`, `serviceFault` and
  `removeFault`.
- `Date.now()` is the parameter `now`.
- The nonce `Math.random().toString(36).substring(2, 15)` is the
  parameter `random`.

Two facts about the code that are easy to miss:

- **An authenticated session may have no token.** `initializeAuth`
  (`src/global/auth/auth-slice.ts:47-56`) sets `isAuthenticated` from the
  flag and the user alone. An app restart with a stored user and flag but
  no token is therefore authenticated with a null token. The invariant
  the model proves for every reducer case is `isAuthenticated ⇒ user ≠
  null`. `AuthSlice.AuthenticatedWithoutToken` exhibits the tokenless
  case.
- **`AuthService.login` issues no token.** The `loginWithEmail` and
  `registerUser` thunks do.
- **`.length` counts UTF-16 code units.** `minLength` and the name check
  of the registration screen compare `value.trim().length`, in which a
  character beyond U+FFFF counts two. The model measures with
  `Text.Utf16Length`.

## Model

| member | source | states |
|---|---|---|
| DatabaseService.InsertOutcome | src/services/database/database-service.ts:66-80 | An insert fails exactly when the email is already in the table, with SQLite's `UNIQUE` message. Otherwise it appends exactly one row with the given name, email and password, keeps every earlier row, and gives the new row an id no earlier row has. |
| DatabaseService.InsertKeepsInvariant | src/services/database/database-service.ts:40-45 | Every successful insert keeps the schema's constraints: emails are unique, and ids increase in insertion order and stay below the counter. |
| DatabaseService.InsertAllKeepsInvariant | src/services/database/database-service.ts:40-45 | After any sequence of `createUser` calls, no two rows share an email and no two rows share an id. |
| DatabaseService.FirstMatchFrom | src/services/database/database-service.ts:91-99 | The result is the lowest position at or after `from` whose row has both the email and the password, and None exactly when no such row exists. |
| DatabaseService.FirstMatch | src/services/database/database-service.ts:91-112 | The lookup finds a row exactly when some row has both the email and the password. When it does, the result is the first such row in table order. |
| DatabaseService.OnlyMatch | src/services/database/database-service.ts:43-43 | Because emails are unique, a row found by email and password is the only row with that email. |
| DatabaseService.FindInserted | src/services/database/database-service.ts:66-72 | Right after a fresh row is inserted, its own email and password find exactly that row, with the id the counter held. |
| DatabaseService.OpenedOnce | src/services/database/database-service.ts:8-30 | The handle is opened at most once. Once a handle exists, every later call keeps it. A second call changes nothing. There is no handle exactly when none existed and opening fails. |
| DatabaseService.Database.constructor | src/services/database/database-service.ts:6-6 | The object starts with no handle, no table, no rows and next id 1: the state of a first install (see the `DatabaseService.Database.constructor` line under "## Left out"). |
| DatabaseService.Database.GetDatabase | src/services/database/database-service.ts:8-30 | An existing handle is returned unchanged. Otherwise the database is opened and cached, or opening's error is returned and nothing is cached. |
| DatabaseService.Database.InitDB | src/services/database/database-service.ts:32-64 | After a successful open the table exists. The rows and the counter are unchanged in every case, so a second call is harmless. A failed open returns its error and leaves the table flag as it was. |
| DatabaseService.Database.CreateUser | src/services/database/database-service.ts:66-80 | With no handle, or no table, the call returns that error and leaves the table unchanged. Otherwise the result is `Insert`'s: the new id with the table replaced by the inserted one, or the `UNIQUE` error with the table unchanged. |
| DatabaseService.Database.LoginUser | src/services/database/database-service.ts:82-140 | The result is the first row with both the email and the password, or None. The table is never changed. The email-only lookup after a miss has no effect on the result. |
| DatabaseService.Database.GetAllUsers | src/services/database/database-service.ts:142-158 | The loop returns every row, in table order, and the result's length is the row count. The table is unchanged. |
| KeyValue.KeyValueStore.GetItem | src/services/api/auth-service.ts:77-77 | Returns the stored text exactly when the key is present, and None otherwise. |
| KeyValue.KeyValueStore.SetItem | src/services/api/auth-service.ts:32-33 | Writes exactly the one key. |
| KeyValue.KeyValueStore.RemoveItem | src/global/auth/auth-slice.ts:154-154 | Removes exactly the one key. |
| KeyValue.KeyValueStore.MultiRemove | src/services/api/auth-service.ts:66-66 | Removes exactly the listed keys. |
| AuthService.RegisterErrors | src/services/api/auth-service.ts:51-59 | The duplicate-email message is rewritten to "This email is already registered". A missing table, a failed login and a message-less error are all rewritten to "Registration failed. Please try again." |
| AuthService.LoggedInReadsBack | src/services/api/auth-service.ts:32-33 | After the two writes of a login, whatever the store held before, the stored user reads back as the user written and the store reads as authenticated. |
| AuthService.LoggedOutReadsBack | src/services/api/auth-service.ts:66-66 | After the two removals of `logout`, no current user is read and the store never reads as authenticated. |
| AuthService.Auth.Login | src/services/api/auth-service.ts:16-41 | A database error is passed through and nothing is written. No matching row gives "Invalid email or password" and nothing is written. A match writes the row's public view (no password) under `@user_data` and `true` under `@is_logged_in`, and returns that view. |
| AuthService.Auth.Register | src/services/api/auth-service.ts:43-60 | A repeated email gives "This email is already registered" and leaves the table and the store unchanged. Every other failure gives "Registration failed. Please try again." On success the result is the login of the new row: its view with the new id, and the login's two writes. |
| AuthService.Auth.Logout | src/services/api/auth-service.ts:62-73 | When `multiRemove` succeeds, exactly `@user_data` and `@is_logged_in` are removed and no other key changes. When it throws, its error is returned. |
| AuthService.Auth.GetCurrentUser | src/services/api/auth-service.ts:75-83 | The result is None when the key is absent, holds empty text, or holds text that is not a stored user. Otherwise it is the parsed user. It never fails. |
| AuthService.Auth.IsAuthenticated | src/services/api/auth-service.ts:88-97 | True exactly when the flag reads `true` and a current user is stored. |
| AuthService.Auth.UpdateCurrentUser | src/services/api/auth-service.ts:102-116 | With no stored user, the call fails with "No user is logged in" and writes nothing. Otherwise `@user_data` is the only key that changes: it is rewritten with the patch laid over the stored user, and it reads back as that merged user. |
| UserView.ParseStringify | src/services/api/auth-service.ts:78-78 | Reading back the stored text of a user gives that user. |
| UserView.StringifyInjective | src/services/api/auth-service.ts:32-32 | Different users are stored as different texts. |
| UserView.MergeFields | src/services/api/auth-service.ts:109-109 | Each field the patch gives is taken from it, and every other field is kept. |
| UserView.MergeIdempotent | src/global/auth/auth-slice.ts:179-179 | Applying the same patch twice gives what applying it once gives. |
| AuthSlice.AuthStore.constructor | src/global/auth/auth-slice.ts:28-35 | The store starts in `initialState`. |
| AuthSlice.AuthStore.Dispatch | src/global/auth/auth-slice.ts:170-277 | The in-place field assignments of each case leave the state that `Reduce` gives for that action. |
| AuthSlice.ReduceKeepsSession | src/global/auth/auth-slice.ts:170-277 | Every reducer case keeps `isAuthenticated ⇒ user ≠ null`. |
| AuthSlice.ReduceAllKeepsSession | src/global/auth/auth-slice.ts:170-277 | Any run of dispatched actions keeps `isAuthenticated ⇒ user ≠ null`, provided the state starts consistent and every `initializeAuth` payload is well formed. |
| AuthSlice.InitializeCases | src/global/auth/auth-slice.ts:191-206 | Fulfilled copies user, token and flag from the payload, with isLoading false, isInitialized true and error null. Rejected sets isLoading false, isInitialized true and the error (or "Initialization failed"), and leaves user, token and flag unchanged. |
| AuthSlice.LoginRegisterCases | src/global/auth/auth-slice.ts:208-242 | Pending sets loading and clears the error. Fulfilled installs the payload's user and token and sets authenticated. Rejected sets authenticated false and the error (or its fallback), and clears neither user nor token. Login and register behave alike in each phase. |
| AuthSlice.ProfileCases | src/global/auth/auth-slice.ts:244-256 | No profile outcome changes the token, the flag or the initialised mark. Pending only raises the loading flag. Fulfilled replaces the user and clears the error. Rejected keeps the user and records the rejection, or "Failed to fetch profile" when there is none. |
| AuthSlice.LogoutCases | src/global/auth/auth-slice.ts:258-275 | Logout fulfilled and logout rejected both clear user, token, flag and loading. They differ only in the error. |
| AuthSlice.PlainReducers | src/global/auth/auth-slice.ts:174-187 | `clearError` differs from the old state only in the missing error, and is idempotent. `updateUser` differs from the old state only in a present user, whose fields come from the patch where it gives them. Repeating it changes nothing. `resetAuth` leaves the state a successful logout leaves, except that the loading flag is kept. |
| AuthSlice.MessageOr | src/global/auth/auth-slice.ts:87-87 | `error?.message \|\| fallback` is never empty when the fallback is not empty. |
| AuthSlice.InitOutcomeShape | src/global/auth/auth-slice.ts:37-65 | `initializeAuth` fulfils or rejects with `INIT_ERROR`. Its payload is authenticated exactly when the flag reads `true` and a user is stored, and its token is whatever is stored under the token key. |
| AuthSlice.SessionWritesAfterLogin | src/global/auth/auth-slice.ts:76-78 | The thunk's three writes overwrite the two the service made before them. |
| AuthSlice.RestoreAfterLogin | src/global/auth/auth-slice.ts:45-57 | A restart after a login's writes restores the same user and token, signed in. |
| AuthSlice.RestoreAfterLogout | src/global/auth/auth-slice.ts:45-57 | A restart after the three keys are removed finds nobody signed in. |
| AuthSlice.AuthenticatedWithoutToken | src/global/auth/auth-slice.ts:47-56 | A stored user with the flag but no token is restored as authenticated with a null token. |
| AuthSlice.AuthStore.InitializeAuth | src/global/auth/auth-slice.ts:37-65 | It reads the three keys and writes nothing. A read fault or unparsable user text rejects with `INIT_ERROR`. Otherwise it fulfils with the stored user, the stored token, and `flag = 'true' && user`. |
| AuthSlice.AuthStore.LoginWithEmail | src/global/auth/auth-slice.ts:67-94 | A match fulfils with the row's view and the token generated for its id and email. It leaves exactly the service's writes followed by token, user and flag. Every failure rejects with `LOGIN_ERROR` and a non-empty message (the error's own, or the fallback) and writes nothing. |
| AuthSlice.AuthStore.RegisterUser | src/global/auth/auth-slice.ts:96-124 | A fresh email fulfils with the new row's view and its token, and the storage writes are as for login. A repeated email or any other failure rejects with `REGISTER_ERROR` and the service's rewritten message, and writes nothing. |
| AuthSlice.AuthStore.GetUserProfile | src/global/auth/auth-slice.ts:126-147 | It fulfils with the stored user, or rejects with "No user found" and `PROFILE_ERROR`. It writes nothing. |
| AuthSlice.AuthStore.Logout | src/global/auth/auth-slice.ts:149-168 | In every case the token, user and flag keys are removed and no other key changes. Success fulfils. A fault in either removal rejects with that fault's message and `LOGOUT_ERROR`. |
| TokenUtils.GenerateToken | src/utils/token-utils.ts:5-20 | Every generated token begins with `Bearer_`. |
| TokenUtils.ParseStringifyData | src/utils/token-utils.ts:10-17 | Reading the serialised payload gives back user id, email, timestamp and nonce. |
| TokenUtils.DecodeGenerate | src/utils/token-utils.ts:22-33 | Decoding a generated token gives its user id, its email and the time it was issued. |
| TokenUtils.RemovesLeadingPrefixOnly | src/utils/token-utils.ts:24-24 | Only the first `Bearer_` is removed, and the rest is decoded as it is. |
| TokenUtils.UndecodableIsExpired | src/utils/token-utils.ts:40-46 | A token that does not decode counts as expired, and is never valid. |
| TokenUtils.GeneratedExpiry | src/utils/token-utils.ts:48-52 | A generated token is expired exactly when more than 86 400 000 ms have passed since issue, and valid exactly when at most that many have; an age of exactly 24 hours is still valid. |
| TokenUtils.IsValidToken | src/utils/token-utils.ts:58-65 | A valid token is non-empty and has the prefix. A prefixed token is valid exactly when it decodes and is not expired. |
| TokenUtils.UnprefixedInvalid | src/utils/token-utils.ts:59-61 | A token without the prefix is never valid, whatever it decodes to. |
| Base64.Encode | src/utils/token-utils.ts:17-17 | The encoding has length `4·⌈n/3⌉` for n bytes. |
| Base64.DecodeEncode | src/utils/token-utils.ts:26-26 | Decoding the Base64 of any byte sequence gives it back. |
| Base64.EncodeDecode | src/utils/token-utils.ts:26-26 | Every string the decoder accepts is the encoding of what it decodes to, so no two accepted strings decode alike. |
| Utf8.DecodeEncode | src/utils/token-utils.ts:26-26 | Reading back the UTF-8 of any string gives the string. |
| Json.ParseIntOf | src/utils/token-utils.ts:27-27 | An encoded integer, followed by anything, is read back with the rest untouched. |
| Json.ParseStrOf | src/utils/token-utils.ts:27-27 | An encoded string, followed by anything, is read back with the rest untouched. |
| Text.Trim | src/utils/utils.ts:10-10 | `trim()` yields the infix of the value with only whitespace before and after it, and neither end of the result is whitespace. |
| Text.Utf16Length | src/utils/utils.ts:24-24 | `.length` is at least the number of characters and at most twice it. |
| Text.Utf16LengthAppend | src/utils/utils.ts:24-24 | The code-unit length of a concatenation is the sum of the parts' lengths. |
| Text.Utf16LengthBmp | src/utils/utils.ts:24-24 | The code-unit length equals the number of characters exactly when no character lies beyond U+FFFF. |
| Text.TrimEmptyIff | src/utils/utils.ts:10-10 | `value.trim() === ''` holds exactly when every character is whitespace. |
| Text.IndexOfFrom | src/services/api/auth-service.ts:54-54 | The result is the first occurrence at or after the start position, and None exactly when there is none. |
| Text.ReplaceFirst | src/utils/token-utils.ts:24-24 | Only the first occurrence of the pattern is replaced. Without one, the string is returned unchanged. |
| Utils.IsRequired | src/utils/utils.ts:9-14 | Returns null exactly when the value is present and not all whitespace, and `"<field> is required."` otherwise. |
| Utils.HasSpecialCharacters | src/utils/utils.ts:16-21 | Returns null exactly when the pattern accepts the value, and the fixed message otherwise. |
| Utils.MinLength | src/utils/utils.ts:23-28 | Returns null exactly when the value is non-empty and its trimmed length in UTF-16 code units reaches the minimum, and the templated message otherwise. |
| Utils.MinLengthCountsCodeUnits | src/utils/utils.ts:24-24 | One character beyond U+FFFF is two code units long, so it passes a minimum of 2. |
| Utils.MinLengthRejectsEmpty | src/utils/utils.ts:24-24 | The empty string fails even a minimum of 0. |
| Utils.MinLengthMonotonic | src/utils/utils.ts:23-28 | A value that passes a minimum passes every smaller minimum. |
| Utils.MinLengthImpliesRequired | src/utils/utils.ts:9-28 | Passing a positive minimum implies passing `isRequired`. |
| Validators.PasswordIff | src/models/validators.ts:1-1 | PASSWORD accepts exactly the strings of 8–20 characters from `[A-Za-z0-9@$!%*?&;]` that hold a lowercase letter, an uppercase letter and a digit. |
| Validators.NumberIff | src/models/validators.ts:3-3 | NUMBER accepts exactly `"0"` and the digit strings not starting with `0`. |
| Validators.NumberOfNatToString | src/models/validators.ts:3-3 | Every decimal rendering of a natural number is a NUMBER. |
| Validators.NameIff | src/models/validators.ts:5-5 | NAME accepts exactly the non-empty strings over letters, whitespace, `'`, `.` and `-` that begin and end with a letter. |
| Validators.SuffixGroupsShape | src/models/validators.ts:7-7 | The `(\.\w{2,10})+` tail holds no `@` and ends with `.` and 2 to 10 word characters. |
| Validators.EmailShape | src/models/validators.ts:7-7 | Every string EMAIL accepts has exactly one `@`, and ends with `.` followed by 2 to 10 word characters. |
| Validators.SimpleEmailNotBlank | src/container/register/Index.tsx:105-105 | The screens' inline email pattern never accepts a blank string. |
| RegisterScreen.WithValue | src/container/register/Index.tsx:56-56 | Only the named field changes, to the new value. |
| RegisterScreen.NameErrorOrder | src/container/register/Index.tsx:87-102 | The name checks apply in order, with `MIN_NAME_LENGTH` = 2. A blank name is "Name is required". A trimmed length below 2 is the too-short message. Failing NAME on the trimmed value is the letters message. Otherwise there is no error. Each message is given exactly in its case. Lengths are in UTF-16 code units. |
| RegisterScreen.AstralNameInvalid | src/container/register/Index.tsx:92-100 | A name of one character beyond U+FFFF passes the length check, being two code units, and gets the letters-only message. |
| RegisterScreen.EmailErrorIff | src/container/register/Index.tsx:103-106 | An email passes exactly when the inline pattern accepts it. Any failure, a blank value included, gets the single message "Please enter a valid email address". |
| RegisterScreen.PasswordErrorIff | src/container/register/Index.tsx:107-109 | A password passes exactly when its trimmed length in UTF-16 code units reaches 6. A blank one is reported as required, and a short one as too short. |
| RegisterScreen.FieldErrorNonEmpty | src/container/register/Index.tsx:112-114 | Every message is non-empty, so every error found is recorded. |
| RegisterScreen.ValidatedEntries | src/container/register/Index.tsx:112-122 | After the three fields are validated in turn, the map holds exactly the failing fields, each with its own message. It is empty exactly when none failed. |
| RegisterScreen.ValidatedForgets | src/container/register/Index.tsx:127-132 | Validating all three fields leaves the same map whatever it held before. |
| RegisterScreen.FormErrorsEntries | src/container/register/Index.tsx:127-132 | The form's error map has an entry for a field exactly when that field fails, with that field's message. It is empty exactly when the form is valid. |
| RegisterScreen.RegisterForm.UpdateFormData | src/container/register/Index.tsx:55-67 | Only the named field changes. Only that field's error is removed. A set auth error is cleared through `clearError`, and otherwise the auth state is unchanged. |
| RegisterScreen.RegisterForm.ValidateField | src/container/register/Index.tsx:81-125 | Returns true exactly when the field has no error. Afterwards the field has an entry exactly when the call returned false. Every other field's entry is unchanged. |
| RegisterScreen.RegisterForm.ValidateForm | src/container/register/Index.tsx:127-132 | All three fields are validated, none skipped. The result is their conjunction, and the error map is the form's error map. |
| RegisterScreen.RegisterForm.HandleSubmit | src/container/register/Index.tsx:134-156 | A registration request is produced exactly when the form is valid, and it carries the form's email, name and password. Otherwise nothing is dispatched. |
| LoginScreen.WithValue | src/container/login/Index.tsx:52-52 | Only the named field changes, to the new value. |
| LoginScreen.PasswordRule | src/container/login/Index.tsx:84-86 | The login password passes exactly when it is not blank, with no minimum length. A blank one is reported as required. |
| LoginScreen.PasswordWeakerThanRegister | src/container/login/Index.tsx:84-86 | Any password the registration screen accepts is accepted here. |
| LoginScreen.ShortPasswordPasses | src/container/login/Index.tsx:84-86 | The converse fails: the one-letter password "a" passes here and is too short for registration. |
| LoginScreen.FieldErrorNonEmpty | src/container/login/Index.tsx:89-91 | Every message is non-empty, so every error found is recorded. |
| LoginScreen.ValidatedEntries | src/container/login/Index.tsx:104-108 | After both fields are validated in turn, the map holds exactly the failing fields with their messages, whatever it held before. |
| LoginScreen.FormErrorsEntries | src/container/login/Index.tsx:104-108 | The form's error map has an entry for a field exactly when that field fails. It is empty exactly when the form is valid. |
| LoginScreen.LoginForm.UpdateFormData | src/container/login/Index.tsx:51-60 | Only the named field changes and only that field's error is removed. The auth state is not touched. |
| LoginScreen.LoginForm.ValidateField | src/container/login/Index.tsx:74-102 | Returns true exactly when the field has no error. Only that field's entry is set or removed. |
| LoginScreen.LoginForm.ValidateForm | src/container/login/Index.tsx:104-108 | Both fields are validated. The result is their conjunction, and the error map is the form's error map. |
| LoginScreen.LoginForm.HandleSubmit | src/container/login/Index.tsx:111-128 | A login request with the form's email and password is produced exactly when the form is valid. Otherwise nothing is dispatched. |

## Left out

- SQL text, `PRAGMA`/`sqlite_master` queries, `debugDatabase` and all
  `console` logging are not modelled. `initDB`'s check that the table
  exists only logs, so it is left out too.
- The email-only lookup in `loginUser` is computed and then dropped. It
  only feeds the log.
- Asynchrony is not modelled. Each `await`ed call is one sequential
  step, and each thunk is one step followed by its fulfilled or rejected
  action. Interleavings of concurrent thunks are not modelled.
- JSON is an abstract serialisation only, used for the two stored
  shapes, `AuthUser` and the token payload. `JSON.parse` of other JSON
  text is not modelled: for example, an object missing a field, which
  JavaScript reads with `undefined` fields instead of throwing. In the
  model, any text other than the stored shape fails to parse.
- TokenUtils.DecodeToken: for a payload whose timestamp is missing, the
  model rejects the token where JavaScript would compare against `NaN`.
  That `NaN` arithmetic is not reproduced.
- Base64.Decode accepts only canonical encodings (section 3.5 of
  RFC 4648), not the lenient input Node's `Buffer` tolerates.
  Utf8.Decode rejects ill-formed input where `Buffer.toString` would
  substitute U+FFFD.
- JavaScript's `\s` and `trim()` are an explicit character set, the
  WhiteSpace and LineTerminator characters of ECMA-262. Unicode
  category look-ups are not made.
- `setItem` and `getItem` faults are not modelled, except where a
  `catch` turns them into an outcome that the model has as a parameter:
  `readFault` of `initializeAuth`, and the two removal faults of
  `logout`.
- AuthSlice.AuthStore.Logout assumes the fallback `multiRemove` in the
  `catch` always succeeds. A fault there skips `rejectWithValue`, so
  `logout.rejected` arrives with no payload. The reducer
  (`src/global/auth/auth-slice.ts:269-274`) then records
  `{message: 'Logout failed'}` with no code, and the keys may not have
  been removed. That case is not modelled.
- DatabaseService.Database.constructor always starts from an empty
  database file. On a later launch the SQLite file and its `Users` rows
  survive, which the model does not represent.
- redux-persist (`store.ts`, `rootReducer.ts`) is not part of this
  model. What it persists, and when, cannot be seen from the
  application code.
- `getColorValue` and every rendering, navigation and `Alert` call of
  the screens are not modelled. Neither is anything the screens do
  after dispatching, or their placeholder handlers.
- `Date.now()` and `Math.random()` are parameters. The model does not
  check that the nonce is a base-36 string of at most 13 characters.
- The opening of the database file is a fixed outcome, `openFault`.
  The model does not let it fail once and succeed later.
