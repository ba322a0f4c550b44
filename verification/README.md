# Friend requests, throttle and email login: a Dafny model

This project models the core of a small social-graph backend:

- **Profiles.** Identities have a unique email, an optional name and an optional password credential. They are created by registration or by the profile manager (`create_user`, `create_superuser`).
- **Tokens.** Each profile has at most one bearer token. Registration creates it and login returns it.
- **Authentication.** The backend finds a profile by email and checks a password only when a non-empty one is given.
- **Friend relationships.** A relationship is a directed row (owner, profile, status, created, updated). Its status is one of ACCEPT, SEND or REJECT and defaults to SEND. The pair (owner, profile) is unique. Rows are created by a POST, changed by a partial PATCH, and listed by owner and status.
- **Throttle.** A POST is refused when its caller already owns three or more rows created in the last three minutes.

## Layout

- `models.dfy`, module `Models`. The records (`Profile`, `Friend`, `Token`, `Credential`, `Status`) and the table invariants (keys in order, unique email, unique pair, foreign keys, one token per profile). It also holds `Where`, the ordered table filter that every query uses, and its lemmas. The class `Database` holds the three tables as sequences. Its methods `CreateUser` and `CreateSuperuser` are the profile manager.
- `backends.dfy`, module `Backends`. `Authenticate` and `GetUser`, as pure functions over the profile table.
- `throttles.dfy`, module `Throttles`. `AllowRequest`, a pure predicate over the Friend table, the caller and an integer clock, and the lemmas about the window.
- `views.dfy`, module `Views`. Each handler is a decision function over the tables (`DecidePost`, `DecidePatch`, `EmailErrors`, `Login`, the two lists). Handlers that write are `Database`-modifying methods (`StatusPost`, `StatusPatch`, `Register`) whose postconditions tie the new tables to that decision.

Parameters stand for things outside the model:

- Time is an integer number of seconds. The window is 180 s and its bound is inclusive.
- `check_password` is a function parameter `checkPassword: (Credential, string) -> bool`.
- The email-format validator is a parameter `isEmail`.
- `normalize_email` is a parameter `normalize`.
- The random token key is a parameter `key`.

Notes on what the code does:

- A successful registration answers with a 200 and the message "User created successfully". The response carries neither the new id nor the email.
- A PATCH may change `owner` and `profile` as well as `status`. Every field present in the payload is validated and written.
- Any status may be patched to any status, so ACCEPT and REJECT are not terminal.
- A non-empty password is always checked against the stored credential. A profile created by registration stores a blank credential, which no password checks against. So a password login for it fails, while an email-only login succeeds.
- The throttle's window is three minutes. The throttle module's docstring says "per minute" (throttles.py:2).
- The received list filters on the owner, not on the target. It lists the SEND rows the caller sent, not requests addressed to the caller. `ReceivedList` models the filter as written.
- The throttle tests pass `created=` to the factory, but `auto_now_add` overwrites it with the insertion time. The scenario lemmas use the timestamps the tests intend. Their outcomes are the same with the overwritten times.

## Model

| member | source | states |
|---|---|---|
| Models.ParseStatus | butterfly/core/models.py:71-78 | a status text is accepted exactly when it is the text of one of the three choices, and then denotes that choice |
| Models.IsStaff | butterfly/core/models.py:58-62 | all admins are staff, and only admins are |
| Models.HasPerm | butterfly/core/models.py:48-51 | every profile has every permission |
| Models.HasModulePerms | butterfly/core/models.py:53-56 | every profile may view every app |
| Models.Where | butterfly/core/views.py:88-90 | a filter query returns exactly the stored rows that satisfy the filter, never more rows than stored |
| Models.WhereCountsRows | butterfly/core/throttles.py:17-20 | on a table without duplicate rows, the size of a filtered query is the number of stored rows that satisfy the filter (what `count()` returns) |
| Models.Database.CreateUser | butterfly/core/models.py:6-18 | an empty email fails with nothing created; a normalized email already stored fails at the unique constraint with nothing created; otherwise exactly one profile is appended under the next key, with the normalized email, the password's hash or the unusable marker, active, not admin and therefore not staff; table invariants kept |
| Models.Database.CreateSuperuser | butterfly/core/models.py:20-28 | the outcome of create_user: an empty email fails with `EmailRequired`, a stored normalized email fails with `EmailNotUnique`, nothing is created on failure; on success the one appended profile is admin and therefore staff (`is_staff` is `is_admin`, models.py:58-62); table invariants kept |
| Models.AdminFlagKeepsTables | butterfly/core/models.py:26-27 | setting the admin flag of the newest profile and saving it keeps every table invariant: keys, emails, foreign keys and tokens |
| Backends.FirstWithEmail | butterfly/core/backends.py:14 | none exactly when no profile has the email; otherwise the earliest profile (key order) with that email |
| Backends.PasswordGiven | butterfly/core/backends.py:19 | the truth value of the password argument: false when it is absent or empty, true for any other text |
| Backends.Authenticate | butterfly/core/backends.py:8-25 | a result is a stored profile with exactly the requested email; unknown or missing email gives none; with a non-empty password a result always passed `check_password`; with no or an empty password a stored email always succeeds |
| Backends.AuthenticateExactly | butterfly/core/backends.py:14-25 | with unique emails: authentication yields p iff p is stored with that email and, when a non-empty password is given, it checks against p's credential |
| Backends.GetUser | butterfly/core/backends.py:27-31 | the profile with that primary key, or none exactly when no profile has it |
| Throttles.AllowRequest | butterfly/core/throttles.py:14-22 | every non-POST request is admitted |
| Throttles.DeniedIffThreeRecentRows | butterfly/core/throttles.py:16-21 | a POST is refused iff at least 3 stored rows are owned by the caller and created at or after now minus 3 minutes |
| Throttles.OnlyOwnRowsMatter | butterfly/core/throttles.py:17-19 | the decision for a caller equals the decision over the caller's own rows alone |
| Throttles.OtherOwnersIrrelevant | butterfly/core/throttles.py:18 | two tables in which the caller owns the same rows give the caller the same decision |
| Throttles.StaleRowsIrrelevant | butterfly/core/throttles.py:17-20 | inserting rows created before the window opened, anywhere in the table, never changes the decision |
| Throttles.WindowBoundIsInclusive | butterfly/core/throttles.py:18 | a caller's row created exactly 180 s ago is counted; one created 181 s ago is not |
| Throttles.MoreRowsNeverReadmit | butterfly/core/throttles.py:17-21 | once a POST is refused, adding rows never makes it admitted |
| Throttles.WaitingNeverHurts | butterfly/core/throttles.py:16-21 | with the table unchanged, a request admitted now is admitted at every later time |
| Throttles.ThreeRecentRowsRefused | butterfly/core/tests.py:209-231 | three own rows created 30, 20 and 10 s ago: the POST is refused |
| Throttles.OneRecentRowAdmitted | butterfly/core/tests.py:233-245 | one own row created 70 s ago: the POST is admitted |
| Views.OwnerErrors | butterfly/core/models.py:66 | the owner field passes iff present (or the update is partial) and naming a stored profile |
| Views.ProfileErrors | butterfly/core/models.py:67-69 | the profile field passes iff present (or the update is partial) and naming a stored profile |
| Views.StatusErrors | butterfly/core/models.py:76-78 | the status field passes iff absent (the column has a default) or the text of a choice |
| Views.DecidePost | butterfly/core/views.py:58-75 | throttled iff the throttle refuses; an insert has the payload's target, a stored target, a pair not yet taken, SEND when no status is given and otherwise the given choice; every admissible request is inserted; an admissible but duplicate pair is rejected with exactly the unique-together error; a payload with field errors is rejected with exactly those errors |
| Views.PayloadOwnerIgnored | butterfly/core/views.py:65-66 | the owner in the payload never affects the outcome of a POST |
| Views.ThrottledPostInsertsNothing | butterfly/core/views.py:59 | with 3 recent own rows the POST is throttled, so nothing is inserted |
| Views.StatusPost | butterfly/core/views.py:64-75 | 429 or 400 leave the table unchanged; 201 appends exactly one row (next key, owner the caller, created = updated = now) and changes nothing else; 429 exactly when the caller already owns 3 stored rows created in the last 3 minutes; table invariants kept |
| Views.AppendKeepsFriendTable | butterfly/core/models.py:86-87 | appending a row with a fresh key, resolving foreign keys and an untaken pair keeps the pair unique |
| Views.IndexOfFrom | butterfly/core/views.py:61-62 | the position of the row with the given key, or none exactly when no row has it |
| Views.DecidePatch | butterfly/core/views.py:77-83 | not found iff no row has the key; an update keeps the key and created time, sets updated to now, takes each field present in the payload and keeps each absent one, resolves both foreign keys and collides with no other row's pair; a stored key with valid fields is updated unless another row already holds the resulting pair, in which case it is rejected with exactly the unique-together error; field errors are reported as they are |
| Views.StatusPatch | butterfly/core/views.py:77-83 | 404 or 400 leave the table unchanged; 201 replaces exactly the row with that key and nothing else; never 429; table invariants kept |
| Views.ReplaceKeepsFriendTable | butterfly/core/models.py:86-87 | replacing a row under its own key with a pair no other row holds keeps the pair unique |
| Views.FriendsList | butterfly/core/views.py:86-92 | exactly the caller's own rows with status ACCEPT |
| Views.ReceivedList | butterfly/core/views.py:95-101 | exactly the caller's own rows with status SEND |
| Views.FriendsListOfSeededTable | butterfly/core/tests.py:135-164 | a table of the caller's ACCEPT rows followed by rows that are not lists exactly those ACCEPT rows (5 + 5 seeded gives 5) |
| Views.ReceivedListOfSeededTable | butterfly/core/tests.py:167-196 | likewise for SEND rows |
| Views.OwnRowsPartitioned | butterfly/core/views.py:86-101 | the caller's rows split exactly into the friends list, the received list and the rejected rows |
| Views.StripIsMiddle | butterfly/core/serializer.py:6-9 | the submitted email is stored stripped: exactly the slice of the text between its leading whitespace and its trailing whitespace |
| Views.StripHasNoOuterSpace | butterfly/core/serializer.py:6-9 | the stored email neither starts nor ends with whitespace |
| Views.EmailErrors | butterfly/core/models.py:32-36 | no errors iff the email is present, not blank after stripping, not already stored, at most 255 characters, free of the null character and well-formed; a stored email's first error is the duplicate |
| Views.Report | butterfly/core/models.py:32-36 | each validator's error is listed exactly when its check fails; none exactly when every check passes; a duplicate is listed first |
| Views.ReportInCheckOrder | butterfly/core/models.py:32-36 | the validators' errors are listed in the order uniqueness, length, null character, form, each at most once |
| Views.EmailErrorsListed | butterfly/core/models.py:32-36 | missing, blank, duplicate, too long, null character and malformed are each reported exactly when that check fails, in validation order |
| Views.HasNullCharIsContainment | butterfly/core/models.py:32-36 | the null-character check holds exactly when the text contains the null character |
| Views.Register | butterfly/core/views.py:26-35 | on errors nothing is created and the errors are returned; otherwise exactly one profile is created (stripped email, blank credential), then exactly one token for it with an unused key, or, when the generated key is already stored, a server error with the profile left saved; table invariants kept |
| Views.SaveRegistration | butterfly/core/views.py:30-33 | a valid registration appends exactly one profile (next key, the given email, no name, blank credential, active, not admin), then exactly one token for it with the given key, or fails on a stored key with the profile left saved; table invariants kept |
| Views.NewTokenKeepsTokenTable | butterfly/core/views.py:32 | a token with an unused key for the profile just saved under the next key keeps keys unique and one token per profile, every token naming a stored profile |
| Views.SecondRegistrationIsDuplicate | butterfly/core/tests.py:27-42 | registering the same email again reports "already exists" first |
| Views.TokenOf | butterfly/core/views.py:49 | a stored token of that profile, or none exactly when it has none |
| Views.Login | butterfly/core/views.py:41-55 | "Invalid credentials" iff authentication fails; a returned key is the authenticated profile's token |
| Views.LoginReturnsOwnToken | butterfly/core/views.py:47-55 | with valid tables: login with a stored email returns key k iff k is that profile's token and any non-empty password checks |
| Views.EmailOnlyLogin | butterfly/core/tests.py:46-56 | a profile with a token logs in with its email alone, or with an empty password |
| Views.PasswordLogin | butterfly/core/tests.py:58-86 | with a hash-like checker, the right password returns the token and a wrong one is refused with "Invalid credentials" |

## Left out

- Password hashing: `set_password` and `check_password` are framework primitives. The hash is the opaque `HashOf(raw)` and the check is a parameter.
- Email normalization (`normalize_email`) and the email-format validator are framework code. They are the parameters `normalize` and `isEmail`.
- Token key generation is random. The key is a parameter. A key already stored is modelled as the failing token insert, which leaves the saved profile behind.
- Bearer-header parsing (`authentication.py`) and resolving a token to its user are not modelled. The status and list handlers take an authenticated caller that is a stored profile.
- Anonymous callers are not modelled. Neither are the permission settings that would turn them away.
- A non-numeric key in the PATCH URL is not modelled. It makes the lookup raise rather than answer 404. Keys are natural numbers here.
- Non-string JSON values in payloads are not modelled. Fields are absent or text; keys are numbers.
- Routing, migrations and serializer field lists carry no logic. The status responses carry the stored row, of which the serializer shows id, owner, profile and status.
- The user directory (`UserListAPIView`: name-descending order, case-insensitive search in email or name, pages of 10) is built from framework search and pagination classes. It is not part of this model.
- The throttle's count-then-insert is not atomic under concurrent requests. The model is sequential.
- Timestamps have one-second resolution, not microseconds.
- Stripping uses Python's Unicode whitespace set. Text length counts Unicode scalar values.
- The email field's check for surrogate code points is not modelled. Text here is a sequence of Unicode scalar values, which never holds a surrogate.
