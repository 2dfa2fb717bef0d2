# Estate access and billing rules, with a Dart migration rewriter

This project is a Dafny model of the rule engines of an estate-management system. Residents issue guest passes. Guards scan and admit visitors. Estate administrators approve residents. A platform administrator oversees estates. The model also covers a small Python migration script that rewrites deprecated Flutter calls. Stores are sequences of immutable records. Every operation is a pure function from a store and its inputs to an answer and the updated store. Time is a number of milliseconds passed in by the caller. Random draws, password hashes and token signatures are parameters.

The model has these parts:

- **The rewriter** (`OpacityPattern`, `OpacityMatching`, `DeprecatedApi`).
  - It hand-codes the matcher for `(\w+(?:\.\w+)*?)\.withOpacity\((\d+\.?\d*)\)`: a greedy first word, then lazily extended segments, then the call tail.
  - `re.sub` becomes a left-to-right scan.
  - The file walk is a fold over a list of files.
- **Guest passes, in four versions.**
  - The in-memory mock service (`MockService`).
  - The backend pass service (`PassService`).
  - The guard screen of the mock client (`MockSecurityDashboard`).
  - The guard screen of the backend client (`SecurityDashboard`).
- **Mock tenancy and billing** (`MockService`): registration, approval, bills and the overdue-bill restriction, and the estate toggles.
- **Phone numbers and one-time passwords** (`OtpService`).
- **Backend accounts and authorisation.**
  - Services: `AuthService`, `UserService`, `EstateService`, `ReferralService`, `Household`, `TransferAdmin` and `Identity`.
  - Middleware: `AuthMiddleware`, `ErrorHandler` and `Validation`.
  - `JsParseInt` models JavaScript's `parseInt` as far as the controllers use it.
- **Aggregations**: the guard logbook merge (`SecurityService`, with `Sorting`) and the platform statistics (`AdminStats`).
- **Resident client rules** (`ResidentDashboard`): the memory game, the weekday toggle, the create-pass guard and the partition of the pass list.

`Common` holds generic sequence and string helpers. `Types` and `BackendStore` hold the records. Each module's header comment says which source file it follows.

## Model

| member | source | states |
|---|---|---|
| OpacityPattern.MatchSound | fix_deprecated_api.py:19 | A match at the start of a text is a dotted word chain followed by `.withOpacity(N)`, where N is digits, an optional dot, then optional digits. The matched text is exactly that chain and that call. |
| OpacityMatching.CallIsMatched | fix_deprecated_api.py:19 | Every chain followed by `.withOpacity(N)` with a number literal N matches with that chain and that number, whatever follows. |
| OpacityMatching.BadArgumentIsNotMatched | fix_deprecated_api.py:19 | A call whose argument is dots and digits but not a number literal (`.5`, `1.2.3`) starts no match. |
| OpacityMatching.LeadingDotExample | fix_deprecated_api.py:19 | `x.withOpacity(.5)` is not matched: an instance of `BadArgumentIsNotMatched` on a literal. |
| OpacityMatching.NonNumericArgumentIsNotMatched | fix_deprecated_api.py:19 | A call whose argument holds a character other than a digit or a dot, and no `)`, starts no match, whatever chain precedes it and whatever follows. |
| OpacityMatching.NonNumericArgumentsExample | fix_deprecated_api.py:19 | `x.withOpacity(-1)`, `x.withOpacity(a)` and `x.withOpacity( 1)` start no match: a sign, an identifier or a space in the argument stops the pattern. |
| OpacityMatching.MatchAgree | fix_deprecated_api.py:19 | A match depends only on the text it covers: a text that agrees up to the end of the match has the same match. |
| DeprecatedApi.ReplaceWithOpacity | fix_deprecated_api.py:19-24 | The script's core returns the rewritten text, and reports a change exactly when the text differs, which is exactly when some position starts a match. |
| DeprecatedApi.RewriteText | fix_deprecated_api.py:22 | The scan loop computes the substitution. |
| DeprecatedApi.CallIsRewritten | fix_deprecated_api.py:17-22 | `R.withOpacity(N)` becomes `R.withValues(alpha: N)`, with the chain and the number copied verbatim. |
| DeprecatedApi.ColorsRedExample | fix_deprecated_api.py:17 | `Colors.red.withOpacity(0.5)` becomes `Colors.red.withValues(alpha: 0.5)`. |
| DeprecatedApi.IntegerLiteralExample | fix_deprecated_api.py:19 | The integer argument `1` is matched and kept as `1`. |
| DeprecatedApi.TrailingDotExample | fix_deprecated_api.py:19 | The argument `0.` is matched and kept as `0.`. |
| DeprecatedApi.NoMatchIsUnchanged | fix_deprecated_api.py:22-24 | A text in which no position starts a match comes back unchanged. |
| DeprecatedApi.MatchChangesText | fix_deprecated_api.py:22-24 | A match anywhere in the text makes the output differ from the input. |
| DeprecatedApi.UnchangedIffNoMatch | fix_deprecated_api.py:22-24 | The rewrite leaves a text unchanged exactly when no position of it starts a match. |
| DeprecatedApi.ClosedPrefixIsCopied | fix_deprecated_api.py:22 | A prefix of the output without spaces, and with no `)` before its end, was copied from the input. |
| DeprecatedApi.RewriteLeavesNoMatch | fix_deprecated_api.py:19-22 | No position of the output starts a match. |
| DeprecatedApi.RewriteIdempotent | fix_deprecated_api.py:19-22 | Rewriting the output again changes nothing. |
| DeprecatedApi.ReadNewlines | fix_deprecated_api.py:12-13 | Reading in text mode leaves no carriage return and never lengthens the text. |
| DeprecatedApi.PlainTextReadsAsIs | fix_deprecated_api.py:12-13 | Text without a carriage return reads as it is, so reading twice is reading once. |
| DeprecatedApi.CrlfReadsAsLf | fix_deprecated_api.py:12-13 | A `\r\n` line end reads as `\n`, and the text before it is kept. |
| DeprecatedApi.RewriteNoReturn | fix_deprecated_api.py:19-22 | The substitution adds no carriage return to a text that has none. |
| DeprecatedApi.PrefixNoMatch | fix_deprecated_api.py:19-22 | Cutting off the end of a text with no match leaves a text with no match. |
| DeprecatedApi.ReplaceInFile | fix_deprecated_api.py:9-31 | A file reported as modified could be read, and now holds the substitution of its text as read with universal newlines. That text has no carriage return, so the file differs from before. A file that changed without being reported had a write fail after the open, and now holds a prefix of the new text. A file that could not be read or opened for writing is left as it was and not reported. The name and the write behaviour are kept. |
| DeprecatedApi.ModifiedIffMatch | fix_deprecated_api.py:11-31 | A file counts as modified exactly when it could be read and written and some position of its text, as read, starts a match. |
| DeprecatedApi.CrlfFileComesBackLf | fix_deprecated_api.py:12-26 | A rewritten file with Windows line ends is written back with `\n` line ends, including the lines without a match, so its content differs from the original. |
| DeprecatedApi.ReplaceInFileTwice | fix_deprecated_api.py:9-31 | Processing a file's output again leaves it as it is and reports no change. This covers a written file and what a failed write kept. |
| DeprecatedApi.ProcessFiles | fix_deprecated_api.py:33-45 | After the walk, each `.dart` file is what `replace_with_opacity` leaves and every other file is untouched. The count is the number of `.dart` files reported as modified. |
| DeprecatedApi.ProcessFilesEffect | fix_deprecated_api.py:37-45 | A file whose name does not end in `.dart` is never touched. A file that changed is a `.dart` file that now holds a prefix of its rewritten text, all of it when the write succeeded. The count is at most the number of `.dart` files. |
| DeprecatedApi.SecondRunModifiesNothing | fix_deprecated_api.py:19-45 | A second run over the output modifies no file and counts zero. |
| Types.ExitStatus | services/mockData.ts:270 | An exit leaves a recurring pass ACTIVE and every other pass EXPIRED. The backend follows the same rule at backend/src/services/passService.ts:87. |
| Types.PassCodeHasFiveDigits | backend/src/services/passService.ts:6 | `10000 + draw` for a draw below 90000 prints as exactly five digits. The mock uses the same formula at services/mockData.ts:160. |
| Types.PassCodeInRange | backend/src/services/passService.ts:6 | A pass code reads back as a number in 10000..99999. |
| Types.RoleName | web_dashboard/types.ts:1-6 | Every role's name parses back to that role. |
| MockService.OrElse | services/mockData.ts:163-164 | `a \|\| b` on an optional string gives `a` when it is present and non-empty, else `b`. |
| MockService.Register | services/mockData.ts:100-126 | Registration succeeds exactly when no user has the email and some estate has the code. A duplicate email is refused first, then an unknown estate code, and neither refusal changes the store. A success appends exactly one user: unapproved, with the unit given or `''`, and the id of the estate whose code was given. |
| MockService.Login | services/mockData.ts:94-98 | Login finds a user with that email, and finds none exactly when no user has it. |
| MockService.RegisteredUserCanLogIn | services/mockData.ts:94-126 | A user who has just registered logs in as the new record, which is awaiting approval. |
| MockService.RegisterTwiceFails | services/mockData.ts:103-106 | Registering the same email a second time is refused, whatever the estate code. |
| MockService.PendingUsers | services/mockData.ts:425-427 | The pending list holds exactly the unapproved users of the estate. |
| MockService.ApproveUser | services/mockData.ts:429-431 | Users with that id become approved. Nobody else changes. |
| MockService.RejectUser | services/mockData.ts:433-435 | Users with that id are removed, and everyone else stays. |
| MockService.DecidedUserIsNotPending | services/mockData.ts:425-435 | After an approval or a rejection the user is no longer pending. Every other pending user still is. |
| MockService.GeneratePass | services/mockData.ts:141-177 | An unknown host is an error that changes nothing. Otherwise exactly one pass is put in front of the others. It is ACTIVE, has a five-digit code, and is valid 12 hours (one-time), 30 days (recurring) or 30 minutes (delivery). A delivery is named after its company, or `Delivery` when none is given. |
| MockService.CancelPass | services/mockData.ts:179-181 | Passes with that id become CANCELLED. Every other pass and field is unchanged. |
| MockService.ValidateCode | services/mockData.ts:184-189 | The answer is `Invalid Code` exactly when no pass has the code, and then the store is unchanged. |
| MockService.ValidateCodeOutcomes | services/mockData.ts:184-209 | For a stored code, each answer holds exactly when its condition does. Another estate's message requires a known host living elsewhere. The cancelled message is for a cancelled pass of this estate. `Code expired.` is for an uncancelled one-time or delivery pass that is EXPIRED or past its date. Acceptance, with that pass, is for every other pass of this estate that is not cancelled. Only the expired answer changes the store, and it marks only that pass EXPIRED. |
| MockService.RecurringNeverExpires | services/mockData.ts:199-208 | A recurring pass that is not cancelled and belongs to the estate is accepted whatever its date or status. |
| MockService.ProcessEntry | services/mockData.ts:247-264 | An unknown id changes nothing. Otherwise passes with that id are CHECKED_IN at `now`, and one DIGITAL log entry is appended. |
| MockService.EntryLog | services/mockData.ts:254-262 | The entry log is DIGITAL at `now` with the guest's name. Its note is `Recurring Staff` for a recurring pass and `Guest` otherwise. |
| MockService.CloseLog | services/mockData.ts:275-276 | An exit closes the first open log entry carrying the guest's name, if there is one. |
| MockService.ProcessExit | services/mockData.ts:266-277 | An unknown id changes nothing. Otherwise passes with that id take the exit status and the exit time, and the guest's first open log entry is closed. |
| MockService.ExitReactivatesOnlyRecurring | services/mockData.ts:270 | After an online exit a pass is ACTIVE exactly when it is recurring. |
| MockService.SyncOne | services/mockData.ts:291-318 | One replayed action touches only passes and logs. An unknown pass id changes nothing. |
| MockService.SyncOfflineActions | services/mockData.ts:288-322 | Replaying the queue never adds or removes a pass, user, estate or bill. |
| MockService.SyncedEntryOnCheckedInIsNoOp | services/mockData.ts:295-296 | A replayed entry on a pass already CHECKED_IN changes nothing and adds no log. |
| MockService.SyncedEntryChecksIn | services/mockData.ts:296-309 | A replayed entry on any other known pass checks it in at the queued time and appends a `Synced Entry` log. |
| MockService.SyncedExitUsesOnlineRule | services/mockData.ts:311-314 | A replayed exit follows the online rule, with the queued time as the exit time. |
| MockService.SyncConcat | services/mockData.ts:291 | Replaying two queues one after the other is the same as replaying them joined. |
| MockService.AccessRestricted | services/mockData.ts:351-355 | A user is restricted exactly when they have an UNPAID bill due more than 30 days before `now`. |
| MockService.PayBill | services/mockData.ts:357-360 | Bills with that id become PAID at `now`. Every other bill is unchanged. |
| MockService.PayBillLiftsThatBill | services/mockData.ts:351-360 | After paying one bill, the user is restricted exactly when some other overdue bill remains. |
| MockService.PayAllPays | services/mockData.ts:357-360 | Paying a list of bills leaves every listed bill, and every bill already paid, PAID. Every other bill is unchanged. |
| MockService.PayingOverdueBillsLiftsRestriction | services/mockData.ts:351-360 | Paying every overdue bill of a user lifts the restriction. |
| MockService.ToggleEstateTier | services/mockData.ts:464-474 | FREE and PREMIUM swap on estates with that id. Every other estate is unchanged. |
| MockService.ToggleEstateStatus | services/mockData.ts:476-486 | ACTIVE and SUSPENDED swap on estates with that id. Every other estate is unchanged. |
| MockService.TogglesAreInvolutions | services/mockData.ts:464-486 | Each toggle changes its target, and toggling twice restores the list of estates. |
| MockService.OfflineData | services/mockData.ts:280-286 | The cached list holds exactly the ACTIVE or CHECKED_IN passes whose host is in the estate. |
| PassService.ParsePassType | backend/src/services/passService.ts:23 | The pass-type names are exactly `ONE_TIME`, `RECURRING` and `DELIVERY`. |
| PassService.DefaultValidUntil | backend/src/services/passService.ts:9-17 | With no explicit date, a pass is valid for 12 hours, 30 days or 30 minutes by type. A missing or unknown type adds nothing. |
| PassService.GeneratePass | backend/src/services/passService.ts:4-31 | An unknown type name is refused. Otherwise one ACTIVE pass with a five-digit code is added: stored as ONE_TIME when no type is given, valid until the explicit date if there is one, else the default. |
| PassService.MissingTypeExpiresAtOnce | backend/src/services/passService.ts:9-23 | A pass created without a type is stored as ONE_TIME but is valid only until `now`, unlike one created as ONE_TIME. |
| PassService.ValidateCode | backend/src/services/passService.ts:51-69 | The answer is `Invalid Code` exactly when no pass has the code. An accepted pass has the code, a host in the estate, and is neither cancelled nor expired nor past its date. The store never changes. |
| PassService.ValidateCodeOutcomes | backend/src/services/passService.ts:57-68 | For a stored code, each answer holds exactly when its condition does. Another estate's pass is refused whatever its state. A cancelled pass of this estate is refused before its date is looked at. `Code Expired` is for a pass that is EXPIRED or past its date. A pass is accepted, and returned, exactly when its host is in the estate, it is ACTIVE or CHECKED_IN, and its date has not passed. |
| PassService.RecurringExpiresByDate | backend/src/services/passService.ts:64-66 | Unlike the mock, the backend refuses a recurring pass past its date as `Code Expired`. |
| PassService.ProcessEntry | backend/src/services/passService.ts:71-81 | An unknown id fails. Otherwise only that pass changes, to CHECKED_IN at `now`, whatever its status was. |
| PassService.ProcessExit | backend/src/services/passService.ts:83-96 | An unknown id is `Pass not found`. Otherwise only that pass changes: to its exit status, with exit time `now`. |
| PassService.CancelPass | backend/src/services/passService.ts:98-108 | Cancelling succeeds exactly when the pass exists and the caller is its host. An unknown pass and a caller who is not the host are refused with nothing changed. On success only the status becomes CANCELLED. |
| PassService.CancelledCodeIsRefused | backend/src/services/passService.ts:63-108 | After the host cancels a pass, a scan of its code is refused as `Code Cancelled`. |
| PassService.SpentPassIsRefused | backend/src/services/passService.ts:63-96 | After an exit, a one-time or delivery pass is refused at its next scan. |
| OtpService.Clean | backend/src/services/smsService.ts:215 | Removing spaces and dashes keeps every other character and leaves no space or dash. |
| OtpService.CleanClean | backend/src/services/smsService.ts:222 | Cleaning a string that has no spaces or dashes changes nothing. |
| OtpService.FormatPhone | backend/src/services/smsService.ts:218-235 | An empty number is an error, and only an empty one. A formatted number starts with `+` and has no spaces or dashes. |
| OtpService.FormatPhoneCases | backend/src/services/smsService.ts:222-234 | After cleaning: a leading `0` is replaced by `+234`, a number already starting with `+` is kept, and anything else gets `+234` in front. |
| OtpService.FormatPhoneIdempotent | backend/src/services/smsService.ts:222-234 | Formatting a formatted number gives the same number. |
| OtpService.FormatLeadingZero | backend/src/services/smsService.ts:225-227 | A clean number starting with `0` (`08111111111`) becomes `+234` followed by the rest (`+2348111111111`). |
| OtpService.ValidatePhoneFormat | backend/src/services/smsService.ts:211-216 | An empty number is invalid. Any other number is valid exactly when, after cleaning, it is `+234`, then 7, 8 or 9, then exactly nine digits. |
| OtpService.ValidNumberFormatsToItsCleanForm | backend/src/services/smsService.ts:211-234 | A number that passes validation formats to its own cleaned form. |
| OtpService.LocalNumberFormatsToValid | backend/src/services/smsService.ts:211-234 | An eleven-digit local number `0` + (7, 8 or 9) + nine digits formats to a valid number. |
| OtpService.GenerateOtp | backend/src/services/smsService.ts:112-114 | A one-time code is six digits and reads as a number in 100000..999999. |
| OtpService.CreateOtp | backend/src/services/smsService.ts:116-153 | A request is refused exactly when some code for the phone is less than a minute old. Otherwise the phone's unverified codes are deleted, every other record is kept, and one fresh six-digit code valid for ten minutes is stored and returned. |
| OtpService.Newest | backend/src/services/smsService.ts:156-165 | The record checked is the newest unverified one for the phone and purpose. There is none exactly when no record is pending. |
| OtpService.NewestIsUnique | backend/src/services/smsService.ts:156-165 | At most one record is the newest pending one. |
| OtpService.VerifyOtp | backend/src/services/smsService.ts:155-199 | With no pending record the answer is an error and nothing changes. Success means the code matched. |
| OtpService.VerifyOtpOrder | backend/src/services/smsService.ts:167-198 | Checks run in order: expired, three attempts used. Then the attempt is counted before the comparison. A wrong code is refused with the attempt still counted, and the right one marks the record verified. |
| OtpService.WrongGuess | backend/src/services/smsService.ts:182-190 | A wrong guess at an unexpired, unlocked code counts one attempt, and the record stays the one checked next. |
| OtpService.ThreeWrongGuessesLock | backend/src/services/smsService.ts:177-190 | After three wrong guesses at an unexpired code, even the right code is refused as locked. |
| OtpService.CreatedCodeVerifiesOnce | backend/src/services/smsService.ts:116-199 | The code handed out is accepted for the same phone and purpose until it expires, and only once. |
| OtpService.SecondRequestWithinAMinuteFails | backend/src/services/smsService.ts:117-129 | A second request for the same phone within a minute of a successful one is refused, whatever its purpose. |
| BackendStore.WithoutPassword | backend/src/services/authService.ts:46 | The public record keeps the id, name, role, estate, approval and primary account of the user. |
| BackendStore.WithoutPasswordKeepsTheRest | backend/src/services/authService.ts:46 | Dropping the password loses nothing else: the full record is recovered from the public one and the hash. |
| AuthService.LoginLookup | backend/src/services/authService.ts:22-31 | An identifier containing `@` is looked up as an email. Anything else is formatted as a phone number and looked up by phone, and a formatting error is passed on. |
| AuthService.LoginWithPassword | backend/src/services/authService.ts:21-48 | A login succeeds exactly when the identifier names a user whose password matches and, for a phone login, whose phone is verified. It returns the record without its password and stores one refresh token valid for thirty days. |
| AuthService.UnknownUserAndWrongPasswordLookAlike | backend/src/services/authService.ts:33-40 | An unknown identifier and a wrong password give the same `Invalid credentials` error. |
| AuthService.VerificationOnlyGuardsPhoneLogin | backend/src/services/authService.ts:35-40 | A phone login of an unverified account is refused whatever the password. An email login with the right password succeeds, verified or not. |
| AuthService.RefreshAccessToken | backend/src/services/authService.ts:75-92 | A refresh succeeds exactly for a stored token that is not revoked and not past its expiry, and answers for that token's user. |
| AuthService.Logout | backend/src/services/authService.ts:94-99 | Logout revokes exactly that token. An unknown token fails. |
| AuthService.RefreshAfterLogoutFails | backend/src/services/authService.ts:75-99 | After a logout the token never refreshes again. |
| AuthService.LoginTokenRefreshes | backend/src/services/authService.ts:43-92 | The refresh token a login hands out works, for the user who logged in, until it expires thirty days later. |
| AuthService.CheckNewPhone | backend/src/services/authService.ts:117-127 | A new number passes exactly when it formats, the formatted number has the Nigerian shape, and no account has it. It then yields the formatted number. Each failure gives its own message, in that order. |
| AuthService.Register | backend/src/services/authService.ts:101-156 | Registration succeeds exactly when the role is not SECURITY, the phone checks pass and the estate code exists. The refusals come in that order. A success appends exactly one user: the formatted phone unverified, unapproved, in the estate with that code, and returned without password. |
| AuthService.NewAccountAwaitsVerification | backend/src/services/authService.ts:35-37 | A newly registered account cannot log in by phone, whatever password is given, until the phone is verified. The rule is at lines 35-37; the unverified phone is set at line 140. |
| AuthService.GenerateEstateCode | backend/src/services/authService.ts:177-183 | An estate code is at most six initials followed by a number below 100, so at most eight characters. |
| AuthService.TwoWordEstateCode | backend/src/services/authService.ts:176-182 | A two-word name such as `Sunset Gardens` gets its two initials and the number (`SG7`), not its first word as the comment says. |
| AuthService.PickEstateCode | backend/src/services/authService.ts:185-192 | The code chosen is not used by any estate. It is the first candidate that is free: the first draw, then each retry with extra digits. |
| AuthService.RegisterEstateAdmin | backend/src/services/authService.ts:158-241 | A registration fails exactly when the phone checks fail. On success the estate code is the first candidate in the retry order that no estate uses. One PENDING estate with that code is added, and one unapproved, unverified ESTATE_ADMIN in it. A non-empty referral code is linked whenever linking succeeds, and otherwise ignored. |
| AuthService.ReferralNeverFailsRegistration | backend/src/services/authService.ts:222-231 | A referral code never decides whether the registration succeeds. The outcome, code, user and estates are the same with or without one. |
| AuthService.AdminRegistrationIsPending | backend/src/services/authService.ts:194-220 | The new estate is PENDING with a code no other estate has. The administrator is unapproved with an unverified phone. |
| UserService.GetProfile | backend/src/services/userService.ts:4-14 | An unknown id gives nothing. Otherwise the answer is that user without the password hash, together with their estate. |
| UserService.GetPendingUsers | backend/src/services/userService.ts:24-28 | The list holds exactly the unapproved users of the estate. |
| UserService.ApproveUser | backend/src/services/userService.ts:30-50 | Approval succeeds exactly when the user exists and is not an ESTATE_ADMIN whose estate is missing. An unknown user is `User not found`. The user becomes approved. Only an ESTATE_ADMIN with an estate also sets that estate ACTIVE. For any other user the estates are unchanged. |
| UserService.ApprovalShortensTheQueue | backend/src/services/userService.ts:24-49 | Approving a user takes exactly that user off their estate's pending list. Every other estate's list keeps its length. |
| UserService.ApprovingAdminActivates | backend/src/services/userService.ts:38-44 | Approving an estate administrator sets their estate ACTIVE. |
| UserService.ApprovingNewAdminActivatesEstate | backend/src/services/userService.ts:38-44 | Approving the administrator who has just registered an estate activates that PENDING estate. The estate is created at backend/src/services/authService.ts:195-203. |
| UserService.RegisteredAdminIsFound | backend/src/services/authService.ts:194-220 | The administrator just registered is the one user found by their id, and still names the new estate. |
| UserService.GetResidentsByEstate | backend/src/services/userService.ts:68-75 | The list holds exactly the RESIDENT users of the estate. |
| UserService.CreateSecurityAccount | backend/src/services/userService.ts:81-115 | Creation succeeds exactly when the email is free and the estate exists. A taken email is refused first, then a missing estate. A success appends one SECURITY user in that estate, approved from the start, and returns it without password. |
| UserService.SecurityAccountCanLogIn | backend/src/services/userService.ts:101-110 | A guard account can log in by email at once with its password: it needs neither approval nor a verified phone. The login it uses is at backend/src/services/authService.ts:21-48. |
| ReferralService.NamePart | backend/src/services/referralService.ts:10 | The name part is at most five characters, all upper-case letters A to Z. |
| ReferralService.HexUpper | backend/src/services/referralService.ts:11 | Bytes print as two upper-case hexadecimal characters each. |
| ReferralService.HexUpperReadsBack | backend/src/services/referralService.ts:11 | Reading the hexadecimal back, high nibble first, gives the bytes. |
| ReferralService.GenerateReferralCode | backend/src/services/referralService.ts:9-13 | A code is the name part, a dash, then six upper-case hexadecimal characters, at most twelve characters in all. |
| ReferralService.ReferralCodeSplits | backend/src/services/referralService.ts:9-13 | A code splits back into its name part and its random part at its only dash. |
| ReferralService.Candidates | backend/src/services/referralService.ts:28-37 | The eleven codes the draws produce, in order. |
| ReferralService.ChooseReferralCode | backend/src/services/referralService.ts:28-37 | The loop settles on the first of the first ten codes that nobody holds, or on the eleventh, unchecked, when all ten are taken. |
| ReferralService.ChosenCodeIsUnique | backend/src/services/referralService.ts:28-37 | The choice is determined by the draws and the store. |
| ReferralService.ChosenCodeIsFreeWhenPossible | backend/src/services/referralService.ts:32-37 | When any of the first ten codes is free, the saved code is free. |
| ReferralService.GetUserReferralCode | backend/src/services/referralService.ts:18-46 | An unknown user is `User not found`. An existing code is returned without any write. Otherwise the chosen code is saved on that user only, and returned. |
| ReferralService.ValidateReferralCode | backend/src/services/referralService.ts:51-54 | A code is valid exactly when some user holds it. |
| ReferralService.LinkReferral | backend/src/services/referralService.ts:86-94 | Linking succeeds exactly when the new user exists and some user holds the code. An unknown code is `Invalid referral code` with nothing changed. On success only the new user's `referredBy` becomes the referrer's id. |
| ReferralService.LinkReferralPointsAtHolder | backend/src/services/referralService.ts:86-94 | After a link the new user points at a holder of the code, and every other user is as before. |
| ReferralService.LinkKeepsIdentity | backend/src/services/referralService.ts:90-93 | Linking changes no id, role or estate of any user, and no estate record. |
| EstateService.CreateEstate | backend/src/services/estateService.ts:21-30 | A new estate is appended, ACTIVE from the start, with the given name, code and tier. |
| EstateService.NamesReadBack | backend/src/services/estateService.ts:26 | Every tier and estate status is sent by its enum name and that name reads back as the same value. |
| EstateService.UpdateEstateAsWritten | backend/src/services/estateService.ts:32-37 | As written, the request body reaches the database unchanged (the controller passes `req.body` at backend/src/controllers/estateController.ts:36). The update succeeds exactly when every key is an estate column, every value fits its column and the estate exists. A key that is not a column fails as an unknown argument. On success each column reads as the body's value where the body names it and as before elsewhere, and only that estate is replaced. |
| EstateService.SubscriptionTierUpdateSucceeds | backend/src/services/estateService.ts:32-37 | The super administrator's request `{ subscriptionTier }` (web_dashboard/pages/SuperAdminDashboard.tsx:47) succeeds for an existing estate and changes only its tier. |
| EstateService.TierKeyIsRefusedAsWritten | backend/src/services/estateService.ts:32-37 | As written, any body with a `tier` key fails, whatever the estate and the other keys. `tier` is the field the service's parameter type declares and the one `createEstate` reads at line 26. |
| EstateService.UpdateEstate | backend/src/services/estateService.ts:21-37 | Corrected, with a `tier` key read as the tier column as `createEstate` does: for an existing estate, a valid tier under `tier` plus valid columns succeeds and sets that tier. |
| EstateService.UpdateEstateAgreesWithoutTier | backend/src/services/estateService.ts:32-37 | For a body without a `tier` key, the clients' `{ subscriptionTier }` included, the corrected and as-written updates give the same result. |
| EstateService.ToggledStatus | backend/src/services/estateService.ts:45 | A toggle suspends an ACTIVE estate and activates any other, SUSPENDED or PENDING. |
| EstateService.ToggleEstateStatus | backend/src/services/estateService.ts:39-47 | An unknown id is `Estate not found`. Otherwise only that estate's status changes, to its toggled status. |
| EstateService.DoubleToggle | backend/src/services/estateService.ts:39-47 | Toggling twice restores an ACTIVE or SUSPENDED estate. A PENDING one ends up SUSPENDED and never returns to PENDING. |
| EstateService.GetEstateStats | backend/src/services/estateService.ts:49-63 | The four numbers count the estate's RESIDENT users, those still unapproved, the ACTIVE passes whose host is in the estate, and the estate's UNPAID bills. |
| EstateService.PendingAtMostTotal | backend/src/services/estateService.ts:51-52 | There are never more pending residents than residents. |
| EstateService.ApprovalLowersPending | backend/src/services/estateService.ts:51-52 | Approving a pending resident lowers the pending count by one and leaves the resident count unchanged. The approval is at backend/src/services/userService.ts:30-50. |
| Household.SubAccount | backend/src/controllers/householdController.ts:27-38 | A sub-account is an approved RESIDENT pointing at its primary, with the primary's estate and unit. |
| Household.AddSubAccount | backend/src/controllers/householdController.ts:8-45 | An unknown caller or a sub-account is refused with 403, then a taken email with 400. A missing field makes the database throw, which answers 500. A success is 201 with exactly one sub-account appended, returned without password. |
| Household.Members | backend/src/controllers/householdController.ts:67-68 | The household list holds exactly the public forms of the caller's sub-accounts. |
| Household.PublicUsers | backend/src/controllers/householdController.ts:68 | Each listed user has its password removed, in order. |
| Household.GetHousehold | backend/src/controllers/householdController.ts:48-73 | An unknown caller is 404 and a sub-account 403. Otherwise the answer lists exactly the caller's sub-accounts, without passwords. |
| Household.RemoveAt | backend/src/controllers/householdController.ts:90 | Deleting the user at one position keeps every other user, in order. |
| Household.RemoveSubAccount | backend/src/controllers/householdController.ts:76-95 | An unknown user is 404. A user whose primary is not the caller is 403 and nothing is deleted. Otherwise exactly that user is deleted. |
| Household.AddedMemberIsListed | backend/src/controllers/householdController.ts:8-73 | A sub-account just added appears in the primary's household. |
| Household.AddThenRemoveRestores | backend/src/controllers/householdController.ts:8-95 | Adding a sub-account and then removing it restores the store. |
| Household.RemovalDeletesOnlyThatUser | backend/src/controllers/householdController.ts:90-91 | A removal leaves every other user in order, and the store one shorter. |
| TransferAdmin.Transfer | backend/src/routes/estateAdminRoutes.ts:8-66 | Checks run in order: a missing target is 400, then a caller who is missing or not an ESTATE_ADMIN is 403, then an unknown target 404, a target in another estate 400, and an unapproved target 400. Every refusal leaves the store unchanged. Only when all checks pass do the two role updates run. |
| TransferAdmin.Swap | backend/src/routes/estateAdminRoutes.ts:46-57 | The transaction promotes the target and then demotes the caller. Every user keeps every field except the role. |
| TransferAdmin.TransferSwapsRoles | backend/src/routes/estateAdminRoutes.ts:46-57 | After a transfer between two different users, the target is ESTATE_ADMIN, the caller is RESIDENT, and every other user is unchanged. |
| TransferAdmin.SelfTransferDemotes | backend/src/routes/estateAdminRoutes.ts:13-57 | An approved administrator who names themself passes every check and ends up a RESIDENT, because the demotion runs last. |
| TransferAdmin.SwapKeepsLookup | backend/src/routes/estateAdminRoutes.ts:46-57 | A transfer changes roles only, so every user is still found where they were. |
| TransferAdmin.SwapTwiceRestores | backend/src/routes/estateAdminRoutes.ts:46-57 | Swapping from the administrator to a resident and back again restores the store. |
| TransferAdmin.TransferBackRestores | backend/src/routes/estateAdminRoutes.ts:8-66 | Handing the role to an approved resident and straight back restores the store, when the first administrator is approved too. |
| Identity.IdClaims | backend/src/controllers/identityController.ts:28-29 | An ID token carries the user's id and the type `RESIDENT_ID`. |
| Identity.IssueFor | backend/src/controllers/identityController.ts:19-37 | An unknown user is 404 and any role other than RESIDENT 403. A resident gets a signed ID token and `validUntil` five minutes (300000 ms) after `now`. |
| Identity.GetIdentityTokenAsWritten | backend/src/controllers/identityController.ts:16-41 | As written, the handler reads a claim named `id` from the access token. Without that claim the lookup throws and the answer is 500. With it, the token is issued for that id. |
| Identity.IdentityTokenNeverIssuedAsWritten | backend/src/controllers/identityController.ts:18 | As written, no caller who logged in ever receives an ID token, because the access token signed at backend/src/services/authService.ts:52 has no `id` claim. |
| Identity.GetIdentityToken | backend/src/controllers/identityController.ts:16-41 | Corrected to read the `userId` claim that login signs: the token is issued for the logged-in user. |
| Identity.ResidentGetsIdToken | backend/src/controllers/identityController.ts:24-37 | With the correction, a resident who logged in gets an ID token valid for five minutes. |
| Identity.CardOf | backend/src/controllers/identityController.ts:73-83 | The verification card shows the user's id and role with status `ACTIVE`, and an estate name exactly when the user has an estate. |
| Identity.VerifyIdentity | backend/src/controllers/identityController.ts:43-88 | Checks run in order: a missing token is 400, a failed signature or expiry 401, and a type other than `RESIDENT_ID` 400. After that, an unknown user is 404, an unapproved one 403, and a SUSPENDED estate 403. A PENDING or missing estate is accepted. A success is the verified card. |
| Identity.AccountRefusals | backend/src/controllers/identityController.ts:61-70 | For a valid ID token the account refusals come in order: unknown 404, unapproved 403, suspended estate 403. |
| Identity.IssuedTokenVerifies | backend/src/controllers/identityController.ts:16-88 | An ID token issued to an approved resident whose estate is not suspended verifies, while it is valid, to that resident's card. |
| Identity.AccessTokenIsNotAnId | backend/src/controllers/identityController.ts:56-58 | A token without the `RESIDENT_ID` type, such as an access token, is refused with 400 before the store is consulted. |
| AdminStats.GetPlatformStats | backend/src/controllers/adminController.ts:6-26 | `totalEstates` counts the ACTIVE estates and `totalUsers` every user. The ad totals add up the impressions and clicks of the active ads only, with a missing click count adding nothing. |
| AdminStats.ReduceOfFilter | backend/src/controllers/adminController.ts:11-15 | Folding the fetched active ads from the left gives the same total as a sum over every ad in which inactive ones count nothing. |
| AdminStats.ToggleMovesActiveCount | backend/src/controllers/adminController.ts:9 | Toggling an estate's status moves the active-estate count by exactly one, down for a suspension and up for a re-activation. |
| AdminStats.DeactivatingAnAd | backend/src/controllers/adminController.ts:11-15 | Turning off an active ad lowers each total by exactly that ad's number. |
| AdminStats.LimitOf | backend/src/controllers/adminController.ts:32 | The `limit` query is 50 when it is absent, does not parse as an integer, or parses as zero. Any other parsed integer is used, negative ones included. |
| AdminStats.PrintedLimitIsUsed | backend/src/controllers/adminController.ts:32 | A positive number written in decimal is read back as that number. |
| AdminStats.GetSystemLogs | backend/src/controllers/adminController.ts:28-38 | The result is sorted newest first and is drawn from the log. Its length is the magnitude of the limit, capped by the log's size. A positive limit gives the newest entries. |
| AdminStats.DefaultIsFiftyNewest | backend/src/controllers/adminController.ts:30-33 | Without a limit the answer has min(50, size) entries, and no entry left out is newer than one returned. |
| JsParseInt.ParseIntReadsDecimal | backend/src/controllers/adminController.ts:32 | `parseInt` reads a decimal number back, with or without a minus sign, and ignores a tail that does not continue the number (`"12px"` is 12). |
| JsParseInt.SpaceIsSkipped | backend/src/controllers/adminController.ts:32 | Leading white space does not change what `parseInt` reads. |
| JsParseInt.NoDigitIsNaN | backend/src/controllers/adminController.ts:32 | A string with no decimal digit is NaN, so the limit falls back to 50. |
| JsParseInt.HexPrefix | backend/src/controllers/adminController.ts:32 | Without a radix, a `0x` prefix makes `parseInt` read base sixteen. |
| JsParseInt.UnsignedStart | backend/src/controllers/adminController.ts:32 | A string starting with a digit has no space or sign to strip, and is read as its digits. |
| JsParseInt.NegativeStart | backend/src/controllers/adminController.ts:32 | A leading minus negates the number read after it. |
| SecurityService.ManualLogs | backend/src/services/securityService.ts:6-10 | The estate's own log entries, newest first: exactly 50 of them, or all when there are fewer, each drawn from the estate's entries no more often than it occurs there. |
| SecurityService.DigitalPasses | backend/src/services/securityService.ts:13-21 | The passes scanned in at the estate's hosts, newest scan first: exactly 50 of them, or all when there are fewer, each drawn from those passes no more often than it occurs there. |
| SecurityService.Destination | backend/src/services/securityService.ts:33 | The destination is the unit on the pass, else the host's unit, else `Unknown Unit`. An empty unit counts as absent, as `||` treats it. |
| SecurityService.DigitalLog | backend/src/services/securityService.ts:29-38 | A scanned pass becomes a DIGITAL entry of the estate. It has the pass's id, guest, entry and exit times, and a note naming the type and code. |
| SecurityService.DigitalLogs | backend/src/services/securityService.ts:29-38 | Each scanned pass maps to its entry, in order, and the length is kept. |
| SecurityService.MergedLogs | backend/src/services/securityService.ts:29-41 | The first query's entries come first and unchanged. Then each pass of the second query follows as its log entry, in order, so the length is the sum of the two. |
| SecurityService.GetEstateLogs | backend/src/services/securityService.ts:4-45 | The result is sorted newest first, holds at most 100 entries, and is drawn from the merged list. |
| SecurityService.MergedEntryFromEstate | backend/src/services/securityService.ts:6-38 | Every merged entry belongs to the estate. It is either one of its manual entries or a pass scanned at one of its hosts. |
| SecurityService.NothingIsCut | backend/src/services/securityService.ts:41-44 | Two lists of at most 50 never reach the cut at 100, so the answer is a reordering of exactly the two query results. |
| SecurityService.LogKeepsTheNewest | backend/src/services/securityService.ts:4-44 | No manual entry or scanned pass the queries leave out is newer than one they keep. |
| SecurityService.PassesKeepTheNewest | backend/src/services/securityService.ts:13-21 | No scanned pass of the estate that the second query leaves out was scanned later than one it keeps. |
| SecurityService.AddManualLog | backend/src/services/securityService.ts:47-58 | Appends exactly one MANUAL entry of the estate, stamped with the current time, and leaves everything else in the store untouched. |
| SecurityService.TriggerSos | backend/src/services/securityService.ts:77-89 | Appends exactly one EMERGENCY entry named `SOS ALERT`, at the location or `Unknown Location`. Its note names the resident. |
| SecurityService.SosHeadsTheLog | backend/src/services/securityService.ts:77-89 | An SOS raised after everything else recorded comes first in the estate's log. |
| SecurityService.ManualLogHeadsTheLog | backend/src/services/securityService.ts:47-58 | A manual entry made after everything else recorded comes first in the estate's log. |
| SecurityService.NewEntryHeadsTheLog | backend/src/services/securityService.ts:4-44 | Any entry of the estate that is newer than everything recorded comes first after the merge and sort. |
| SecurityService.NewEntryHeadsManualLogs | backend/src/services/securityService.ts:6-10 | Such an entry survives the first query's cut at 50 and comes first in it. |
| SecurityService.NewEntryIsStrictlyNewest | backend/src/services/securityService.ts:41-42 | Such an entry is strictly newer than every other merged entry. |
| Sorting.NewestNKeepsTheNewest | backend/src/services/securityService.ts:6-10 | A newest-first query with a `take` keeps the newest: no entry left out is newer than one kept. |
| Sorting.StrictlyNewestLeads | backend/src/services/securityService.ts:42 | After the descending sort, an element newer than every other one comes first. |
| AuthMiddleware.IssuedClaims | backend/src/services/authService.ts:50-56 | An access token carries the user's id, the name of the role, and the estate. The role name reads back as the role. |
| AuthMiddleware.Claim | backend/src/middleware/auth.ts:7-13 | The request's user has exactly three claims: `userId`, `role` and `estateId`. Any other name reads as undefined. |
| AuthMiddleware.BearerToken | backend/src/middleware/auth.ts:17-18 | The token exists only if the header does. It is the second space-separated word, and only when that word is non-empty. |
| AuthMiddleware.BearerTokenReadsBack | backend/src/middleware/auth.ts:17-18 | A header of the form `scheme token` yields the token. |
| AuthMiddleware.AuthenticateToken | backend/src/middleware/auth.ts:16-46 | A missing token is 401 `Access token required` and an expired one 401 `Token has expired`. Any other verification failure is 403 `Invalid token`. A verified token's claims become the request's user, and only then does the request go on. |
| AuthMiddleware.RequireRole | backend/src/middleware/auth.ts:49-61 | No user is 401. Otherwise the request goes on exactly when the user's role is among those allowed, and is 403 when it is not. |
| AuthMiddleware.RequireSameEstate | backend/src/middleware/auth.ts:64-81 | No user is 401. The super administrator always passes. Anyone else passes exactly when their estate equals the route's estate, or the body's `estateId` when the route names none. A body `estateId` of `null` equals a missing user estate, and a body without the key equals nothing. A refusal is 403. |
| AuthMiddleware.SameEstateCases | backend/src/middleware/auth.ts:69-78 | The route parameter takes precedence over the body. A user with an estate passes exactly when the route, or failing it the body, names that estate. A user without an estate passes exactly when the route names none and the body's `estateId` is `null`, because `null !== null` is false. A request that names no estate at all is refused, because `undefined !== null` and `undefined !== "…"`. |
| AuthMiddleware.RequireApproved | backend/src/middleware/auth.ts:84-88 | Every request goes on: approval is not checked here. |
| AuthMiddleware.ShorthandsAdmit | backend/src/middleware/auth.ts:91-95 | For a logged-in user, `requireAdmin` admits both kinds of administrator, and each of the other shorthands admits exactly its one role. |
| AuthMiddleware.ValidTokenPassesRoleCheck | backend/src/middleware/auth.ts:16-61 | A request carrying a valid login token is authenticated as that user, and then passes a role check exactly when the user's role is allowed. |
| ErrorHandler.StatusOf | backend/src/middleware/errorHandler.ts:25 | The status is the error's own, and 500 when it has none or has zero. |
| ErrorHandler.HandleError | backend/src/middleware/errorHandler.ts:19-54 | The label is `Internal Server Error` exactly for statuses of 500 and above. A production server error hides its message behind a generic one, and every other response keeps it. The code and details are passed on. The stack appears only outside production, when there is one. |
| ErrorHandler.NewApiError | backend/src/middleware/errorHandler.ts:62-68 | The error keeps the message, code and details it was given. The status defaults to 500. |
| ErrorHandler.FactoriesAnswer | backend/src/middleware/errorHandler.ts:70-96 | Each factory is answered with its own status and code: 400 BAD_REQUEST, 401 UNAUTHORIZED, 403 FORBIDDEN, 404 NOT_FOUND, 409 CONFLICT, 429 RATE_LIMIT_EXCEEDED and 500 INTERNAL_ERROR. Each has its default message, the client errors keep their message in production, and only a bad request carries details. |
| ErrorHandler.PlainErrorsAreHidden | backend/src/middleware/errorHandler.ts:25-32 | An error that has no status, such as a database failure, answers 500, and in production its text never reaches the client. |
| ErrorHandler.NotFoundHandler | backend/src/middleware/errorHandler.ts:109-115 | An unknown route answers 404 `Not Found` with the code ROUTE_NOT_FOUND and a message naming the method and the path. |
| ErrorHandler.NotFoundNamesTheRoute | backend/src/middleware/errorHandler.ts:112 | The method and the path can be read back out of the message. |
| Validation.FieldErrors | backend/src/middleware/validate.ts:14-17 | One field error per issue, in order. Each field is the issue's path joined with dots and keeps the issue's message. |
| Validation.FieldNamesReadBack | backend/src/middleware/validate.ts:15 | When no key of the path contains a dot, splitting the field name gives the path back. |
| Validation.Validate | backend/src/middleware/validate.ts:7-32 | A failed parse hands a 400 `Validation failed` error carrying the field errors to the next handler and leaves the request alone. A successful parse replaces the body with the parsed data only when the body was validated, and changes nothing else. |
| Validation.FailedValidationAnswers400 | backend/src/middleware/validate.ts:13-20 | Once through the error handler, a failed validation is 400 BAD_REQUEST with the field errors, in production as well. |
| Validation.CreateBillNeedsDueDate | backend/src/middleware/validate.ts:93-99 | A bill without a due date, or with one that is neither a string nor a `Date`, is refused; any string or `Date` is accepted in place of one that was. |
| Validation.AdminPasswordRuleIsWeaker | backend/src/middleware/validate.ts:47-69 | The administrator sign-up accepts a password of six or seven characters that `register` refuses. |
| Validation.SecurityRoleIsRefusedByTheService | backend/src/middleware/validate.ts:52 | The schema accepts a SECURITY registration, but the service refuses it. |
| Validation.CreatePassType | backend/src/middleware/validate.ts:72-80 | A pass request is accepted exactly when the guest name is non-empty and the type, if given, is one of the three. The type defaults to ONE_TIME. |
| Validation.ValidatedPassIsCreated | backend/src/middleware/validate.ts:72-80 | A pass request the schema accepts is always created by `generatePass`, with the parsed type. |
| Validation.Pagination | backend/src/middleware/validate.ts:88-91 | The query is accepted exactly when the page is at least 1 and the limit is between 1 and 100. The defaults are 1 and 20, and given values are kept. |
| Validation.ShortGeneratedCodeFailsEstateSchema | backend/src/middleware/validate.ts:109-112 | A one-word estate name with a one-digit number generates a two-character code. The `createEstate` schema refuses it, since that schema demands at least four characters. |
| MockSecurityDashboard.DigitsOnly | pages/SecurityDashboard.tsx:317 | The field holds only digits. Each digit occurs as often as it was typed, and nothing else survives. |
| MockSecurityDashboard.DigitsOnlyByParts | pages/SecurityDashboard.tsx:317 | The digits keep their order: cleaning text typed in two parts is cleaning each part, and one character survives exactly when it is a digit. |
| MockSecurityDashboard.DigitsOnlyKeepsDigits | pages/SecurityDashboard.tsx:317 | A string of digits passes through unchanged, so cleaning twice is the same as cleaning once. |
| MockSecurityDashboard.OfflineValidate | pages/SecurityDashboard.tsx:93-101 | The first cached pass with the code decides: no pass means `Invalid Code (Offline Cache)`, then CANCELLED, then an EXPIRED one-time or delivery pass. Anything else is accepted. An accepted pass is in the cache, has the code, and is neither cancelled nor, unless recurring, expired. |
| MockSecurityDashboard.OfflineIgnoresValidity | pages/SecurityDashboard.tsx:93-106 | A one-time pass that is still ACTIVE past its validity date is accepted offline. Online it is refused as `Code expired.` and marked EXPIRED. |
| MockSecurityDashboard.HandleScan | pages/SecurityDashboard.tsx:87-107 | A code shorter than five characters changes nothing. Offline, only the screen changes and the cache decides. Online, the service's validation decides. When it marks the pass expired, the cached entries that share that record read as expired too, and nothing else in the cache changes. |
| MockSecurityDashboard.OnlineExpiryReachesCache | pages/SecurityDashboard.tsx:68-107 | A pass found expired by date while online is refused as expired when the same code is scanned again offline, because the cache holds the service's record. |
| MockSecurityDashboard.OfflineUpdate | pages/SecurityDashboard.tsx:114-120 | Offline, an entry checks the cached pass in at `now`, and an exit marks it EXPIRED at `now` whatever its type. |
| MockSecurityDashboard.HandleAction | pages/SecurityDashboard.tsx:109-128 | Without an accepted scan nothing changes. Offline, the action is queued with its time, the service is untouched, and each cached pass with that id is updated in place. Online, the service processes the entry or exit and the queue and cache stay as they are. Either way the code and the result are cleared. |
| MockSecurityDashboard.PerformSync | pages/SecurityDashboard.tsx:68-84 | Offline, nothing happens. Online, the queue is replayed through the service and emptied, and the cache is reloaded from the service's state after the replay. |
| MockSecurityDashboard.OfflineExitDisagreesOnRecurring | pages/SecurityDashboard.tsx:109-120 | Letting a recurring pass out offline shows it EXPIRED in the cache. After the sync the service holds it ACTIVE again. |
| SecurityDashboard.SanitiseCode | modules/security/SecurityDashboard.tsx:245 | The field holds at most five digits, all of them a prefix of the digits typed. It is full whenever five or more digits were typed, and holds every digit typed when there were five or fewer. |
| SecurityDashboard.SanitiseCodeKeepsCodes | modules/security/SecurityDashboard.tsx:245 | Up to five digits pass through unchanged, and the cleaning is idempotent. |
| SecurityDashboard.HandleScan | modules/security/SecurityDashboard.tsx:112-126 | A code shorter than five characters changes nothing. Otherwise only the result on screen changes. A failed call shows `Invalid or expired code`. A pass is shown exactly when the server found it valid, and it is that pass. |
| SecurityDashboard.ScannedPassIsValid | modules/security/SecurityDashboard.tsx:112-126 | A pass shown on screen exists, carries the typed code, is neither cancelled nor expired, is still within its validity, and has a host in the guard's estate. |
| SecurityDashboard.Apply | modules/security/SecurityDashboard.tsx:66-70 | One queued action changes at most the one pass it names, to CHECKED_IN for an entry or to the exit status of its type. An unknown id, whose call fails, leaves the store alone. |
| SecurityDashboard.Replay | modules/security/SecurityDashboard.tsx:63-76 | Replaying the queue never adds or removes passes and changes nothing but passes. |
| SecurityDashboard.ReplayConcat | modules/security/SecurityDashboard.tsx:64-74 | Replaying two queues one after the other is the same as replaying them joined. |
| SecurityDashboard.PerformSync | modules/security/SecurityDashboard.tsx:57-87 | Offline, nothing happens. Online, the queue is replayed and emptied. |
| SecurityDashboard.HandleAction | modules/security/SecurityDashboard.tsx:128-152 | Without a pass on screen nothing changes. Offline, the action is queued and the server is untouched, because the sync that follows stops at once. Online, the server applies it and then replays whatever is queued. The code and the result are cleared. |
| SecurityDashboard.OfflineMatchesOnline | modules/security/SecurityDashboard.tsx:63-76 | Actions queued offline and synced later leave the server where the same actions taken online at sync time would have, whenever they were queued. |
| SecurityDashboard.Queue | modules/security/SecurityDashboard.tsx:132-133 | The queue has one entry per action, each with its type, its pass and the time it was queued. |
| SecurityDashboard.SyncStampsServerTime | modules/security/SecurityDashboard.tsx:63-70 | An entry queued offline is recorded with the time of the sync, not the time of the entry. |
| SecurityDashboard.ExpectedDeliveries | modules/security/SecurityDashboard.tsx:89-100 | A pass is listed exactly when it is a DELIVERY pass that is ACTIVE or CHECKED_IN. |
| SecurityDashboard.ExpectedDeliveriesKeepOrder | modules/security/SecurityDashboard.tsx:92-95 | The list of deliveries keeps the order of the passes it is taken from. |
| SecurityDashboard.DeliveryLeavesTheList | modules/security/SecurityDashboard.tsx:92-95 | A delivery stays on the list after it is let in and drops off after it leaves. |
| SecurityDashboard.HandleManualLog | modules/security/SecurityDashboard.tsx:155-170 | Without both a name and a destination nothing changes. Otherwise exactly one MANUAL entry is appended with the name, the destination, the note as typed and the current time, and the earlier entries are kept. |
| ResidentDashboard.TileCount | modules/resident/ResidentDashboard.tsx:88-89 | Every stage has an even number of tiles: four at the first stage and two more at each stage after. |
| ResidentDashboard.PairCount | modules/resident/ResidentDashboard.tsx:90 | A stage's tiles form whole pairs. |
| ResidentDashboard.AllowedMovesArePerPair | modules/resident/ResidentDashboard.tsx:92-93 | `tiles * 2 - tiles / 2` is exact and comes to three moves per pair. |
| ResidentDashboard.Range | modules/resident/ResidentDashboard.tsx:97 | The first `n` icon numbers, in order. |
| ResidentDashboard.IconsToUse | modules/resident/ResidentDashboard.tsx:96-101 | A game uses min(pairs, 48) icons. With at most 24 pairs these are exactly the first ones of the list. |
| ResidentDashboard.RangeCounts | modules/resident/ResidentDashboard.tsx:97 | Each of the first `n` icon numbers appears once, and no other number appears. |
| ResidentDashboard.DeckHasEachIconTwice | modules/resident/ResidentDashboard.tsx:23-28 | Through the last stage, 21 pairs or fewer never outrun the 24 icons. The deck has one card per tile and holds each of the first `pairs` icons exactly twice. |
| ResidentDashboard.DeckSize | modules/resident/ResidentDashboard.tsx:103-114 | Shuffling keeps one card per tile. |
| ResidentDashboard.InitializeGame | modules/resident/ResidentDashboard.tsx:87-120 | A new game has the stage's move budget and no moves made. Every card is face down and unmatched, numbered by its position, and the game is not won. |
| ResidentDashboard.Cards | modules/resident/ResidentDashboard.tsx:109-114 | Card `k` has id `k` and the icon in shuffled position `k`. It is face down and unmatched. |
| ResidentDashboard.Click | modules/resident/ResidentDashboard.tsx:140-156 | A click is ignored when two cards are already up or the card is flipped or matched. Otherwise the move count rises by one, only that card turns over, and it joins the face-up list. |
| ResidentDashboard.ClickKeepsWellFormed | modules/resident/ResidentDashboard.tsx:140-156 | A click keeps the game consistent. At most two distinct cards are face up, and they are exactly the flipped unmatched ones. Every matched card is flipped. The moves made are at least the matched cards plus the face-up ones. |
| ResidentDashboard.Resolve | modules/resident/ResidentDashboard.tsx:158-183 | Two cards with the same icon become matched, and the game is won exactly when every card is matched. Two different cards turn face down. Either way no card stays face up, no move is counted, and the other cards are untouched. |
| ResidentDashboard.ResolveKeepsWellFormed | modules/resident/ResidentDashboard.tsx:158-183 | Resolving a pair keeps the game consistent. |
| ResidentDashboard.MatchKeepsWellFormed | modules/resident/ResidentDashboard.tsx:162-171 | Matching the two face-up cards keeps the game consistent. |
| ResidentDashboard.MissKeepsWellFormed | modules/resident/ResidentDashboard.tsx:175-181 | Turning the two face-up cards back keeps the game consistent. |
| ResidentDashboard.WinningTakesOneMovePerCard | modules/resident/ResidentDashboard.tsx:140-171 | Every matched card was clicked at least once, so a won game took at least one move per card. |
| ResidentDashboard.WonGameIgnoresClicks | modules/resident/ResidentDashboard.tsx:141 | Once every card is matched, every click is ignored. |
| ResidentDashboard.PerfectGameDoesNotFail | modules/resident/ResidentDashboard.tsx:319 | A stage won in one move per card, the fewest possible, is never a failed level. |
| ResidentDashboard.NextStage | modules/resident/ResidentDashboard.tsx:122-128 | Below stage 20 the next stage is dealt fresh. At stage 20 nothing happens. |
| ResidentDashboard.Restart | modules/resident/ResidentDashboard.tsx:130-133 | The same stage is dealt again, with no moves made and the full budget. |
| ResidentDashboard.ResetToLevelOne | modules/resident/ResidentDashboard.tsx:135-138 | The game returns to stage one with four cards and six moves. |
| ResidentDashboard.ToggleDay | modules/resident/ResidentDashboard.tsx:193-199 | The toggled day is selected afterwards exactly when it was not selected before. Every other day keeps its state. |
| ResidentDashboard.ToggleDayTwice | pages/ResidentDashboard.tsx:70-76 | Toggling a day twice gives back the same set of days. When the day was not selected before, the list comes back exactly. |
| ResidentDashboard.NewForm | pages/ResidentDashboard.tsx:23-34 | A fresh form is a ONE_TIME pass on weekdays from 08:00 to 18:00, with the form closed. |
| ResidentDashboard.ScheduleOf | pages/ResidentDashboard.tsx:88 | A schedule of the chosen days and hours is sent exactly for a recurring pass. |
| ResidentDashboard.HandleCreatePass | pages/ResidentDashboard.tsx:78-98 | A form with no guest name, or a delivery with no company, changes nothing. Otherwise the service generates the pass and the form is closed and reset to ONE_TIME, keeping the chosen days and hours. |
| ResidentDashboard.CreatedPassIsNamed | pages/ResidentDashboard.tsx:78-98 | The new pass heads the list and is ACTIVE, of the chosen type, with a non-empty name. The name is the guest's, or for a delivery the company's. Only a recurring pass carries days. |
| ResidentDashboard.ExactlyOneList | pages/ResidentDashboard.tsx:113-116 | Every pass is in exactly one of the four lists. The past passes of this screen are the history of modules/resident/ResidentDashboard.tsx:306. |
| ResidentDashboard.ListsPartitionPasses | pages/ResidentDashboard.tsx:113-116 | The four lists together are as long as the list of passes, so no pass is lost or shown twice. |

## Left out

- The file walk, the printed report and the exit status of fix_deprecated_api.py are I/O. The directory is a list of files, each with its name, its content (none when reading fails, a decoding error included) and how writing it back goes.
- Python's `\w` and `\d` also match non-ASCII letters and digits. The matcher accepts ASCII only, because the Dart sources the script targets are ASCII identifiers and numbers.
- `toUpperCase` in the referral and estate codes is modelled on ASCII letters only, for the same reason.
- Prisma persistence becomes sequences of records, and the unique columns (email, phone, codes) are assumed, not enforced, on stores built by hand. A lookup returns the first match. So `PassService.GeneratePass` returns `Ok` for a drawn five-digit code that another pass already has, `AuthService.Register` and `AuthService.RegisterEstateAdmin` return `Ok` for an email another user already has, and `ReferralService.GetUserReferralCode` returns `Ok` with the eleventh candidate code without checking it. Prisma's `create` would fail on the unique constraint in each case.
- Prisma does not fix the order of equal keys. The model sorts stably in input order, which is one of the orders Prisma may return.
- A `take` with a negative value takes from the far end. The model does this only in `AdminStats.GetSystemLogs`, where a negative limit can reach it.
- bcrypt, JWT signing and verification, `crypto.randomBytes`, `crypto.randomInt` and `Math.random` are parameters: `passwordMatches`, `hash`, `sign`, `verify`, and draws restricted to their ranges. Access-token strings are not built, and a refresh answers with the user.
- Log and pass identifiers built from the clock and random numbers are parameters or left out. Nothing in the rules depends on their value.
- `Date` arithmetic such as `setHours` and `setDate` is fixed millisecond offsets, with no calendar or daylight-saving effects. Time is an `int` count of milliseconds rather than a `nat`, so differences need no side condition.
- AuthService.RegisterEstateAdmin: the source's retry loop draws random numbers until a code is unused, and would never end if none were. The model reads the draws from a finite list and requires that the list holds an unused code.
- These operations are outside the modelled core, being data fetching with no decision logic: `getReferralStats`, `completePhoneVerification`, `getMyPasses`, `getEstatePasses`, `resetPassword`, `login(email)` of the auth service, `updateProfile`, `getAllUsers` and `deleteUser`.
- Delete cascades and the `photoUrl` field of the identity card are left out: the schema's cascade rules and photo uploads are not part of this model.
- The zod schemas are stated as predicates over optional strings and numbers. The email and uuid formats are the `isEmail` and `isUuid` parameters. Error message texts and number coercion of query strings are left out.
- Validation.Pagination takes numbers, because the coercion of query strings by `z.coerce.number` is left out. `createBill`'s amount is a `real`, so the rounding of a JavaScript number is left out; its due date is a string or a `Date`, and the date's value is not checked, as in the schema.
- JsParseInt.ParseInt: the number is an unbounded integer. JavaScript's doubles lose precision above 2^53, and a fractional or exponent tail is simply cut off, as `parseInt` does.
- A body `estateId` that is a number, a flag or an object is one value, `JOther`, in `AuthMiddleware.RequireSameEstate`. It equals no user's estate, as under `!==`, so the model does not tell such values apart.
- The dashboards' React state, rendering, `setTimeout` delays, `alert` and the `lastSyncTime` stamp are UI. A state update is applied at once, and `Resolve` stands for the delayed `checkForMatch` callback.
- The input field's `maxLength` is not modelled on the guard screens. The sanitiser is what the model states.
- The backend client's HTTP calls are not part of this model. `SecurityDashboard.HandleScan` takes the server's answer as a parameter, and the server side is `PassService`. The server refuses a validation with HTTP 400, which the HTTP client turns into a thrown call, so on the screen a refusal shows `Invalid or expired code`, the `None` answer. The model's `Invalid(m)` answer, shown as `m`, is a 2xx reply carrying a refusal, which the server never sends.
- The network-error branch of the backend client's sync, which switches the screen to offline mode, is left out because the model has no network.
- The backend client never fills a local cache, so it has no offline validation to model.
- The manual-entry form of the mock client has no guard and calls the mock service directly. It adds nothing beyond `MockService` and is left out.
- The shuffle in `initializeGame` is a parameter, `order`: any rearrangement of the deck.
- The top-up branch of the icon selection, for more than 24 pairs, is modelled by `IconsToUse` but cannot be reached at stages 1 to 20.
- ResidentDashboard.Click requires a valid card index. The screen only offers the cards on the board.
- MockService: estate status is ACTIVE or SUSPENDED only, as the mock's toggle has no PENDING estates.
- MockService.ProcessEntry and ProcessExit: the log line the mock adds is stated by its guest, kind and time. Its generated id is left out.
- Characters outside the Basic Multilingual Plane are left out. A Dafny `char` stands for one UTF-16 code unit, as a JavaScript string index does.
- EstateService.UpdateEstateAsWritten: the database schema is not part of this model. The columns are those of the modelled estate record, so a key the schema may have beyond them (the estate administrator's screen sends `securityPhone`) counts as unknown. Prisma's error texts are summarised.
- DeprecatedApi.ReplaceInFile: the file is written back with `\n` line ends, as Python does on a POSIX host. On Windows text mode writes `\r\n`, which is left out. A write that fails part way is described by how many characters of the new text it kept, not by the bytes actually flushed.
- MockSecurityDashboard.Shared: the model has no object identity. A cached pass is taken to be the service's record while it still equals it. A copy that equals the record without being the same object would also change, and that case is left out.

## Findings

| source | as written | input that shows it | evidently intended | confidence | as-written member | corrected member |
|---|---|---|---|---|---|---|
| backend/src/services/estateService.ts:32-37 | `updateEstate` declares its body as `{ name?, tier? }`, as `createEstate` reads `tier` at line 26, but it hands the body to Prisma unchanged. The estate's column is `subscriptionTier`, so a body that uses the declared `tier` key is rejected. The program's own clients send `subscriptionTier` instead, and those requests succeed. | `{ tier: 'PREMIUM' }` for an existing estate. | Read `tier` as the tier, as `createEstate` does, or declare the body by its column names. | low, not executed | EstateService.UpdateEstateAsWritten, EstateService.TierKeyIsRefusedAsWritten | EstateService.UpdateEstate |
| backend/src/controllers/identityController.ts:18 | `getIdentityToken` reads `req.user.id`, but access tokens carry `userId` (backend/src/services/authService.ts:52), so the lookup gets `undefined`. | Any logged-in resident asking for an ID token. | Read `req.user.userId`, the claim the other handlers use. | high, not executed | Identity.GetIdentityTokenAsWritten, Identity.IdentityTokenNeverIssuedAsWritten | Identity.GetIdentityToken |
