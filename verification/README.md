# Commission back end of sales-IOM, in Dafny

sales-IOM is a Next.js and MongoDB application that tracks the sales of a
company's sales executives and pays them a commission. Admins, managers and
executives sign in. Executives record their sales. Managers and admins keep a
table of commission tiers, each giving a rate for a range of
target-achievement percentages. A manager or admin calculates an executive's
commission, which is stored as a commission record.

This project models the server side of that flow as pure functions over an
immutable store of the four MongoDB collections (users, sales, commission
rules, commission records). Every route handler becomes a function from the
session, the request body and the store to a `Reply`: the HTTP outcome (a
value or a status 400/401/403/404/500) together with the store it leaves
behind. The clock, the fresh ObjectId and the bcrypt digest come in as an
`Env` value. The modules follow the source:

- `Common`, `Text`, `Seqs`: options, statuses, sessions, JavaScript
  truthiness, string helpers (`trim`, lower case, `parseInt`, `padStart`,
  string order), and `find`/`sort` as filter and stable sort.
- `Models`: the four Mongoose schemas, what `save` checks (validators and
  unique indexes), and the password-free response view.
- `Scope`: the admin / manager-team / own-records visibility rule the
  listing routes share.
- `CommissionCalculate`, `CommissionRules`, `CommissionRecords`, `Sales`,
  `Users`, `UserCreation`: the route handlers.
- `EmployeeIdGenerator`: `generateEmployeeId`, both as written and
  corrected (see Findings).
- `Middleware`: the edge middleware's redirect decision.
- `RoleCycle`: the maintenance script that cycles a user's role.
- `SeedExamples`: the seed script's data run through the calculation.
- `Workflows`: how one route's writes show up in another route's reads.

The store's validity (`Models.StoreValid`: every document passes its
schema and the unique indexes hold) is preserved by every write route,
with one exception that is stated as a lemma: a profile name of only
white space is stored as the empty string (`Users.BlankNameStoredEmpty`).

Money and percentages are `real`. No IEEE rounding is modelled.

## Model

| member | source | states |
|---|---|---|
| CommissionCalculate.Calculate | app/api/commission/calculate/route.ts:9-107 | No session gives 401; an executive gets 403; a falsy `executiveId` gives 400. 404 exactly when no user has that id. A manager asking for a user not assigned to them gets 403. On success the answer is the calculation for that user (`IsCalculationFor`, including one breakdown line per sale of theirs), exactly one record carrying its figures, the caller, the date and a fresh id is appended, nothing else changes, and store validity is kept. Once every gate has passed, the only failure left is the 500 of the catch block (a record that does not save). |
| CommissionCalculate.CalculationSucceeds | app/api/commission/calculate/route.ts:28-79 | On a valid store with an unused record id, a non-executive caller naming an existing user (assigned to them if they are a manager) always gets a calculation: the record's save cannot fail. |
| CommissionCalculate.RepeatedCalculationDuplicates | app/api/commission/calculate/route.ts:69-79 | Calculating twice gives the same figures and appends a second record with the same amount and executive; nothing prevents duplicate commissions. |
| CommissionCalculate.Figures | app/api/commission/calculate/route.ts:43-66 | The computed figures meet `IsCalculationFor`: the total of all of the user's sales, one breakdown line per such sale, the target, the achievement, the tier described by `TierChoice`, its rate, and the amount. |
| CommissionCalculate.FiguresInRange | app/api/commission/calculate/route.ts:45-66 | On a valid store the total and achievement are non-negative, the rate lies in [0, 100] and the amount lies between 0 and the total, so the record passes its schema. |
| CommissionCalculate.FirstMatch | app/api/commission/calculate/route.ts:55-58 | `Array.find`: returns the position of a matching tier with no earlier match, and returns nothing exactly when no tier matches. |
| CommissionCalculate.ApplicableTier | app/api/commission/calculate/route.ts:55-63 | Nothing exactly when there are no tiers. Otherwise the first matching tier, or the last tier when none matches. The result is always a listed tier. |
| CommissionCalculate.FirstMatchIsLowest | app/api/commission/calculate/route.ts:48-58 | Over a list ascending in `targetFrom`, the first match has the lowest `targetFrom` among all matching tiers. |
| CommissionCalculate.FallbackIsHighest | app/api/commission/calculate/route.ts:60-63 | Over an ascending list with no match, the fallback has the highest `targetFrom` of all tiers. |
| CommissionCalculate.ApplicableTierChoice | app/api/commission/calculate/route.ts:48-63 | The route's scan over the sorted tiers makes the choice that the order-free reference `TierChoice` describes. |
| CommissionCalculate.BelowEveryTierGetsTopTier | app/api/commission/calculate/route.ts:60-63 | An achievement below every tier's `targetFrom` gets the tier with the highest `targetFrom` rather than no tier. Nothing ties a tier's rate to its `targetFrom` (see `OverlapAccepted`), so that need not be the highest rate. |
| CommissionCalculate.OwnSales | app/api/commission/calculate/route.ts:44 | `Sale.find({ salesExecutive })` keeps exactly the user's sales, whatever their status. |
| CommissionCalculate.TotalConcat | app/api/commission/calculate/route.ts:45 | The sum over a concatenation is the sum of the sums. |
| CommissionCalculate.TotalNonNegative | app/api/commission/calculate/route.ts:45 | Sales with non-negative amounts sum to a non-negative total. |
| CommissionCalculate.SaleCountsForItsOwnerOnly | app/api/commission/calculate/route.ts:44-45 | Appending a sale raises the owner's total by its amount and leaves everyone else's unchanged. |
| CommissionCalculate.SameAmountsSameTotal | app/api/commission/calculate/route.ts:44-45 | The total depends only on the amounts of the user's own sales, in order. |
| CommissionCalculate.StatusDoesNotCount | app/api/commission/calculate/route.ts:44-45 | Marking a sale `not_sold` (or `sold`) does not change any total: the route does not filter on status. |
| CommissionCalculate.TargetOf | app/api/commission/calculate/route.ts:51 | A missing or zero target becomes 10000 and any other assigned target is kept. The target is non-positive exactly when a negative one is assigned, and then the achievement is 0. |
| CommissionCalculate.Achievement | app/api/commission/calculate/route.ts:52 | For a positive target, achievement × target = total × 100; otherwise 0. Never negative for a non-negative total. |
| CommissionCalculate.RateOf | app/api/commission/calculate/route.ts:65 | The chosen tier's rate, or 0 without tiers. |
| CommissionCalculate.CommissionAmount | app/api/commission/calculate/route.ts:66 | amount × 100 = total × rate. With a rate in [0, 100] the amount lies between 0 and the total. |
| CommissionCalculate.BreakdownAddsUp | app/api/commission/calculate/route.ts:91-96 | The amounts on the breakdown lines of a list of sales sum to the list's total. |
| CommissionCalculate.CalculationAddsUp | app/api/commission/calculate/route.ts:88-97 | In every calculation the response's breakdown lists exactly the executive's own sales, line by line, and its amounts sum to the response's `totalSales`. |
| CommissionRules.TiersInOrder | app/api/commission/rules/route.ts:23 | `sort({ targetFrom: 1 })`: a permutation of the stored tiers, ascending in `targetFrom`. |
| CommissionRules.ListRules | app/api/commission/rules/route.ts:6-25 | 401 without a session; 403 exactly for executives; otherwise every stored tier, each as often as stored, in ascending `targetFrom`. |
| CommissionRules.CreateRule | app/api/commission/rules/route.ts:32-66 | 401 without a session; 403 for executives; 400 when `targetFrom` or `commissionRate` is falsy (so 0 is refused). Success exactly when the schema bounds hold and the id is fresh; the tier is appended as sent and validity is kept. Any other failure after the gates is the 500 of the catch block. |
| CommissionRules.OverlapAccepted | app/api/commission/rules/route.ts:49-61 | A tier overlapping others, or with `targetTo` below its own `targetFrom`, is accepted: nothing relates tiers to each other. |
| CommissionRecords.ListRecords | app/api/commission/records/route.ts:61-104 | 401 without a session. Otherwise the records the caller may see (by `Scope.MaySee`), each as often as stored, newest calculation date first. |
| CommissionRecords.RecordScopes | app/api/commission/records/route.ts:75-102 | An admin gets every record; a manager exactly the records of users assigned to them; anyone else exactly their own. |
| Sales.ListSales | app/api/sales/route.ts:7-41 | 401 without a session. Otherwise exactly the visible sales (admin: all; manager: the team's; otherwise: own), each as often as stored. |
| Sales.CreateSale | app/api/sales/route.ts:48-87 | 401, then 403 for anyone but an executive, then 400 unless product name, amount and quantity are truthy. Success exactly when the sale passes its schema and the id is fresh. The sale belongs to the caller; status defaults to sold and the date to now; the image is stored as sent when truthy and dropped when falsy. Only that sale is appended and validity is kept. Any other failure after the gates is the 500 of the catch block. |
| Users.ListUsers | app/api/users/route.ts:6-40 | 401 without a session. Otherwise the password-free view of exactly the users the caller may see, each listed as often as it is stored among them (the listing is a permutation of the stripped selection). |
| Users.ListUsersOnceEach | app/api/users/route.ts:20-38 | With distinct ids in the store, every user the caller may see appears in the listing exactly once. |
| Users.UserScopes | app/api/users/route.ts:20-31 | An admin sees every user; a manager exactly the users assigned to them (not themself unless self-assigned); anyone else only their own record. |
| Users.StripAllMembers | app/api/users/route.ts:34-38 | The stripped listing holds exactly the stripped forms of the selected users. |
| Users.ChangeRole | app/api/test-role-change/route.ts:6-52 | 401, then 403 for non-admins, then 400 for missing fields or a role outside the three. 404 exactly when the id is unknown. Success exactly when an admin sends truthy fields, one of the three roles and a known id: the update runs no validators, so it cannot fail. On success only that user's role changes, the answer is the stored updated user without its password, carrying the new role, and validity is kept. |
| Users.UpdateProfile | app/api/users/profile/route.ts:6-42 | 401 without a session; 400 for a falsy name; 404 exactly when the caller's id is unknown. On success only the caller's name (trimmed), phone and picture change; an absent phone or picture is left as it was. The answer is the stored updated record without its password. |
| Users.EditProfile | app/api/users/profile/route.ts:24-28 | The record written keeps every field but name, phone and picture: the name is trimmed, and a phone or picture that was not sent (`undefined`) keeps its old value. |
| Users.BlankNameStoredEmpty | app/api/users/profile/route.ts:20-28 | A name of spaces passes the route's check and is stored as the empty string, leaving the store invalid: the update runs setters but not validators. |
| UserCreation.CreateAccount | app/api/admin/users/route.ts:30-61 | 400 exactly when the normalised email is taken. Success exactly when the document passes the schema, the `_id` is fresh and the employee ID is non-empty and unused; any other failure, a reused employee ID included, is 500. On success one user is appended with that employee ID and the digest, and the answer is its password-free view. |
| UserCreation.SaveAccount | app/api/admin/users/route.ts:30-61 | `CreateAccount` with the corrected generator's ID: 400 exactly when the email is taken, success exactly when the rest of the document passes the schema, otherwise 500. |
| UserCreation.AsWrittenCreateFailsPastE1000 | app/api/admin/users/route.ts:36-65 | With `E999` and `E1000` stored, creating an executive with the generator as written answers 500 and stores nothing, where the corrected generator's ID saves. |
| UserCreation.AdminCreateUser | app/api/admin/users/route.ts:7-61 | 401; 403 for non-admins; 400 exactly for a falsy name, email, password or role, or a taken email. Success and the stored user as in `SaveAccount`, with the manager reference dropped when falsy. |
| UserCreation.Register | app/api/auth/register/route.ts:6-49 | No session needed. 400 exactly for a falsy name, email or password, or a taken email. The role defaults to executive only when the key is absent. A JSON `null` role reaches `save`, whose required enum refuses it: 500, nothing stored. Success and the stored user as in `SaveAccount`. |
| UserCreation.RoleOrDefault | app/api/auth/register/route.ts:10 | The destructuring default applies only to an absent key. Text that was sent is kept as is, and a JSON `null` stays `null`: no role at all. |
| UserCreation.NewAccountSaves | models/User.ts:18-65 | For a free email, the new document saves exactly when the role is in the enum, the trimmed name, the normalised email and the digest are non-empty, the `_id` is fresh, and the employee ID is non-empty and unused. |
| UserCreation.GeneratedIdUnused | models/User.ts:40-44 | The corrected generator's employee ID always passes the schema's required check and unique index on `employeeId`. |
| UserCreation.RegisterDefaultsToExecutive | app/api/auth/register/route.ts:10-24 | Registering without a role gives an executive with an `E` employee ID. |
| UserCreation.NullRoleIsServerError | app/api/auth/register/route.ts:10-49 | With the fields present and the email free, a `null` role ends in 500 with nothing stored, while the same body without the key registers (given the document saves). |
| UserCreation.RegisterAcceptsAdmin | app/api/auth/register/route.ts:10-40 | Anyone may register as an admin by sending that role. |
| UserCreation.RegisterTwiceRefused | app/api/auth/register/route.ts:17-21 | After a successful registration the same body is refused with 400 and nothing more is stored. |
| UserCreation.AdminCreateTwiceRefused | app/api/admin/users/route.ts:30-34 | The same for the admin route. |
| UserCreation.UnknownRoleIsServerError | app/api/admin/users/route.ts:26-55 | A role outside the enum passes the route's checks and then fails validation: 500, nothing stored. |
| EmployeeIdGenerator.GenerateAsWritten | app/api/admin/users/route.ts:68-86 | The generator as written: `001` without a prefixed ID; otherwise the string-greatest prefixed ID's number plus one, padded to three digits. |
| EmployeeIdGenerator.AsWrittenRepeatsAnId | app/api/admin/users/route.ts:72-85 | With `E999` and `E1000` stored it produces `E1000`, an ID already in use. |
| EmployeeIdGenerator.Generate | app/api/auth/register/route.ts:53-71 | Corrected generator: the ID carries the role's prefix and is used by no stored user. Its number is above every number in use after that prefix and is 1 or one more than a number in use, so it is one more than the greatest (`E002` after `E001`); `<prefix>001` when no number is in use. |
| EmployeeIdGenerator.PaddedAboveMaxIsFresh | app/api/admin/users/route.ts:81-85 | Any number above the greatest one in use renders as an unused ID. |
| EmployeeIdGenerator.Prefix | app/api/admin/users/route.ts:69 | `E` for executive, `M` for manager, `A` for any other role text. |
| EmployeeIdGenerator.GeneratorsAgreeOnEmptyStore | app/api/admin/users/route.ts:77-79 | Both generators give `E001` on an empty store. |
| EmployeeIdGenerator.GeneratorsAgreeOnOtherPrefix | app/api/admin/users/route.ts:72-79 | IDs with another prefix are ignored: a manager gets `M001` next to `E001`. |
| EmployeeIdGenerator.PaddedOrder | app/api/admin/users/route.ts:72-74 | Below 1000, the string order of padded IDs is their numeric order. |
| EmployeeIdGenerator.GeneratorsAgreeBelowThousand | app/api/admin/users/route.ts:72-85 | For every store in which each ID with the prefix is a three-digit padded number below 999, the generator as written and the corrected one give the same ID: the discrepancy needs a four-digit ID. |
| EmployeeIdGenerator.GeneratorsAgreeAfterA001 | app/api/admin/users/route.ts:81-85 | One instance: after `A001` both generators give `A002`. |
| EmployeeIdGenerator.GenerateStepsPastE1000 | app/api/admin/users/route.ts:81-85 | The corrected generator gives `E1001` after `E999` and `E1000`. |
| Middleware.Route | middleware.ts:4-34 | Public paths pass; other paths pass exactly when the session cookie is non-empty; otherwise the user is sent to `/login`. |
| Middleware.OnlyTokenPresenceMatters | middleware.ts:23-34 | The decision depends on the cookies only through whether the session token is non-empty. |
| Middleware.LoginSubpathNeedsToken | middleware.ts:12-13 | `/login` and `/register` are exact matches: `/login/x` needs the cookie. |
| Middleware.PrefixEdges | middleware.ts:9-11 | `/api` without its slash needs the cookie, while `/favicon.icon` passes. |
| RoleCycle.NextRole | scripts/updateUserRole.ts:20-27 | executive → manager → admin → executive; the role always changes. |
| RoleCycle.CycleReturns | scripts/updateUserRole.ts:20-27 | Three steps return to the start, and the step is one-to-one. |
| RoleCycle.FindByEmail | scripts/updateUserRole.ts:11-16 | The first user whose stored email equals the normalised lookup; nothing exactly when the email is not taken. |
| RoleCycle.UpdateUserRole | scripts/updateUserRole.ts:9-32 | An unknown email changes nothing. Otherwise the first user with that email has its role advanced one step and nothing else changes, unless that user fails the schema's validators: then `save` throws, the error is only logged, and nothing changes. Validity is kept, and on a valid store a known email always moves the role. |
| RoleCycle.InvalidUserNotSaved | scripts/updateUserRole.ts:29-32 | A user found by email who fails validation keeps their role. |
| Workflows.RecordedSaleRaisesTotal | app/api/sales/route.ts:72-82 | A sale an executive records raises that executive's commission total by exactly its amount, leaves every other total unchanged, and appears in their own sales listing. |
| Workflows.CalculatedRecordVisible | app/api/commission/calculate/route.ts:69-79 | The record a calculation saves shows in the records listing of the executive it concerns and of every admin. |
| Workflows.StoredRecordVisible | app/api/commission/records/route.ts:61-104 | Any stored record is in the records listing of the executive it belongs to and of every admin. |
| Workflows.ChangeRoleIdempotent | app/api/test-role-change/route.ts:35-39 | Repeating a successful role change gives the same answer and changes nothing more. |
| Workflows.UpdateProfileIdempotent | app/api/users/profile/route.ts:24-28 | Repeating a successful profile update gives the same answer and changes nothing more. |
| Workflows.BlankedUserKeepsRole | scripts/updateUserRole.ts:29-32 | After a profile update stores a blank name, the role-cycle script leaves that user, and the whole store, as they were. |
| Models.ParseRole | models/User.ts:35-39 | Exactly the three enum values are accepted, and each parses back to its name. |
| Models.RoleNameRoundTrip | models/User.ts:35-39 | Every role's name parses back to that role. |
| Models.ParseSaleStatus | models/Sale.ts:41-46 | Exactly `sold` and `not_sold` are accepted. |
| Models.FindUser | app/api/commission/calculate/route.ts:33-36 | `findById`: a position holding the id with no earlier one, or nothing exactly when no user has it. |
| Models.InsertUser | models/User.ts:18-65 | `save` succeeds exactly when the required strings are non-empty and `_id`, email and employee ID are unique. It then appends the user and keeps validity; any failure is 500. |
| Models.InsertSale | models/Sale.ts:15-50 | `save` succeeds exactly when the name is non-empty, the amount ≥ 0, the quantity ≥ 1 and the id is fresh. |
| Models.InsertTier | models/CommissionRule.ts:11-27 | `save` succeeds exactly when `targetFrom` ≥ 0, a set `targetTo` ≥ 0, the rate is in [0, 100] and the id is fresh. |
| Models.InsertRecord | models/CommissionRecord.ts:15-50 | `save` succeeds exactly when amount, total, achievement and rate are ≥ 0 and the id is fresh. |
| Models.ReplaceUserKeepsValid | models/User.ts:24-44 | Rewriting a user in place with a valid document that keeps its `_id`, email and employee ID keeps the unique indexes. |
| Models.StripForgetsOnlyPassword | app/api/users/route.ts:33-38 | Removing the password loses exactly the password: two users look alike in a response exactly when they differ at most in it. |
| Text.TrimEmptyIff | models/User.ts:19-23 | `trim` gives the empty string exactly for strings of ECMAScript white space and line terminators, the Unicode space separators included. |
| Seqs.FilterConcat | app/api/sales/route.ts:26-33 | A query over a concatenation is the concatenation of the queries. |
| Seqs.SortBy | app/api/commission/rules/route.ts:23 | `sort` returns a permutation of its input, ordered by the key. |
| SeedExamples.SeedRates | scripts/seed.ts:80-96 | The seed tiers pay 1% from 80 to 89, 2% from 90 to 99 and 3% everywhere else, including the gaps and below 80. |
| SeedExamples.SeedStoreValid | scripts/seed.ts:25-118 | The seeded users, tiers and sales form a valid store. |
| SeedExamples.JohnAtTwelvePercent | scripts/seed.ts:41-51 | John Doe's 1200 against 10000 is 12%, below every tier, so he is paid the top rate: 36. |
| SeedExamples.TenThousandTargetExamples | scripts/seed.ts:80-96 | Against 10000: 9500 pays 190, 12000 pays 360, 8950 (89.5%, in a gap) pays 268.5, and 8900 pays 89. |
| SeedExamples.ManagerRefusedForUnassignedUser | scripts/seed.ts:25-39 | The seeded manager may not calculate for the admin account, which has no manager. |

## Left out

- Database connection, `populate` and `select`, the `createdAt`/`updatedAt` timestamps, and the `try`/`catch` around each handler. A thrown `save` is modelled as 500; connection failures are not modelled.
- Session lookup (`auth.api.getSession` and the auth client) is not modelled. The session is a parameter: absent, or a user id with a role string.
- bcrypt hashing, `Date.now` and ObjectId generation are the `Env` parameter. An id that does not cast to an ObjectId (a `CastError`, answered with 500) is not modelled: ids are plain strings.
- The sales POST's `parseFloat`/`parseInt` coercion and `new Date(saleDate)`. The body's amount, quantity and date arrive already as numbers.
- `Text.ParseInt` skips leading white space and reads an optional sign and the leading decimal digits. It does not model JavaScript's `0x` hexadecimal prefix. `Text.Lower` lower-cases ASCII letters only, where JavaScript lower-cases all of Unicode.
- MongoDB returns documents whose sort keys tie in no specified order; the model uses a stable sort.
- On `findByIdAndUpdate`, keys whose value is `undefined` are dropped. An explicit JSON `null` phone or picture is not modelled.
- The calculate route also passes `status: 'pending'`. The record schema has no such field, so strict mode drops it, and the model's record has no status.
- The records route file holds its handler twice, in identical copies. The model follows the second (lines 61-104).
- Approving, rejecting and paying records, updating and deleting tiers and sales, and the admin user update/delete routes are not modelled. Nor are login, two-factor codes, file upload, the download route and the UI.
- The middleware's `matcher` configuration, which decides which paths reach the middleware at all, is not modelled: `Middleware.Route` is the function body alone.
- The role-cycle script looks up one hard-coded email. The model takes the email as a parameter, and the console output and connection close are left out.
- `SeedExamples` uses the seed script's data but not its deletion and creation I/O. The passwords stand in as placeholder digests.
- SaveAccount: it uses the corrected `EmployeeIdGenerator.Generate` instead of the generator as written, so it never fails on an employee ID already in use, which the source can do (see Findings and `UserCreation.AsWrittenCreateFailsPastE1000`, which shows the 500 through `CreateAccount`).
- AdminCreateUser: it answers through `SaveAccount`, so the same substitution applies.
- Register: it answers through `SaveAccount`, so the same substitution applies. A role of another JSON type (a number, say), which Mongoose would cast to text, is not modelled: the role is absent, `null` or text.
- GeneratedIdUnused: it is a property of the corrected generator only; the generator as written has no such guarantee.
- ListSales: it states which sales are listed and how often, not in what order. The route sets no sort, so MongoDB's natural order applies, which is unspecified.

## Findings

| source | as written | input that shows it | evidently intended | confidence | as-written member | corrected member |
|---|---|---|---|---|---|---|
| app/api/admin/users/route.ts:72-85 (the same code in app/api/auth/register/route.ts:57-70) | The last ID is found with `sort({ employeeId: -1 })`, a string order, and its number plus one is the new ID. | Stored IDs `E999` and `E1000`: `E999` sorts highest, so the generator returns `E1000` again, and `save` fails on the unique index (500). Every later executive creation fails the same way. | The new number is one more than the numerically greatest number in use, so the ID is always fresh. | not executed | EmployeeIdGenerator.GenerateAsWritten, EmployeeIdGenerator.AsWrittenRepeatsAnId | EmployeeIdGenerator.Generate |
