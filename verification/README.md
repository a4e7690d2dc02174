# Decisions and state keeping in an environment booking backend

This project models the services of the backend that decide things and keep state, and
proves what they keep. A database table is a sequence or a map of rows, a request is one
transition of the tables, and a request that raises leaves the tables as they were, because
the session rolls back (`backend/app/db/base.py:50-60`). Clocks, random tokens, role checks
and the answers of services that are not modelled are arguments. There is one tenant, except
where tenancy decides the answer. Instants are integers in microseconds.

The program's methods that change rows in place are class methods, proved against functions
on the tables; what each function does to the rows is proved without naming it (in the
modules ending in `Effects`, and beside the functions elsewhere), and then what runs of them
keep.

| module | what it models |
|---|---|
| `RegexWeight`, `RegexBrace`, `RegexPattern`, `RegexBound` | the scanner that bounds how far a naming pattern expands, the patterns as trees, and how the bound relates to the expansion |
| `AuthSession` | refresh tokens: rotation, replay detection, logout, revocation, and which errors are committed |
| `Decommission`, `Estate`, `EstateEffects`, `EstateSafety`, `EstateService` | the life of a decommission and every write of a booking's end date |
| `Utilization`, `UtilizationEffects` | merging of bookings, clipping of operating hours, booked over operating time |
| `Comparison`, `EnvironmentDiff`, `DiffEffects` | the normal form of a subsystem's hosts, and the diff of two environments |
| `Conflicts`, `Contention`, `Forecast`, `ContentionEffects` | which bookings clash, who outranks whom, escalations, and the state shown per booking |
| `Upsert`, `UpsertSafety`, `UpsertResults`, `UpsertService`, `LostUpdate` | concurrent callers inserting under a unique key, and an answer that neither of two gave |
| `NameCompliance`, `NameEffects` | the stored verdict on each name, and the preview of a policy |
| `GroupTransition` | moving a group of bookings through its lifecycle |
| `Membership` | admission of project releases to enterprise releases |
| `Ingest`, `IngestEffects` | deployment webhooks |
| `Evidence` | superseded gate evidence |
| `Options`, `Numbers`, `Text`, `Sequences`, `Sorting`, `Builds` | optional values, durations, the classes of characters and `str.strip`, lists, sorting, and the label of a build |

## Where the program and its documentation differ

The model follows the program.

- The scanner "only ever over-estimates"
  (`backend/app/services/environment_compliance_service.py:220`). It does not where a literal
  brace swallows the counts of a nested repeat (`RegexBound.StrayBraceUnderReports`), nor for
  `{0,}` (`RegexBound.OpenZeroUnderReports`). It does for every well-formed pattern without such
  an item (`RegexBound.WeightOverEstimates`), item by item exactly then
  (`RegexBound.CoveredExactly`), and over whole patterns exactly when other items make up for it
  (`RegexBound.OverEstimatesExactly`).
- "A malformed pattern cannot make this raise" (line 229). A count with a digit that `isdigit`
  accepts and `int` refuses, such as a superscript or a circled digit, does
  (`RegexBound.SuperscriptRaises`), and a text raises exactly when some token of it is a brace
  that holds such a count (`RegexBound.RaisesExactly`).
- A lost race for an acknowledgement is to end with the later writer's answer on record
  (`backend/app/core/upsert.py:55-57`). Only the columns that differ from what the later session
  had read are updated, so the row may end with what neither caller said
  (`LostUpdate.NeitherSaid`); `UpsertResults.LastWriterExactly` says when each column is the last
  caller's, and `UpsertResults.LastWriterWins` when all are.
- A delivery that succeeds may name another system, environment or build than the first
  delivery of its event; its version is then recorded where the deployment row does not say it
  is (`Ingest.VersionWhereExactly`).
- The preview of a policy counts quarantined environments by "both grace clocks, exactly as
  `quarantine_clause` applies them" (line 988). Saving a changed rule starts its grace anew, so
  the number previewed is then not the number that results
  (`NameCompliance.PreviewedQuarantineExactly`).
- A transition "not valid for all members must not be offered"
  (`backend/app/services/booking_service.py:738`). The offer does not look at required fields,
  and takes any transition between two states where the move takes the first
  (`GroupTransition.OfferedSucceedsExactly`, `GroupTransition.OfferedAndRefused`,
  `GroupTransition.OfferedAndIncomplete`).
- Deleting an enterprise release strands the projects accepted into it
  (`Membership.StrandedForever`).
- Logging out with a token that has already been exchanged leaves the session alive
  (`AuthSession.LogoutExact`).

## Model

| member | source | states |
|---|---|---|
| RegexWeight.RepeatWeight | backend/app/services/environment_compliance_service.py:217-290 | The scanning loop ends on every text, reads in bounds, and returns what the scanner as a function on the remaining text and the stack returns, or that `int()` raised, whatever characters count as digits and white space beyond those of Latin-1. |
| RegexWeight.Turn | backend/app/services/environment_compliance_service.py:242-287 | One turn of the loop moves strictly forward and does what the function does on the text from that position; it raises exactly when the function does. |
| RegexWeight.SkipClass | backend/app/services/environment_compliance_service.py:248-258 | The index arithmetic over a character class stops where the class ends: a `]` in first place, escapes and an unclosed class included. |
| RegexBrace.BraceExactly | backend/app/services/environment_compliance_service.py:270-282 | Of any text after an opening brace: it is a quantifier if and only if it is closed, has one comma at most before that, and holds a part of digits once stripped or only white space; it raises if and only if some such part has a digit `int` refuses; and otherwise the brace stands for itself. |
| RegexBrace.FactorExactly | backend/app/services/environment_compliance_service.py:274-277 | A quantifier multiplies by the largest number its parts spell, and by one if it is blank. |
| RegexBrace.StripExactly | backend/app/services/environment_compliance_service.py:274-275 | Stripping takes white space away at both ends, and there only. |
| RegexBrace.SplitExactly | backend/app/services/environment_compliance_service.py:273-275 | What is counted, and what raises, is what stands between commas. |
| RegexPattern.BraceReadsOne | backend/app/services/environment_compliance_service.py:270-278 | `{m}` is read as the factor it spells, whatever digits spell it, and the scan resumes after the brace. |
| RegexPattern.BraceReadsTwo | backend/app/services/environment_compliance_service.py:270-278 | `{m,n}`, `{m,}` and `{,n}` are read as the larger of the counts given. |
| RegexPattern.Numeral | backend/app/services/environment_compliance_service.py:274-277 | Every number has a decimal spelling that reads back as that number. |
| RegexPattern.ScanQuant | backend/app/services/environment_compliance_service.py:270-287 | A printed quantifier multiplies the item before it by its factor; a lazy or possessive mark, and `*`, `+`, `?`, each add one element. |
| RegexPattern.ScanClass | backend/app/services/environment_compliance_service.py:248-258 | A printed character class is consumed whole as one element, braces and parentheses in it included. |
| RegexPattern.ScanGroup | backend/app/services/environment_compliance_service.py:259-269 | A printed group, scanned with any outer stack, leaves that stack as it was and the group's weight, at least one, as the latest item. |
| RegexPattern.ScanItems | backend/app/services/environment_compliance_service.py:217-290 | Scanning the print of any well-formed items from any state, with any text after them, leaves the state the tree says: the stack unchanged and the weight added. |
| RegexBound.ScanIsWeight | backend/app/services/environment_compliance_service.py:217-290 | The one-pass scan of a printed pattern is the weight computed by recursion on its tree. |
| RegexBound.WeightCoversCounts | backend/app/services/environment_compliance_service.py:217-228 | For every well-formed pattern the result is at least its size by the counts: siblings add, counted repeats multiply by the larger bound, other quantifiers count once. |
| RegexBound.WeightOverEstimates | backend/app/services/environment_compliance_service.py:217-228 | The result is at least the number of elements once every counted repeat is written out, for every well-formed pattern without a deficient item (a `{0,}` over more than its lazy or possessive mark weighs). |
| RegexBound.OverEstimatesExactly | backend/app/services/environment_compliance_service.py:217-228 | Over all well-formed patterns: the estimate holds if and only if what marks, group prefixes and empty groups add makes up for what the items under `{0,}` take away. |
| RegexBound.CoveredExactly | backend/app/services/environment_compliance_service.py:217-228 | Every item at every depth adds no less than it expands to if and only if no item is deficient: the deficient ones are exactly where the weight falls short. |
| RegexBound.LoneItemExact | backend/app/services/environment_compliance_service.py:217-228 | For a pattern of one item: the estimate holds if and only if that item is not deficient. |
| RegexBound.OpenZeroUnderReports | backend/app/services/environment_compliance_service.py:270-278 | Any group under `{0,}` is reported to weigh nothing, while under `*`, which means the same, it weighs more than it expands to. |
| RegexBound.StrayBraceUnderReports | backend/app/services/environment_compliance_service.py:270-278 | On `a{1,(b{k}){k}` the result is k for every k, where the pattern expands to more than k times k elements; the pattern is outside the grammar. |
| RegexBound.UnclosedStillCounted | backend/app/services/environment_compliance_service.py:288-290 | With any number of groups left open, what they hold is still counted in full. |
| RegexBound.UnopenedClose | backend/app/services/environment_compliance_service.py:264-269 | A parenthesis that closes nothing makes one item, of weight one at least, of all before it. |
| RegexBound.UnclosedClass | backend/app/services/environment_compliance_service.py:243-258 | A class that is not closed, and a backslash at the end, take what is left as one element. |
| RegexBound.CountsRaise | backend/app/services/environment_compliance_service.py:274 | Reading the counts raises if and only if some part is made of digits one of which `int` does not convert. |
| RegexBound.RaisesExactly | backend/app/services/environment_compliance_service.py:242-287 | On every text, from any state, the scan raises if and only if some token is a closed brace one of whose comma parts is made of digits not all of which `int` converts. |
| RegexBound.NeverRaises | backend/app/services/environment_compliance_service.py:229-230 | A text all of whose digits `int` converts, malformed or not, never makes the scan raise; `RaisesExactly` is the exact condition. |
| RegexBound.SuperscriptRaises | backend/app/services/environment_compliance_service.py:229-230 | `a{²}` makes the scan raise, against its documentation. |
| RegexBound.OtherDigitRaises | backend/app/services/environment_compliance_service.py:274 | Any count made of digits one of which `int` does not convert makes the scan raise. |
| RegexBound.CheckPattern | backend/app/services/environment_compliance_service.py:307-346 | The gate in front of the compiler: a pattern of more than 500 characters is refused; one goes through only if, for every tree without deficient items it may print from, the tree expands to at most 1000 elements; one refused as too heavy really has the weight named; and it raises if and only if the pattern is short enough and has a refused brace, which no well-formed pattern has. |
| AuthSession.SessionService.RotateRefreshToken | backend/app/services/auth_session_service.py:149-201 | The in-place rotation leaves the table and gives the outcome of the transition, for every token and table. |
| AuthSession.SessionService.RefreshSession | backend/app/api/v1/auth.py:125-171 | The refresh request commits an exchange or a written revocation and rolls every other rejection back. |
| AuthSession.SessionService.IssueSession | backend/app/services/auth_session_service.py:89-124 | A row of the user's is appended, unless its digest is taken; it can be exchanged for fourteen days to the microsecond, while the user is active. |
| AuthSession.SessionService.RevokeFamily | backend/app/services/auth_session_service.py:138-146 | Row by row: the family's unrevoked rows are revoked with the reason and no other changes; from then on no token of the family can be exchanged at any time, and every other can whenever it could. |
| AuthSession.SessionService.RevokeRefreshToken | backend/app/services/auth_session_service.py:204-215 | Row by row: the presented token's row is revoked if it was not, and no other changes; an unknown token is ignored. |
| AuthSession.SessionService.RevokeAllForUser | backend/app/services/auth_session_service.py:218-225 | Row by row: the user's unrevoked rows are revoked and no other changes; from then on no token of the user can be exchanged at any time, and every other can whenever it could. |
| AuthSession.SessionService.LogIn | backend/app/api/v1/auth.py:101-115 | A session is opened for an active user only. |
| AuthSession.LoginOpensSession | backend/app/services/auth_session_service.py:89-124 | A login of an active user appends one row, theirs, exchangeable for fourteen days, and touches no other. |
| AuthSession.LoginExactly | backend/app/services/auth_session_service.py:89-124 | A login changes the store if and only if the user is there and active and the token drawn is nobody's yet. |
| AuthSession.ExchangeExtendsSession | backend/app/services/auth_session_service.py:177-201 | An exchange appends a row of the same user and family, exchangeable for fourteen days, marks the old one used and replaced by it, and touches no other. |
| AuthSession.FreshTokenExchanged | backend/app/services/auth_session_service.py:149-201 | A token just given is exchanged when presented within the fortnight with nothing in between, and another such is given. |
| AuthSession.SessionGoesOn | backend/app/services/auth_session_service.py:149-201 | A session refreshed at least once a fortnight goes on for as long as its user is active, over any number of refreshes. |
| AuthSession.OutcomesExactly | backend/app/services/auth_session_service.py:157-201 | Each of the six outcomes of presenting a known token, if and only if its row and its user are as said. |
| AuthSession.RejectionsExactly | backend/app/services/auth_session_service.py:127-181 | An unknown token and every uncommitted rejection change nothing; a committed one revokes the family's unrevoked rows with its reason. |
| AuthSession.RunKeepsInv | backend/app/services/auth_session_service.py:89-225 | Every run keeps the invariant: unique digests, and each row is either its family's unused last one or links to the next. |
| AuthSession.EveryFamilyIsChain | backend/app/services/auth_session_service.py:127-201 | In every run each family is one acyclic chain of replacements whose only unused token is its tail. |
| AuthSession.NoTokenExchangedTwice | backend/app/services/auth_session_service.py:149-201 | Two exchanges in one run never exchange the same token. |
| AuthSession.ReplayEndsFamily | backend/app/services/auth_session_service.py:59-66 | Once a used token, or one of a deactivated user, is presented, no later request of the run exchanges a token of that family, although the request that presented it failed. |
| AuthSession.RevokeAllEndsSessions | backend/app/api/v1/admin.py:139-158 | After a password reset no session opened before it is ever exchanged again. |
| AuthSession.ExchangeableExact | backend/app/services/auth_session_service.py:157-182 | A token is exchanged if and only if it is unused, unrevoked, unexpired and its user is active. |
| AuthSession.CommitEndsRollbackForgets | backend/app/api/v1/auth.py:144-153 | The commit is what ends the family: with it the family's unused token is refused as revoked, and with a rollback whoever holds that token could still exchange it. |
| AuthSession.LogoutExact | backend/app/api/v1/auth.py:174-190 | After logout the session lives on if and only if it was alive and the presented token was an already used one. |
| Decommission.ExpiryBoundary | backend/app/core/day_boundaries.py:38-73 | The boundary is the start of the UTC day the clock is in. |
| Decommission.OneFilterSelects | backend/app/services/environment_decommission_service.py:62-119 | At every clock exactly one filter selects a record: the one of its computed state. |
| Decommission.PhaseExactly | backend/app/services/environment_decommission_service.py:62-84 | A cancellation outranks a teardown, either outranks an unanswered extension, and that outranks the clock; a live record is due if and only if its teardown day is over. |
| Decommission.PhaseOverTime | backend/app/services/environment_decommission_service.py:62-84 | While a row is untouched its state is constant within a UTC day and can only go from warned to due. |
| Decommission.TeardownDayIsWarned | backend/app/services/environment_decommission_service.py:62-84 | The whole of the teardown day still reads as warned; the next day is due. |
| EstateService.Service.AssertBookable | backend/app/services/environment_decommission_service.py:133-205 | The batched check accepts if and only if none of the environments is decommissioned and no live decommission of any of them ends before the window does. |
| EstateService.Service.InitiateDecommission | backend/app/services/environment_decommission_service.py:313-387 | As the transition below: each refusal in its order, or one record more. |
| EstateEffects.InitiateExactly | backend/app/services/environment_decommission_service.py:313-387 | A decommission is started if and only if the environment is there, the caller may, a reason is given, none is under way and the date asked for is not within the notice; the record has exactly that date, or else the end of the notice, and nothing else changes. |
| EstateService.Service.AskForExtension | backend/app/services/environment_decommission_service.py:412-481 | One extension request per record, for a later date only. |
| EstateService.Service.AnswerExtension | backend/app/services/environment_decommission_service.py:484-539 | The decision is recorded once; the date moves exactly when it is granted. |
| EstateService.Service.SignChecklistStep | backend/app/services/environment_decommission_service.py:639-712 | A step is signed once, on a live record only. |
| EstateService.Service.TearDownEnvironment | backend/app/services/environment_decommission_service.py:715-750 | Torn down only with every active required step signed; the environment is then decommissioned. |
| EstateService.Service.CancelDecommission | backend/app/services/environment_decommission_service.py:753-798 | A cancellation needs a reason and touches the record only, also after teardown. |
| EstateEffects.RequestExtensionExactly | backend/app/services/environment_decommission_service.py:412-481 | When an extension is accepted and with which code it is refused; the asking is recorded with the date asked for, and nothing moves. |
| EstateEffects.DecideExtensionExactly | backend/app/services/environment_decommission_service.py:484-539 | When a decision is accepted; a grant moves the date to exactly the one asked for, and a refusal moves nothing. |
| EstateEffects.SignStepExactly | backend/app/services/environment_decommission_service.py:639-712 | A step the tenant has is signed once, alone, on a record under way. |
| EstateEffects.TearDownExactly | backend/app/services/environment_decommission_service.py:610-750 | A teardown goes ahead if and only if the record is under way and every active required step is signed; it changes that record and its environment's status, and nothing else. |
| EstateEffects.CancelExactly | backend/app/services/environment_decommission_service.py:753-798 | When a cancellation is accepted, and that it changes its own mark only. |
| EstateEffects.BookableExactly | backend/app/services/environment_decommission_service.py:133-205 | A window is refused if and only if its environment is decommissioned or a decommission of it under way has an earlier date. |
| EstateEffects.ValidSelectionExactly | backend/app/services/booking_request_service.py:113-164 | A selection is valid if and only if no group is named twice or is empty, something is named, and no environment is named twice, by hand or through groups. |
| EstateEffects.PicksExactly | backend/app/services/booking_request_service.py:126-158 | The environments of a request are those picked by hand and the members of its groups, each with the group it came from. |
| EstateEffects.CreateRequestExactly | backend/app/services/booking_request_service.py:160-247 | A request is accepted if and only if its selection is valid, its environments are there and none is blocked; it is stored with one booking for each pick, for the whole window, and nothing else changes. |
| EstateEffects.CreateBookingExactly | backend/app/services/booking_service.py:125-287 | A single create stores one booking for the window and one as long for each of the first hundred dates of its rule, if and only if none of them is blocked. |
| EstateEffects.AddEnvironmentExactly | backend/app/services/booking_request_service.py:355-396 | An environment is added once to a request, with the dates given or else the request's. |
| EstateEffects.UpdateRequestExactly | backend/app/services/booking_request_service.py:530-557 | A request's dates change if and only if none of its live bookings would be blocked; the dates given, and no others, are then its own and theirs. |
| EstateEffects.UpdateBookingExactly | backend/app/services/booking_service.py:971-982 | A booking's own dates change if and only if it would not be blocked; no other booking does. |
| EstateEffects.RemoveBookingExactly | backend/app/services/booking_request_service.py:408-428 | Removing a booking marks it deleted and changes nothing else. |
| EstateService.Service.ExpandGroups | backend/app/services/booking_request_service.py:113-164 | The pass over the groups with its dictionary of origins succeeds if and only if all ids are distinct, no group is empty and no environment is named twice, and collects every one once. |
| EstateService.Service.CreateBookingRequest | backend/app/services/booking_request_service.py:105-247 | The modern create: checked for all its environments before anything is written. |
| EstateService.Service.CreateSingleBooking | backend/app/services/booking_service.py:103-287 | The legacy create: checked against the furthest end of all its occurrences, of which it writes at most a hundred. |
| EstateService.Service.Furthest | backend/app/services/booking_service.py:141 | The largest of all occurrence ends. |
| EstateService.Service.AddToRequest | backend/app/services/booking_request_service.py:340-396 | Adding an environment is checked with the dates that will apply. |
| EstateService.Service.UpdateRequestDates | backend/app/services/booking_request_service.py:454-557 | The request-level edit is checked for every live child, then cascades exactly the dates given to exactly those. |
| EstateService.Service.UpdateBookingDates | backend/app/services/booking_service.py:901-984 | The per-booking override is checked against that booking's own environment. |
| EstateSafety.StepKeepsInv | backend/app/services/environment_decommission_service.py:133-205 | Each of the fifteen kinds of request keeps the invariant. |
| EstateSafety.BookingsEndBeforeTeardown | backend/app/services/environment_decommission_service.py:133-205 | In every run, a booking whose end was written while a decommission was live ends no later than that decommission's current date. |
| EstateSafety.TeardownDates | backend/app/services/environment_decommission_service.py:355-374 | In every run the date is never before warned_at plus the notice period of that time, never moves earlier, and moves once at most, by a granted extension. |
| EstateSafety.OneLiveAndSignedOff | backend/app/services/environment_decommission_service.py:610-750 | In every run there is at most one live decommission per environment, and a torn-down one had every step required then signed. |
| EstateSafety.BookableUpToTeardown | backend/app/services/environment_decommission_service.py:144-152 | With a live decommission an end is bookable if and only if it is no later than the date and the environment is not decommissioned. |
| EstateSafety.DecisionsMoveTheLine | backend/app/services/environment_decommission_service.py:484-539 | A granted extension moves the bookable line to the date asked for and no further, a refusal moves nothing, a cancellation lifts it, and none writes a booking. |
| EstateSafety.TornDownStaysClosed | backend/app/services/environment_decommission_service.py:715-798 | After a teardown and any run in which nobody puts the environment back into use by hand, no window on it is bookable, no booking of it has been made and no end of one moved. |
| EstateSafety.CancelledStaysClosed | backend/app/services/environment_decommission_service.py:753-798 | A cancellation after the teardown needs a reason and nothing else, and opens nothing. |
| Utilization.MergeIntervals | backend/app/services/environment_utilization_service.py:25-33 | The in-place merge computes the fold whose properties follow. |
| Utilization.MergeCorrect | backend/app/services/environment_utilization_service.py:25-33 | The result covers the same instants as the input, sorted and strictly separated, whatever the intervals. |
| Utilization.MergeDetermined | backend/app/services/environment_utilization_service.py:25-33 | For non-empty intervals two inputs merge to the same list if and only if they cover the same instants: order, duplicates and division do not matter. |
| Utilization.Intersect | backend/app/services/environment_utilization_service.py:36-45 | For separated intervals the sum of the overlaps is the number of instants of the segment they cover. |
| Utilization.OperatingSegments | backend/app/services/environment_utilization_service.py:53-79 | The loop over local dates yields each open day's hours clipped to the window, and their total length. |
| Utilization.BookedTime | backend/app/services/environment_utilization_service.py:112-113 | Merging and then intersecting, summed over the segments, is the booked time of the unmerged bookings. |
| Utilization.BookedAtMostTotal | backend/app/services/environment_utilization_service.py:36-79 | Booked time never exceeds operating time. |
| Utilization.BookedIsMeasure | backend/app/services/environment_utilization_service.py:112-113 | For disjoint segments the booked time is the measure of what is both operating and booked. |
| Utilization.AddingABooking | backend/app/services/environment_utilization_service.py:101-114 | Adding a booking never lowers the booked time. |
| Utilization.BookedMonotone | backend/app/services/environment_utilization_service.py:101-114 | Bookings that cover more are booked for at least as long. |
| Utilization.SelectionLosesNothing | backend/app/services/environment_utilization_service.py:101-112 | Inside the window the rows the query selects cover what all active rows cover. |
| Utilization.WindowSplits | backend/app/services/environment_utilization_service.py:53-79 | Cutting a window at any instant conserves operating and booked time, for a zone whose local date never runs back and whose hours lie in their own date. |
| Utilization.EnvironmentUtilization | backend/app/services/environment_utilization_service.py:82-120 | The report's totals are those of all active bookings; booked is at most total; the ratio lies between zero and one and times the total is the booked time. |
| UtilizationEffects.ReportExactly | backend/app/services/environment_utilization_service.py:53-114 | For such a zone the report's totals are the number of instants of the window that are open, and that are open and booked. |
| UtilizationEffects.OperatingExactly | backend/app/services/environment_utilization_service.py:66-78 | An instant of the window is in a segment if and only if its own local date's hours have it open. |
| UtilizationEffects.ActiveExactly | backend/app/services/environment_utilization_service.py:102-111 | An instant is booked if and only if a row takes it that is not deleted, no draft, and neither rejected nor closed. |
| Comparison.TallyCounts | backend/app/services/environment_comparison.py:24 | The counter holds one entry for each host with its multiplicity. |
| Comparison.KeyOrder | backend/app/services/environment_comparison.py:25-35 | The sort key orders entries totally and ties only between entries for the same host: a null and an empty role cannot tie. |
| Comparison.ShapeIsMultiset | backend/app/services/environment_comparison.py:14-35 | Two shapes are equal if and only if the hosts are equal as multisets of type and optional role. |
| DiffEffects.ShapeExactly | backend/app/services/environment_comparison.py:14-35 | A shape lists each host once with how often it occurs, by type, within a type those with a role first, and those by role. |
| DiffEffects.HostsExactly | backend/app/services/environment_comparison_service.py:66-87 | A subsystem's hosts are those of its own row, each as often as it is stored. |
| DiffEffects.StringLeqExactly | backend/app/services/environment_comparison.py:34 | One string is at or before another if and only if it is a prefix of it or smaller where they first differ. |
| Comparison.DifferencesMeaning | backend/app/services/environment_comparison.py:38-67 | With the presence the service computes the error cannot happen; nothing differs if and only if both sides are there and alike; presence excludes every other kind; and the list is the same with the sides swapped. |
| DiffEffects.KindsExactly | backend/app/services/environment_comparison.py:38-67 | Each dimension is listed if and only if the sides differ in it, once and in the fixed order; the error is raised if and only if both sides are said to be there and one is not. |
| EnvironmentDiff.ReadSide | backend/app/services/environment_comparison_service.py:41-112 | A side holds exactly the environment's live subsystems, each with its flag, version and the shape of its own hosts. |
| EnvironmentDiff.CompareSides | backend/app/services/environment_comparison_service.py:142-185 | One row for every subsystem on either side, sorted, and a summary that counts the rows. |
| DiffEffects.RowExactly | backend/app/services/environment_comparison_service.py:143-159 | A row has its subsystem's names, the presence the tables say, and on each side what that environment's own row says. |
| DiffEffects.RowDiffersExactly | backend/app/services/environment_comparison_service.py:143-159 | A row lists a dimension if and only if the environments' own rows differ in it: mock flag, version, or hosts as a multiset. |
| DiffEffects.CountsExactly | backend/app/services/environment_comparison_service.py:175-184 | Each count of the summary is the number of live subsystems whose rows differ in that dimension, read off the tables. |
| DiffEffects.OrderExactly | backend/app/services/environment_comparison_service.py:161-168 | Rows that differ come first, then by the system's and the subsystem's name in lower case, then by id. |
| EnvironmentDiff.DiffDetermined | backend/app/services/environment_comparison_service.py:143-170 | The arbitrary order the ids are walked in does not show: two results for the same sides are the same list. |
| EnvironmentDiff.CountIsCardinality | backend/app/services/environment_comparison_service.py:175-184 | Counting rows by a property counts the subsystems that have it. |
| EnvironmentDiff.NothingDiffersExactly | backend/app/services/environment_comparison_service.py:142-184 | No subsystem is counted as differing if and only if the environments have the same live subsystems with equal mock flag, version and multiset of hosts. |
| EnvironmentDiff.ComparisonSymmetric | backend/app/services/environment_comparison_service.py:121-185 | Swapping the environments flips presence and sides row by row in the same order and leaves the differences and every count unchanged. |
| Conflicts.PairsAreMutualConflicts | backend/app/services/contention_forecast_service.py:25-94 | An unordered pair is reported if and only if each booking is in the other's conflict list. |
| Conflicts.OneSidedExactly | backend/app/services/conflict_service.py:62-104 | When one booking lists another, the other fails to list it if and only if the first is deleted. |
| Conflicts.WindowCountsOverlaps | backend/app/services/contention_forecast_service.py:83-91 | For bookings and a window that are not empty, a pair is counted in the window if and only if some instant of the window is taken by both. |
| Conflicts.PageKeepsPairs | backend/app/services/contention_forecast_service.py:77-81 | Asking for a page of bookings loses no pair of any booking on it. |
| ContentionEffects.PairedExactly | backend/app/services/contention_forecast_service.py:25-94 | Bookings that take time are paired if and only if both stand (of the tenant, not deleted, neither rejected nor closed) and share an instant of one environment. |
| ContentionEffects.ListedExactly | backend/app/services/conflict_service.py:33-104 | A conflict list holds exactly the others that stand and share an instant, for a subject neither rejected nor closed. |
| Contention.OrderIndependentExactly | backend/app/services/contention_service.py:173-237 | The verdict is the same from either side if and only if rank decides, a level is unknown, the levels are equal or one of them is hard (or it is one booking). |
| Contention.BeatsDescends | backend/app/services/contention_service.py:188-237 | For the levels stored, a winner stands strictly before its loser: unranked hard claims, then the ranked by rank and hard first, then the rest. |
| Contention.NoCycle | backend/app/services/contention_service.py:188-237 | Following who wins against whom never returns to where it began, for any number of bookings. |
| Contention.SomeoneUnbeaten | backend/app/services/contention_service.py:188-237 | Every non-empty finite set of bookings has one that loses to none of the others. |
| Contention.NotTransitive | backend/app/services/contention_service.py:188-237 | Winning is not transitive: three bookings show it. |
| Contention.VerdictOfPairAlone | backend/app/services/contention_service.py:240-269 | A pair's verdict depends neither on the page it is asked with nor, for the levels stored, on which booking is named first. |
| Contention.RankedExactly | backend/app/services/contention_service.py:92-170 | Rank decides if and only if both requests name live projects of the tenant with different ranks, and then the lower number wins. |
| ContentionEffects.OutcomeExactly | backend/app/services/contention_service.py:188-237 | Each outcome, if and only if the rows are as said: rank, else level, else the first of no project, no rank, equal rank. |
| ContentionEffects.WinnerExactly | backend/app/services/contention_service.py:173-237 | The winner has the lower rank, or is the hard claim where the level decides; there is none if and only if neither decides. |
| ContentionEffects.ReasonExactly | backend/app/services/contention_service.py:199-236 | Each reason, if and only if the rows are as said, kept where the level decided; a project named in vain is told from none named. |
| ContentionEffects.LevelExactly | backend/app/services/contention_service.py:145-170 | The level read is the request's, whether or not it is linked to a project, and none for a booking that cannot be seen. |
| Contention.StandingFilter | backend/app/services/contention_service.py:318-344 | At each clock exactly one filter selects an escalation, the one of its state; it is open to the end of its due day, and an answered or expired one stays so. |
| Contention.EscalableExactly | backend/app/services/contention_service.py:465-582 | The visibility and overlap checks, asked of the lower booking about the higher, accept a pair if and only if the calendar pairs it. |
| Contention.Register.CreateEscalation | backend/app/services/contention_service.py:585-680 | An existing escalation is handed back unchanged; a new one is made if and only if the pair clashes and the owner exists; each refusal in its order. |
| Contention.Register.RecordDecision | backend/app/services/contention_service.py:683-738 | A decision replaces the whole answer of one escalation and nothing else, for a member of the pair only. |
| Forecast.Fold | backend/app/services/contention_forecast_service.py:149-171 | Over the pairs in any order, each booking asked for gets the most actionable state of its pairs, or none. |
| Forecast.MostOneMore | backend/app/services/contention_forecast_service.py:120-123 | Taking one more pair into account raises the states of its two bookings and no other. |
| Forecast.ContentionStatesForBookings | backend/app/services/contention_forecast_service.py:126-171 | The answer for a booking is its state over the whole tenant, whatever else is on the page. |
| Forecast.MarkedExactly | backend/app/services/contention_forecast_service.py:126-171 | A live booking is marked if and only if its conflict list is not empty. |
| ContentionEffects.StateExactly | backend/app/services/contention_forecast_service.py:126-171 | A booking is unowned if some clash of it has no escalation, else owned if one waits for its answer, else decided if it clashes at all. |
| ContentionEffects.PairStateExactly | backend/app/services/contention_forecast_service.py:152-163 | A clash is unowned if and only if it has no escalation, decided if and only if that is answered, and owned otherwise, overdue or not. |
| ContentionEffects.FoundEitherWay | backend/app/services/contention_service.py:373-417 | Whichever way round a page holds a pair, it finds the pair's one escalation. |
| UpsertService.Database.InsertOrReread | backend/app/core/upsert.py:47-83 | The call inserts if and only if no committed row has the key, and otherwise, rolled back to its savepoint, returns that row. |
| UpsertService.Database.Read | backend/app/services/contention_service.py:616-641 | The read in front of the insert finds the committed row or branches to inserting. |
| UpsertService.Database.Write | backend/app/services/conflict_service.py:170-175 | An escalation, and an acknowledgement that changes no column, goes on without an update; any other waits until no other update of the row is undecided and then holds it. |
| UpsertSafety.WriteExactly | backend/app/services/conflict_service.py:170-175 | A caller waits if and only if it changes a column of a row whose update by another is undecided; it takes the lock if and only if it changes a column and need not wait. |
| UpsertService.Database.Commit | backend/app/db/base.py:50-60 | The commit publishes the caller's insert, or the columns it changed from what it had read over what is stored, and nothing else. |
| UpsertService.Database.Rollback | backend/app/db/base.py:50-60 | A failed request leaves no row and no lock behind. |
| UpsertService.Database.Lookup | backend/app/core/upsert.py:47-83 | The reread returns the committed row with the key, if there is one. |
| UpsertSafety.RereadKeeps | backend/app/core/upsert.py:69-74 | The row that refused an insert is always there to be reread. |
| UpsertSafety.CommitKeeps | backend/app/core/upsert.py:47-83 | Committing keeps: one live row per key, each row holding what the log says it should, and what each session read still there unless somebody committed on the key since. |
| UpsertSafety.RunKeeps | backend/app/core/upsert.py:47-83 | Every interleaving of reads, inserts, rereads, writes, commits and failures keeps the invariant. |
| UpsertResults.OneRowPerKey | backend/app/core/upsert.py:47-83 | In every interleaving of any number of callers no key has two rows and no caller re-raises. |
| UpsertResults.FirstWriterWins | backend/app/services/contention_service.py:616-680 | All callers that raise one clash are handed one row, and it says what the first of them to commit said. |
| UpsertResults.OwnerAndDeadlineStay | backend/app/services/contention_service.py:596-614 | From every state a run reaches: once raised, an escalation's owner and deadline never change by asking again, concurrently or later. |
| UpsertResults.LastWriterWins | backend/app/services/conflict_service.py:139-175 | The acknowledgement holds all that the last caller to commit on it said, if that caller inserted it or nobody committed on it between that caller's read and its write. |
| UpsertResults.LastWriterExactly | backend/app/services/conflict_service.py:139-175 | Column by column: the acknowledgement holds what the last caller said if and only if that caller inserted the row, or said other than it had read, or found it said already. |
| LostUpdate.NeitherSaid | backend/app/services/conflict_service.py:170-175 | Two callers read one answer, one changes the answer and the other the notes alone: the row ends with the one's answer and the other's notes, for any such contents. |
| UpsertResults.NoDeadlock | backend/app/core/upsert.py:47-83 | Whenever a request is unfinished some caller can take a step: nobody waits in a circle. |
| UpsertResults.AllCanCommit | backend/app/core/upsert.py:47-83 | From every reachable state the requests under way can all commit. |
| NameCompliance.VerdictsAlwaysCurrent | backend/app/services/environment_compliance_service.py:605-696 | After any run of saves, creations, patches and deletions a live environment's stored verdict is b if and only if the policy is enabled with a pattern and either the name is over 200 characters and b is false, or the matcher says b of that pattern and that name; and live names are unique. |
| NameCompliance.VerdictExactly | backend/app/services/environment_compliance_service.py:349-439 | There is a verdict if and only if the policy judges the name in that way, and it is that one. |
| NameEffects.CreateExactly | backend/app/services/environment_service.py:487-597 | A create is refused if and only if a live environment holds the name or, on the interactive path, the policy judges it false; the environment is stored as given with the verdict. |
| NameEffects.PatchExactly | backend/app/services/environment_service.py:600-689 | A patch is refused if and only if the environment is not there, would have no owner, or takes a name that is held or judged false; only a changed name is judged anew. |
| NameEffects.DeleteExactly | backend/app/services/environment_service.py:754-776 | A deletion marks a live environment deleted and changes nothing else. |
| NameEffects.SaveExactly | backend/app/services/environment_compliance_service.py:605-696 | A save stores the rule as given, taking effect now if it is new or its pattern or attributes changed, and else when it did; every live environment gets the verdict and nothing else of it changes. |
| NameCompliance.Tenant.UpsertPolicy | backend/app/services/environment_compliance_service.py:605-659 | A save writes the policy, restarts its grace exactly when the rule changed, and judges every live environment anew. |
| NameCompliance.Tenant.RecomputeTenant | backend/app/services/environment_compliance_service.py:662-696 | The loop judges exactly the live environments and counts them. |
| NameCompliance.Tenant.CreateEnvironment | backend/app/services/environment_service.py:514-597 | A taken name is refused, and on the interactive path one the pattern in force rejects; the import and the fulfilment of a request only record the verdict. |
| NameCompliance.Tenant.UpdateEnvironment | backend/app/services/environment_service.py:600-689 | Only a changed name is judged, and its verdict is stored with it; a patch that leaves no owner is refused. |
| NameCompliance.Tenant.DeleteEnvironment | backend/app/services/environment_service.py:754-776 | A live environment is marked deleted and keeps its row; its name is free again. |
| NameCompliance.ClauseAgrees | backend/app/services/environment_compliance_service.py:751-768 | The filter selects an environment if and only if the page has something to say about it, where no required value is blank without being spaces only. |
| NameCompliance.ClauseDisagreesExactly | backend/app/services/environment_compliance_service.py:751-768 | The filter and the page disagree about an environment if and only if its name passes, some required value is white space that is not spaces only, and nothing else is lacking. |
| NameCompliance.AttributeAgreesExactly | backend/app/services/environment_compliance_service.py:102-136 | The filter and the page disagree about one attribute if and only if its value is white space that is not spaces only. |
| NameEffects.LacksExactly | backend/app/services/environment_compliance_service.py:102-136 | What the page and the database call missing, attribute by attribute: no owner, no expiry, no group, or a value of white space (of spaces). |
| NameEffects.FilterExactly | backend/app/services/environment_compliance_service.py:751-768 | The filter selects if and only if the policy is enabled and the verdict is false or a required attribute is missing. |
| NameEffects.QuarantineExactly | backend/app/services/environment_compliance_service.py:771-795 | Quarantined if and only if in the filter, and rule and environment both as old as the grace in days before the start of today. |
| NameEffects.MessagesExactly | backend/app/services/environment_compliance_service.py:852-888 | The messages are the mismatch, first, if and only if the verdict is false, and one for each missing required attribute. |
| NameEffects.PreviewedExactly | backend/app/services/environment_compliance_service.py:980-1003 | A preview counts an environment if and only if the candidate pattern judges its name false or it lacks a candidate attribute. |
| NameEffects.CandidateExactly | backend/app/services/environment_compliance_service.py:940-952 | A preview judges by what is given and, for what is not, by what is saved. |
| NameEffects.SampledExactly | backend/app/services/environment_compliance_service.py:996-999 | A name is among those sampled from if and only if it is that of a live environment in gap. |
| NameEffects.SampleExactly | backend/app/services/environment_compliance_service.py:996-999 | The sample is the first of those names, twenty at most. |
| NameCompliance.PreviewedGapIsSaved | backend/app/services/environment_compliance_service.py:913-1005 | The number previewed as in gap is the number the filter selects after the same rule is saved and enabled. |
| NameCompliance.PreviewedQuarantineExactly | backend/app/services/environment_compliance_service.py:913-1005 | The number previewed as quarantined is the number after the save if and only if the rule is unchanged, or the rule saved before is still in its grace, or no live environment past its own grace would be in gap, or there is no grace and it is midnight. |
| NameCompliance.Tenant.PreviewPolicy | backend/app/services/environment_compliance_service.py:975-1005 | The counts are exact over the live environments and the sample is the first twenty names in gap. |
| GroupTransition.Group.TransitionGroup | backend/app/services/booking_service.py:647-730 | Every member moves and leaves a trace, or none does and every failing member is reported with its reason. |
| GroupTransition.FailuresExactly | backend/app/services/booking_service.py:669-682 | Every member that may not move is reported once, at its own position with its own reason, in order, and no other. |
| GroupTransition.ValidateExactly | backend/app/services/lifecycle_service.py:243-281 | A move is refused for want of a transition, for the role the first one excludes, or for exactly the required fields without a value. |
| GroupTransition.GroupAllowedStates | backend/app/services/booking_service.py:733-762 | What is offered is the intersection of what every member allows. |
| GroupTransition.OfferedSucceedsExactly | backend/app/services/lifecycle_service.py:243-290 | A move succeeds if and only if every member's first transition admits the role and the required fields are filled; success implies the offer, and the offer implies the role check if no two transitions join the same states. |
| GroupTransition.OfferedAndRefused | backend/app/services/lifecycle_service.py:257-265 | With two transitions between the same states an offer is made that is refused. |
| GroupTransition.OfferedAndIncomplete | backend/app/services/lifecycle_service.py:266-280 | With one transition and one empty required field an offer is made that is refused for the field. |
| Membership.ParentsFollowMemberships | backend/app/services/enterprise_membership_service.py:54-320 | In every run a project has at most one open membership, its parent names an enterprise if and only if it is accepted there, and parents have no parents. |
| Membership.SettledForever | backend/app/services/enterprise_membership_service.py:222-320 | A rejected, withdrawn or removed record never changes again, and no record changes the releases it names. |
| Membership.StrandedForever | backend/app/services/enterprise_membership_service.py:22-36 | Once an enterprise release is deleted, what was accepted into it is never removed, keeps its parent, and may ask nowhere else. |
| Membership.LateScopeExactly | backend/app/services/enterprise_membership_service.py:118-132 | Admission is late if and only if the enterprise's current state, or one before it, locks admission down. |
| Membership.AskExactly | backend/app/services/enterprise_membership_service.py:54-112 | When a request is accepted, and that it adds one pending record. |
| Membership.AcceptExactly | backend/app/services/enterprise_membership_service.py:167-219 | When an acceptance goes ahead; it marks the record, its lateness and the project's parent, and nothing else. |
| Membership.RejectExactly | backend/app/services/enterprise_membership_service.py:222-250 | Only a pending request is rejected, by one who may; it becomes rejected and nothing else changes. |
| Membership.WithdrawExactly | backend/app/services/enterprise_membership_service.py:253-282 | Only a pending request is withdrawn, by whoever asked or an admin; it becomes withdrawn and nothing else changes. |
| Membership.RemoveExactly | backend/app/services/enterprise_membership_service.py:285-320 | Only an accepted membership is removed; the project then points nowhere. |
| Membership.RefusedExactly | backend/app/services/enterprise_membership_service.py:22-36 | A refused action changes nothing. |
| Membership.Memberships.RequestMembership | backend/app/services/enterprise_membership_service.py:54-112 | A request is accepted for live releases of the right kinds with no open membership. |
| Membership.Memberships.AcceptMembership | backend/app/services/enterprise_membership_service.py:167-219 | Acceptance records the decision and lateness and sets the parent, or changes nothing. |
| Membership.Memberships.RejectMembership | backend/app/services/enterprise_membership_service.py:222-250 | Only a pending request is rejected. |
| Membership.Memberships.WithdrawMembership | backend/app/services/enterprise_membership_service.py:253-282 | Only its requester or an admin withdraws a pending request. |
| Membership.Memberships.RemoveMembership | backend/app/services/enterprise_membership_service.py:285-320 | Removal clears the parent, and needs both releases live. |
| Ingest.Webhooks.Ingest | backend/app/services/deployment_service.py:76-241 | The delivery as it writes its rows one after another does what the transition says: all its effects or none. |
| IngestEffects.FirstExactly | backend/app/services/deployment_service.py:86-241 | When a first delivery is accepted, and every row it stores: deployment, build, version, change request and its trace, and the event published. |
| IngestEffects.LaterExactly | backend/app/services/deployment_service.py:86-241 | When a later delivery is replayed, accepted or refused, and every row an accepted one changes. |
| IngestEffects.FollowsExactly | backend/app/services/deployment_service.py:26-32 | Exactly which status may follow which. |
| IngestEffects.LabelExactly | backend/app/services/deployment_service.py:177 | A version is called by the build number, or by the first eight characters of the commit. |
| Ingest.EffectsHappenOnce | backend/app/services/deployment_service.py:86-212 | Whatever is delivered, and whatever its names resolve to by then, each event has at most one deployment, records one version if it ever succeeded and none otherwise, and publishes each status it reached once. |
| Ingest.ForwardOnly | backend/app/services/deployment_service.py:26-32 | A deployment's status only moves forward, and its event, build, environment and change request never change. |
| Ingest.RedeliveryChangesNothing | backend/app/services/deployment_service.py:86-108 | Delivering any status already reached leaves the store unchanged: replayed if it is the current one, refused if not. |
| Ingest.NeverIngestedTwice | backend/app/services/deployment_service.py:86-108 | An accepted delivery is never ingested a second time, whatever arrives in between and whatever systems and environments are renamed or deleted meanwhile. |
| Ingest.ChangeStatusExactly | backend/app/services/deployment_service.py:188-211 | A change request made for one deployment alone is deployed if and only if the deployment ever succeeded, failed if and only if it ever failed, and else as created. |
| Ingest.VersionWhereExactly | backend/app/services/deployment_service.py:173-183 | The version a success records stands where its deployment row says, then and ever after, if and only if the delivery's names resolve to the environment and build the event's first delivery was recorded with. |
| Evidence.LatestByPlace | backend/app/services/gate_evidence_service.py:222-227 | The one pass keeps, for each subsystem and environment, a newest successful deployment. |
| Evidence.StaleEvidenceDetails | backend/app/services/gate_evidence_service.py:149-258 | Evidence is reported if and only if a strictly later, undeleted, successful deployment of the same subsystem into the same environment exists, each piece by itself, and the report names the deployment cited and a newest one. |
| Evidence.StaleExactly | backend/app/services/gate_evidence_service.py:152-160 | Stale, said of the stored rows: tenant, success, deletion, later time, same subsystem and environment. |
| Evidence.NamedExactly | backend/app/services/gate_evidence_service.py:145-146 | What a report calls a build. |
| Evidence.EnvironmentNamed | backend/app/services/gate_evidence_service.py:252 | A report names the environment of the cited deployment, where there is a name. |
| Evidence.StaleExactlyOlder | backend/app/services/gate_evidence_service.py:152-160 | Evidence citing a successful deployment is stale if and only if that is not a newest one of its place. |
| Sorting.SortedUnique | backend/app/services/environment_comparison.py:25-35 | A list sorted by a key without ties is determined by its contents. |

## Left out

- HTTP, schemas, authentication of the caller, event delivery, logging, metrics and the frontend: plumbing. Role checks are arguments.
- SQL: a query is its meaning, a quantifier over rows. Pagination, ordering of pages and the display labels joined to them are not modelled.
- The regular expression engine and its timeout: whether a name matches is a deterministic parameter. The expansion of a pattern is its tree with the counted repeats written out, not the engine's memory.
- RegexWeight.RepeatWeight: which characters beyond Latin-1 are white space, digits, or digits that `int` converts is not said: it is any classification in which the last are among the second and no digit is white space. `int()`'s limit on very long digit strings is not reached within the 500 characters a pattern may have.
- Access tokens, password hashing and the throttling of logins. SHA-256 is a function without collisions, and a new token or family id is one not yet in the table.
- AuthSession.SessionService.RotateRefreshToken: one step; two rotations of one token in overlapping transactions, which the code does not lock against, are not modelled.
- EstateService.Service.TearDownEnvironment: that teardown happens on its date is not claimed; the code does not look at the clock.
- EstateService.Service.CreateSingleBooking: the dates a recurrence rule yields are an argument; exclusive use is not claimed, since only this path checks it and for its first occurrence only.
- EstateService.Service.UpdateRequestDates: the request's other fields, and its checks on them, are one argument.
- Time zone data: a zone is a function from instants to local dates and one from wall-clock times to instants. That the segments of different days are disjoint is a premise where it is needed.
- Utilization.EnvironmentUtilization: the ratio is a real number, without rounding; an environment without configured hours, and the overview over all environments, are left out.
- EnvironmentDiff.CompareSides: the list of systems beside the list of subsystems, built the same way, and the lookup of current versions.
- Contention.Register.CreateEscalation: one step here; its concurrent form is `UpsertService.Database.InsertOrReread`. The worklist, its labels and who may escalate or decide are left out.
- UpsertResults.NoDeadlock: each request touches one key.
- NameCompliance.Tenant.UpdateEnvironment: foreign keys and custom field definitions are not checked; the validation of a pattern before a save, probes and all, is a premise of the write.
- The wording of messages, and the choice of status code by words found in a reason (`backend/app/services/booking_service.py:681`).
- Membership.Memberships.AcceptMembership: the lifecycle template is the list of its states; a release's kind does not change.
- Ingest.Webhooks.Ingest: release ids, deployer names and build timestamps; two deliveries of one new event at the same moment, which the unique key decides.
- Evidence.StaleEvidenceDetails: writing evidence, and the reading of waivers and gates.
- Releases, gates, runbooks, changes, projects, RAID items and the rest of the environment request workflow: not modelled.
