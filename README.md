# club-points, modelled in Dafny

A model of the core of the club-points backend and its registration page.

- **Activities.** An activity (title, type, point-rule reference, dates, capacity, status, check-in code, gallery, embedded participant list) moves through `draft`, `ongoing`, `completed` and `cancelled`.
  - Students sign up, cancel and check in.
  - Administrators create, update, start, complete and delete activities. They also set the check-in code and list the participants.
- **Participant mirror.** A collection of participant records sits beside the activities and mirrors their participant lists.
- **User documents.** Each user document has a point balance, a points history and a list of activity registrations.
- **Reward exchange.** A student spends points on a reward. The balance, the reward's stock and the points ledger change in one step of the model; the handler writes them one after another.
- **Activity gallery.** An activity has a gallery of images and a cover image.
- **Account routes.** Register, log in, update one's own profile, and administrator edit of a user.
- **Registration page.** The client-side form, with its regular-expression validators.
- **Activity router.** The router's authentication and role gate.

Module layout:

| file | module | what it holds |
|---|---|---|
| `common.dfy` | `Common` | ids, timestamps, roles, `Result`/`Option`, JavaScript truthiness |
| `sequences.dfy` | `Sequences` | filter, first index, removal at an index, descending sort, JavaScript `slice(0, n)` |
| `activity_schema.dfy` | `ActivitySchema` | the activity document, its enums and `SchemaValid` (what `save` validation accepts) |
| `lifecycle.dfy` | `Lifecycle` | each activity endpoint as a transition function on one document |
| `activity_store.dfy` | `Activities` | class `ActivityStore`: the activities collection plus the participant mirror; each endpoint as a method |
| `ledger.dfy` | `Ledger` | the users' balances (`UserDirectory`), the points-record collection (`PointsLedger`), crediting |
| `listing.dfy` | `Listing` | the filtered, paged activity listing and the per-status statistics |
| `gallery.dfy` | `Gallery` | image upload, removal and cover selection |
| `points.dfy` | `Points` | the reward catalogue and the exchange |
| `users.dfy` | `Users` | class `UserDoc`: the user document's methods, virtuals and pre-validate hook |
| `formats.dfy` | `Formats` | the password, student-id, phone and e-mail patterns as character predicates |
| `accounts.dfy` | `Accounts` | registration, login, profile and administrator edits on the user collection |
| `register_page.dfy` | `RegisterPage` | class `RegisterForm`: the registration page's state and handlers |
| `activity_routes.dfy` | `ActivityRoutes` | the route table and the `protect`/`restrictTo` gate |

How persistence is modelled:

- **Saving a document** means passing schema validation. The store keeps `SchemaValid` for every stored activity as part of its `Valid()` invariant.
- **The mirror relation.** `Valid()` also says that, for every activity, the multiset of users in its embedded participant list equals the multiset of users in its mirror records.
- **Update-style writes.** `findByIdAndUpdate` with `runValidators` is modelled as validation of the updated paths only.
- **Loaded user documents.** Such an update runs no pre-validate hook, so a loaded user document need not be as a save leaves it: an administrator may carry a student number. The user-document methods accept any loaded document, and their save runs the hook and then validates.

Behaviour of the code that the model keeps, though a reader might expect otherwise:

- Delete refuses only an `ongoing` activity. A `completed` one can be deleted.
- Create does not check that the end date is not before the start date.
- `completed` is not terminal: an update may rewrite the status of any activity that is not ongoing.
- Completion marks absentees only in the participant mirror.
- The exchange writes the balance, the stock and the ledger one after another, not in one transaction.

## Model

| member | source | states |
|---|---|---|
| ActivitySchema.ParseType | backend/models/Activity.js:6-10 | accepts exactly the five type names, and returns the type whose name is the input |
| ActivitySchema.ParseStatus | backend/models/Activity.js:21-25 | accepts exactly the four status names, and returns the status whose name is the input |
| ActivitySchema.TypeNamesRoundTrip | backend/models/Activity.js:6-10 | parsing a type's stored name gives back that type |
| ActivitySchema.StatusNamesRoundTrip | backend/models/Activity.js:21-25 | parsing a status's stored name gives back that status |
| ActivitySchema.ValidCapacityIsBounded | backend/models/Activity.js:19 | a document that passes validation has capacity at least 1, so "0 = unlimited" never reaches a stored activity |
| ActivitySchema.TypeOr | backend/models/Activity.js:6-10 | a supplied valid type name sets the type; anything else keeps it |
| ActivitySchema.StatusOr | backend/models/Activity.js:21-25 | a supplied valid status name sets the status; anything else keeps it |
| Lifecycle.EntryIndex | backend/controllers/activityController.js:379-381 | the index of the caller's first participant entry, or -1 exactly when the caller has none |
| Lifecycle.Assign | backend/controllers/activityController.js:196-199 | every assigned path carries its new value, and every other path is unchanged |
| Lifecycle.ScalarPathsAcceptable | backend/models/Activity.js:4-51 | each path that passes validation has the declared type: non-empty required strings, enum names, references, dates, capacity at least 1 |
| Lifecycle.AssignKeepsSchema | backend/models/Activity.js:4-51 | assigning validated paths to a valid document gives a valid document |
| Lifecycle.ApplyUpdate | backend/controllers/activityController.js:196-199 | succeeds iff every path validates; it then changes exactly those paths, keeps participants and images, and keeps the document valid |
| Lifecycle.NewActivity | backend/controllers/activityController.js:11-21 | creation succeeds iff the required paths are present and the rest validate; the result is ongoing, has no participants, a zero counter, the caller as organizer and the default cover |
| Lifecycle.SeedFilled | backend/controllers/activityController.js:12-21 | the document create builds from a valid body is valid, consistent and has the forced status, participants, counter and organizer |
| Lifecycle.CreateIgnoresControlPaths | backend/controllers/activityController.js:12-18 | bodies that differ only in status, participants, counter or organizer create the same activity |
| Lifecycle.UpdateData | backend/controllers/activityController.js:172-194 | keeps exactly the body's schema paths, and only the five allowed paths while ongoing, with the body's values |
| Lifecycle.Update | backend/controllers/activityController.js:164-199 | succeeds iff every kept body path is acceptable; the result carries the kept paths, agrees with the activity elsewhere and keeps the participants and images; a valid activity stays valid |
| Lifecycle.OngoingUpdateIsLimited | backend/controllers/activityController.js:175-183 | an update of an ongoing activity changes only description, location, dates and capacity; it stays ongoing and keeps the counter consistent |
| Lifecycle.CompletedIsNotTerminal | backend/controllers/activityController.js:178-199 | an update can put a completed activity back into draft |
| Lifecycle.UpdateCanBreakCount | backend/controllers/activityController.js:178-199 | an update of an activity that is not ongoing can set the counter away from the participant count |
| Lifecycle.View | backend/controllers/activityController.js:114-131 | a student is refused exactly the activities that are not ongoing; otherwise the document is returned |
| Lifecycle.Deletable | backend/controllers/activityController.js:150-153 | deletion is refused exactly for an ongoing activity |
| Lifecycle.Start | backend/controllers/activityController.js:218-224 | succeeds exactly from draft and changes only the status to ongoing; validity and consistency are kept |
| Lifecycle.Complete | backend/controllers/activityController.js:242-248 | succeeds exactly from ongoing and changes only the status to completed; the participant entries are untouched |
| Lifecycle.Signup | backend/controllers/activityController.js:305-340 | refuses, in order: not ongoing, already enrolled, full; succeeds iff none of these applies. On success it appends one registered entry for the caller, sets the counter to the new length, changes nothing else and never exceeds capacity |
| Lifecycle.CancelSignup | backend/controllers/activityController.js:369-391 | refuses when not ongoing or not enrolled. Otherwise it removes exactly the caller's entry, keeps everyone else's, and resets the counter |
| Lifecycle.RemoveEntryKeepsOthers | backend/controllers/activityController.js:388 | removing one entry from a duplicate-free list leaves a duplicate-free list without that user and with every other user |
| Lifecycle.MarkEntry | backend/controllers/activityController.js:414-440 | refuses when not ongoing, when the code is unset or different, or when the caller is not enrolled; otherwise only the caller's entry gets the new status |
| Lifecycle.CheckIn | backend/controllers/activityController.js:414-440 | as intended: refuses, in order, not ongoing, a wrong or missing code, and a caller without an entry; succeeds iff none applies. On success exactly the caller's first entry becomes `checked-in`, nothing else changes, and the document stays valid and consistent |
| Lifecycle.CheckInAsWritten | backend/controllers/activityController.js:440 | as written: every check-in that passes the guards produces a document that fails validation |
| Lifecycle.SetCheckInCodeAsWritten | backend/controllers/activityController.js:464 | as written: the route refuses every caller |
| Lifecycle.SetCheckInCode | backend/controllers/activityController.js:457-469 | as intended: administrators only; it replaces only the check-in code and keeps the document valid |
| Activities.Users | backend/controllers/activityController.js:252-255 | the users of the participant entries, position by position |
| Activities.RemoveRecord | backend/controllers/activityController.js:396-399 | removes the first mirror record of this user and activity, and no other record |
| Activities.SetRecordStatus | backend/controllers/activityController.js:444-447 | changes the status of the first mirror record of this user and activity only |
| Activities.MarkAbsent | backend/controllers/activityController.js:282-290 | every registered record of the activity becomes absent; nothing else changes |
| Activities.CheckedInAmongMirror | backend/controllers/activityController.js:252-255 | the checked-in users of an activity are a sub-multiset of its mirror users |
| Activities.CheckedInUsers | backend/controllers/activityController.js:252-255 | as many users as there are checked-in mirror records of the activity, and exactly the users of those records |
| Activities.ReplaceKeepsStore | backend/controllers/activityController.js:196-199 | replacing an activity by a valid document with the same participants keeps the store invariant |
| Activities.SignupKeepsStore | backend/controllers/activityController.js:335-352 | the embedded append together with one new mirror record keeps the store invariant |
| Activities.SignupKeepsMirrors | backend/controllers/activityController.js:335-352 | after sign-up every activity's participant users still equal its mirror users |
| Activities.CancelKeepsStore | backend/controllers/activityController.js:388-399 | the embedded removal together with the mirror deletion keeps the store invariant |
| Activities.CancelKeepsActivities | backend/controllers/activityController.js:388-393 | cancellation keeps every stored activity valid and duplicate-free |
| Activities.CancelKeepsMirrors | backend/controllers/activityController.js:388-399 | after cancellation every activity's participant users still equal its mirror users |
| Activities.MirrorsOutside | backend/controllers/activityController.js:396-399 | a change to one activity and its records keeps the mirror relation of every other activity |
| Activities.RemoveRecordKeepsRecords | backend/controllers/activityController.js:396-399 | deleting a record keeps every remaining record well formed |
| Activities.RestatusKeepsStore | backend/controllers/activityController.js:440-447 | changing statuses in the document and the records keeps the store invariant |
| Activities.CheckInKeepsStore | backend/controllers/activityController.js:440-447 | the intended check-in keeps the store invariant |
| Activities.CompleteKeepsStore | backend/controllers/activityController.js:248-290 | completion with the absentee sweep keeps the store invariant |
| Activities.CancelKeepsMirror | backend/controllers/activityController.js:388-399 | cancellation keeps the mirror relation of the cancelled activity and does not change other activities' mirror users |
| Activities.StatusChangeKeepsMirror | backend/controllers/activityController.js:444-447 | a status-only change of the records changes no activity's mirror users |
| Activities.ActivityStore.Create | backend/controllers/activityController.js:11-42 | succeeds iff the body yields a new activity; it stores that activity under a fresh id with no mirror records; a failure changes nothing |
| Activities.ActivityStore.Get | backend/controllers/activityController.js:114-139 | not found for a missing id; otherwise the role-dependent view of the stored document |
| Activities.ActivityStore.Update | backend/controllers/activityController.js:164-199 | not found for a missing id; otherwise it succeeds iff the assembled update validates and stores exactly the updated document; a failure changes nothing |
| Activities.ActivityStore.Delete | backend/controllers/activityController.js:143-155 | not found for a missing id; refuses an ongoing activity; otherwise removes exactly that activity and leaves its records |
| Activities.ActivityStore.Start | backend/controllers/activityController.js:210-225 | succeeds exactly for a stored draft, which becomes ongoing; nothing else changes |
| Activities.ActivityStore.Signup | backend/controllers/activityController.js:302-352 | succeeds iff the activity exists and the transition succeeds, with the transition's refusal otherwise; on success the new document is stored and one registered record with the same time is appended; a failure changes nothing |
| Activities.ActivityStore.CancelSignup | backend/controllers/activityController.js:362-399 | succeeds iff the activity exists and the transition succeeds, with the transition's refusal otherwise; on success the entry is removed and the caller's record deleted; a failure changes nothing |
| Activities.ActivityStore.CheckIn | backend/controllers/activityController.js:407-447 | as intended: succeeds iff the activity exists and the transition succeeds, with the transition's refusal otherwise; on success the caller's entry and the caller's record both become checked-in; a failure changes nothing |
| Activities.ActivityStore.CheckInAsWritten | backend/controllers/activityController.js:439-447 | as written: every call fails and changes nothing; it fails on validation exactly when the guards pass |
| Activities.ActivityStore.SetCheckInCodeAsWritten | backend/controllers/activityController.js:457-469 | as written: forbidden for every stored activity, not found otherwise, nothing changes |
| Activities.ActivityStore.SetCheckInCode | backend/controllers/activityController.js:457-469 | as intended: administrators replace only the code of a stored activity |
| Activities.ActivityStore.CompleteWith | backend/controllers/activityController.js:236-290 | succeeds exactly from ongoing. Each checked-in user is credited the award once, one earn record is appended per credited user, and the activity's registered records become absent. A failure changes nothing |
| Activities.ActivityStore.CompleteAsWritten | backend/controllers/activityController.js:258-276 | as written: no balance changes and every appended record carries 0 points |
| Activities.ActivityStore.Complete | backend/controllers/activityController.js:258-276 | as intended: every checked-in user's balance rises by the rule's points times the number of that user's checked-in records |
| Activities.ActivityStore.Participants | backend/controllers/activityController.js:515-524 | not found for a missing id; otherwise exactly the activity's records, ordered by registration time |
| Activities.ActivityStore.Documents | backend/controllers/activityController.js:66-75 | a scan of the collection: each stored activity exactly once |
| Activities.ActivityStore.CompletionCreditsOnce | backend/controllers/activityController.js:259-278 | in a valid store a user has at most one checked-in record per activity, so completion credits each user at most once |
| Activities.AwardEach | backend/controllers/activityController.js:259-278 | the loop's effect: balances credited per occurrence, and the earn records appended in order |
| Activities.BuildUpdateData | backend/controllers/activityController.js:172-194 | the loop over the body's keys builds exactly the update the transition specifies |
| Listing.PageOf | backend/controllers/activityController.js:46 | a missing or zero page becomes 1; any other value is kept |
| Listing.LimitOf | backend/controllers/activityController.js:47 | a missing or zero limit becomes 10; any other value is kept |
| Listing.Magnitude | backend/controllers/activityController.js:72 | the number of documents a limit lets through is its absolute value |
| Listing.TotalPages | backend/controllers/activityController.js:101 | the ceiling of total over limit: the fewest pages of that size that hold every match |
| Listing.ConditionsOf | backend/controllers/activityController.js:50-63 | truthy title and type filters are kept; a student's status filter is always `ongoing`; an administrator's is the supplied one |
| Listing.Annotate | backend/controllers/activityController.js:77-93 | `isRegistrationOpen` iff ongoing and (unlimited or not full); `isParticipant` iff the caller has an entry; the count is the list length |
| Listing.RegistrationOpenOnValidDocument | backend/controllers/activityController.js:89-90 | on a document that passes validation, registration is open iff ongoing and below capacity |
| Listing.Window | backend/controllers/activityController.js:71-72 | the `n` documents after the first `skip`, in order |
| Listing.Items | backend/controllers/activityController.js:71-93 | the annotated window of the selected documents |
| Listing.Selected | backend/controllers/activityController.js:67-70 | exactly the matching documents, newest first |
| Listing.List | backend/controllers/activityController.js:45-102 | a negative skip fails; otherwise the echoed page and limit, the matching total and page count, and as items exactly the skip-and-limit window of the matches sorted newest first, each annotated for the caller |
| Listing.DefaultPaging | backend/controllers/activityController.js:46-48 | without page and limit the listing is the first ten matches |
| Listing.StudentSeesOnlyOngoing | backend/controllers/activityController.js:57-63 | a student lists only ongoing activities, whatever status filter they send |
| Listing.PagesCoverMatches | backend/controllers/activityController.js:48-101 | with a positive limit, every page before the last is full and the pages after it are empty |
| Listing.GroupOf | backend/controllers/activityController.js:534-542 | the number of activities with a status is the number of documents in that status |
| Listing.GroupSumsEntries | backend/controllers/activityController.js:534-542 | a group's participant figure is the sum of the participant-list lengths of exactly the activities in that status |
| Listing.Stats | backend/controllers/activityController.js:533-542 | one group per status that occurs, and only those, each with a positive count |
| Listing.GroupNonEmpty | backend/controllers/activityController.js:534-542 | a status's group is non-empty iff some activity has that status |
| Listing.GroupsPartition | backend/controllers/activityController.js:534-542 | the groups' counts add up to the number of activities, and their participant sums to all entries |
| Listing.ScanFromIds | backend/controllers/activityController.js:66-75 | a scan built from an id enumeration holds exactly the stored documents |
| Listing.ListActivities | backend/controllers/activityController.js:45-102 | the listing of some scan of the store; every item is a stored activity |
| Listing.ActivityStats | backend/controllers/activityController.js:533-550 | the statistics of some scan of the store; a group exists iff some stored activity has that status |
| ActivityRoutes.Dispatch | backend/routes/activity.js:36-74 | the first route, in registration order, whose verb and pattern match; -1 iff none does |
| ActivityRoutes.PathMatches | backend/routes/activity.js:3-74 | a request path matches a route pattern when it has as many segments, each literal equal ignoring case and each parameter non-empty, a trailing slash being tolerated (the router's non-strict, case-insensitive defaults) |
| ActivityRoutes.Lower | backend/routes/activity.js:3 | ASCII lower-casing, character by character, keeping the length |
| ActivityRoutes.LowerOfLowerCase | backend/routes/activity.js:3 | lower-casing leaves a string unchanged iff it holds no upper-case letter |
| ActivityRoutes.LiteralsAreLowerCase | backend/routes/activity.js:36-74 | every literal of the route table is already lower case, so comparing the lower-cased request segment with it ignores case on both sides |
| ActivityRoutes.SegmentMatchesIgnoresCase | backend/routes/activity.js:3 | a segment matches iff its lower-cased form does |
| ActivityRoutes.SegmentsMatchIgnoresCase | backend/routes/activity.js:3 | a segment list matches iff its lower-cased form does |
| ActivityRoutes.PathMatchesIgnoresCase | backend/routes/activity.js:3 | a path matches a pattern iff its lower-cased form does |
| ActivityRoutes.DispatchIgnoresCase | backend/routes/activity.js:3-74 | every request is routed exactly as its lower-cased path is |
| ActivityRoutes.LiteralsNonEmpty | backend/routes/activity.js:36-74 | no literal of the route table is empty |
| ActivityRoutes.TrailingSlashMatches | backend/routes/activity.js:3 | with no empty literal, a path with one trailing slash added matches a pattern iff the path does |
| ActivityRoutes.DispatchIgnoresTrailingSlash | backend/routes/activity.js:3-74 | a request with one trailing slash added is routed exactly as without it |
| ActivityRoutes.RestrictTo | backend/middleware/auth.js:36-43 | admits exactly the listed roles |
| ActivityRoutes.Authorize | backend/routes/activity.js:34-74 | unauthenticated iff no user was resolved; otherwise the matched route's handler runs iff it has no restriction or lists the caller's role |
| ActivityRoutes.RestrictedRoutesAreAdminHandlers | backend/routes/activity.js:44-74 | a route is restricted iff its handler is an administrator's, and the restriction is always administrators only |
| ActivityRoutes.NoAnonymousAccess | backend/routes/activity.js:34 | no handler runs without authentication |
| ActivityRoutes.StudentsNeverReachAdminHandlers | backend/routes/activity.js:44-74 | no request from a student reaches an administrator's handler |
| ActivityRoutes.RouteReachedByEveryRole | backend/routes/activity.js:37-74 | a matched route runs for every role, except that a student is forbidden an administrator's handler |
| ActivityRoutes.StudentCanSignup | backend/routes/activity.js:59 | an example of the general routing lemmas: for every id, a student's `POST /:id/signup` reaches the sign-up handler |
| ActivityRoutes.StudentCanCancel | backend/routes/activity.js:62 | an example: for every id, a student's `DELETE /:id/signup` reaches the cancel handler |
| ActivityRoutes.StudentCanCheckIn | backend/routes/activity.js:65 | an example: for every id, a student's `POST /:id/checkin` reaches the check-in handler |
| ActivityRoutes.StatsSummaryReachable | backend/routes/activity.js:41-71 | an example: `GET /stats/summary` reaches the statistics handler for administrators and is forbidden to students |
| ActivityRoutes.StatsSummaryAnyCase | backend/routes/activity.js:71 | an example: an administrator's `GET /STATS/Summary` reaches the statistics handler |
| ActivityRoutes.StatsSummaryTrailingSlash | backend/routes/activity.js:71 | an example: an administrator's `GET /stats/summary/` reaches the statistics handler |
| ActivityRoutes.StatsAloneIsAnId | backend/routes/activity.js:41 | an example: `GET /stats` is taken as the id of a single activity |
| Ledger.History | backend/controllers/pointsController.js:9-11 | exactly the user's records, newest first |
| Ledger.Credit | backend/controllers/activityController.js:259-267 | crediting keeps the set of users |
| Ledger.CreditAddsPerOccurrence | backend/controllers/activityController.js:259-267 | a user's balance rises by the award times the number of times the user is credited |
| Ledger.CreditKeepsBalancesNonNegative | backend/controllers/activityController.js:263-267 | a non-negative award never lowers a balance, so non-negative balances stay non-negative |
| Ledger.Awards | backend/controllers/activityController.js:269-276 | exactly one earn record per listed user that exists, in the list's order, each with the award, the activity and its title |
| Points.ExchangeCheck | backend/controllers/pointsController.js:27-50 | refuses, in order: unknown reward, no stock, unknown user, balance below cost; succeeds exactly otherwise with that reward |
| Points.SpendRecord | backend/controllers/pointsController.js:61-66 | a spend record for the caller of minus the cost, naming the reward |
| Points.ExchangeReward | backend/controllers/pointsController.js:25-66 | a failure changes nothing. Success lowers the balance by the cost, the stock by one and appends one spend record, so the balance change equals the ledger change |
| Gallery.ImageIndex | backend/controllers/uploadController.js:62 | the first image with the id, or -1 exactly when there is none |
| Gallery.AddImage | backend/controllers/uploadController.js:33-39 | appends the image; it becomes the cover when asked or when it is the first; nothing else changes; a gallery cover stays in the gallery |
| Gallery.RemoveImage | backend/controllers/uploadController.js:62-89 | not found iff no image has the id. Otherwise exactly that image is removed. The cover is kept unless it was that image's url; then it becomes the first remaining url or the default |
| Gallery.RemoveImageKeepsCover | backend/controllers/uploadController.js:83-89 | a cover taken from the gallery is still taken from the gallery after a removal |
| Gallery.RemoveImageKeepsSchema | backend/controllers/uploadController.js:80-91 | removal keeps the document valid |
| Gallery.ChooseCover | backend/controllers/uploadController.js:110-116 | not found iff no image has the id; otherwise the cover becomes that image's url and nothing else changes |
| Gallery.UploadActivityImage | backend/controllers/uploadController.js:8-41 | no file or a missing activity fails and changes nothing; succeeds iff a file came for a stored activity, and then the stored activity is the one with the image added |
| Gallery.DeleteActivityImage | backend/controllers/uploadController.js:52-91 | a missing activity or image fails and changes nothing; succeeds iff both exist, and then the stored activity is the one with the image removed |
| Gallery.SetActivityCover | backend/controllers/uploadController.js:100-117 | a missing activity or image fails and changes nothing; succeeds iff both exist, and then the stored activity has that image as its cover |
| Users.PreValidate | backend/models/User.js:310-319 | an administrator loses the student fields and the balance becomes 0; a student is untouched; the role is kept |
| Users.PreValidateIdempotent | backend/models/User.js:310-319 | running the hook twice is the same as running it once |
| Users.Saves | backend/models/User.js:310-319 | a save succeeds iff the pre-validate hook's output validates |
| Users.SavedIsStored | backend/models/User.js:310-319 | what a save writes is a stored document, and a stored document saves unchanged |
| Users.AdminWithStudentNumberSaves | backend/models/User.js:310-319 | a stored administrator given a student number, as the administrator's edit can do, is not stored as a save leaves it, yet it saves, and the save restores the original |
| Users.AdminBalanceIsZero | backend/models/User.js:113-117 | a stored administrator has balance 0 and no student fields |
| Users.CheckedInCount | backend/models/User.js:283-287 | the checked-in count never exceeds the number of registrations |
| Users.CheckedInCountIsFilterLength | backend/models/User.js:283-287 | the count is the length of the filter of checked-in registrations |
| Users.ActivityCount | backend/models/User.js:278-280 | the number of registrations, never below the checked-in count |
| Users.TotalsAreFilteredSums | backend/models/User.js:290-307 | the one-pass earned total is the sum of the points of the earn entries, and the redeemed total the sum of the magnitudes of the redeem entries, as the filter and reduce compute them |
| Users.Validates | backend/models/User.js:51-120 | the schema's validation: a username, the e-mail and phone patterns, a student's number in its format with college and class, a non-negative balance, a description on every history entry |
| Users.TotalsAppend | backend/models/User.js:290-307 | appending an entry adds its points to earned or its magnitude to redeemed, by kind |
| Users.CheckedInCountUpdate | backend/models/User.js:283-287 | replacing one registration changes the count by the change in that registration's checked-in flag |
| Users.CheckedInCountAppend | backend/models/User.js:283-287 | appending a registration adds one iff it is checked in |
| Users.RegIndex | backend/models/User.js:233-235 | the first registration for the activity, or -1 exactly when there is none |
| Users.Register | backend/models/User.js:204-217 | refused iff already registered for the activity; otherwise appends one registered entry, so the count rises by one and the checked-in count is kept |
| Users.CheckIn | backend/models/User.js:227-243 | not registered iff no registration is for the activity; already checked in iff the first one is checked in; succeeds iff it exists and is not checked in, and then only that registration becomes checked in, so the checked-in count rises by one |
| Users.UserDoc.AddPoints | backend/models/User.js:158-174 | on any loaded document: succeeds iff the hook's output validates (for a stored document, iff the balance stays non-negative or the user is an administrator, and the description is non-empty), and otherwise changes nothing; on success the document is stored, the profile and balance are the hook's output (an administrator's student fields stripped and balance reset to 0), one earn entry is appended, the earned total rises by the amount, and for a student the balance change equals the change of earned minus redeemed |
| Users.UserDoc.DeductPoints | backend/models/User.js:177-201 | on any loaded document: insufficient balance iff the balance is below the amount; otherwise succeeds iff the hook's output validates, and changes nothing on failure; on success the document is stored, the profile and balance are the hook's output, one redeem entry is appended, the redeemed total rises by its magnitude, and for a student deducting a non-negative amount the balance change equals the change of earned minus redeemed |
| Users.UserDoc.RegisterActivity | backend/models/User.js:204-224 | on any loaded document: refused as `Users.Register` refuses; otherwise succeeds iff the hook's output validates; on success the registration list is that of `Users.Register` and the profile and balance the hook's output; for a stored document exactly the result of `Users.Register` |
| Users.UserDoc.CheckInActivity | backend/models/User.js:227-246 | on any loaded document: refused as `Users.CheckIn` refuses; otherwise succeeds iff the hook's output validates; on success the registration list is that of `Users.CheckIn`, the last-activity time is set and the profile and balance are the hook's output; for a stored document exactly the result of `Users.CheckIn` |
| Users.UserDoc.GetPointsHistory | backend/models/User.js:255-262 | on any loaded document: sorts the history newest first in place, as a permutation, and returns its first `limit` entries (10 by default); whether the document is as a save leaves it does not change |
| Users.DescribedIsPermutationInvariant | backend/models/User.js:255-262 | reordering a history keeps whether every entry has its required description |
| Users.UserDoc.GetActivitiesHistory | backend/models/User.js:265-275 | on any loaded document: with a status filter, the matching registrations newest first and nothing changes; without one, the registrations sorted newest first in place |
| Users.StudentBalanceTracksHistory | backend/models/User.js:158-200 | for a student each balance change equals the earned-minus-redeemed change of the history |
| Users.AdminAddBreaksTracking | backend/models/User.js:310-319 | for an administrator, whatever the balance, an add of a positive amount leaves the balance at 0 while the earned total rises by the amount |
| Formats.ValidStudentId | frontend/src/pages/Register.js:43-46 | exactly nine digits starting `202` |
| Formats.ValidPhone | frontend/src/pages/Register.js:53-56 | exactly eleven digits, `1` then a digit from 3 to 9 |
| Formats.ValidPassword | frontend/src/pages/Register.js:38-41 | at least six characters from the allowed set, with a lower-case letter, an upper-case letter, a digit and a symbol |
| Formats.LookaheadOverPasswordChars | frontend/src/pages/Register.js:39 | a lookahead over an allowed-characters string holds iff some character is in the class |
| Formats.EmailMatchesPattern | frontend/src/pages/Register.js:48-51 | the structural e-mail definition agrees with the pattern in both directions |
| Formats.ValidEmail | frontend/src/pages/Register.js:48-51 | a non-empty local part before the first at sign and a dotted domain after it, with no blank or second at sign |
| Formats.EmailHasOneAt | frontend/src/pages/Register.js:48-51 | a valid e-mail has exactly one `@` |
| Accounts.ParseRole | backend/models/User.js:76-80 | exactly `student` and `admin` are roles |
| Accounts.SaveNew | backend/routes/auth.js:136-138 | a saved user passes validation with the parsed role and the body's fields; an unknown role fails the save |
| Accounts.RegisterAccountAsWritten | backend/routes/auth.js:52-138 | as written: missing username, password, phone or e-mail fails first |
| Accounts.RegisterWithoutRoleFails | backend/routes/auth.js:64-134 | as written: a registration without a role never succeeds |
| Accounts.RegisterAccount | backend/routes/auth.js:52-138 | as intended: each refusal holds iff the checks before it pass and its own fails, in the order missing fields, student fields, uniqueness, e-mail format, phone format; success iff all pass and the save accepts the role and a student's number; a created user carries the body's fields, a student the student fields, an administrator none |
| Accounts.RegisterWithoutRoleIsStudent | backend/routes/auth.js:123-134 | as intended: a complete, valid, unused registration without a role creates a student |
| Accounts.RegisterAgreesWhenRoleGiven | backend/routes/auth.js:64-134 | when a role is sent, the intended and the written registration agree |
| Accounts.LoginIndex | backend/routes/auth.js:179-185 | the first user whose username, e-mail or student id is the identifier, or -1 exactly when none |
| Accounts.Login | backend/routes/auth.js:171-200 | missing credentials iff one is falsy; wrong credentials iff no user is found or the password does not match; disabled iff the found user matches but is inactive; success, with the first matching user, iff the found user matches and is active |
| Accounts.DisabledNeverLogsIn | backend/routes/auth.js:194-200 | no disabled user ever logs in |
| Accounts.SetIfTruthy | backend/routes/auth.js:583-589 | sets the key exactly when the value is truthy |
| Accounts.ProfilePatch | backend/routes/auth.js:347-370 | holds e-mail and phone when truthy, class and college only for a student, the avatar when uploaded, and never username or student id |
| Accounts.AdminPatch | backend/routes/auth.js:582-589 | holds each of the six fields exactly when it is truthy, with its value |
| Accounts.ApplyPatch | backend/routes/auth.js:591-595 | each patched field takes the patch's value, every other field and the role are kept |
| Accounts.Accounts.RegisterUser | backend/routes/auth.js:39-150 | the collection gains exactly the user `RegisterAccount` builds, or is unchanged on failure |
| Accounts.Accounts.UpdateProfile | backend/routes/auth.js:290-377 | each refusal iff the checks before it pass and its own fails, in the order e-mail format, phone format, lookup, e-mail uniqueness; success iff all pass; a failure changes nothing; success applies the profile patch to that user only and keeps username and student id |
| Accounts.Accounts.AdminEdit | backend/routes/auth.js:530-595 | each refusal iff the checks before it pass and its own fails, in the order lookup, e-mail format, phone format, e-mail uniqueness, student-number uniqueness, the save's number format and username index; success iff all pass; a failure changes nothing; success applies the administrator patch to that user only |
| Accounts.AdminEditCanGiveAdminStudentNumber | backend/routes/auth.js:591-595 | an administrator edit can give an administrator a student id |
| RegisterPage.Set | frontend/src/pages/Register.js:58-63 | the field gets the value and every other field is kept |
| RegisterPage.ChangeWarning | frontend/src/pages/Register.js:66-90 | only the four validated fields warn; the password, e-mail and phone warnings appear iff the typed value is invalid, the student-id warning iff a student types an invalid id |
| RegisterPage.AdminSubmission | frontend/src/pages/Register.js:152-160 | an administrator submits only username, password, e-mail, phone, avatar and the `admin` role |
| RegisterPage.StudentSubmission | frontend/src/pages/Register.js:174-180 | a student submits exactly the truthy fields, followed by the `student` role |
| RegisterPage.SubmitGuard | frontend/src/pages/Register.js:127-172 | each message iff the checks before it pass and its own fails, in the order confirmation, password, e-mail, phone, then for a student the id and the class and college; no message iff every check passes |
| RegisterPage.RoleChangeForcesRetype | frontend/src/pages/Register.js:108-130 | after a role change submission fails on password mismatch until the confirmation is typed again |
| RegisterPage.RoleResetKeeps | frontend/src/pages/Register.js:112-121 | a role change keeps username, password, phone, e-mail and avatar |
| RegisterPage.RoleResetClears | frontend/src/pages/Register.js:118-120 | a role change clears student id, class and college |
| RegisterPage.RoleResetDropsConfirmation | frontend/src/pages/Register.js:112-121 | a role change drops the password confirmation |
| RegisterPage.FindFilter | frontend/src/pages/Register.js:175-179 | filtering out falsy fields keeps every truthy field's value |
| RegisterPage.FalsyFailsChecks | frontend/src/pages/Register.js:133-144 | an empty, undefined or null field fails every validator |
| RegisterPage.UndefinedFailsChecks | frontend/src/pages/Register.js:133-144 | the text `undefined` fails all four validators |
| RegisterPage.NullFailsChecks | frontend/src/pages/Register.js:133-144 | the text `null` fails all four validators |
| RegisterPage.PassedGuardFillsStudentFields | frontend/src/pages/Register.js:127-172 | a student form that passes the guard has every required field filled |
| RegisterPage.StudentSubmissionCarries | frontend/src/pages/Register.js:174-180 | every truthy field reaches the submission with its value |
| RegisterPage.CollectTruthy | frontend/src/pages/Register.js:175-179 | the loop collects exactly the truthy fields in order |
| RegisterPage.RegisterForm.constructor | frontend/src/pages/Register.js:20-31 | the page starts as a student with the empty form and no error |
| RegisterPage.RegisterForm.HandleChange | frontend/src/pages/Register.js:58-91 | the field takes the typed value and the error becomes that field's warning |
| RegisterPage.RegisterForm.HandleAvatarChange | frontend/src/pages/Register.js:93-106 | no file changes nothing; a file over the size limit only sets the error; otherwise the avatar is set |
| RegisterPage.RegisterForm.HandleRoleChange | frontend/src/pages/Register.js:108-122 | the role becomes the selection, the form is reset for it and the error cleared |
| RegisterPage.RegisterForm.HandleSubmit | frontend/src/pages/Register.js:124-180 | the result is the guard's verdict or the submission; the error shows the verdict; the form is unchanged |
| Sequences.FirstIndex | backend/controllers/activityController.js:379-381 | the first index satisfying the predicate, or -1 exactly when none does |
| Sequences.RemoveAt | backend/controllers/activityController.js:388 | removing one element keeps the others in order, as a multiset minus that element |
| Sequences.SortDesc | backend/models/User.js:259-260 | a permutation of the input, sorted by descending key |
| Sequences.SliceFromStart | backend/models/User.js:261 | a prefix of the input with the length of JavaScript `slice(0, n)`, negative `n` included |
| Sequences.Filter | backend/models/User.js:268-272 | keeps exactly the elements that satisfy the predicate, and never more elements than the input |

## Left out

- **HTTP layer.** Express wiring, CORS, logging, the error handler and response shapes are not modelled. Each endpoint returns a `Result` whose error names the refusal.
  - Handlers that `return new AppError(...)` without passing it on are modelled as failures that change nothing.
- **Authentication.**
  - Verifying the JWT in `protect` becomes a parameter: the role of the resolved user, or none.
  - bcrypt comparison becomes the `passwordMatches` parameter of `Accounts.Login`.
  - Password hashing on save and `lastLoginAt` are not modelled.
- **Files.** The file system and multer are not modelled: file deletion, disk storage, size and type filters, and avatar cleanup. An uploaded file is its stored name.
- **Time.** Timestamps are abstract integers passed in by the caller.
- **Listing title match.** The case-insensitive regular-expression title match is a predicate parameter of the listing.
- **Persistence.**
  - populate is not modelled; documents hold ids.
  - Database-side sort, skip and limit are modelled by their arithmetic.
  - Aggregate statistics are a fold over a scan.
- **Scan order.** The order in which the database returns the collection is unspecified; the two lines below follow from it.
- Listing.ListActivities: states the listing of some scan of the store, not of a fixed order.
- Listing.ActivityStats: states the statistics of some scan of the store, not of a fixed order.
- **Sequential model.** Concurrent requests and the read-then-save races in sign-up and exchange are not modelled. Nor is a persistence failure between two writes.
- **Organizer coercion.** Coercion of the organizer path on update calls an unimported function. The supplied value is kept as supplied.
- **Activity fields.** Tags and `updatedAt` are not part of the activity model. The `isParticipant` flag of `getActivity` is not modelled.
- **Records survive deletion.** Deleting an activity leaves its participant records, as the code does. The store invariant therefore only speaks of records of activities that exist.
- **Ledger records.** The points-record collection is an abstract append of records. Its model file `backend/models/PointsRecord.js` actually registers a point-rule schema, whose required `ruleName`, `activityType`, `basePoints`, `bonusPoints` and `createdBy` would refuse the `create` calls of the exchange and of completion. The model assumes those appends succeed, so it does not capture that the exchange would fail after the balance and the stock were already saved, or that completion would stop after crediting the first user. `Points.js` is unused.
- **Point rules.** Point-rule management is a thin database wrapper and is not modelled. Completion takes the rule values as a map.
- **User document extras.** Its `registerActivity` rebuilds the registration list with a map. The model appends to the list instead, with the same resulting contents.
  - `updateLastActivity` and `comparePassword` are not modelled.
- **Account routes not modelled.** The `/me`, `/students`, user deletion and change-password routes are read or delete wrappers.
  - E-mail lower-casing and trimming by the schema are not modelled.
- **Registration page.** React rendering, loading flags, alerts, navigation and the avatar preview are not modelled. The submitted FormData is a list of entries, and values are stringified as text.
- Sequences.Filter: states which elements are kept but not their order or multiplicities. The multiset form is proved where it is needed, in `Ledger.History`.
- Activities.ActivityStore.CompleteAsWritten: states the balances and the zero points of the appended records, not the full new state. That state is the one `CompleteWith` states, for an award of 0.
- Activities.ActivityStore.Complete: states each user's balance change but not the appended records or the absentee sweep. It calls `CompleteWith`, whose contract states those.
- Activities.ActivityStore.Participants: states the order by registration time, not which of two records with the same time comes first.
- Lifecycle.ApplyUpdate: the array paths `participants` and `images`, and the automatic paths `_id`, `__v`, `createdAt` and `updatedAt`, of an update are accepted unchecked and not set. The source would replace those arrays on an activity that is not ongoing; the model keeps them.
- Lifecycle.Assign: sets the scalar paths only. It does not set an array path such as `participants` or `images`, or an automatic path such as `_id`, `__v`, `createdAt` or `updatedAt`, that the data names.
- Lifecycle.NewActivity: a body's `images` array is not copied, so a created activity has no images. Its participants are empty, as the controller forces.
- Activities.ActivityStore.Create: stores the activity `Lifecycle.NewActivity` builds, so a body's `images` are not stored.
- Activities.ActivityStore.Update: keeps the participant list and the images of the activity, as `Lifecycle.ApplyUpdate` does. Its preservation of the store invariant relies on that. An update that replaces the participant list of a draft or finished activity is not modelled.
- Activities.AwardEach: credits every listed user that exists. It does not model the save's pre-validate hook, which resets an administrator's balance to 0, or a failing save that would end the loop early. The balance directory holds no roles.
- Activities.ActivityStore.CompleteWith: credits through `Activities.AwardEach`, so it raises an administrator participant's balance, which the save's pre-validate hook would reset to 0.
- Users.UserDoc.GetPointsHistory: states that the history is sorted newest first and is a permutation of the old one. It does not state that entries with the same date keep their order, as JavaScript's stable sort does.
- **Schema casting.** A body value arrives already cast to the type of its path. The casting of strings to numbers, dates and ids is not modelled, and neither is the trimming of `trim` paths such as the activity title.

## Findings

| source | as written | input that shows it | evidently intended | confidence | as-written member | corrected member |
|---|---|---|---|---|---|---|
| backend/controllers/activityController.js:440 | check-in sets the embedded entry's status to `checkedIn`, which is not one of `registered`, `checked-in`, `absent`, so `save` fails validation | any enrolled caller of an ongoing activity who submits the correct code | the entry becomes `checked-in`, as the mirror record does | high, not executed | Activities.ActivityStore.CheckInAsWritten | Activities.ActivityStore.CheckIn |
| backend/controllers/activityController.js:464 | the guard tests `req.user.isAdmin`, a field no user document has, so every caller is refused | an administrator setting the code of an existing activity | administrators may set the code | high, not executed | Activities.ActivityStore.SetCheckInCodeAsWritten | Activities.ActivityStore.SetCheckInCode |
| backend/controllers/activityController.js:263 | the award is `activity.points.value \|\| 0`; the reference is not populated and has no `value`, so it is 0 | completing an ongoing activity with a checked-in participant and a rule worth 5 points | the checked-in participant is credited the rule's points | high, not executed | Activities.ActivityStore.CompleteAsWritten | Activities.ActivityStore.Complete |
| backend/routes/auth.js:123-134 | the student fields are attached only when `role === 'student'` was sent, while the schema defaults the role to student and requires those fields, so a registration without a role always fails | a complete, valid student registration that omits the role | the default role gets the student fields | medium, not executed | Accounts.RegisterWithoutRoleFails | Accounts.RegisterWithoutRoleIsStudent |
