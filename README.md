# Job application tracker: a verified model of its core

This project models the data handling at the heart of a job application
tracker. Signed-in users record job applications: company, title, location,
salary range, dates and five progress statuses. They then browse them in
three views: a list, an analytics panel and an interview calendar. The model
covers five pieces.

- **The `/api/jobs` handlers** (`routes.dfy`, module `Routes`). The shared
  table is a class `JobTable` with a sequence of rows and the serial id
  counter. List, create, update and delete are methods on it. Each handler
  refuses a caller without an `x-user-id` header with 401 "Not authenticated".
  - List answers the caller's rows, newest `updatedAt` first.
  - Create inserts a row owned by the caller, whatever owner the body named.
  - Update patches the row with the id and stamps `updatedAt`.
  - Delete removes the row and answers 200 either way.
  - Neither update nor delete compares the row's owner with the caller.
- **The analytics panel** (`analytics.dfy`). It covers the distinct options of
  each filter dimension and the case-insensitive substring search. It also
  covers the three status counts of the chart, the per-option counts of the
  results list, and the reset of the search term when the dimension changes.
- **The interview calendar** (`calendar.dfy`). The reduce that files every
  upcoming interview under its day's key is a method with a loop over a map.
  It is proved to build exactly the grouping given by a reference function.
  The file also has the selected-day lookup and the day-highlighting
  predicate.
- **The job form** (`job_form.dfy`). It covers the validation schema, the
  default values for adding and for editing, and the PUT/POST choice. It also
  covers the date clean-up of the payload, the refusal without a signed-in
  user, and the form state that a successful create resets.
- **The job-description analysis** (`ai_service.dfy`). It covers the
  configuration and length checks made before the model is asked, the check
  for an empty reply, and the three-way rewrite of error messages.

Shared pieces:
- `schema.dfy` holds the `Job` row.
- `strings.dfy` models the JavaScript string operations the code uses:
  `includes`, `toLowerCase`, `trim`, `split('T')[0]` and integer `toString`.
- `seqs.dfy` models `filter` and `[...new Set(xs)]`.
- `wrappers.dfy` holds `Option` and `Result`.

The model follows these choices:
- Instants are integers.
- The clock (`now`) is a parameter. So are the rendering of an instant as an
  ISO string and the `yyyy-MM-dd` day key.
- The row's `userId` is the header string the server stores.
- The row has the `interviewDate` that the form and calendar use.
- Both of these depart on purpose from the table definition in db/schema.ts. There `userId` is an integer column referencing `users.id` (db/schema.ts:13), and there is no `interviewDate` column (db/schema.ts:11-28), so the program as written never stores one. `Inserted` and `Patched` storing `interviewDate`, and the calendar reading it back, go beyond the code as written.

## Model

| member | source | states |
|---|---|---|
| Routes.Caller | server/routes.ts:10-13 | a caller is accepted exactly when the `x-user-id` header is present and non-empty, and is that header |
| Routes.JobTable.constructor | db/schema.ts:11-28 | the table starts empty with the serial counter at 1, and the key invariant holds |
| Routes.JobTable.List | server/routes.ts:9-21 | no caller gives 401 "Not authenticated"; otherwise the answer is newest-first and is a permutation of the caller's rows; a row is listed iff the caller owns it |
| Routes.JobTable.Create | server/routes.ts:23-35 | no caller gives 401 and an unchanged table; otherwise exactly one row is appended; it is the row returned; its owner is the caller even if the body named another; its id is fresh and the counter advances |
| Routes.JobTable.Update | server/routes.ts:37-49 | no caller gives 401 and an unchanged table; otherwise the rows become the reference update, the answer is the first row with the id (none if absent), and the owner is never compared |
| Routes.JobTable.Delete | server/routes.ts:51-59 | no caller gives 401 and an unchanged table; otherwise the answer is 200 and exactly the rows with other ids remain, in order, whoever owns the deleted row |
| Routes.Inserted | server/routes.ts:29-32 | the inserted row has the serial id, the caller as owner whatever the body's `userId`, both timestamps now, and every other column from the body |
| Routes.Patched | server/routes.ts:43-44 | the patched row keeps its id; every column the body names, owner and `createdAt` included, takes the body's value, and every column it leaves out keeps the row's; `updatedAt` is now even when the body supplied one |
| Routes.OwnedBy | server/routes.ts:15-16 | a row is kept iff its `userId` is the caller's; the result is an order-preserving subsequence |
| Routes.SortNewestFirst | server/routes.ts:17 | the result is in non-increasing `updatedAt` order and is a permutation of its input |
| Routes.InsertNewest | server/routes.ts:17 | inserting into a newest-first list keeps it newest-first and adds exactly that row |
| Routes.UpdateRows | server/routes.ts:43-45 | rows with another id are unchanged; rows with the id are patched; the length is kept |
| Routes.FirstWithId | server/routes.ts:46-48 | the answer is a row of the table with that id, and there is none iff no row has the id |
| Routes.WithoutId | server/routes.ts:57 | a row survives iff its id differs, and the order is kept |
| Routes.UpdateAnswer | server/routes.ts:43-48 | the update answers with the patched row exactly when a row had the id, and with nothing otherwise |
| Routes.UpdateMissingIsNoop | server/routes.ts:43-48 | updating an id no row has leaves the table unchanged |
| Routes.UpdateKeepsIds | server/routes.ts:43-46 | an update keeps every id, so ids stay unique |
| Routes.UpdateIsListed | server/routes.ts:15-18 | after an update, a patched row the caller owns shows in the caller's list with the new values |
| Routes.WithoutIdKeepsDistinct | server/routes.ts:57 | a delete keeps ids unique |
| Routes.DeleteCount | server/routes.ts:57-58 | with unique ids, deleting an existing id removes exactly one row, and deleting an absent id removes none |
| Routes.DeletedIsNotListed | server/routes.ts:15-16 | after a delete no list contains the id, and every other owned row is still listed |
| Analytics.LocationLabel | client/src/components/job-analytics.tsx:35 | a missing or empty location reads "Not Specified"; any other location reads as itself |
| Analytics.FilterOptions | client/src/components/job-analytics.tsx:31-38 | the options have no duplicates, and a value is an option iff some job has it |
| Analytics.MatchingJobs | client/src/components/job-analytics.tsx:44-52 | a job is kept iff its lower-cased field includes the lower-cased term; the kept jobs are an order-preserving subsequence |
| Analytics.FilteredJobs | client/src/components/job-analytics.tsx:41-53 | an empty term keeps the list as is; otherwise the search test decides; order is kept |
| Analytics.EmptyTermMatchesAll | client/src/components/job-analytics.tsx:42 | the empty-term shortcut agrees with the search test, since every value includes "" |
| Analytics.FilteredJobsMatch | client/src/components/job-analytics.tsx:41-53 | whatever the term, a job is shown iff it passes the search test |
| Analytics.WithStatus | client/src/components/job-analytics.tsx:57-65 | a job is counted iff its `applicationStatus` is the given one |
| Analytics.OtherStatuses | client/src/components/job-analytics.tsx:57-66 | the jobs whose status is none of the three charted ones |
| Analytics.StatusCounts | client/src/components/job-analytics.tsx:56-73 | three slices, Completed, Rejected and In Progress in that order, each counting the shown jobs with that status |
| Analytics.StatusPartition | client/src/components/job-analytics.tsx:57-66 | the three counts and the other statuses partition the shown jobs |
| Analytics.StatusCountsBound | client/src/components/job-analytics.tsx:56-73 | the three counts sum to the shown jobs minus those with another status, so never more than the shown jobs |
| Analytics.ShownOptions | client/src/components/job-analytics.tsx:151-154 | the listed options have no duplicates and are exactly the options passing the search test |
| Analytics.SumOptionCountsCovers | client/src/components/job-analytics.tsx:155-164 | over duplicate-free options that cover every shown job's value, the per-option counts add up to the number of shown jobs |
| Analytics.ShownCountsCoverFiltered | client/src/components/job-analytics.tsx:151-164 | the counts beside the listed options add up to the number of shown jobs |
| Analytics.InitialViewShowsAll | client/src/components/job-analytics.tsx:26-27 | the panel opens on the role dimension with an empty term, so every job is shown |
| Analytics.SelectFilterType | client/src/components/job-analytics.tsx:85-88 | choosing a dimension sets it and clears the term, so every job is shown |
| Analytics.TypeSearchTerm | client/src/components/job-analytics.tsx:102 | typing keeps the dimension and sets the term; the view then shows exactly the jobs passing the search test |
| Analytics.OptionCount | client/src/components/job-analytics.tsx:155-164 | an option's count is at most the shown jobs, and is positive iff some shown job has that option |
| Analytics.SameUpToCaseMatches | client/src/components/job-analytics.tsx:51 | a term equal to a job's value up to ASCII case finds that job |
| Analytics.SearchIgnoresTermCase | client/src/components/job-analytics.tsx:47-51 | lower-casing the term first changes no job's search result |
| Analytics.SelectFilterTypeShowsAll | client/src/components/job-analytics.tsx:85-88 | choosing a dimension clears the term, so every job is shown and every option listed |
| Calendar.UpcomingJobs | client/src/components/job-calendar.tsx:53 | a job counts iff it has an interview date strictly after now |
| Calendar.EventsOn | client/src/components/job-calendar.tsx:53-57 | a day's events are "Interview" events of upcoming jobs whose interview falls on that day |
| Calendar.EventDates | client/src/components/job-calendar.tsx:49-61 | the reduce files every upcoming job's event under its day; a key is present iff it has events, and then holds them; the total number of events equals the number of upcoming jobs |
| Calendar.AddEventStep | client/src/components/job-calendar.tsx:53-57 | one step of the reduce keeps the grouping and the count |
| Calendar.EventsOnNonEmpty | client/src/components/job-calendar.tsx:53-57 | a day has events iff some job has an upcoming interview on that day |
| Calendar.EventsOnFollowsJobs | client/src/components/job-calendar.tsx:56-57 | a day's events are one per upcoming job on that day, in the order of the jobs |
| Calendar.SelectedDayEvents | client/src/components/job-calendar.tsx:63-64 | a selected day with an entry gives its stored list, and one without gives nothing; with no day selected the key is the empty string |
| Calendar.HasEvent | client/src/components/job-calendar.tsx:66-70 | a highlighted day's selection shows its stored list; a day not highlighted shows nothing |
| Calendar.SelectedDayEventsAre | client/src/components/job-calendar.tsx:63-64 | the selected day's list is that day's events; with no day selected it is empty |
| Calendar.HasEventIff | client/src/components/job-calendar.tsx:66-70 | a day is highlighted iff some job has an upcoming interview on it |
| JobForm.ParseStatus | client/src/components/job-form.tsx:39 | only the four status names are accepted, each as itself |
| JobForm.StatusRoundTrip | client/src/components/job-form.tsx:39 | every status reads back as itself, and the accepted strings are exactly the four names |
| JobForm.NonEmptyIssues | client/src/components/job-form.tsx:42-43 | a required name is accepted iff it is a non-empty string |
| JobForm.StatusOf | client/src/components/job-form.tsx:50-54 | a missing status defaults to "Not Started", null is refused, and any text must be one of the four names |
| JobForm.Validate | client/src/components/job-form.tsx:41-56 | the schema accepts iff both names are non-empty, the current date is a string and every status is valid or missing; on success the data carries the fields and the resolved statuses; on failure it carries every issue |
| JobForm.MissingNameRefused | client/src/components/job-form.tsx:42-43 | a missing or empty company name, then job title, is refused with the first issue on that field |
| JobForm.NewFormDefaults | client/src/components/job-form.tsx:92-105 | the empty form has today's date, every status "Not Started", empty text boxes and no names or dates |
| JobForm.EditDefaults | client/src/components/job-form.tsx:83-91 | the edit form takes the row's names and all five statuses; a present location or notes is kept and a null one becomes ""; a salary becomes text that reads back as the number, and a null one becomes ""; dates are cut to their day |
| JobForm.NewFormNeedsNames | client/src/components/job-form.tsx:92-105 | the empty form is refused for exactly the two missing names; filled in, it is accepted with every status "Not Started" |
| JobForm.EditFormAccepted | client/src/components/job-form.tsx:83-91 | a row with non-empty names and valid statuses opens in a form the schema accepts with the row's values |
| JobForm.EditFormRefusesUnknownStatus | client/src/components/job-form.tsx:84 | a stored status outside the four names makes the edit form refused on that field |
| JobForm.Endpoint | client/src/components/job-form.tsx:144-145 | editing sends PUT to `/api/jobs/{id}`; adding sends POST to `/api/jobs` |
| JobForm.EndpointNamesRow | client/src/components/job-form.tsx:144 | the id in the edit url reads back as the row's id |
| JobForm.CleanDate | client/src/components/job-form.tsx:149-154 | a missing, null or empty date becomes null; a date that does not parse throws "Invalid time value"; any other is cut to its day |
| JobForm.CleanDateCutOnce | client/src/components/job-form.tsx:149-154 | a cleaned date has no 'T', so cutting it again changes nothing |
| JobForm.CleanData | client/src/components/job-form.tsx:147-155 | the payload is the data with both dates cleaned and every other field unchanged |
| JobForm.BuildRequest | client/src/components/job-form.tsx:141-155 | without a signed-in user the mutation fails with "Not authenticated" before any request; with a user, a date that does not parse fails with the clean-up's own message ("Invalid time value"); otherwise the request carries the user, the chosen endpoint and the cleaned data |
| JobForm.ResponseError | client/src/components/job-form.tsx:166-168 | the error message is never empty: it is the server's text when there is one, and otherwise a message naming the update or the create |
| JobForm.JobFormState.constructor | client/src/components/job-form.tsx:81-106 | a form opens with the edit defaults for a row, or the empty form |
| JobForm.JobFormState.Change | client/src/components/job-form.tsx:227-510 | typing replaces the form's values |
| JobForm.JobFormState.Submit | client/src/components/job-form.tsx:140-155 | submit reports the schema's issues iff the values are refused; an accepted form is sent as the request built from the validated data, or throws that build's message; with a user and dates that parse it is sent; with no user it throws "Not authenticated"; a sent request uses PUT iff editing, with the typed names |
| JobForm.JobFormState.OnSuccess | client/src/components/job-form.tsx:179-194 | after a successful create the form is reset to the empty form; an edit form keeps its values |
| AiService.Guard | client/src/lib/ai-service.ts:29-35 | without a client the configuration message is thrown, before the length check; otherwise a description passes iff it is present with a `length` (UTF-16 code units) of at least 50 once trimmed; a failure throws the length message |
| AiService.RewriteError | client/src/lib/ai-service.ts:76-81 | a message naming the API key becomes the configuration text, then one asking for a longer description becomes the length text, and any other gets the failure prefix |
| AiService.Analyze | client/src/lib/ai-service.ts:25-84 | a failed check or a failed request gives the rewritten message; an empty or absent reply gives the rewritten empty-reply message; a non-empty reply gives what it parses to, or the rewritten parse error; a result is returned only after both checks pass and a non-empty reply parses to it |
| AiService.ConfigMessageNamesKey | client/src/lib/ai-service.ts:30 | both configuration messages name the API key |
| AiService.ShortMessageAsksForMore | client/src/lib/ai-service.ts:34 | both length messages ask for a longer description and do not name the API key |
| AiService.UnconfiguredFails | client/src/lib/ai-service.ts:29-31 | without a client the analysis fails with the configuration text whatever the description, reply or parser |
| AiService.ShortDescriptionFails | client/src/lib/ai-service.ts:33-35 | with a client, a missing or short description fails with the length text |
| AiService.GuardDecides | client/src/lib/ai-service.ts:29-35 | once a check fails, neither the reply nor the parser changes the outcome |
| AiService.MinimumLengthPasses | client/src/lib/ai-service.ts:33 | a trimmed length of exactly 50 passes and one of 49 fails with the length message |
| AiService.BasicDescriptionLength | client/src/lib/ai-service.ts:33 | for a description with no character above U+FFFF, the check passes iff the trimmed text has at least 50 characters |
| Strings.Utf16LengthBasic | client/src/lib/ai-service.ts:33 | a string with no character above U+FFFF has as many code units as characters |
| AiService.AstralDescriptionPasses | client/src/lib/ai-service.ts:33 | twenty-five characters above U+FFFF have a length of 50 and pass |
| AiService.PaddingDoesNotCount | client/src/lib/ai-service.ts:33 | whitespace around the description does not count toward its length |
| AiService.EmptyReplyOmitsKey | client/src/lib/ai-service.ts:66 | the empty-reply message does not name the API key |
| AiService.EmptyReplyOmitsDescription | client/src/lib/ai-service.ts:66 | the empty-reply message does not ask for a longer description |
| AiService.EmptyReplyFails | client/src/lib/ai-service.ts:65-67 | an empty reply fails with the prefixed "No response content" message |
| AiService.ApiKeyTestFirst | client/src/lib/ai-service.ts:76-78 | a message naming both the API key and a longer description is reported as a configuration problem |
| Strings.ContainsIff | client/src/components/job-analytics.tsx:51 | `includes` holds iff the string occurs at some position |
| Strings.ToLower | client/src/components/job-analytics.tsx:51 | lower-casing keeps the length and maps each character in place: an ASCII capital becomes the small letter at the same place in the alphabet, every other character is kept |
| Strings.ToLowerIdempotent | client/src/components/job-analytics.tsx:51 | lower-casing twice equals lower-casing once |
| Strings.Trim | client/src/lib/ai-service.ts:33 | the trimmed string is the slice of the input that starts right after its leading whitespace, with only whitespace cut from either side, and it starts and ends with a non-whitespace character |
| Strings.Utf16Length | client/src/lib/ai-service.ts:33 | `length` counts between one and two code units per character: one for a character up to U+FFFF, two above it |
| Strings.Utf16LengthConcat | client/src/lib/ai-service.ts:33 | the code units of a concatenation are the sum of those of its parts |
| Strings.Utf16LengthMixed | client/src/lib/ai-service.ts:33 | "a" followed by U+1F600 has a `length` of 3 |
| Strings.Utf16LengthAstral | client/src/lib/ai-service.ts:33 | a string of characters above U+FFFF has twice as many code units as characters |
| Strings.TrimPadding | client/src/lib/ai-service.ts:33 | trimming ignores whitespace added at either end |
| Strings.BeforeT | client/src/components/job-form.tsx:150 | the result is the longest prefix without a 'T' |
| Strings.BeforeTIdempotent | client/src/components/job-form.tsx:149-154 | cutting at the first 'T' twice equals cutting once |
| Strings.IntToStringRoundTrip | client/src/components/job-form.tsx:88-89 | the decimal text of a number reads back as that number |
| Seqs.Filter | client/src/components/job-analytics.tsx:44 | a filter keeps exactly the elements passing the test and never grows |
| Seqs.FilterIsSubsequence | client/src/components/job-analytics.tsx:44 | a filter keeps the order of the input |
| Seqs.Distinct | client/src/components/job-analytics.tsx:33-35 | the de-duplicated list has no duplicates and the same elements |

## Left out

- The HTTP and database plumbing is not modelled: Express, Drizzle, `res.json` and the server start-up. The table is a class.
- The `:id` path parameter is an integer argument, so `parseInt` of the path is not modelled.
- Routes.JobTable.Update: does not model a body that names `id`, which would change the row's key. The model keeps the key, because the rows' unique ids are an invariant of the table class.
- Create takes `createdAt` and `updatedAt` as the given `now`. Values the body supplies for them are not modelled.
- Routes.JobTable.Create: does not model a body that names `id`. The spread of the body (server/routes.ts:29-30) would store that id instead of the serial one, which can collide with an existing row, and the counter would not advance. The model always uses the serial id, so Create's promise of a fresh id does not hold for such a body.
- Routes.SortNewestFirst: rows with equal `updatedAt` come back in an order the database chooses. The model fixes one such order, and `List` promises only newest-first and the same rows.
- The clock and time zones are parameters: `new Date()`, `isFuture`, `toISOString` and `format(…, "yyyy-MM-dd")`.
- Strings.ToLower covers ASCII letters only, not the full Unicode case mapping of `toLowerCase`.
- The calendar before the jobs have loaded has no map. It behaves like an empty map: no events and no highlighted days. No member models it.
- The chat completion, its prompt and `JSON.parse` are parameters: the reply's outcome and a parser.
- The module-level client is a boolean `configured` parameter.
- Not modelled:
  - React rendering, hooks, toasts and the query cache, including `invalidateQueries` after a save.
  - The suggestion searches for companies and titles in the form, and `client/src/lib/api.ts`.
  - Firebase sign-in (`use-user.ts`) and the pages.
  - The display-only components: job list, job card and ATS analysis.
  - The recruiter search.
- The form's `onError` fallback text ("Failed to … add") is not modelled. Only the response-error text of the mutation is.
- No code computes a progress percentage, and the create handler stores dates as it receives them (server/routes.ts:29-32), so neither is modelled.
- Routes.JobTable.Create: does not model the database refusing the insert. A null `applicationDate` breaks its NOT NULL constraint (db/schema.ts:19), and an empty string in an integer salary column (db/schema.ts:17-18) is not an integer. The handler has no catch (server/routes.ts:29-34), so such a request fails outside the model. The model always answers Ok.
- Routes.JobTable.Update: does not model the database refusing the update, for the same column reasons (db/schema.ts:17-19, server/routes.ts:43-48). The model always answers Ok.
