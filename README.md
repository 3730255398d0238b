# A verified model of the portfolio site's core rules

The site is a Next.js portfolio with a GitHub panel, a course tracker with study
logs, dashboard memos, and two small interactive widgets. Under the rendering
and the network calls sit a few deterministic rules. This project models those
rules in Dafny and proves what the code promises about them:

- **GitHub summaries.**
  - The eight-day push histogram (`build8DaySparkline`). The code has three
    identical copies; all three are modelled by `GithubLib.Build8DaySparkline`.
  - The ranking of the latest repositories on the home page, the dashboard and
    the repositories page.
  - The dashboard's activity feed and its failure results.
  - `truncateText` and the date formatting.
- **The store behind the server actions.** Courses, study logs and dashboard
  memos live as maps from id to document in one `Store` class. The schemas'
  defaults, trim setters and `required` checks are applied. A logical clock
  stamps `createdAt` and `updatedAt` and names new documents. The
  `revalidatePath` calls are recorded in order.
- **Display and validation helpers.**
  - The language colour table and the course list's completed-last order.
  - The course-link test, the new-course form normalisation, and the
    security-snapshot labels.
- **Two state machines.**
  - The header's command overlay (`CommandBar`).
  - The About page console's numbered line buffer (`AboutConsole`).

Dates are split into a millisecond value and local calendar parts
(`Time.Instant`). Day differences are whole-day differences of the
`Date.UTC(y, m - 1, d)` day numbers (`Time.DaysFromCivil`). "Now" is always a
parameter. A fetch outcome is a parameter of the `Reply` type:
`Rejected | NotOk(status) | BadJson | Json(body)`. JavaScript's stable
`Array.prototype.sort` with a comparator `f(a) - f(b)` is the stable insertion
sort `Sorting.SortBy(s, f)`.

Points where the code behaves in a way a reader might not expect:
- **Repository ranking time.** The code ranks by `pushed_at || updated_at`, so
  `updated_at` counts only when `pushed_at` is falsy (`DashboardPage.RankTime`,
  `ReposPage.SortTime`).
- **Home page top three.** The home page ranks by `pushed_at` alone
  (`HomePage.LatestPush`).
- **Repository card date.** The card on the repositories page shows
  `pushed_at ?? updated_at`, while the page sorts by `pushed_at || updated_at`
  (`ReposPage.EmptyPushShowsDash`).
- **Repositories page order.** The page tells the reader its list is ordered by
  stars and forks, but the code orders it by time.

## Model

| member | source | states |
|---|---|---|
| Text.TrimStartSpec | src/app/dashboard/page.tsx:578 | what `trimStart` keeps is a suffix of the input, the dropped prefix is all white space, and the kept part does not start with white space |
| Text.TrimEndSpec | src/app/dashboard/page.tsx:578 | what `trimEnd` keeps is a prefix of the input, the dropped suffix is all white space, and the kept part does not end with white space |
| Text.Trim | src/components/AboutConsole.tsx:84 | `trim` never lengthens, and a non-empty result starts and ends with a non-space |
| Text.TrimEmptyIff | src/actions/dashboardMemoActions.ts:31 | trimming yields `''` exactly when the input is all white space |
| Text.TrimIdempotent | src/app/courses/new/page.tsx:11 | trimming an already trimmed string changes nothing, so the schema's second trim is harmless |
| Text.LowerChar | src/components/Header.tsx:170 | ASCII upper-case letters map to their lower-case letter and every other character is kept |
| Text.ToLower | src/components/Header.tsx:170 | `toLowerCase` keeps the length and folds each character independently |
| Text.ToLowerIdempotent | src/app/page.tsx:185 | lower-casing twice is lower-casing once |
| Text.TrimLower | src/components/AboutConsole.tsx:84 | `trim().toLowerCase()` is empty exactly when the input is all white space |
| Text.PrefixConcat | src/components/Courses.tsx:39 | a two-part prefix is the first part followed by the second part on the rest |
| Text.Contains | src/components/Header.tsx:172 | `includes` holds exactly when some window of the string equals the query |
| Text.NatToString | src/app/dashboard/page.tsx:475 | `String(n)` is a non-empty digit string without a leading zero, one digit exactly for `n < 10` |
| Text.DigitsValueOfNatToString | src/app/dashboard/page.tsx:475 | reading the decimal form back gives the number (round trip) |
| Text.NatToStringInjective | src/app/dashboard/page.tsx:475 | different numbers have different decimal forms |
| Text.IntToString | src/app/page.tsx:30 | `String(y)` is the digits, with a minus sign for a negative year |
| Text.Pad2 | src/app/page.tsx:31-34 | `padStart(2, '0')` gives two digits denoting the number below 100 and leaves larger numbers alone |
| Time.MarchFirstStep | src/libs/github.ts:96-98 | a March-to-February year has 366 days exactly when the next calendar year is a leap year |
| Time.DayNumberOfNextDate | src/libs/github.ts:96-98 | consecutive calendar dates have consecutive `Date.UTC` day numbers, so the day difference counts whole days |
| Time.EpochIsDayZero | src/libs/github.ts:96-98 | 1970-01-01 is day 0, as for `Date.UTC` |
| Time.NextDate | src/libs/github.ts:96-98 | the next calendar date is again a valid date |
| Time.Or | src/app/repos/page.tsx:89 | `a \|\| b` gives `a` when it is truthy (a non-empty string) and `b` otherwise; `OrCoalesceDiffer` contrasts it with `??` |
| Time.OrCoalesceDiffer | src/app/repos/page.tsx:159 | `a \|\| b` and `a ?? b` differ exactly when `a` is the empty string and `b` is not |
| Time.Coalesce | src/app/repos/page.tsx:159 | `a ?? b` gives way only to a missing or `null` field (the contrast with `\|\|` is `OrCoalesceDiffer`, its effect on the card `EmptyPushShowsDash`) |
| Time.GetTime | src/app/repos/page.tsx:89 | `new Date(x).getTime()` is a number exactly for `null` (0) and for a parsable string (its instant) |
| Time.SafeDate | src/app/dashboard/page.tsx:567-572 | `safeDate` is the denoted instant and falls back to `now` for missing, `null`, empty or unparsable values |
| Time.FormatPartsLayout | src/app/page.tsx:30-35 | a date with a four-digit year formats as 16 characters `YYYY-MM-DD HH:mm` whose five number fields read back as the date parts |
| Time.FormatDate | src/app/page.tsx:26-39 | the home page's `formatDate` is `—` for an invalid date and the layout otherwise, whose round trip is `FormatPartsLayout` |
| Time.FormatStamp | src/app/repos/page.tsx:24-38 | the repositories page's `formatDate` is `—` for missing, `null`, empty and unparsable values and the layout for a real instant (never `—` by `FormatPartsIsNotDash`) |
| Time.FormatPartsIsNotDash | src/app/page.tsx:72-74 | a formatted date can never be mistaken for the `—` placeholder |
| GithubLib.Slot | src/libs/github.ts:92-100 | an event is counted exactly when it is a `PushEvent` with a parsable timestamp 0 to 7 calendar days old, and then in bucket `7 - d` |
| GithubLib.CountIn | src/libs/github.ts:89-102 | a bucket counts at most all events |
| GithubLib.InWindow | src/libs/github.ts:91-102 | the number of counted events is at most the number of events |
| GithubLib.Histogram | src/libs/github.ts:89-102 | the histogram has eight buckets, bucket `k` counting the events whose slot is `k` |
| GithubLib.Build8DaySparkline | src/libs/github.ts:82-103 | the loop over the events fills the eight-slot array with exactly the histogram (the copies at src/app/dashboard/page.tsx:523-544 and src/app/page.tsx:160-181 have the same body) |
| GithubLib.HistogramAppend | src/libs/github.ts:96-100 | one more event adds one to its own bucket only, or changes nothing when it has no bucket (not a push, no or bad timestamp, future, eight or more days old) |
| GithubLib.HistogramOfNoEvents | src/libs/github.ts:89-91 | no events give eight zeros |
| GithubLib.HistogramSum | src/libs/github.ts:91-102 | the buckets add up to the number of push events in the window, which is at most the number of events |
| GithubLib.BucketOfDay | src/libs/github.ts:96-100 | bucket `7 - d` holds exactly the pushes of `d` days ago, so the last bucket holds today's |
| GithubLib.PushesOn | src/libs/github.ts:96-100 | the listed events are push events of that exact day |
| Models.Completed | src/actions/courseActions.ts:30 | `Boolean(completed)` is true exactly for a stored `true` |
| Models.TrimField | src/models/dashboardMemo.ts:26-29 | an optional string path is stored trimmed, and a missing one stays missing |
| Models.NewCourse | src/actions/courseActions.ts:74-80 | a created course has every text field trimmed, omitted ones `''` (schema defaults at src/models/course.ts:11-30), `completed` false and both stamps now |
| Models.ReplacedCourse | src/actions/courseActions.ts:100-110 | an update replaces all five text fields (omitted ones by `''`), keeps `completed` and `createdAt`, and moves `updatedAt` |
| Models.ToggledCourse | src/actions/courseActions.ts:125-126 | the toggle flips the completion state, leaves the flag defined, and changes nothing else but `updatedAt` |
| Models.ToggleCourseTwice | src/actions/courseActions.ts:125 | two toggles give back the original completion state |
| Models.ReplaceCourseIdempotent | src/actions/courseActions.ts:100-110 | updating twice with the same input is the same as updating once |
| Models.NewStudyLog | src/models/studyLog.ts:11-20 | a created log keeps its course and has title and content trimmed, both stamps now |
| Models.EditedStudyLog | src/actions/studyLogActions.ts:55 | an edit sets trimmed title and content and keeps the course and `createdAt` |
| Models.NewMemo | src/actions/dashboardMemoActions.ts:37-41 | a created memo has the trimmed title, the trimmed content or `''`, and is not done |
| Models.PatchedMemo | src/actions/dashboardMemoActions.ts:57-68 | a patch sets each supplied field trimmed and keeps the other field, the owner and the done flag |
| Models.PatchedMemoCompose | src/actions/dashboardMemoActions.ts:57-68 | two patches are one patch in which the later supplied fields win |
| Models.ToggledMemo | src/actions/dashboardMemoActions.ts:81-82 | the toggle flips `isDone` and changes nothing else but `updatedAt` |
| Store.MapCourse | src/actions/courseActions.ts:22-34 | `mapCourse` turns missing or `null` text fields into `''` and `completed` into a strict boolean, keeping the rest |
| Store.MapLog | src/actions/studyLogActions.ts:17-26 | `mapLog` passes the ids, title, content and stamps through |
| Store.CourseViews | src/actions/courseActions.ts:44 | `docs.map(mapCourse)`: one view per document, in order |
| Store.LogViews | src/actions/studyLogActions.ts:36 | `docs.map(mapLog)`: one view per document, in order |
| Store.OnceEach | src/actions/studyLogActions.ts:32-34 | entries with distinct ids occur at most once each |
| Store.SubIdsDistinct | src/actions/studyLogActions.ts:32-34 | entries drawn, at most as often, from a listing with distinct ids, each the stored document for its id, have distinct ids |
| Store.IdsCount | src/actions/dashboardMemoActions.ts:15-18 | a listing with distinct ids naming exactly a set of ids is as long as the set |
| Store.Entries | src/app/dashboard/page.tsx:384 | `find()` lists every document of the collection exactly once |
| Store.SortedEntries | src/actions/courseActions.ts:42 | `find().sort(...)` lists every document once, with distinct ids, ordered by the key |
| Store.SortedWhere | src/actions/studyLogActions.ts:32-34 | `find(filter).sort(...)` lists exactly the matching documents, each once (distinct ids, as many as there are matching ids), ordered by the key |
| Store.MatchingEntries | src/actions/studyLogActions.ts:32-34 | entries counted as the matching part of a full listing are exactly the matching documents, each once, as many as there are matching ids |
| Store.StudyLogMissing | src/models/studyLog.ts:6-20 | a new log fails validation exactly when the course, or the title or content after trimming, is empty |
| Store.NewestLogs | src/app/dashboard/page.tsx:385 | `sort({ createdAt: -1 }).limit(n)` gives `n` distinct logs (or all), newest first, none left out newer than one listed |
| Store.FreshKey | src/models/course.ts:36-38 | the id the clock gives a new document is never taken |
| Store.Store.constructor | src/libs/mongodb.ts:1-23 | an empty store with the clock at zero |
| Store.Store.AddCourse | src/actions/courseActions.ts:74 | a new course is saved under a fresh id, which is its creation tick |
| Store.Store.PutCourse | src/actions/courseActions.ts:126 | saving a course writes that one entry and advances the clock, keeping every document stamped |
| Store.Store.AddLog | src/actions/studyLogActions.ts:46 | a new log is saved under a fresh id |
| Store.Store.PutLog | src/actions/studyLogActions.ts:55 | saving a log writes that one entry and advances the clock |
| Store.Store.AddMemo | src/actions/dashboardMemoActions.ts:37-41 | a new memo is saved under a fresh id |
| Store.Store.PutMemo | src/actions/dashboardMemoActions.ts:68 | saving a memo writes that one entry and advances the clock |
| Store.Store.GetAllCourses | src/actions/courseActions.ts:39-45 | every course exactly once (as many views as courses, distinct ids), mapped, newest first |
| Store.Store.GetCourseById | src/actions/courseActions.ts:50-58 | the mapped course, or nothing (not an error) for an unknown id |
| Store.Store.CreateCourse | src/actions/courseActions.ts:63-81 | a blank title (after trimming) fails `required` and stores nothing; otherwise exactly one new course, built by `NewCourse`, under a fresh id |
| Store.Store.UpdateCourse | src/actions/courseActions.ts:86-111 | a known id gets the full replace and no other course changes; an unknown id changes nothing |
| Store.Store.ToggleCourseCompleted | src/actions/courseActions.ts:116-131 | unknown id: `Course not found`; blank stored title: validation error; otherwise the flag flips and `/courses` then `/courses/<id>` are revalidated |
| Store.Store.DeleteCourse | src/actions/courseActions.ts:136-140 | removes only that id; an unknown id changes nothing (idempotent) |
| Store.Store.GetLogsByCourseId | src/actions/studyLogActions.ts:29-37 | exactly the logs of that course, each once (distinct ids, as many as the course has logs), mapped, newest first |
| Store.Store.CreateStudyLog | src/actions/studyLogActions.ts:40-47 | the empty required paths are reported and nothing is stored; otherwise one trimmed log, without checking that the course exists |
| Store.Store.UpdateStudyLog | src/actions/studyLogActions.ts:50-56 | only that log changes, its course is kept; an unknown id changes nothing |
| Store.Store.DeleteStudyLog | src/actions/studyLogActions.ts:59-62 | removes only that log; idempotent |
| Store.Store.GetMemosByUserId | src/actions/dashboardMemoActions.ts:8-21 | `[]` for an empty user id; otherwise ten of the user's memos (all when fewer), only the user's, each once, newest first, none left out newer than one returned |
| Store.Store.CreateDashboardMemo | src/actions/dashboardMemoActions.ts:24-42 | no user id or a blank title stores nothing; otherwise exactly one new memo built by `NewMemo` |
| Store.Store.UpdateDashboardMemo | src/actions/dashboardMemoActions.ts:45-69 | empty ids, no field supplied, or a memo with another owner: no change; otherwise only that memo is patched |
| Store.Store.ToggleDashboardMemoDone | src/actions/dashboardMemoActions.ts:72-83 | only the owner's memo flips `isDone`; empty ids or another owner change nothing |
| Store.Store.DeleteDashboardMemo | src/actions/dashboardMemoActions.ts:86-92 | removes the memo only when both id and owner match; otherwise no change |
| NewCoursePage.FormText | src/app/courses/new/page.tsx:12-15 | `field?.trim() \|\| ''`: the trimmed field, or `''` when it was not sent; already trimmed by `FormTextIsTrimmed` |
| NewCoursePage.FormCourse | src/app/courses/new/page.tsx:11-19 | no input exactly when the title is missing or blank; otherwise the normalised fields |
| NewCoursePage.FormTextIsTrimmed | src/app/courses/new/page.tsx:12-15 | a normalised field is already trimmed |
| NewCoursePage.FormCourseIsStoredAsIs | src/app/courses/new/page.tsx:21-27 | the stored course holds exactly the normalised fields and its title passes `required` |
| NewCoursePage.CreateCourseAction | src/app/courses/new/page.tsx:8-30 | a blank title adds nothing, otherwise exactly one course; both paths redirect to `/courses` |
| CoursesList.CompletedLast | src/components/Courses.tsx:14-18 | the sorted copy is a permutation with no unfinished course after a finished one |
| CoursesList.CompletedLastKeepsOrder | src/components/Courses.tsx:14-18 | the sort is the unfinished courses in input order followed by the finished ones in input order |
| CoursesList.CardId | src/components/Courses.tsx:46-48 | the id is `id`, else `_id`, else `''` |
| CoursesList.UrlStartIff | src/components/Courses.tsx:39 | the pattern accepts exactly the `//`, `http://` and `https://` prefixes |
| CoursesList.HasLink | src/components/Courses.tsx:38-39 | a link is usable exactly when the trimmed link is non-empty and starts like a URL |
| CoursesList.BlankLinkHasNoLink | src/components/Courses.tsx:38-39 | a missing or all-white-space link is never usable |
| CoursesList.Shown | src/components/Courses.tsx:77-91 | a text field shows exactly when it is a non-empty string |
| CoursesList.CardOf | src/components/Courses.tsx:37-118 | the title links to `/courses/<id>` and the toggle shows exactly when the id is non-empty; the course link shows only when usable; `completed` is strict |
| CoursesList.Render | src/components/Courses.tsx:10-34 | nothing for an empty list, otherwise one card per course in completed-last order |
| CoursesList.RenderPutsCompletedLast | src/components/Courses.tsx:14-30 | no unfinished card comes after a finished one |
| HeaderBar.Matching | src/components/Header.tsx:172 | the filter keeps exactly the commands whose label contains the query; `MatchingKeepsOrder` adds that their order is kept |
| HeaderBar.MatchingAppend | src/components/Header.tsx:172 | filtering a concatenation of command lists filters each part |
| HeaderBar.MatchingKeepsOrder | src/components/Header.tsx:172 | of two listed commands, the earlier one comes earlier in the input |
| HeaderBar.FilteredKeepsMenuOrder | src/components/Header.tsx:169-173 | whatever the query, the listed commands are in menu order, which `filtered[index]` navigation relies on |
| Seqs.Select | src/actions/studyLogActions.ts:32 | `filter` (here: Mongo's `find(filter)` and the header's `commands.filter`) never lengthens; `SelectMembers`, `SelectCounts`, `SelectAppend` and `SelectKeepsOrder` give what it keeps |
| Seqs.SelectMembers | src/components/Header.tsx:172 | the filter keeps only elements of the input that pass the test, and every element that does |
| Seqs.SelectCounts | src/actions/studyLogActions.ts:32 | a passing element occurs in the result exactly as often as in the input, any other not at all |
| Seqs.SelectAppend | src/components/Header.tsx:172 | filtering distributes over concatenation |
| Seqs.SelectKeepsOrder | src/components/Header.tsx:172 | two selected elements appear in the input in the same order |
| Seqs.TwiceCounted | src/actions/studyLogActions.ts:32-34 | an element at two positions is counted at least twice |
| HeaderBar.Filtered | src/components/Header.tsx:169-173 | an empty or one-character normalised query lists all commands; otherwise exactly those whose label contains it, in menu order by `FilteredKeepsMenuOrder` |
| HeaderBar.FilteredIgnoresPadding | src/components/Header.tsx:170 | white space around the query never changes the list |
| HeaderBar.FilteredByNormalForm | src/components/Header.tsx:170 | two queries with the same normal form list the same commands |
| HeaderBar.Selected | src/components/Header.tsx:193-194 | `filtered[index]` exists exactly when the index is in range |
| HeaderBar.CommandBar.constructor | src/components/Header.tsx:154-156 | closed, empty query, index 0, everything listed |
| HeaderBar.CommandBar.OnKey | src/components/Header.tsx:177-200 | `/` opens only when closed and not typing; Escape closes; the arrows clamp the index; Enter navigates to the highlighted command and closes only when there is one; the index always fits the list |
| HeaderBar.CommandBar.OpenButton | src/components/Header.tsx:214 | the button opens the overlay |
| HeaderBar.CommandBar.Backdrop | src/components/Header.tsx:225 | a press on the backdrop closes the overlay |
| HeaderBar.CommandBar.ChangeQuery | src/components/Header.tsx:236-239 | typing replaces the query, recomputes the list and resets the index to 0 |
| HeaderBar.CommandBar.ClickCommand | src/components/Header.tsx:250-253 | clicking a command navigates to its path and closes |
| HeaderBar.CommandBar.MouseEnter | src/components/Header.tsx:254 | hovering highlights that command |
| HeaderBar.LinkClass | src/components/Header.tsx:288-292 | a navigation link is highlighted exactly when the path is the current one |
| LangColors.ColorOf | src/app/page.tsx:186-213 | the default colour is given exactly to names outside the twelve-language table |
| LangColors.LangColor | src/app/page.tsx:184-214 | a missing language gets the default; a name gets the default exactly when its lower-cased form is not in the table (the same table is at src/app/repos/page.tsx:41-71) |
| LangColors.LangColorIgnoresCase | src/app/page.tsx:185 | a name and its lower-cased spelling get the same colour |
| HomePage.SecuritySnapshot | src/app/page.tsx:61-75 | 2FA is `Enabled`/`Disabled` only for a boolean flag and `—` otherwise; the session is `Active` exactly when a session id exists; the sign-in time is `—` when missing or zero |
| HomePage.HomeLists | src/app/page.tsx:216-241 | a rejected fetch empties both lists; otherwise a failed response or parse empties only its own |
| HomePage.Top3 | src/app/page.tsx:245-251 | at most three repositories, all fetched ones, latest push first |
| HomePage.Top3AreLatest | src/app/page.tsx:245-251 | the three are pushed latest first, and any repository left out was pushed no later than each of them |
| HomePage.GithubActivity | src/app/page.tsx:243-251 | the panel holds the histogram, its sum (at most the number of events) and the top three of an unsorted copy |
| DashboardPage.TruncateText | src/app/dashboard/page.tsx:575-579 | `''` stays `''`, a short text is kept, a long one becomes its trimmed cut plus `…`, at most `maxLength + 1` long |
| DashboardPage.TruncatedPrefix | src/app/dashboard/page.tsx:578 | the kept part is a prefix of the text without trailing white space, and only white space of the first `maxLength` characters is dropped |
| DashboardPage.RankTime | src/app/dashboard/page.tsx:469-470 | the ranking time is `pushed_at` when truthy, else `updated_at` when truthy, else NaN |
| DashboardPage.Project | src/app/dashboard/page.tsx:474-482 | the id is `String(id)`, the description `?? ''`, the date `safeDate(pushed \|\| updated \|\| created)` |
| DashboardPage.ProjectDateIsRankTime | src/app/dashboard/page.tsx:479-481 | for a ranked repository the card's date is its ranking time |
| DashboardPage.RecentRepos | src/app/dashboard/page.tsx:467-482 | at most three repositories |
| DashboardPage.RecentRepoAt | src/app/dashboard/page.tsx:467-482 | each recent repository is the projection of a fetched one at that sorted position |
| DashboardPage.RecentReposArePicked | src/app/dashboard/page.tsx:467-482 | every recent repository is the projection of a fetched one |
| DashboardPage.RecentReposNewestFirst | src/app/dashboard/page.tsx:468-472 | the recent repositories are newest first |
| DashboardPage.RecentReposAreNewest | src/app/dashboard/page.tsx:467-473 | a fetched repository that was not picked is no newer than any picked one |
| DashboardPage.RepoActivity | src/app/dashboard/page.tsx:499-506 | the entry of a repository is `repo-<id>` with its description truncated to 140 and its date and link |
| DashboardPage.SummaryActivity | src/app/dashboard/page.tsx:488-496 | the summary is dated by the first event whatever its type, or `now` without one |
| DashboardPage.RepoActivities | src/app/dashboard/page.tsx:499-506 | one entry per recent repository, in the same order |
| DashboardPage.RepoActivitiesAppend | src/app/dashboard/page.tsx:499-506 | the entries of one more repository are the old entries plus its own |
| DashboardPage.SummaryPart | src/app/dashboard/page.tsx:487-497 | a summary entry exactly when there were pushes |
| DashboardPage.GithubActivitiesShape | src/app/dashboard/page.tsx:485-508 | the feed is the summary when there were pushes, then exactly one entry per recent repository in order |
| DashboardPage.SummaryFirstIff | src/app/dashboard/page.tsx:487-497 | the feed starts with the summary exactly when the push count is positive |
| DashboardPage.ActivityIdsDistinct | src/app/dashboard/page.tsx:489-500 | distinct repository ids give distinct feed ids |
| DashboardPage.DistinctFeedIds | src/app/dashboard/page.tsx:489-500 | a summary id followed by `repo-` ids of distinct repositories has no repeated id |
| DashboardPage.RepoIdDiffers | src/app/dashboard/page.tsx:489-500 | any two positions of such a feed carry different ids |
| DashboardPage.RepoIdIsNotSummary | src/app/dashboard/page.tsx:489-500 | a `repo-` id is never the summary id |
| DashboardPage.RepoIdInjective | src/app/dashboard/page.tsx:500 | different repository ids give different `repo-` ids |
| DashboardPage.BuildGithubActivities | src/app/dashboard/page.tsx:485-508 | the `push` loop builds exactly the feed |
| DashboardPage.GetGithubData | src/app/dashboard/page.tsx:428-520 | any rejection, a repositories response that fails, or an events body that fails to parse gives the empty result; otherwise the project count, the push count of the histogram, the recent repositories and the feed |
| DashboardPage.GithubDataCounts | src/app/dashboard/page.tsx:454-464 | the push count is at most the number of events, and a failed events response counts no pushes |
| DashboardPage.CountCompleted | src/app/dashboard/page.tsx:391 | the completed courses are at most all courses |
| DashboardPage.CountCompletedBounds | src/app/dashboard/page.tsx:391 | all are counted exactly when every course has `completed === true`, none exactly when no course has |
| DashboardPage.LearningStatsOf | src/app/dashboard/page.tsx:393-398 | the counts, and the first newest log's date or nothing without logs |
| DashboardPage.LearningActivity | src/app/dashboard/page.tsx:400-407 | a log's entry truncates its content to 140 and links to its course only when it names one |
| DashboardPage.LearningActivities | src/app/dashboard/page.tsx:400-407 | one entry per newest log, in order |
| DashboardLoad.Docs | src/app/dashboard/page.tsx:384 | the documents of a listing, in order |
| DashboardLoad.CountCompletedOfEntries | src/app/dashboard/page.tsx:390-391 | counting over any listing that holds each course once gives the number of completed courses stored |
| DashboardLoad.CountCompletedOfLast | src/app/dashboard/page.tsx:391 | the count over a listing is the count without its last entry plus that entry's share |
| DashboardLoad.ListingWithoutLast | src/app/dashboard/page.tsx:384 | a listing without its last entry lists the rest of the collection |
| DashboardLoad.CompletedIdsRemove | src/app/dashboard/page.tsx:391 | removing one course removes only it from the completed ids |
| DashboardLoad.StatsOfStore | src/app/dashboard/page.tsx:390-398 | the statistics are the true counts of both collections and the latest log's date, none without logs |
| DashboardLoad.LatestLog | src/app/dashboard/page.tsx:397 | the first of the newest logs is the latest log of all |
| DashboardLoad.FeedOfStore | src/app/dashboard/page.tsx:400-407 | the learning feed is the newest (at most four) logs, each once, newest first |
| DashboardLoad.FeedCoversLogs | src/app/dashboard/page.tsx:385 | a log missing from the feed is no newer than any log in it |
| DashboardLoad.GetDashboardData | src/app/dashboard/page.tsx:379-419 | the learning figures are the true counts and the feed the newest four distinct logs, newest first; the GitHub figures are passed through |
| ReposPage.SortTime | src/app/repos/page.tsx:89-90 | the sort time is `pushed_at` when truthy, else `updated_at`; `EmptyPushShowsDash` shows where this differs from the card's date |
| ReposPage.SortRepos | src/app/repos/page.tsx:88-92 | the in-place sort leaves the array as the stable latest-first sort of its old contents |
| ReposPage.Place | src/app/repos/page.tsx:88-92 | one step moves an element past the later-sorting ones behind it |
| ReposPage.PlacedIsInsert | src/app/repos/page.tsx:88-92 | that step is the insertion of the element into the sorted part behind it |
| ReposPage.SortBySuffix | src/app/repos/page.tsx:88-92 | the sort of a suffix is its first element inserted into the sort of the rest |
| ReposPage.SortedLatestFirst | src/app/repos/page.tsx:88-92 | the sorted list is a permutation of the fetched one, latest first |
| ReposPage.CardOf | src/app/repos/page.tsx:154-228 | the description `\|\| NoDescription`, counts `?? 0`, the date of `pushed_at ?? updated_at`, and a badge only for a non-empty language |
| ReposPage.EmptyPushShowsDash | src/app/repos/page.tsx:159 | an empty `pushed_at` shows a dash although the sort uses `updated_at` |
| ReposPage.Cards | src/app/repos/page.tsx:125-129 | one card per repository, in order |
| ReposPage.LoadReposPage | src/app/repos/page.tsx:73-151 | a failed response is `GitHub API error: <status>`, a thrown error shows its message, an empty list its notice, otherwise the sorted cards |
| Sorting.Insert | src/app/repos/page.tsx:88-92 | an insertion adds exactly one element |
| Sorting.InsertPermutes | src/app/repos/page.tsx:88-92 | an insertion adds the element and loses nothing |
| Sorting.InsertSorted | src/app/repos/page.tsx:88-92 | inserting into a sorted sequence keeps it sorted |
| Sorting.InsertAbove | src/app/repos/page.tsx:88-92 | a lower bound on all keys survives an insertion |
| Sorting.SortBy | src/components/Courses.tsx:14-18 | the sort is a sorted permutation of its input |
| Sorting.InsertPastSmaller | src/components/Courses.tsx:14-18 | inserting past a block of smaller keys leaves the block in front |
| Sorting.WithKey | src/components/Courses.tsx:14-18 | the elements with a given key, in order |
| Sorting.WithKeyAppend | src/components/Courses.tsx:14-18 | selecting by key distributes over concatenation |
| Sorting.InsertWithKey | src/components/Courses.tsx:14-18 | an insertion adds the element in front of the elements with its key |
| Sorting.SortByIsStable | src/components/Courses.tsx:17 | equal keys keep their input order (stability) |
| Sorting.SortByTwoKeys | src/components/Courses.tsx:17 | with keys 0 and 1, the sort is the key-0 elements then the key-1 elements, each in input order |
| Sorting.AppendAssoc | src/components/Courses.tsx:14-18 | concatenation is associative |
| Sorting.WithKeyConsHit | src/components/Courses.tsx:14-18 | a leading element with the key is selected first |
| Sorting.WithKeyConsMiss | src/components/Courses.tsx:14-18 | a leading element with another key is skipped |
| Sorting.InsertFront | src/components/Courses.tsx:14-18 | an element no larger than all goes in front |
| Sorting.TwoKeysZeroStep | src/components/Courses.tsx:17 | inserting a key-0 element into the split list keeps the split |
| Sorting.TwoKeysOneStep | src/components/Courses.tsx:17 | inserting a key-1 element into the split list keeps the split |
| Sorting.SortedPrefixIsTop | src/app/page.tsx:245-251 | the first `n` of the sort are the `n` smallest keys: any element not among them has a key no smaller |
| Sorting.PrefixOfSorted | src/actions/dashboardMemoActions.ts:15-18 | an element of a sorted sequence is within the first `n` or has a key no smaller than theirs |
| Sorting.InsertAt | src/app/repos/page.tsx:88-92 | the insertion puts the element after the strictly smaller prefix, shifting the rest |
| AboutConsole.SafeVal | src/components/AboutConsole.tsx:200 | `''` and `—` become `—`, every other value is kept |
| AboutConsole.LinkOrDash | src/components/AboutConsole.tsx:183-198 | a link exactly for a non-empty url other than `—` |
| AboutConsole.OutputFor | src/components/AboutConsole.tsx:88-175 | only `clear` appends no output |
| AboutConsole.UnknownIffUnsupported | src/components/AboutConsole.tsx:169-174 | exactly an unsupported command gets the unknown-command output, which repeats the raw input |
| AboutConsole.NumberedAppend | src/components/AboutConsole.tsx:57-66 | a line numbered with the counter keeps the buffer numbered, with the counter one higher |
| AboutConsole.NumberedIsUnique | src/components/AboutConsole.tsx:43-65 | numbered lines have distinct ids |
| AboutConsole.Run | src/components/AboutConsole.tsx:82-178 | blank: no change; `clear`: empty buffer, echo dropped, counter one higher; anything else: the old lines, then the echo `> raw`, then one output |
| AboutConsole.RunChangesIffNotBlank | src/components/AboutConsole.tsx:84-85 | a command changes the screen exactly when it is not blank |
| AboutConsole.RunNumbered | src/components/AboutConsole.tsx:43-65 | every command keeps the line ids strictly increasing and below the counter, which never goes back |
| AboutConsole.Console.constructor | src/components/AboutConsole.tsx:43-48 | an empty numbered buffer, counter 1, empty input, intro running |
| AboutConsole.Console.AddCmd | src/components/AboutConsole.tsx:57-62 | appends the echo numbered by the counter and advances it |
| AboutConsole.Console.AddOut | src/components/AboutConsole.tsx:64-66 | appends an output numbered by the counter and advances it |
| AboutConsole.Console.ClearAll | src/components/AboutConsole.tsx:68 | empties the buffer, keeping the counter |
| AboutConsole.Console.RunCommand | src/components/AboutConsole.tsx:82-178 | the buffer and counter move exactly as `Run` says for the trimmed, lower-cased command |
| AboutConsole.Console.Execute | src/components/AboutConsole.tsx:86-175 | for a non-blank command, the echo then the `switch` move the buffer as `Run` says |
| AboutConsole.Console.ChangeInput | src/components/AboutConsole.tsx:47 | typing replaces the input |
| AboutConsole.Console.OnSubmit | src/components/AboutConsole.tsx:205-212 | blank input changes nothing; otherwise the intro ends, the trimmed input runs and the field is cleared |

## Left out

- Rendering, CSS classes, Clerk authentication, Mongo connections and `fetch`: a fetch is a `Reply` parameter, the database is the `Store` maps.
- Time zones: an `Instant` carries its millisecond value and its local calendar parts side by side, and how they relate is not modelled.
- The clock: "now" is a parameter and the dashboard reads it once, where the code calls `new Date()` at several points.
- `formatKoreanDate`: its `Intl.DateTimeFormat` output is locale data.
- src/components/Repo.tsx and src/components/RepoDirs.tsx: fetch wrappers, not part of this model.
- Timestamps and ids: `createdAt`, `updatedAt` and ids are ticks of a logical clock, not dates and ObjectIds.
- Id casts: a malformed id (Mongoose `CastError`) is not modelled; an id is just an unknown key.
- Validation error details: the order and wording of Mongoose's messages go beyond the model's list of empty paths.
- An empty `courseId` in `createStudyLog` is reported as a missing path, where Mongoose would raise an ObjectId cast error.
- `toLowerCase`: only ASCII letters are folded, and string lengths count code points, not UTF-16 units.
- NaN sort keys: a comparator returning NaN is inconsistent in JavaScript, so `RecentRepos`, `SortRepos` and `Top3` results are only characterised when every key is a number (`Ranked`, `SortTimed`, `PushTimed`).
- The console's autoplay script, its timers, scrolling and reduced-motion check.
- JSX outputs: the pieces of a console output are kept as the `Output` datatype.
- React StrictMode double-invoking state updaters.
- `preventDefault`, the body scroll lock and the sign-out button of the command overlay.
- The repository card's `encodeURIComponent` detail link.
- `Array.isArray` on the course list: the list is a sequence, and only a non-boolean `completed` is modelled (as `None`).
- Store.Store.GetAllCourses: states each course exactly once through its id, not that the returned views are pairwise distinct objects.
- The sparkline SVG coordinates, animations, the team page and the other static pages.
