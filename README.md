# AthleticForms compliance-form store, modelled in Dafny

AthleticForms is a small single-page application where an athletic department collects
compliance forms from its athletes. An athletic director maintains the catalogue of
forms. Athletes submit a document for each form. The director approves pending
submissions from a review queue. Coaches and the director watch per-athlete progress.
All state lives in memory: a list of forms and a list of submissions, seeded from
constant data and replaced wholesale by the views' event handlers.

This project models that store and its status workflow:

- `MockData` (`mock_data.dfy`): the records (`Form`, `Submission`, `Team`, `Athlete`) and
  the seed collections, with the facts the rest of the application relies on.
- `StatusDerivation` (`status_derivation.dfy`): the status of an (athlete, form) pair,
  read from the first matching submission or `not_submitted`, the per-status form
  counts, and the status labels. The three views carry identical copies of this lookup;
  it is modelled once.
- `AthleteDashboard` (`athlete_dashboard.dfy`): the athlete's view, with its progress
  counts, its status-ordered and searchable list, and the submit handler as a method of
  the class `Dashboard`.
- `ReviewQueue` (`review_queue.dfy`): the queue of pending submissions, newest first, and
  the approve handler as a method of the class `Queue`.
- `FormsManagement` (`forms_management.dfy`): create, edit, update and delete of forms
  through one dialog whose Save button needs a title and a description. The handlers
  are methods of the class `Manager`. The displayed list is sorted in place on an array.
- `AthleteOverview` and `CoachDashboard` (`athlete_overview.dfy`, `coach_dashboard.dfy`):
  completion counts, the coach's team roster and name search, and the expand/collapse
  set of rows.
- `Collections` and `Text` (`collections.dfy`, `text.dfy`): the library behaviour these
  rely on, namely `filter`, the stable `sort`, `toLowerCase`, `includes`, and the
  decimal rendering of the generated ids `sub<N>` and `form<N>`.

Timestamps are milliseconds since the epoch, as `Date.getTime()` returns them. The
current time is a parameter `now` of the handlers that read the clock. JavaScript's
`Array.prototype.sort` is stable. Dafny models it as an insertion sort on an ascending
integer key, so "newest first" sorts on the key `-timestamp`.

## Model

| member | source | states |
|---|---|---|
| MockData.MockSubmissionsStored | src/lib/mockData.ts:77-141 | no seed submission carries the derived-only status `not_submitted` |
| MockData.MockSubmissionIdsDistinct | src/lib/mockData.ts:77-141 | the seed submission ids are pairwise distinct |
| MockData.MockOneSubmissionPerPair | src/lib/mockData.ts:77-141 | the seed data has at most one submission per (athlete, form) pair |
| MockData.MockReferencesResolve | src/lib/mockData.ts:41-141 | every seed submission names a seed form, and a seed athlete whose team is the submission's team |
| MockData.MockIdsNumbered | src/lib/mockData.ts:48-141 | seed ids are form1..form4 and sub1..sub6 in order, so the first generated ids `form5` and `sub7` are new |
| StatusDerivation.StatusLiteralsDistinct | src/lib/mockData.ts:16 | the three status literals are distinct and non-empty, so the fallback to `not_submitted` never replaces a stored status |
| StatusDerivation.FirstFor | src/components/AthleteDashboard.tsx:30-32 | `find` stops at the first submission matching both ids, or finds none exactly when no submission matches |
| StatusDerivation.FindSubmission | src/components/AthleteDashboard.tsx:36-40 | `getFormSubmission` is none exactly when no submission matches, and otherwise the first matching submission |
| StatusDerivation.DerivedStatus | src/components/AthleteDashboard.tsx:29-34 | `getFormStatus` is the first matching submission's status, or `not_submitted` when none matches |
| StatusDerivation.FirstForUnique | src/components/AthleteOverview.tsx:34-38 | the first matching position for a pair is unique |
| StatusDerivation.StatusStringIsDerived | src/components/AthleteOverview.tsx:27-38 | the status string read with the `"not_submitted"` fallback is the literal of the derived status: the fallback never replaces a stored status, so `getSubmission` and `getSubmissionStatus` agree |
| StatusDerivation.NotSubmittedIffNoSubmission | src/components/AthleteOverview.tsx:27-32 | over stored submissions, a pair reads `not_submitted` if and only if no submission is for it |
| StatusDerivation.DerivedStatusAppend | src/components/CoachDashboard.tsx:32-37 | appending a submission changes a pair's status only when the pair had none: the first match wins |
| StatusDerivation.FormsWithStatus | src/components/AthleteDashboard.tsx:73-74 | the filter keeps exactly the forms with the given derived status, each as often as stored |
| StatusDerivation.StatusCountsPartition | src/components/AthleteOverview.tsx:40-51 | the approved, pending and not-submitted counts add up to the number of forms |
| StatusDerivation.StatusText | src/components/AthleteOverview.tsx:64-73 | the label is "Approved" exactly for `approved`, "Pending" exactly for `pending`, and "Not Submitted" for every other string |
| StatusDerivation.StatusTextOfStatus | src/components/AthleteOverview.tsx:64-73 | the labels are "Approved", "Pending" and "Not Submitted", and distinct statuses get distinct labels |
| Text.Lower | src/components/AthleteDashboard.tsx:87 | `toLowerCase` keeps the length and lower-cases each ASCII letter |
| Text.IncludesFrom | src/components/AthleteDashboard.tsx:87 | the scan reports true exactly when the query occurs at some position from `from` on |
| Text.Includes | src/components/AthleteDashboard.tsx:87 | `includes` is true exactly when the query occurs somewhere |
| Text.EmptyQueryMatches | src/components/AthleteDashboard.tsx:86-89 | an empty query matches every text |
| Text.MatchesQueryIgnoresCase | src/components/FormsManagement.tsx:87 | lower-casing the text or the query first changes no match: the search ignores case |
| Text.Decimal | src/components/AthleteDashboard.tsx:46 | the template literal renders a count as a non-empty string of decimal digits, with no leading zero for a positive count |
| Text.DecimalRoundTrip | src/components/AthleteDashboard.tsx:46 | reading the rendered digits back gives the count |
| Text.NumberedIdInjective | src/components/FormsManagement.tsx:30 | two generated ids with the same prefix are equal only for equal counts |
| Text.NextNumberedIdFresh | src/components/AthleteDashboard.tsx:46 | while the ids are prefix1..prefixN, the id prefixN+1 is new |
| Text.NumberedIdsDistinct | src/components/AthleteDashboard.tsx:46 | ids numbered from one are pairwise distinct |
| Collections.Filter | src/components/ReviewQueue.tsx:22 | `filter` returns no more elements than it is given, and every one it returns passes the test |
| Collections.FilterCount | src/components/ReviewQueue.tsx:22 | `filter` keeps each element that passes as often as it occurs, and no other |
| Collections.FilterAppend | src/components/FormsManagement.tsx:80 | `filter` keeps the input order |
| Collections.SortBy | src/components/ReviewQueue.tsx:23 | `sort` returns a permutation of its input ordered by the key |
| Collections.FilterSorted | src/components/AthleteDashboard.tsx:86 | filtering a sorted list leaves it sorted |
| Collections.SortByStable | src/components/AthleteDashboard.tsx:78-83 | `sort` is stable: elements with equal keys keep their relative order |
| Collections.InsertInPlace | src/components/FormsManagement.tsx:126 | one insertion step on the array, leaving the unsorted tail unchanged |
| Collections.SortInPlace | src/components/FormsManagement.tsx:126 | sorting the array in place leaves exactly the sorted sequence in it |
| Collections.Toggled | src/components/AthleteOverview.tsx:17-25 | toggling flips the membership of the given id and of no other |
| Collections.ToggleTwice | src/components/CoachDashboard.tsx:22-30 | toggling the same id twice restores the set |
| AthleteDashboard.NextSubmissionId | src/components/AthleteDashboard.tsx:46 | the generated id is `sub` followed by decimal digits, the first not `0`, that read back as the submission count plus one |
| AthleteDashboard.UploadedUrl | src/components/AthleteDashboard.tsx:54 | a chosen file becomes `https://example.com/` + its name, and no file gives no link |
| AthleteDashboard.NewSubmission | src/components/AthleteDashboard.tsx:45-55 | the new record is pending, carries id `sub<N+1>`, the entered notes, the uploaded link and the submission time `now`, has no review notes, and belongs to the user (id and name), the selected form and the user's team |
| AthleteDashboard.SubmitStatusEffect | src/components/AthleteDashboard.tsx:29-57 | submitting makes the submitted pair pending if it had no submission; no other pair's status changes |
| AthleteDashboard.SubmitKeepsIdsNumbered | src/components/AthleteDashboard.tsx:46-57 | while ids are sub1..subN, the generated id is new and the numbering continues |
| AthleteDashboard.ProgressOf | src/components/AthleteDashboard.tsx:73-75 | completed counts the forms whose status is approved and pending those whose status is pending; together they never exceed the total, with equality exactly when no form is unsubmitted |
| AthleteDashboard.SortedForms | src/components/AthleteDashboard.tsx:78-83 | the sorted copy holds the same forms as many times each as `forms` |
| AthleteDashboard.SortedFormsOrder | src/components/AthleteDashboard.tsx:78-83 | the sorted list is a permutation of the forms, not-submitted before pending before approved, stable within a status |
| AthleteDashboard.FilteredForms | src/components/AthleteDashboard.tsx:86-89 | the list keeps a form exactly when the query matches its title or its description, and stays in status order: not submitted, then pending, then approved |
| AthleteDashboard.EmptySearchShowsAll | src/components/AthleteDashboard.tsx:86-89 | an empty search shows the whole sorted list |
| AthleteDashboard.Dashboard.constructor | src/components/AthleteDashboard.tsx:21-23 | the dialog starts with no form selected, empty notes and no file |
| AthleteDashboard.Dashboard.HandleSubmit | src/components/AthleteDashboard.tsx:42-61 | with no form selected nothing changes; otherwise exactly one new submission is appended and the dialog is reset |
| ReviewQueue.PendingOnly | src/components/ReviewQueue.tsx:22 | the filter keeps a submission exactly when it is stored and pending |
| ReviewQueue.PendingSubmissions | src/components/ReviewQueue.tsx:21-23 | the queue is a reordering of the pending submissions and never longer than the stored list |
| ReviewQueue.ApproveOne | src/components/ReviewQueue.tsx:29 | the copy is approved and carries the review notes, and differs from the original in no other field |
| ReviewQueue.PendingQueueMembers | src/components/ReviewQueue.tsx:21-22 | the queue holds exactly the pending submissions, each as often as stored |
| ReviewQueue.PendingQueueNewestFirst | src/components/ReviewQueue.tsx:21-23 | the queue is ordered newest first |
| ReviewQueue.PendingQueueStable | src/components/ReviewQueue.tsx:23 | pending submissions with the same timestamp stay in stored order |
| ReviewQueue.ApproveById | src/components/ReviewQueue.tsx:27-31 | matching records become approved with the notes and keep every other field; other records, length and order are unchanged |
| ReviewQueue.ApproveUnknownId | src/components/ReviewQueue.tsx:27-31 | approving an id no submission carries changes nothing |
| ReviewQueue.ApproveIdempotent | src/components/ReviewQueue.tsx:28-30 | approving twice with the same notes is approving once |
| ReviewQueue.ApproveKeepsIds | src/components/ReviewQueue.tsx:27-31 | approval keeps every id in place |
| ReviewQueue.ApprovedLeavesQueue | src/components/ReviewQueue.tsx:22-29 | after approving an id, no queued submission has that id |
| ReviewQueue.ApprovePendingCount | src/components/ReviewQueue.tsx:22-29 | approval shrinks the pending count by exactly the number of pending records with that id |
| ReviewQueue.ApproveStatusEffect | src/components/ReviewQueue.tsx:27-30 | a pair becomes approved when its first submission has the approved id, and keeps its status otherwise |
| ReviewQueue.ApproveExample | src/components/ReviewQueue.tsx:25-35 | approving the only pending submission with notes records the notes and empties the queue |
| ReviewQueue.Queue.constructor | src/components/ReviewQueue.tsx:17-18 | no submission is selected and the notes are empty |
| ReviewQueue.Queue.HandleApprove | src/components/ReviewQueue.tsx:25-35 | the submissions are replaced by the approved copy, and the selection and notes are cleared |
| ReviewQueue.Queue.ApproveSelected | src/components/ReviewQueue.tsx:165 | the Approve button does nothing without a selection, and otherwise approves the selected id |
| FormsManagement.NextFormId | src/components/FormsManagement.tsx:30 | the generated id is `form` followed by decimal digits, the first not `0`, that read back as the form count plus one |
| FormsManagement.SaveGuardKeepsComplete | src/components/FormsManagement.tsx:237 | the Save button is enabled exactly when the created or overwritten form would have a title and a description |
| FormsManagement.CreatedForm | src/components/FormsManagement.tsx:29-35 | the new form has the generated id, creation time `now` and the buffer's link with an empty one stored as no link, and loading it back into the buffer gives the draft it was made from |
| FormsManagement.DraftOf | src/components/FormsManagement.tsx:47-51 | the buffer holds the form's title and description, and a link that turns back into the form's link, or into no link when the form stores an empty one |
| FormsManagement.Overwrite | src/components/FormsManagement.tsx:58-64 | the overwritten form keeps its id and creation time, stores the buffer's link with an empty one as no link, and loading it back gives exactly the buffer that was saved |
| FormsManagement.OptionalUrl | src/components/FormsManagement.tsx:33 | an empty link becomes no link, and any other link is kept |
| FormsManagement.FindForm | src/components/FormsManagement.tsx:44 | `find` fails exactly for an unknown id, and otherwise returns the first form with that id |
| FormsManagement.UpdateMatching | src/components/FormsManagement.tsx:57-67 | matching forms get the buffer's title, description and link and keep id and creation time; other forms, length and order are unchanged |
| FormsManagement.EditThenUpdateRestores | src/components/FormsManagement.tsx:43-72 | with unique ids, loading a form into the buffer and saving it unchanged gives the forms back, unless the form stores an empty link |
| FormsManagement.WithoutForm | src/components/FormsManagement.tsx:80 | deleting keeps exactly the forms with another id, each as often as stored |
| FormsManagement.WithoutFormAppend | src/components/FormsManagement.tsx:80 | deleting keeps the remaining forms in order |
| FormsManagement.DeleteOrphansSubmissions | src/components/FormsManagement.tsx:78-84 | deleting a form that a submission names leaves that submission pointing at no form |
| FormsManagement.CreatedIdFresh | src/components/FormsManagement.tsx:30 | while the forms are numbered form1..formN, the generated id is new |
| FormsManagement.CreatedIdCollidesAfterDelete | src/components/FormsManagement.tsx:30-80 | after deleting form1 from the seed forms, the generated id is `form4`, which is still present |
| FormsManagement.DeleteFirstSeedForm | src/components/FormsManagement.tsx:80 | deleting form1 from the seed forms leaves the other three in order |
| FormsManagement.WithoutFormComplete | src/components/FormsManagement.tsx:78-84 | deleting keeps every remaining form complete |
| FormsManagement.MockFormsComplete | src/lib/mockData.ts:48-75 | every seed form has a title and a description |
| FormsManagement.FilteredForms | src/components/FormsManagement.tsx:86-88 | the list keeps a form exactly when the query matches its title; the description is not searched |
| FormsManagement.DisplayedForms | src/components/FormsManagement.tsx:126 | the shown list is the filtered copy, sorted in place by creation time, newest first |
| FormsManagement.DisplayedOrder | src/components/FormsManagement.tsx:86-126 | the shown list holds exactly the matching forms, newest first |
| FormsManagement.Manager.constructor | src/components/FormsManagement.tsx:18-26 | the dialog starts closed, with nothing edited or up for deletion and an empty buffer |
| FormsManagement.Manager.OpenDialog | src/components/FormsManagement.tsx:102 | the Create New Form button only opens the dialog |
| FormsManagement.Manager.CancelDialog | src/components/FormsManagement.tsx:232 | Cancel only closes the dialog and keeps the edit in progress |
| FormsManagement.Manager.HandleCreateForm | src/components/FormsManagement.tsx:28-41 | exactly one form with id `form<N+1>` and the buffer's fields is appended, and the dialog is reset |
| FormsManagement.Manager.HandleEditForm | src/components/FormsManagement.tsx:43-54 | an existing form is loaded into the buffer and the dialog opens; an unknown id changes nothing |
| FormsManagement.Manager.HandleUpdateForm | src/components/FormsManagement.tsx:56-72 | the edited form is overwritten from the buffer, and the dialog is reset |
| FormsManagement.Manager.HandleDeleteForm | src/components/FormsManagement.tsx:74-76 | the id is put up for deletion and nothing else changes |
| FormsManagement.Manager.ConfirmDeleteForm | src/components/FormsManagement.tsx:78-84 | with no id, or an empty one, nothing changes; otherwise every form with that id is removed and completeness is kept |
| FormsManagement.Manager.Save | src/components/FormsManagement.tsx:235-237 | an incomplete draft changes nothing; otherwise it updates when editing and creates when not, and every form stays complete |
| AthleteOverview.Stats | src/components/AthleteOverview.tsx:40-51 | approved, pending and not-submitted count the forms whose derived status is approved, pending and `not_submitted`; they are non-negative and add up to the number of forms |
| AthleteOverview.Overview.constructor | src/components/AthleteOverview.tsx:14 | no row starts expanded |
| AthleteOverview.Overview.ToggleAthlete | src/components/AthleteOverview.tsx:17-25 | the expanded set becomes the old set with the athlete's membership flipped |
| CoachDashboard.TeamAthletes | src/components/CoachDashboard.tsx:20 | the roster is exactly the athletes of the coach's team, each as often as listed |
| CoachDashboard.TeamAthletesAppend | src/components/CoachDashboard.tsx:20 | the roster keeps the athletes' order |
| CoachDashboard.NoneOnTeam | src/components/CoachDashboard.tsx:20 | a list with nobody on the team gives an empty roster |
| CoachDashboard.NoTeamNoRoster | src/components/CoachDashboard.tsx:20 | a user without a team sees nobody |
| CoachDashboard.ShownRoster | src/components/CoachDashboard.tsx:118-119 | the search keeps a team athlete exactly when the query matches the name |
| CoachDashboard.EmptySearchShowsTeam | src/components/CoachDashboard.tsx:118-119 | an empty search shows the whole team |
| CoachDashboard.Stats | src/components/CoachDashboard.tsx:39-46 | the approved count is the number of forms whose derived status is approved; it lies between zero and the total, and equals it exactly when nothing is pending or missing |
| CoachDashboard.Dashboard.constructor | src/components/CoachDashboard.tsx:17-18 | no row starts expanded and the search is empty |
| CoachDashboard.Dashboard.ToggleAthlete | src/components/CoachDashboard.tsx:22-30 | the expanded set becomes the old set with the athlete's membership flipped |
| CoachDashboard.Dashboard.SetSearchQuery | src/components/CoachDashboard.tsx:111 | typing replaces the query and nothing else |

## Left out

- Rendering: JSX, styling, icons, badges and the dialogs' markup are not modelled. A handler is one atomic replacement of the state fields it sets. React's render and batching semantics are not modelled.
- The clock: `new Date()` is the parameter `now`. Locale date formatting is left out.
- `progressPercent` (`Math.round((approved / total) * 100)`) is floating point and is NaN when there are no forms. Only the integer counts are modelled.
- Text.Lower: lower-cases the ASCII letters only. JavaScript's `toLowerCase` also maps non-ASCII letters.
- File picking and DOM access (`handleFileChange`, `document.getElementById`) are not modelled. The submit handler takes the chosen file's name, or none.
- `LoginScreen`, `App` and `ADDashboard` are not part of this model. They pick a user, dispatch on its role and wire tabs. `ADDashboard`'s pending count is the same filter as the review queue's.
- Display-name lookups in the teams and athletes lists (team names, athlete names in dialogs) and the "view submission" dialogs are not modelled.
- AthleteDashboard.Dashboard.HandleSubmit: requires the user to have a team. The source asserts this with `user.teamId!`, and the athlete view is only shown to users who have one.
- AthleteDashboard.SortedForms and ReviewQueue.PendingSubmissions are values computed on a copy. The stored `forms` and `submissions` are never reordered.
- FormsManagement.DisplayedForms: sorts a fresh array built from the filtered copy, as the source's `filter(...).sort(...)` does. Aliasing between the displayed array and the state is not modelled, because the filtered array is always new.
- The delete confirmation's `onOpenChange={setDeleteFormId}` stores a boolean into `deleteFormId` when the alert closes. The model keeps `deleteFormId` an optional string; such a value makes the confirm handler do nothing, which `ConfirmDeleteForm`'s no-op case covers.
- The forms search box's own state (`searchQuery`) is the parameter `query` of `FilteredForms` and `DisplayedForms`.
