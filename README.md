# BIUX routines, signup and session logic in Dafny

BIUX is a fitness app. Instructors write routines made of timed segments and
assign them to their students. Students sign up with an instructor's access
code and then see the routines assigned to them. This project models the parts
of the system that make decisions, and proves what they guarantee:

- **The backend routine read model** (`routines.repository.ts`), in
  `routines_repository.dfy`, module `Routines`. The store is modelled as three
  tables: routines, segments, and the assignment rows of
  `routines_instructors_students`, plus the users the roster loads. The four
  query builders are pure functions over that store:
  - the two list queries;
  - the instructor's detail query;
  - the student's detail query.

  The joins are built row by row, the way the database builds them. SQL `SUM`
  keeps its NULL rules: a left join on a routine without segments sums to NULL,
  not 0; and k duplicate assignment rows multiply the student total by k.
  `ORDER BY createdAt DESC` is a sort, newest first.
- **Token reading** (`useAuthToken.ts`), in `auth_token.dfy`. It turns a decoded
  payload into `{sub, role, isExpired}` or the string `Token is invalid`.
- **Client state machines**, each written as a class whose methods update the
  component's state fields:
  - the routine-details screen, in `routine_details.dfy`;
  - the signup role and access-code step, in `initial_role_step.dfy`;
  - the student profile cache over `sessionStorage`, in `student_service.dfy`.
- **The sidebar's current-page predicate**, in `sidebar.dfy`.

`wrappers.dfy` holds `Option` and `Result`. `decimal.dfy` holds decimal digit
strings, which stand for both `Number(id)` and the `${routineId}` of a request
path.

External behaviour enters the model as parameters:
- `jwt.decode` is a function `string -> Option<Payload>`;
- the current time is an integer number of milliseconds;
- each awaited HTTP response is an argument of the method that awaits it;
- `RoutineUtils.initializeSegments`, `JSON.parse` and `JSON.stringify` are
  function-valued fields of the objects that call them.

Where the code and the intended design differ, the model follows the code:
- The instructor list reports a routine without segments with a NULL total, where 0 might be expected.
- The student detail always reports a total duration of 0.
- Opening a missing routine, or another instructor's routine, makes the instructor detail throw a `TypeError`. It is not reported as "not found".

## Model

| member | source | states |
|---|---|---|
| `Routines.FindById` | backend/src/routines/entities/routines.entity.ts:8-25 | A lookup by primary key, used to state the other properties: a routine found by id is stored and has that id; when none is found, no stored routine has the id. |
| `Routines.FindByIdUnique` | backend/src/routines/entities/routines.entity.ts:8-25 | Since `id` is the primary key, looking up a stored routine's id finds exactly that routine. |
| `Routines.Filter` | backend/src/routines/routines.repository.ts:15 | A `WHERE` keeps exactly the rows satisfying the condition, each at most as often as it is stored. |
| `Routines.InsertNewestFirst` | backend/src/routines/routines.repository.ts:19 | Inserting into a newest-first list keeps it newest first, adds exactly that routine, and adds nothing else. |
| `Routines.SortNewestFirst` | backend/src/routines/routines.repository.ts:19 | `ORDER BY createdAt DESC` gives a permutation of its input in which no routine precedes a newer one. |
| `Routines.FilterKeepsDistinct` | backend/src/routines/routines.repository.ts:15 | Filtering rows with distinct ids keeps the ids distinct. |
| `Routines.SortKeepsDistinct` | backend/src/routines/routines.repository.ts:19 | Sorting rows with distinct ids keeps the ids distinct. |
| `Routines.OrderedByLookup` | backend/src/routines/routines.repository.ts:19 | In a sorted list of stored routines, every earlier id names a routine created no earlier than every later one. |
| `Routines.LeftJoinSegments` | backend/src/routines/routines.repository.ts:16 | The column `segments.duration` of the left join, for one routine. It has no contract of its own; `Routines.LeftJoinSum` states what it sums to. |
| `Routines.SegmentsOf` | backend/src/routines/routines.repository.ts:16 | The join on `routines.segments` pairs a routine with exactly the segments that reference it. |
| `Routines.SqlSum` | backend/src/routines/routines.repository.ts:17 | SQL `SUM` is NULL exactly when every value in the column is NULL. |
| `Routines.SqlSumAppend` | backend/src/routines/routines.repository.ts:17 | `SUM` over two groups of rows combines their sums, with NULL as the identity. |
| `Routines.SqlSumPresent` | backend/src/routines/routines.repository.ts:17 | `SUM` over non-NULL values is their arithmetic sum. An empty column gives NULL. |
| `Routines.LeftJoinSum` | backend/src/routines/routines.repository.ts:16-17 | After the left join, `SUM(segments.duration)` is the routine's total. A routine without segments gets NULL. |
| `Routines.OwnedBy` | backend/src/routines/routines.repository.ts:15 | The instructor filter keeps exactly the stored routines whose `instructorId` is the argument. |
| `Routines.InstructorRow` | backend/src/routines/routines.repository.ts:17 | The selected columns of one group of the instructor list. It has no contract of its own; `Routines.InstructorListColumns` and `Routines.InstructorListTotals` state its columns. |
| `Routines.Rows` | backend/src/routines/routines.repository.ts:17-18 | `GROUP BY routines.id` gives one result row per routine, in order. |
| `Routines.GetReducedRoutinesForInstructor` | backend/src/routines/routines.repository.ts:12-21 | The instructor list has one row per owned routine. |
| `Routines.InstructorListScope` | backend/src/routines/routines.repository.ts:15-18 | An id appears in the instructor list if and only if the instructor owns a stored routine with that id. |
| `Routines.RowsNameTheirRoutines` | backend/src/routines/routines.repository.ts:17-18 | The grouped rows name exactly the ids of the routines that were grouped. |
| `Routines.InstructorListOrder` | backend/src/routines/routines.repository.ts:18-19 | Under the primary key, the instructor list has no id twice and lists routines newest first. |
| `Routines.InstructorListColumns` | backend/src/routines/routines.repository.ts:17 | Under the primary key, each row's `name` and `description` are those of the stored routine its id names. |
| `Routines.InstructorListTotals` | backend/src/routines/routines.repository.ts:16-18 | Each instructor-list total is the sum of the routine's segment durations. It is NULL for a routine without segments. |
| `Routines.AssignmentCount` | backend/src/routines/routines.repository.ts:26-28 | The count of assignment rows for a (student, routine) pair is positive exactly when such a row exists. |
| `Routines.AssignedTo` | backend/src/routines/routines.repository.ts:26-28 | The inner join and the student filter keep exactly the stored routines that have an assignment row naming the student. |
| `Routines.StudentJoinColumn` | backend/src/routines/routines.repository.ts:26-27 | The column `segments.duration` of the inner and left joins, for one routine. It has no contract of its own; `Routines.StudentJoinSum` states what it sums to. |
| `Routines.StudentRow` | backend/src/routines/routines.repository.ts:29 | The selected columns of one group of the student list. It has no contract of its own; `Routines.StudentListColumns` and `Routines.StudentListTotals` state its columns. |
| `Routines.GetReducedRoutinesForStudent` | backend/src/routines/routines.repository.ts:23-33 | The student list has one row per assigned routine. |
| `Routines.StudentJoinSum` | backend/src/routines/routines.repository.ts:26-29 | With k assignment rows for the pair, `SUM` over the joined rows is k times the routine's total. It is NULL when k is 0 or the routine has no segments. |
| `Routines.RepeatedTotalSucc` | backend/src/routines/routines.repository.ts:26-29 | One more duplicate assignment row adds one more copy of the routine's total to the sum. |
| `Routines.StudentListScope` | backend/src/routines/routines.repository.ts:26-30 | An id appears in the student list if and only if a stored routine has that id and an assignment row links it to the student. |
| `Routines.StudentListOrder` | backend/src/routines/routines.repository.ts:30-31 | Under the primary key, the student list has no id twice and lists routines newest first. |
| `Routines.StudentListColumns` | backend/src/routines/routines.repository.ts:29 | Under the primary key, each row's `name` and `description` are those of the stored routine its id names. |
| `Routines.StudentListTotals` | backend/src/routines/routines.repository.ts:26-30 | Each student-list total is the true total times the number of assignment rows for the pair, or NULL without segments; with two or more rows it differs from the true total unless that total is 0. |
| `Routines.FindUser` | backend/src/routines/routines.repository.ts:41 | The joined student is a stored user with the assignment's student id. When none is found, no such user exists. |
| `Routines.RosterOf` | backend/src/routines/routines.repository.ts:40-41 | The roster has one entry per assignment row, in order. Each entry carries its row and the user the student join finds for that row's student id, or none. |
| `Routines.Roster` | backend/src/routines/routines.repository.ts:40-41 | The roster holds exactly the routine's assignment rows: every entry is one of them, and every one of them has an entry. Each entry's student is the user that row names. |
| `Routines.ReduceDurations` | backend/src/routines/routines.repository.ts:45 | The `reduce` adds every segment's duration to its initial value. |
| `Routines.GetFullRoutine` | backend/src/routines/routines.repository.ts:35-49 | The instructor detail succeeds if and only if a stored routine matches both the id and the instructor. On success it carries that routine's segments, its complete roster with each student, and the sum of its segments (0 when it has none). Otherwise reading `result.segments` throws. |
| `Routines.OtherInstructorsRoutine` | backend/src/routines/routines.repository.ts:38-45 | Under the primary key, asking for a routine owned by another instructor throws, with no null guard. |
| `Routines.ListAndDetailAgree` | backend/src/routines/routines.repository.ts:12-49 | Every routine in the instructor list opens in the detail query. The detail total equals the list total, with the list's NULL read as 0. |
| `Routines.GetFullRoutineForStudent` | backend/src/routines/routines.repository.ts:51-64 | The student detail is null unless a stored routine has the id and an assignment row links the student to it. On success it carries the routine's segments, no roster, and a total of 0 whatever the segments are. |
| `AuthToken.DateValue` | backend/src/utils/useAuthToken.ts:9 | The time value of `new Date(exp)`, or `NaN` outside the `Date` range. It has no contract of its own; `AuthToken.UseAuthToken`, `AuthToken.ExpiryBoundary` and `AuthToken.MissingExpNeverExpires` state what it means. |
| `AuthToken.UseAuthToken` | backend/src/utils/useAuthToken.ts:4-19 | A failed decode gives `Token is invalid`. Otherwise `sub` and `role` are copied from the payload, and `isExpired` holds if and only if `exp * 1000 <= now` in milliseconds. |
| `AuthToken.ExpiryMonotone` | backend/src/utils/useAuthToken.ts:14 | A token expired at some time is still expired at every later time. |
| `AuthToken.ExpiryBoundary` | backend/src/utils/useAuthToken.ts:14 | The comparison is inclusive: a token is expired at exactly `exp * 1000` ms and not one millisecond earlier. |
| `AuthToken.MissingExpNeverExpires` | backend/src/utils/useAuthToken.ts:9-14 | A payload without `exp` is never expired, because the comparison is against `NaN`. |
| `StudentApi.RoutineDetailPath` | ui/src/services/api/StudentService.ts:27-29 | The detail path is `/routines/` followed by digits that read back as the routine id, with no leading zero, as `${routineId}` writes them. |
| `StudentApi.RoutineDetailPathInjective` | ui/src/services/api/StudentService.ts:27-29 | Different routine ids are requested on different paths. |
| `StudentApi.CachedStudent` | ui/src/services/api/StudentService.ts:9-15 | A profile is taken from the cache if and only if the stored `student` entry is non-empty and parses to a profile with an instructor; that profile is the one returned. |
| `StudentApi.StoredProfileIsServed` | ui/src/services/api/StudentService.ts:13-18 | A stored profile with an instructor is served from the cache next time, given that `JSON.parse` inverts `JSON.stringify`. One without an instructor falls through to the request. |
| `StudentApi.StudentService.Me` | ui/src/services/api/StudentService.ts:8-20 | A cache hit returns the cached profile and changes nothing. Otherwise `/me` is requested and its response returned as is; a success overwrites the cache entry with the data, and an error leaves the cache unchanged. |
| `RoutineDetailsScreen.NumberOf` | ui/src/features/routines/RoutineDetails.tsx:80-84 | `Number(id)` is truthy if and only if `id` is a non-empty digit string with some digit other than `0`. So `""`, `"0"` and `"00"` are falsy, and so is every non-digit string. |
| `RoutineDetailsScreen.TotalDuration` | ui/src/features/routines/RoutineDetails.tsx:137-141 | The accumulating loop yields the sum of the durations of the current segments. |
| `RoutineDetailsScreen.DurationTagShown` | ui/src/features/routines/RoutineDetails.tsx:216 | The condition `!!Number(totalDuration)` of the tag. It has no contract of its own; `RoutineDetailsScreen.DurationTagShownIff` states when it holds. |
| `RoutineDetailsScreen.DurationTagShownIff` | ui/src/features/routines/RoutineDetails.tsx:216 | The duration tag shows if and only if some segment has a nonzero duration. |
| `RoutineDetailsScreen.RoutineDetails.constructor` | ui/src/features/routines/RoutineDetails.tsx:35-40 | Initially there is no routine and no segments; the screen is loading, in view mode, with no message. |
| `RoutineDetailsScreen.RoutineDetails.ShowsNotFound` | ui/src/features/routines/RoutineDetails.tsx:86 | Not-found is rendered when loading has stopped and there is no routine. It has no contract of its own; `RoutineDetailsScreen.RoutineDetails.RetrieveRoutine` states when it holds after a fetch. |
| `RoutineDetailsScreen.RoutineDetails.RetrieveRoutine` | ui/src/features/routines/RoutineDetails.tsx:44-53 | The id is requested and loading stops. A fetched routine replaces `routine` and `segments`; a failed fetch leaves them unchanged. Not-found shows exactly when the fetch failed and no routine was shown. |
| `RoutineDetailsScreen.RoutineDetails.OnIdParam` | ui/src/features/routines/RoutineDetails.tsx:79-85 | A missing id, or one whose `Number` is falsy (`"0"`, `NaN`), stops loading without a request. Any other id is fetched as its number. |
| `RoutineDetailsScreen.RoutineDetails.ToggleEditMode` | ui/src/features/routines/RoutineDetails.tsx:55-70 | Entering edit mode clears the success message. Leaving it only opens the confirmation dialog, and edit mode stays on. |
| `RoutineDetailsScreen.RoutineDetails.ConfirmDialog` | ui/src/features/routines/RoutineDetails.tsx:64 | Confirming the open dialog closes it and leaves edit mode. |
| `RoutineDetailsScreen.RoutineDetails.CancelDialog` | ui/src/features/routines/RoutineDetails.tsx:61-69 | Dismissing the dialog closes it and keeps edit mode. |
| `RoutineDetailsScreen.RoutineDetails.OnEditSuccess` | ui/src/features/routines/RoutineDetails.tsx:72-77 | The saved routine replaces `routine` and `segments`, a non-empty success message is set, and view mode returns. |
| `SignupRoleStep.InvalidCode` | ui/src/features/signup/InitialRoleStep.tsx:69-71 | The code is invalid if and only if the role is student and the code is absent or shorter than 6 characters. |
| `SignupRoleStep.UpperChar` | ui/src/features/signup/InitialRoleStep.tsx:138 | An upper-cased character is never lower-case; a character that was not lower-case is kept. |
| `SignupRoleStep.ToUpperCase` | ui/src/features/signup/InitialRoleStep.tsx:138 | Upper-casing keeps the length, leaves no lower-case letter, keeps every other character, and shifts each lower-case letter to its capital. |
| `SignupRoleStep.UpperCaseIdempotent` | ui/src/features/signup/InitialRoleStep.tsx:138 | Upper-casing an upper-cased code changes nothing. |
| `SignupRoleStep.InitialRoleStep.constructor` | ui/src/features/signup/InitialRoleStep.tsx:53-57 | The role and code come from the initial data; there is no error, nothing submitted, nothing loading. |
| `SignupRoleStep.InitialRoleStep.OnCodeChange` | ui/src/features/signup/InitialRoleStep.tsx:138 | The entered code is stored upper-cased. |
| `SignupRoleStep.InitialRoleStep.ApplyTipoParam` | ui/src/features/signup/InitialRoleStep.tsx:96-103 | `tipo=alumno` selects student, `tipo=instructor` selects instructor, and any other value leaves the role unchanged. |
| `SignupRoleStep.InitialRoleStep.OnSubmit` | ui/src/features/signup/InitialRoleStep.tsx:73-94 | Every submit clears the error and marks the form submitted. Then: with no role nothing else happens; an instructor gets `onSuccess(INSTRUCTOR)` with no check made; a student with a short code gets no call at all; a check error or `valid == false` sets the rejection message and stops loading; a valid check calls `onSuccess(STUDENT, code, user.id, "first last")`. |
| `Sidebar.Selected` | ui/src/layout/sidebar/Sidebar.tsx:64 | A selected item's path is a prefix of the current path. `Sidebar.SelectedIff` states when it holds. |
| `Sidebar.SelectedIff` | ui/src/layout/sidebar/Sidebar.tsx:64 | An item is selected if and only if the current path is non-empty and is the item's path, or starts with it followed by `/`. |
| `Sidebar.NoPathSelectsNothing` | ui/src/layout/sidebar/Sidebar.tsx:64 | A missing or empty current path selects no item. |
| `Sidebar.PrefixWithoutSlashNotSelected` | ui/src/layout/sidebar/Sidebar.tsx:64 | A current path that continues the item path with any character other than `/` does not select the item. |
| `Sidebar.BoundaryRespected` | ui/src/layout/sidebar/Sidebar.tsx:64 | `/rutinas2` does not select `/rutinas`; `/rutinas/5` and `/rutinas` do. |
| `Sidebar.SelectedPathsNest` | ui/src/layout/sidebar/Sidebar.tsx:64 | Two item paths selected by the same current path lie one within the other. |
| `Sidebar.AtMostOneSelected` | ui/src/layout/sidebar/Sidebar.tsx:63-64 | If no item path lies within another, at most one item is selected. |
| `Sidebar.SidebarEntries` | ui/src/layout/sidebar/Sidebar.tsx:58-69 | There is one list entry per item, in order. Each is keyed by its label, and its `aria-current` and `selected` both equal the selection predicate. Every entry's link handler is the shared `handleClickLink`, which calls `onClose` exactly once. |
| `Decimal.DigitsValueZero` | ui/src/features/routines/RoutineDetails.tsx:80 | A digit string denotes 0 if and only if every digit is `0`. |
| `Decimal.FormatDigits` | ui/src/services/api/StudentService.ts:28 | A digit string without a leading zero is the decimal form of its own value. |
| `Decimal.Parse` | ui/src/features/routines/RoutineDetails.tsx:80 | A string reads as a number exactly when it is a non-empty run of digits. When it has no leading zero, `Decimal.Format` writes that number back as the same string, so `Parse` and `Format` are inverses on such strings. |
| `Decimal.ParseNonzero` | ui/src/features/routines/RoutineDetails.tsx:80 | A digit string denotes a nonzero number if and only if some digit is not `0`. |
| `Decimal.Format` | ui/src/services/api/StudentService.ts:28 | `${n}` of a natural number is a non-empty run of digits without a leading zero. |
| `Decimal.ParseFormat` | ui/src/services/api/StudentService.ts:28 | Reading back the decimal form of `n` gives `n`. |
| `Decimal.FormatInjective` | ui/src/services/api/StudentService.ts:28 | Different numbers have different decimal forms. |

## Left out

- The controller, the access-code service and its lookup, the update of a student's routines, `InstructorService` and `AlertToast` are not modelled. They are routing, wiring, wrappers over an API client that is not part of this model, or pure styling.
- SQL and TypeORM execution are modelled as filters, groups, sums and sorts over sequences:
  - `Routines.SortNewestFirst`: rows with equal `createdAt` keep their store order, which SQL leaves unspecified.
  - Postgres returns `SUM` as a string; the model keeps it as a number.
  - The order in which TypeORM hydrates the segments and roster of a detail is taken to be store order.
- The migration names its table `rutines_assignment(user_id)`, which differs from the `routines_instructors_students(student_id)` table the queries use. The model follows the queries.
- `Routines.GetFullRoutine`: the `SUM` column added at line 42 is not read by the code, so it is not modelled.
- Time is an integer number of milliseconds. `new Date(exp)` is valid only within the `Date` range of ±8.64e15. The comparison with `now / 1000` is done in real arithmetic, not in floating point.
- `jwt.decode` is any function from tokens to optional payloads. Signatures are not checked by the code and are not modelled.
- `RoutineDetailsScreen.NumberOf` covers only empty and all-digit strings. Other strings that JavaScript's `Number` accepts, such as `" 7"`, `"0x1F"` or `"1e3"`, are read as `NaN`.
- `SignupRoleStep.ToUpperCase` maps only ASCII letters, which are the characters an alphanumeric pin input accepts.
- `StudentApi.RoutineDetailPath` takes a natural number. `getRoutineDetail` accepts any JavaScript `number`, but its ids are database serials, so negative and fractional ids are not modelled.
- `Decimal.Format` does not model JavaScript's exponent notation for numbers of 1e21 and above.
- `StudentApi.CachedStudent`: the result of `JSON.parse` is modelled as a profile or a failure. A parsed value that is not an object, or whose `instructor` is falsy, counts as having no instructor.
- `RoutineUtils.initializeSegments` is an opaque function. The drag-and-drop segment state it builds is not modelled.
- JSX rendering, the dialog hook's internals, Chakra's radio group (`setRole` from the radio buttons), effect scheduling, memo dependencies and focus handling are not modelled. For `RoutineDetailsScreen.RoutineDetails.CancelDialog`, dismissing the dialog is taken to only close it.
- `Sidebar.SidebarEntries`: how often `SidebarItem` runs its `onLinkClick` handler per click is not part of this model. The model states only what the handler it is given does.
- The awaited responses are method arguments. Interleaving between an `await` and later user input is not modelled.
- `SignupRoleStep.InitialRoleStep.OnSubmit`: a valid check without a `user` throws at `user.id`. The model stops there with `loading` still true, and no error is shown.
