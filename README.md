# TaskFlow core in Dafny

This project models the logic behind TaskFlow, a small task-management web
application. The model covers five areas.

- **The task registry** (`TaskManager`) keeps tasks in a map ordered by
  insertion. It does three things:
  - It validates every task it creates or updates against six rules checked in
    a fixed order.
  - It reports every failure to the shared error channel.
  - It lists tasks in three views: by due date (list), by status (board), and
    by priority then due date (sprint).
- **The account registry** (`LoginHandler`) keeps users and a case-insensitive
  index from e-mail addresses to user ids. It registers accounts after five
  checks in order (e-mail format, duplicate address, password length, an
  upper-case letter, a digit) and logs users in.
- **The error channel** (`ErrorHandler`) is a single shared list of errors with
  subscribed listeners. Every change to the list hands each listener a
  snapshot of the new list, in subscription order.
- **The generic task sort** (`sortTasks`) sorts tasks by due date, priority,
  status, creation time or title, ascending or descending. The header's sort
  controls (`handleSortChange`, `getSortIcon`) are modelled with it.
- **The task form**: the defaults of a new or edited task, and how its tag
  text is turned into a list of tags.

JavaScript's built-ins that the core relies on are modelled as small modules:
- `JsArray`: `filter`, `map`.
- `JsString`: `trim`, `split`, `join`, ASCII `toLowerCase`.
- `JsMap`: a `Map` that keeps insertion order.
- `JsSort`: `Array.prototype.sort`, which is stable, modelled as insertion
  sort both as a function and in place on an array.

`TaskManager`, `LoginHandler` and `ErrorHandler` are classes whose methods
update their fields. Each method's postcondition ties the new state to a pure
function of the old state. The lemmas prove what those functions promise.

The outside world enters as parameters:
- the clock (`now`);
- the UUID generator (`freshId`, `errorId`);
- `localeCompare` (`collate`);
- `Date.toISOString` and `new Date(string)` (`toIsoString`, `parseDate`);
- the priority and status weight tables that `sortTasks` imports (`WeightTables`).

Where the documented behaviour differs from the code, the code is followed:
- **Due date.** A task is rejected as soon as its due date is earlier than
  the current instant. There is no grace period.
- **Unknown sort field.** It compares every pair as equal, so the sort keeps
  the input order. It does not fall back to the creation time.
- **Tags at validation.** Validation counts and measures tags as given,
  without trimming them. Only the form trims tags.
- **Titles.** They are compared with `localeCompare`, which is a parameter
  here, not a case-folding compare.
- **Ascending then reversed is not descending.** The sort is stable, so tied
  tasks keep their input order in both directions. Reversing the ascending
  result therefore differs from the descending result
  (`SortUtils.ReversedAscendingIsNotDescending`). Stability itself is proved
  instead (`SortUtils.SortTasksIsStable`).

Two consequences of the code are proved as stated:
- **Overdue tasks.** Once a stored task is overdue, every update that leaves
  its due date alone is rejected (`TaskManagement.OverdueTaskRejectsUpdates`).
- **Updates that change the id.** The task stays under its old key, so keys
  and ids stay matched only when the update leaves the id alone
  (`TaskManagement.UpdateKeepsKeysMatchingIdsIff`).

## Model

| member | source | states |
|---|---|---|
| Tasks.NewTaskDefaults | src/models/Task.ts:25-35 | the constructor keeps a given non-empty id and takes a fresh one when the id is absent or empty; it copies title, description, due date and priority; it defaults status to TODO, tags to empty and both timestamps to the current instant |
| Tasks.NewTaskRebuilds | src/models/Task.ts:25-35 | given every field explicitly, the constructor rebuilds the task exactly, whatever the clock and id generator return |
| Users.NewUserDefaults | src/models/User.ts:17-23 | the constructor keeps a given non-empty id and takes a fresh one when the id is absent or empty; it copies e-mail and password, and defaults both timestamps to the current instant |
| Users.NewUserAcceptsOnlyItsPassword | src/models/User.ts:26-28 | a newly built user accepts exactly the password it was built with |
| Users.ToJSONOmitsPassword | src/models/User.ts:31-38 | the public view holds id, e-mail and both timestamps, and no change of password can show in it |
| Users.RefreshedKeepsIdentity | src/services/LoginHandler.ts:49-53 | rebuilding a user from its public view plus its own password changes only the last-login time and still accepts exactly that password |
| Validation.FirstFailure | src/services/TaskManager.ts:27-46 | a sequence of checks reports nothing exactly when every check passes |
| Validation.FirstFailureAt | src/services/TaskManager.ts:27-46 | when check i is the first that fails, its message is the one reported |
| TaskManagement.ValidateTask | src/services/TaskManager.ts:27-46 | validation passes exactly when the task meets all six rules at the given instant |
| TaskManagement.ValidationReportsFirstBrokenRule | src/services/TaskManager.ts:28-45 | for each of the six messages: it is reported exactly when its rule is broken and every earlier rule holds |
| TaskManagement.PatchMergesFieldwise | src/services/TaskManager.ts:62 | an empty update only stamps the update time; a supplied update time is ignored; applying the same update twice equals applying it once; an update giving every field replaces the task except for the stamp |
| TaskManagement.OverdueTaskRejectsUpdates | src/services/TaskManager.ts:37-39 | an update that leaves an overdue task's due date alone always fails validation |
| TaskManagement.CreateKeepsKeysMatchingIds | src/services/TaskManager.ts:17 | storing a task under its own id keeps every key equal to its task's id |
| TaskManagement.UpdateKeepsKeysMatchingIdsIff | src/services/TaskManager.ts:62-64 | after an update, keys still match ids if and only if the update supplies no id or the same id |
| TaskManagement.ViewComparisonIsConsistent | src/services/TaskManager.ts:90-104 | each view's comparator is antisymmetric in sign, transitive, and has transitive ties |
| TaskManagement.ViewOrder | src/services/TaskManager.ts:86-107 | each view returns a permutation of the tasks in which any earlier task is no later by due date (list), no later by status rank (board), or by priority rank then due date (sprint), and tied tasks keep their stored order |
| TaskManagement.TaskManager.constructor | src/services/TaskManager.ts:9-11 | a new registry is empty and reports to the shared error channel, the existing one if there is one |
| TaskManagement.TaskManager.CreateTask | src/services/TaskManager.ts:13-25 | a valid new task is stored under its id and returned, with the channel untouched; an invalid one is not stored, and the first broken rule's message is added to the channel |
| TaskManagement.TaskManager.GetTask | src/services/TaskManager.ts:48-54 | returns the stored task, or nothing after adding "Task not found" to the channel |
| TaskManagement.TaskManager.UpdateTask | src/services/TaskManager.ts:56-72 | an unknown id reports "Task not found"; a known id gets the merged task stamped with the current instant, which is stored only if it validates, and otherwise reports the first broken rule; stored tasks keep meeting the rules |
| TaskManagement.TaskManager.DeleteTask | src/services/TaskManager.ts:74-80 | returns true exactly when the id was stored, and then removes only that entry; otherwise it reports "Cannot delete: Task not found" and changes nothing |
| TaskManagement.TaskManager.GetAllTasks | src/services/TaskManager.ts:82-84 | a new array of the stored tasks in insertion order |
| TaskManagement.TaskManager.GetTasksByView | src/services/TaskManager.ts:86-114 | a new array holding exactly the stored tasks, in the view's order |
| Accounts.IsValidEmailMatchesPattern | src/services/LoginHandler.ts:33-36 | the e-mail check accepts exactly the strings of the form x@y.z: one '@' with non-empty non-whitespace text on each side, and a '.' after the '@' with non-empty text on both sides of it |
| Accounts.AcceptedEmailMatches | src/services/LoginHandler.ts:33-36 | every accepted e-mail has that form |
| Accounts.MatchingEmailAccepted | src/services/LoginHandler.ts:33-36 | every string of that form is accepted |
| Accounts.ValidateNewUser | src/services/LoginHandler.ts:15-31 | registration passes exactly when the e-mail is well formed, its lower-cased form is not registered, and the password has at least 8 characters, an upper-case letter and a digit |
| Accounts.RegistrationReportsFirstBrokenRule | src/services/LoginHandler.ts:15-31 | for each of the five messages: it is reported exactly when its rule is broken and every earlier rule holds |
| Accounts.CaseVariantIsRejected | src/services/LoginHandler.ts:19-21 | an address that differs from a registered one only in letter case is rejected |
| Accounts.RegisterKeepsConsistent | src/services/LoginHandler.ts:10-11 | adding a new user and indexing its lower-cased e-mail keeps the index and the user map in agreement |
| Accounts.ReplaceKeepsConsistent | src/services/LoginHandler.ts:54 | replacing a user by one with the same id and e-mail keeps the index and the user map in agreement |
| Accounts.LoginHandler.constructor | src/services/LoginHandler.ts:4-5 | a new handler has no users and an empty index |
| Accounts.LoginHandler.EmailsAreUniqueUpToCase | src/services/LoginHandler.ts:19-21 | no two stored users have e-mails that are equal ignoring case |
| Accounts.LoginHandler.GetUserByEmail | src/services/LoginHandler.ts:58-61 | finds a user exactly when the lower-cased e-mail is indexed, and the user found has that e-mail up to case |
| Accounts.LoginHandler.LookupIgnoresCase | src/services/LoginHandler.ts:58-61 | two e-mails equal up to case find the same user |
| Accounts.LoginHandler.CreateAccount | src/services/LoginHandler.ts:7-13 | a rejected registration returns the first failing message and changes nothing; an accepted one stores the new user under its id, indexes its lower-cased e-mail, and makes the user findable by that e-mail |
| Accounts.LoginHandler.Login | src/services/LoginHandler.ts:38-56 | an unknown e-mail fails with "User not found"; a wrong password fails with "Invalid credentials"; otherwise the user is replaced by itself with its last login set to now, and returned |
| Accounts.LoginHandler.GetAllUsers | src/services/LoginHandler.ts:63-65 | a new array of the users in registration order |
| ErrorChannel.NotifiedHandsOutSnapshot | src/utils/ErrorHandler.ts:59-61 | notifying keeps both lists and earlier deliveries, and hands every listener the current list in subscription order |
| ErrorChannel.ListChanges | src/utils/ErrorHandler.ts:22-57 | adding appends exactly the new entry; clearing empties the list; subscribing appends exactly the listener; none changes the other list |
| ErrorChannel.RemoveKeepsOthers | src/utils/ErrorHandler.ts:38-41 | removal keeps exactly the entries with another id, and the listeners (their order is stated by `ErrorChannel.RemoveKeepsOrder`) |
| ErrorChannel.RemoveKeepsOrder | src/utils/ErrorHandler.ts:38-41 | removing the one entry with a given id cuts it out and leaves every other entry in its order |
| ErrorChannel.RemoveAbsentIsNoop | src/utils/ErrorHandler.ts:38-41 | removing an id nobody has leaves the list unchanged |
| ErrorChannel.ExpiryUndoesAdd | src/utils/ErrorHandler.ts:29-35 | the timed removal of a freshly added entry restores the list as it was before the addition |
| ErrorChannel.UnsubscribeUndoesSubscribe | src/utils/ErrorHandler.ts:52-57 | calling the function `subscribe` returns restores the channel when that listener was not already subscribed |
| ErrorChannel.UnsubscribeKeepsOthers | src/utils/ErrorHandler.ts:54-56 | unsubscribing drops that listener and keeps every other one (their order is stated by `ErrorChannel.UnsubscribeKeepsOrder`) |
| ErrorChannel.UnsubscribeKeepsOrder | src/utils/ErrorHandler.ts:54-56 | unsubscribing a listener registered once cuts it out and leaves every other listener in its order, so later notifications reach them in the same order |
| ErrorChannel.ErrorHandler.constructor | src/utils/ErrorHandler.ts:9-13 | a new channel has no errors, no listeners and no deliveries |
| ErrorChannel.ErrorHandler.AddError | src/utils/ErrorHandler.ts:22-31 | the entry is appended and every listener is notified |
| ErrorChannel.ErrorHandler.RemoveError | src/utils/ErrorHandler.ts:38-41 | entries with that id are dropped and every listener is notified |
| ErrorChannel.ErrorHandler.Expire | src/utils/ErrorHandler.ts:33-35 | the timer's callback: the same effect as removing that id |
| ErrorChannel.ErrorHandler.GetErrors | src/utils/ErrorHandler.ts:43-45 | returns a copy of the current list |
| ErrorChannel.ErrorHandler.ClearErrors | src/utils/ErrorHandler.ts:47-50 | the list becomes empty and every listener is notified |
| ErrorChannel.ErrorHandler.Subscribe | src/utils/ErrorHandler.ts:52-53 | the listener is appended and nobody is notified |
| ErrorChannel.ErrorHandler.Unsubscribe | src/utils/ErrorHandler.ts:54-56 | every registration of the listener is dropped and nobody is notified |
| ErrorChannel.ErrorHandler.NotifyListeners | src/utils/ErrorHandler.ts:59-61 | each listener, in order, receives a snapshot of the current list |
| ErrorChannel.ErrorHandlerSlot.GetInstance | src/utils/ErrorHandler.ts:15-20 | returns the existing instance if there is one; otherwise creates, stores and returns a new empty one |
| SortUtils.CompareValuesAntisymmetric | src/utils/sortUtils.ts:10-23 | a is before b exactly when b is after a, given `localeCompare` is antisymmetric |
| SortUtils.CompareValuesTiesTransitive | src/utils/sortUtils.ts:10-23 | two values tied with a third are tied with each other, given the same of `localeCompare` |
| SortUtils.TaskComparisonAntisymmetric | src/utils/sortUtils.ts:8-62 | the comparator passed to `sort` is antisymmetric in sign, for every field and order |
| SortUtils.TaskComparisonTiesTransitive | src/utils/sortUtils.ts:8-62 | the comparator's ties are transitive, for every field and order |
| SortUtils.WeightsDecide | src/utils/sortUtils.ts:32-46 | by priority or status, two tasks compare exactly as their weights do |
| SortUtils.DescendingNegates | src/utils/sortUtils.ts:61 | the descending comparison is the ascending one negated |
| SortUtils.SortTasksOrders | src/utils/sortUtils.ts:4-65 | the result is a permutation of the input whose adjacent pairs are non-decreasing by the field when ascending and non-increasing when descending |
| SortUtils.SortTasksIsStable | src/utils/sortUtils.ts:8-62 | tasks that tie on the field keep their input order, in both directions |
| SortUtils.UnknownFieldKeepsOrder | src/utils/sortUtils.ts:56-57 | sorting by an unknown field returns the input unchanged |
| SortUtils.ReversedAscendingIsNotDescending | src/utils/sortUtils.ts:61 | two tasks with equal priority come out in input order both ascending and descending, so reversing the ascending result is not the descending one |
| SortUtils.SortTasks | src/utils/sortUtils.ts:4-65 | a fresh array holding the input sorted by the task comparator, a permutation of it, and the input itself when the field is unknown |
| LayoutLogic.SortChangeOutcome | src/components/layout/Layout.tsx:36-54 | clicking the active field flips its order; clicking another field sorts it ascending; the new field is the one clicked and both weight tables are emptied |
| LayoutLogic.SortChangeTwiceRestoresOrder | src/components/layout/Layout.tsx:36-54 | clicking the same field twice restores the active field's order, and leaves a new field descending |
| LayoutLogic.SortIconShowsOrder | src/components/layout/Layout.tsx:56-59 | only the active field shows an arrow: up exactly when ascending, down exactly when descending |
| LayoutLogic.ToggleReversesComparison | src/components/layout/Layout.tsx:37-44 | re-clicking the active field makes the sort compare every pair the opposite way |
| TaskFormLogic.NewFormDefaults | src/components/task/TaskForm.tsx:20-28 | a new form has empty title, description, date and tags, medium priority, and its tag text parses to no tags |
| TaskFormLogic.EditFormRoundTrip | src/components/task/TaskForm.tsx:20-39 | submitting an unedited form for a task gives back its title, description, priority and tags, provided the tags are clean |
| TaskFormLogic.ParsedTagsAreClean | src/components/task/TaskForm.tsx:37 | every parsed tag is non-empty, has no comma, and has no surrounding whitespace |
| TaskFormLogic.ParseTagsAppend | src/components/task/TaskForm.tsx:37 | parsing text joined by a comma gives the tags of each part, concatenated |
| TaskFormLogic.ParseTagsSkipsLeadingSpace | src/components/task/TaskForm.tsx:37 | a leading space does not change the parsed tags |
| TaskFormLogic.ParseSingleTag | src/components/task/TaskForm.tsx:37 | a clean tag parses to exactly itself |
| TaskFormLogic.ParseTagsOfJoin | src/components/task/TaskForm.tsx:28-37 | tags joined with ", " for display parse back to the same tags |
| TaskFormLogic.TrimAddsNoComma | src/components/task/TaskForm.tsx:37 | trimming a comma-free piece leaves it comma-free |
| JsString.Trim | src/components/task/TaskForm.tsx:37 | the result has no leading or trailing whitespace, and a trimmed string is unchanged |
| JsString.TrimKeepsMiddle | src/components/task/TaskForm.tsx:37 | the result is a contiguous slice with only whitespace removed on either side |
| JsString.TrimLeadingSpace | src/components/task/TaskForm.tsx:37 | a leading space does not change the trimmed result |
| JsString.Split | src/components/task/TaskForm.tsx:37 | at least one piece, none containing the separator |
| JsString.JoinOfSplit | src/components/task/TaskForm.tsx:37 | joining the pieces with the separator gives back the string |
| JsString.SplitOfJoin | src/components/task/TaskForm.tsx:28-37 | splitting separator-free pieces joined with the separator gives back the pieces |
| JsString.SplitWithoutSeparator | src/components/task/TaskForm.tsx:37 | a string without the separator splits into itself alone |
| JsString.SplitAround | src/components/task/TaskForm.tsx:37 | splitting around one separator concatenates the pieces of both sides |
| JsString.ToLower | src/services/LoginHandler.ts:11 | keeps the length, turns each upper-case ASCII letter into its lower-case partner, and changes nothing else |
| JsString.ToLowerIdempotent | src/services/LoginHandler.ts:19 | lower-casing twice equals lower-casing once |
| JsArray.Filter | src/utils/ErrorHandler.ts:39 | the result is no longer than the input |
| JsArray.FilterMembers | src/utils/ErrorHandler.ts:39 | the result holds exactly the input elements that pass the test |
| JsArray.FilterAppend | src/utils/ErrorHandler.ts:39 | filtering a concatenation concatenates the filtered parts |
| JsArray.FilterKeepsAll | src/utils/ErrorHandler.ts:55 | when everything passes the test, the result is the input |
| JsArray.FilterKeepsDistinct | src/utils/ErrorHandler.ts:55 | filtering keeps a list free of duplicates |
| JsArray.FilterRemovesOne | src/utils/ErrorHandler.ts:39 | filtering out one rejected element that every other element passes leaves the others in their order |
| JsArray.DropOne | src/services/TaskManager.ts:79 | filtering a duplicate-free sequence by "is not x" cuts x out where it stood |
| JsArray.MapAppend | src/components/task/TaskForm.tsx:37 | mapping a concatenation concatenates the mapped parts |
| JsMap.OrderedMap.GetAfterUpdates | src/services/TaskManager.ts:48-80 | after storing a value under a key, reading that key yields the value; after deleting a key, reading it yields nothing; other keys read as before |
| JsMap.OrderedMap.Set | src/services/TaskManager.ts:17 | the key maps to the new value and every other key is unchanged; a new key goes last in iteration order, and an existing key keeps its place |
| JsMap.OrderedMap.Delete | src/services/TaskManager.ts:79 | the key is gone, every other key keeps its value, and the remaining keys keep their insertion order with the deleted one cut out |
| JsMap.OrderedMap.ValuesAreTheEntries | src/services/TaskManager.ts:83 | every stored value is listed, and each listed value is the one stored under its key |
| JsMap.OrderedMap.ValuesAfterSet | src/services/TaskManager.ts:17 | storing a new key appends its value; replacing a key changes its value in place |
| JsSort.InsertionSort | src/utils/sortUtils.ts:8 | sorting keeps the length |
| JsSort.InsertSplits | src/utils/sortUtils.ts:8 | an insertion puts the element after every element not greater than it and before the greater ones that follow |
| JsSort.SortPermutes | src/utils/sortUtils.ts:8 | the result is a permutation of the input |
| JsSort.SortSorts | src/utils/sortUtils.ts:8 | every adjacent pair of the result compares at most 0, given an antisymmetric comparator |
| JsSort.SortKeepsSortedInput | src/utils/sortUtils.ts:8 | an already sorted input is returned unchanged |
| JsSort.SortIsStable | src/utils/sortUtils.ts:8 | elements the comparator ties keep their input order |
| JsSort.AdjacentSortedIsSorted | src/services/TaskManager.ts:90-104 | with a transitive comparator, sorted adjacent pairs make every pair sorted |
| JsSort.InsertAt | src/utils/sortUtils.ts:8 | shifting one element into a sorted prefix of an array leaves exactly the functional insertion there, and the rest unchanged |
| JsSort.SortInPlace | src/services/TaskManager.ts:91 | sorting an array in place leaves it holding the functional sort of its old contents |

## Left out

- Rendering, the React components' state and the authentication context (`AuthProvider`, `TaskFlow`, the rest of `Layout` and `TaskForm`) are not part of this model. Only the logic of the form's defaults and tag parsing and the header's sort controls is modelled.
- Listeners are opaque references. What a listener does when called, including calling back into the channel, is not modelled. The model records which listener received which snapshot.
- The five-second timer of `addError` is not scheduled. Its callback is the separate operation `ErrorChannel.ErrorHandler.Expire`, and any interleaving of operations is possible.
- The clock, UUID generation, `localeCompare`, `toISOString` and date parsing are parameters. Each operation reads the clock once.
- Invalid dates (`NaN` times) are not modelled, because dates are integer milliseconds. This hides one behaviour. A new form's due date text is empty, and `new Date('')` is an invalid date. Such a date passes the past-due check, because every comparison with `NaN` is false. It then ties with every date when sorting.
- String lengths count Unicode scalar values, not UTF-16 code units. `toLowerCase` is modelled for ASCII letters only.
- The values of `PRIORITY_ORDER` and `STATUS_ORDER` are a parameter (`WeightTables`), because the module `sortTasks` imports them from does not define them. The `priorityOrder` and `statusOrder` fields of a sort configuration are carried, but `sortTasks` never reads them.
- SortUtils.CompareValues: requires both values to be of the same kind. `sortTasks` always compares two values of the same field, so mixed kinds never reach it.
- Accounts.LoginHandler.CreateAccount: requires the fresh id to be unused and non-empty, because generated UUIDs are taken never to collide.
- `getTasksByView` has a `catch` branch and a `default` branch. The `catch` branch is unreachable here because every comparator is total. The `default` branch is unreachable because the view type has only three values.
- Tasks and users are values. JavaScript shares task objects by reference, and a caller that mutates a returned task mutates the stored one. That aliasing is not modelled.
- The `field` of an error is modelled, but the registries never supply one.
