# Task manager: a verified model of the component's state machine

The task manager is a single React component (`src/App.js`). It shows a login
form until a demo user logs in. After that it shows a list of tasks that can
be added, edited, deleted and marked complete. This project models the
component's state and event handlers in Dafny, without the rendering.

- `text.dfy`, module `Text`: JavaScript's `String.prototype.trim` over the
  ECMAScript whitespace and line-terminator code points. It includes the
  proof that trimming yields `""` exactly when the string is all whitespace.
  That is the test behind the form's `!formData.title.trim()` guard.
- `tasks.dfy`, module `Tasks`: the `Task` and `Draft` records, the three demo
  tasks and the empty draft. It also holds the pure list computations inside
  the handlers, proved against their properties:
  - `UpdateWhere`, the `tasks.map` of an update;
  - `ToggleWhere`, the `tasks.map` of a completion toggle;
  - `RemoveId`, the `tasks.filter` of a delete.
- `session.dfy`, module `Session`: the fixed credential table, the
  credential check and the login error message.
- `priority.dfy`, module `Priority`: `getPriorityColor`.
- `app.dfy`, module `App`: class `TaskManager`. Its fields are the
  component's eight state variables. Each handler is a method that changes
  those fields, with a postcondition giving the whole new state in terms of
  the old one. A ghost predicate `Valid()` says task ids are unique; every
  handler keeps it, and `Add` keeps it when the id it is given is fresh. Two
  client methods run the demo scenarios: relogin after logout, and
  login-then-add.

The inputs the component reads from the outside world become parameters:
- the clock reading `Date.now()` used as a new task's id is `freshId`;
- the answer of the `window.confirm` dialog is `confirmed`.

The React effect that seeds the demo tasks is the explicit method `OnLogin`.
`Login` calls it when the logged-in flag goes from false to true, because
the effect depends on `[isLoggedIn]`.

Details of the component's behaviour that a reader might not expect:
- Saving an edit clears the edit target but does not reset `showAddForm`.
  If the add form was open when the edit started, the form stays open in
  add mode afterwards. `Update` and `Save` state this.
- Editing does not touch `showAddForm`.
- Delete and toggle act on every task carrying the id, and update acts on
  every task carrying the edit target's id. With unique ids that is at most
  one task (`UpdateChangesOnlyTarget`, `RemovePresentShrinksByOne`).
- The component does not itself guarantee unique ids: a new id is a
  millisecond timestamp. Uniqueness is proved under the assumption that
  `freshId` is not already in use.
- Whether an edit is in progress is decided by JavaScript truthiness, so an
  edit target with id 0 would count as "no edit". `Truthy` models this
  exactly. The demo ids are 1 to 3 and timestamps are positive, so the case
  does not arise in practice.

## Model

| member | source | states |
|---|---|---|
| `Text.TrimStart` | src/App.js:58 | the leading-whitespace cut of `trim`: the result is a suffix, what was cut is all whitespace, and the result does not start with whitespace |
| `Text.TrimEnd` | src/App.js:58 | the trailing-whitespace cut of `trim`: the result is a prefix, what was cut is all whitespace, and the result does not end with whitespace |
| `Text.TrimIsInnerSlice` | src/App.js:58 | `trim` returns a contiguous slice of its input with all-whitespace margins on both sides and non-whitespace at both of its ends |
| `Text.Trim` | src/App.js:58 | `.trim()` yields the empty string exactly when every character is whitespace (both directions) |
| `Text.CutsEmptyIffBlank` | src/App.js:82 | cutting leading then trailing whitespace leaves nothing exactly when the string is all whitespace |
| `App.TitleMissing` | src/App.js:82 | the save guard `!formData.title.trim()` rejects a draft exactly when its title is empty or all whitespace |
| `App.Truthy` | src/App.js:275 | the truthiness test on `editingTask`: false exactly for null and for the id 0 |
| `App.TaskManager.FormVisible` | src/App.js:224 | the form shows while the add flag is set or a truthy edit target is set, and is hidden when neither is |
| `Session.Authenticates` | src/App.js:38 | the credential check `validUsers[username] === password` accepts exactly the three demo pairs admin/password123, testuser/test123 and demo/demo |
| `Priority.PriorityColor` | src/App.js:108-115 | "high", "medium" and "low" each get their own badge styling; every other value, and only those, gets the neutral default |
| `Tasks.InitialTasksUnique` | src/App.js:22-26 | the demo tasks have the distinct ids 1, 2 and 3, non-empty titles and priorities among low/medium/high |
| `Tasks.AppendKeepsUnique` | src/App.js:60-66 | appending a task whose id is not in use keeps ids unique and adds exactly that id |
| `Tasks.Revise` | src/App.js:86 | `{...task, ...formData}` takes title, description and priority from the draft and keeps the task's id and completion flag |
| `Tasks.UpdateWhere` | src/App.js:84-88 | the update map keeps length, order, every id and every completion flag; tasks carrying the edit target's id get the draft's title, description and priority; every other task is unchanged |
| `Tasks.UpdateAbsentIsNoop` | src/App.js:84-88 | with no edit target, or one no task carries, the update map returns the list unchanged |
| `Tasks.UpdateKeepsIds` | src/App.js:84-88 | the update map keeps the set of ids |
| `Tasks.UpdateKeepsUnique` | src/App.js:84-88 | the update map keeps unique ids unique |
| `Tasks.UpdateChangesOnlyTarget` | src/App.js:84-88 | with unique ids the update revises exactly the task at the target's position and no other |
| `Tasks.ToggleWhere` | src/App.js:101-105 | the toggle map flips `completed` on tasks with the given id and changes no other field, no other task, the length or the order |
| `Tasks.ToggleTwice` | src/App.js:101-105 | toggling the same id twice gives back the original list |
| `Tasks.ToggleAbsentIsNoop` | src/App.js:101-105 | toggling an id no task carries leaves the list unchanged |
| `Tasks.ToggleKeepsIds` | src/App.js:101-105 | the toggle map keeps the set of ids |
| `Tasks.ToggleKeepsUnique` | src/App.js:101-105 | the toggle map keeps unique ids unique |
| `Tasks.RemoveId` | src/App.js:96 | the filter keeps exactly the tasks of the list whose id differs from the deleted one |
| `Tasks.RemoveIsSubsequence` | src/App.js:96 | the filter's result is a subsequence of the list: the remaining tasks keep their relative order |
| `Tasks.RemoveConcat` | src/App.js:96 | filtering a concatenation is the concatenation of the filtered parts (order is preserved piecewise) |
| `Tasks.RemoveAbsentIsNoop` | src/App.js:96 | deleting an id no task carries leaves the list unchanged |
| `Tasks.RemoveKeepsIds` | src/App.js:96 | after the filter the deleted id is gone and every other id remains |
| `Tasks.RemoveKeepsUnique` | src/App.js:96 | the filter keeps unique ids unique |
| `Tasks.RemovePresentShrinksByOne` | src/App.js:94-98 | with unique ids, a confirmed delete of a present id shortens the list by exactly one |
| `App.TaskManager.constructor` | src/App.js:5-12 | the initial state: logged out, no user, no tasks, no edit target, form closed, empty draft with priority "medium", empty login form, no error |
| `App.TaskManager.SetLoginUsername` | src/App.js:143 | the username input replaces the login form's username only |
| `App.TaskManager.SetLoginPassword` | src/App.js:159 | the password input replaces the login form's password only |
| `App.TaskManager.SetTitle` | src/App.js:237 | the title input replaces the draft's title only |
| `App.TaskManager.SetDescription` | src/App.js:249 | the description input replaces the draft's description only |
| `App.TaskManager.SetPriority` | src/App.js:261 | the priority select replaces the draft's priority only |
| `App.TaskManager.OnLogin` | src/App.js:28-32 | the seeding effect: when logged in with an empty list, the list becomes the three demo tasks; otherwise it is unchanged; unique ids are kept |
| `App.TaskManager.Login` | src/App.js:34-45 | on a pair in the table: logged in, current user is the username, login form cleared, error cleared, and demo tasks seeded if this logged the user in with an empty list; on any other pair: login flag, user, form and tasks unchanged and the error is "Invalid username or password"; the task form is untouched either way |
| `App.TaskManager.Logout` | src/App.js:47-54 | from any state: logged out, no user, no tasks, no edit target, form closed, draft at defaults with priority "medium" |
| `App.TaskManager.OpenAddForm` | src/App.js:214 | the add button opens the form |
| `App.TaskManager.Add` | src/App.js:56-69 | a blank title changes nothing; otherwise exactly one task is appended after the unchanged old list, with the given id, the draft's fields and `completed = false`; the draft is reset and the form flag cleared; the edit target and session are untouched; the new id joins the set of ids, and unique ids stay unique when it is fresh |
| `App.TaskManager.Edit` | src/App.js:71-78 | the task's id becomes the edit target and its title, description and priority become the draft; the add-form flag is not touched |
| `App.TaskManager.Update` | src/App.js:80-92 | a blank title changes nothing; otherwise the list becomes the update map of the old list, the edit target is cleared and the draft reset, and the add-form flag keeps its value; the set of ids and their uniqueness are kept |
| `App.TaskManager.Delete` | src/App.js:94-98 | unconfirmed: the list is unchanged; confirmed: the list is the filter of the old list, the id leaves the set of ids, and with unique ids a present id shortens the list by exactly one; unique ids are kept |
| `App.TaskManager.Toggle` | src/App.js:100-106 | the list becomes the toggle map of the old list; the set of ids and their uniqueness are kept |
| `App.TaskManager.Save` | src/App.js:273-280 | the save button updates when the edit target is truthy and adds otherwise, with each branch's effect stated in full, including that a blank title changes nothing |
| `App.TaskManager.Cancel` | src/App.js:288-292 | the cancel button closes the form, clears the edit target and resets the draft, and leaves the tasks alone |
| `App.ReloginReseeds` | src/App.js:22-54 | logging out and back in with a valid pair leaves the user logged in with exactly the three demo tasks, whatever the list held before |
| `App.DemoScenario` | src/App.js:15-69 | logging in as demo/demo and adding "Write report" gives four tasks: the demo tasks, then the new task with priority "medium" and `completed = false` |

## Left out

- Rendering: the JSX, styling classes as layout, icons and test-id attributes (src/App.js:117-370). These are presentation only. The one piece of presentation that is state (whether the form shows) is `TaskManager.FormVisible`.
- React hook mechanics, meaning setter batching and effect scheduling. Handlers are sequential field updates, and the seeding effect is the explicit `OnLogin` step.
- `Date.now()` is a clock read, so it becomes the `freshId` parameter of `Add` and `Save`. The model does not capture that two additions in the same millisecond would get the same id.
- `window.confirm` is an interactive browser call, so it becomes the `confirmed` parameter of `Delete`.
- `e.preventDefault()` in the handlers has no effect on the modelled state.
- Credentials are a plaintext demo table. No security property is claimed.
- The JavaScript number type is modelled as an unbounded `int`. Ids are only compared for equality, so floating-point behaviour plays no part.
- Strings are sequences of Unicode scalar values, while JavaScript strings are sequences of UTF-16 code units, so a string holding a lone surrogate cannot be represented. Nothing modelled depends on the difference: every code point `trim` removes lies in the Basic Multilingual Plane, and equality of well-formed strings agrees in both.
