# GoalManagerApp goal list, modelled in Dafny

GoalManagerApp is a one-screen React Native app. The user types a goal and adds it to a list. Each goal can then be marked done (and back) or deleted. All of its logic lives in the `App` component of `GoalManagerApp/App.js`. The component keeps two state cells: `enteredGoalText`, the text in the input box, and `courseGoals`, a list of `{id, text, completed}` records. Four handlers overwrite those cells:

- `goalInputHandler` replaces the entered text.
- `addGoalHandler` ignores whitespace-only text. Otherwise it appends a new incomplete goal holding the entered text and clears the input.
- `deleteGoalHandler` keeps only the goals whose id differs (`filter`).
- `markAsDoneHandler` flips `completed` on the goals whose id matches (`map`).

The model has three modules:

- `JsString` (`js_string.dfy`) gives the meaning of JavaScript's `String.prototype.trim`, which the add handler uses. Whitespace here means the ECMAScript WhiteSpace and LineTerminator code points.
- `Goals` (`goals.dfy`) holds the `Goal` record and the two pure list transformations, `Without` (the filter) and `Toggled` (the map). The lemmas about them live here too.
- `GoalManagerApp` (`app.dfy`) holds the class `App`. Its two fields are the two state cells and its four methods are the handlers. Each method assigns the result of a pure function, and its contract gives the whole new state in terms of the old one.

`App.Valid()` is the invariant that every stored goal's text is not whitespace only. Every handler keeps it. Ids are a different matter. The app draws them from `Math.random().toString()`, so nothing guarantees that they are distinct. The model therefore takes the new id as a parameter of `AddGoalHandler`. Distinct ids (`UniqueIds`) are proved to be preserved only on the condition that the new id is fresh; that condition is never assumed to hold.

The file `app.dfy` also contains `Session`, a client. It drives the handlers the way the screen does (a blank add, two adds, toggling twice, deleting twice) and checks the outcome using only the handlers' contracts.

## Model

| member | source | states |
|---|---|---|
| JsString.IsWhitespace | GoalManagerApp/App.js:14 | the characters `trim()` strips: TAB, VT, FF, U+FEFF, the 17 Unicode space separators, LF, CR, U+2028 and U+2029; each lies below U+10000, so it is one UTF-16 code unit |
| JsString.TrimStart | GoalManagerApp/App.js:14 | the result is the suffix of `s` left after a run of leading whitespace; the dropped prefix is all whitespace and the result does not start with whitespace |
| JsString.TrimEnd | GoalManagerApp/App.js:14 | the result is the prefix of `s` left before a run of trailing whitespace; the dropped suffix is all whitespace and the result does not end with whitespace |
| JsString.Trim | GoalManagerApp/App.js:14 | `trim()` (leading then trailing whitespace removed) is no longer than its input and is empty or starts and ends with non-whitespace |
| JsString.TrimEmptyIffAllWhitespace | GoalManagerApp/App.js:14 | `trim().length === 0` holds exactly when the text is whitespace only (both directions) |
| Goals.Without | GoalManagerApp/App.js:26-29 | delete: a goal is in the result iff it is in the list and its id differs; no goal with the id remains; the list never grows |
| Goals.WithoutConcat | GoalManagerApp/App.js:27-29 | the filter distributes over concatenation, so kept goals stay in their original relative order |
| Goals.WithoutSingle | GoalManagerApp/App.js:28 | one goal is kept exactly when its id differs from the argument |
| Goals.WithoutAbsent | GoalManagerApp/App.js:26-29 | deleting an id that no goal has leaves the list unchanged |
| Goals.WithoutIdempotent | GoalManagerApp/App.js:26-29 | deleting the same id twice gives the same list as deleting it once |
| Goals.WithoutUndoesAdd | GoalManagerApp/App.js:13-29 | deleting a goal just added under a fresh id restores the list from before the add |
| Goals.WithoutKeepsUnique | GoalManagerApp/App.js:26-29 | if the ids are distinct before a delete, they are distinct after it |
| Goals.WithoutLengthUnique | GoalManagerApp/App.js:26-29 | with distinct ids, delete shortens the list by one when the id is present and by zero otherwise |
| Goals.Toggled | GoalManagerApp/App.js:32-37 | mark as done: same length; every goal keeps its position, id and text; `completed` flips exactly where the id matches |
| Goals.ToggledTwice | GoalManagerApp/App.js:32-37 | toggling the same id twice restores the original list (involution) |
| Goals.ToggledAbsent | GoalManagerApp/App.js:32-37 | toggling an id that no goal has leaves the list unchanged |
| Goals.ToggledKeepsIds | GoalManagerApp/App.js:32-37 | toggling keeps the set of ids and keeps distinct ids distinct |
| Goals.AppendFreshKeepsUnique | GoalManagerApp/App.js:15-22 | appending a goal under an id no goal has keeps the ids distinct |
| GoalManagerApp.App.constructor | GoalManagerApp/App.js:6-7 | both state cells start empty (`''` and `[]`) |
| GoalManagerApp.App.GoalInputHandler | GoalManagerApp/App.js:9-11 | the entered text becomes exactly the argument; the goal list is untouched |
| GoalManagerApp.App.AddGoalHandler | GoalManagerApp/App.js:13-24 | whitespace-only text leaves both cells unchanged; otherwise the list gains exactly one goal at the end, with the untrimmed entered text, the given id and `completed = false`; earlier goals are unchanged and in order; the entered text becomes `''`; a fresh id keeps ids distinct |
| GoalManagerApp.App.DeleteGoalHandler | GoalManagerApp/App.js:26-30 | the list becomes `Without(list, id)`; the entered text is unchanged; distinct ids stay distinct |
| GoalManagerApp.App.MarkAsDoneHandler | GoalManagerApp/App.js:32-38 | the list becomes `Toggled(list, id)`; the entered text is unchanged; distinct ids stay distinct |

## Left out

- Rendering (`View`, `ScrollView`, `TextInput`, `Button`, the `key` prop; GoalManagerApp/App.js:40-82): presentation only. Its one data-dependent detail is that `completed` selects a strike-through style (GoalManagerApp/App.js:59); it does not change which goals are shown.
- The `StyleSheet` (GoalManagerApp/App.js:85-127) and the unused `StatusBar` import (GoalManagerApp/App.js:1): styling and dead code.
- Id generation, `Math.random().toString()` (GoalManagerApp/App.js:18): floating point and nondeterministic. The id is a parameter of `AddGoalHandler`, and nothing in the model claims the app's ids are distinct.
- React's `useState` scheduling and batching: each functional update (GoalManagerApp/App.js:15, 27, 33) is taken as one synchronous assignment, in program order.
- A pending/completed partition of the list, persistence and change notification: the app has none of them. Every goal is shown in one list, in insertion order.
- Strings: JavaScript strings are UTF-16. The model uses sequences of code points. The two agree for `trim` on well-formed strings, because every character it removes is a single UTF-16 code unit (the contract of `IsWhitespace`). A JavaScript string may hold a lone surrogate, which a sequence of code points cannot represent; such a string is not whitespace, so the app adds it.
- JsString.Trim: its own contract says only that the result is no longer than the input and has no whitespace at either end. That it is the middle slice of the input follows from the contracts of `TrimStart` and `TrimEnd`, but is not restated for `Trim`. The app only ever tests whether the trimmed text is empty, and `TrimEmptyIffAllWhitespace` states that test exactly.
