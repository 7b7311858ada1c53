# Task comments: a verified model

This project models the comment components of a task page: a comment entry
form, and a comments panel that loads, adds, edits and deletes the comments
of one task through a REST API. The original components are React function
components. Their rendering, `fetch` calls and browser dialogs are left
out. What remains is modelled in Dafny: the form's submit gate, and the
panel's state machine with the three list updates it applies to the
server's answers.

- `text.dfy` (module `Text`): `Option`, JavaScript's `trim()` over the
  ECMAScript WhiteSpace and LineTerminator characters, and the decimal text
  of a status code in a template literal.
- `comment_form.dfy` (module `CommentForm`): the form's fields, their
  seeding from `initial`, and `handleSubmit` as a pure function from the
  fields and "has a cancel action" to the callback's payload (or a
  rejection) and the fields afterwards.
- `comments.dfy` (module `Comments`): the comment record and the three list
  updates (append, replace by id, filter out by id), with lemmas on length,
  membership, order and id uniqueness.
- `responses.dfy` (module `Responses`): a request's outcome as a value
  (network failure, `res.ok` response with its parsed body, or a failed
  response with its parsed error body) and the message each handler throws.
- `comments_panel.dfy` (module `CommentsPanel`): class `Panel` with the
  state `comments`, `editingId`, `loading` and `error`. Its methods are the
  handlers: each takes the request's outcome as a parameter and returns the
  alert text it would show. `ExampleSession` walks through an empty task:
  comment 7 is created and edited; one delete is declined, one fails with
  status 500, and a last one succeeds and leaves the list empty.

Behaviours of the code worth knowing:
- The payload's text property is `body`.
- When an add fails and its error body is not JSON, the message is
  `"unknown"`. Edit falls back to the status-coded text in that case
  (`Responses.UnreadableErrorBody`).
- Edit replaces every entry with the edited id, and delete removes every
  one. The list shrinks by exactly one only when ids are unique
  (`Comments.RemoveByIdShrinksByOne`).
- A load also fails when `fetch` rejects or the body is not JSON. The error
  is then that exception's message.
- An error body that is JSON `null` makes reading its `error` property
  throw, and that TypeError's message is what add and edit report.

## Model

| member | source | states |
|---|---|---|
| `Text.Trim` | Task2.py:21 | the result is the input minus a whitespace prefix and a whitespace suffix; it has no whitespace at either end; it is empty exactly when the input is blank |
| `Text.TrimOfPadded` | Task2.py:21 | a blank prefix, a trimmed core and a blank suffix trim to exactly that core (the decomposition is unique) |
| `Text.TrimIdempotent` | Task2.py:21-23 | trimming twice equals trimming once; an already trimmed string is its own trim |
| `Text.Decimal` | Task2.py:79 | the status text is a non-empty string of decimal digits, with no leading zero except for 0 itself |
| `Text.DecimalRoundTrip` | Task2.py:79 | reading the decimal text back gives the number |
| `Text.DecimalInjective` | Task2.py:79 | different statuses produce different texts |
| `CommentForm.Reset` | Task2.py:11-17 | each field takes its initial value, and a missing (null) value becomes the empty string |
| `CommentForm.Submit` | Task2.py:19-29 | rejected with "Comment body is required" exactly when the text is blank, and then the fields are unchanged; otherwise the payload's text is the trimmed text, which is non-empty with no whitespace at either end; the name is null exactly when it is blank, and otherwise it is the trimmed name; the creation form empties both fields and an edit form keeps them |
| `CommentForm.CreationFormResets` | Task2.py:24-28 | a valid submit of the creation form calls back and leaves the fields as a freshly mounted form has them |
| `CommentForm.SubmitKeepsInputs` | Task2.py:22-28 | a submit changes the fields only when it calls back from a form without a cancel action |
| `CommentForm.EditFormRoundTrip` | Task2.py:11-23 | an edit form seeded from a comment whose text and name are already trimmed submits that same text and name, and keeps its fields |
| `CommentForm.ResubmitIsStable` | Task2.py:21-23 | submitting a payload's own text and name again yields that payload |
| `CommentForm.ExampleCreateSubmit` | Task2.py:19-28 | "Nice work" with an empty name, submitted from the creation form, calls back with a null name and empties the form |
| `Comments.Append` | Task2.py:105 | a successful add leaves the old list as an unchanged prefix, puts the returned record last, and grows the list by one |
| `Comments.ReplaceById` | Task2.py:123 | a successful edit keeps the length; every entry with the edited id becomes the returned record; every other entry is unchanged and in place |
| `Comments.RemoveById` | Task2.py:135 | after a successful delete no entry has the id; every other entry is kept; the result is a subsequence of the old list (order kept); the length drops by the number of entries with that id |
| `Comments.CountIdUnique` | Task2.py:135 | with unique ids an id occurs at most once, and exactly once when present |
| `Comments.RemoveByIdShrinksByOne` | Task2.py:135 | with unique ids, deleting a present id shrinks the list by exactly one |
| `Comments.AbsentIdUntouched` | Task2.py:123-135 | deleting or editing an id that no entry carries leaves the list unchanged |
| `Comments.RemoveByIdKeepsUnique` | Task2.py:135 | deleting keeps ids unique |
| `Comments.ReplaceByIdKeepsUnique` | Task2.py:123 | an edit whose returned record keeps the edited id keeps ids unique |
| `Comments.AppendKeepsUnique` | Task2.py:105 | an add keeps ids unique exactly when the returned id is new |
| `Comments.AtMostOneEditForm` | Task2.py:164-171 | with unique ids, at most one entry shows its edit form |
| `Comments.DisplayAuthor` | Task2.py:152 | the shown name is the author when the author is non-empty, and "Anonymous" when it is null or empty |
| `Responses.ServerMessage` | Task2.py:102 | the message is the server's own `error` text, unchanged; it is given exactly when the body is an object whose `error` is present and non-empty |
| `Responses.StatusMessage` | Task2.py:79 | the status-coded message ends with the status's decimal digits and a closing parenthesis |
| `Responses.StatusReadBack` | Task2.py:79 | the digits before the closing parenthesis read back as the status |
| `Responses.LoadError` | Task2.py:77-84 | there is no error exactly when the response is ok and its body parsed; a rejected `fetch` or an ok body that is not JSON gives that exception's own message; a failed status gives "Failed to load comments (status)" |
| `Responses.AddError` | Task2.py:94-103 | there is no error exactly when the response is ok and parsed; a rejected `fetch` or an ok body that is not JSON gives that exception's own message; for a failed status, an unreadable body gives "unknown", a null body gives the TypeError's message, a usable `error` text is used as it is, and anything else gives "Failed to add comment (status)" |
| `Responses.EditError` | Task2.py:112-121 | there is no error exactly when the response is ok and parsed; a rejected `fetch` or an ok body that is not JSON gives that exception's own message; for a failed status, a null body gives the TypeError's message, a usable `error` text is used, and anything else, including an unreadable body, gives "Failed to edit comment (status)" |
| `Responses.DeleteError` | Task2.py:132-134 | there is no error exactly when the response is ok (no body is read); a rejected `fetch` gives its own message; a failed status gives "Failed to delete comment (status)" |
| `Responses.UnreadableErrorBody` | Task2.py:101-120 | for a failed status with an unreadable error body, add reports "unknown" and edit reports the status text, and the two differ |
| `CommentsPanel.Panel.constructor` | Task2.py:69-72 | a mounted panel has no comments, no open edit form, is not loading and has no error |
| `CommentsPanel.Panel.StartLoad` | Task2.py:75-76 | starting a load sets `loading` and clears `error`; the list and edit marker are unchanged |
| `CommentsPanel.Panel.FinishLoad` | Task2.py:77-86 | on success the list becomes the server's list verbatim; on failure the list is kept and `error` is the failure's message; `loading` ends false either way |
| `CommentsPanel.Panel.Load` | Task2.py:74-87 | after a whole load the panel shows the server's list with no error, or keeps the old list with a message (for a failed status, the status-coded one); `loading` ends false |
| `CommentsPanel.Panel.AddComment` | Task2.py:93-109 | success appends the returned record and alerts nothing; any failure changes nothing and alerts "Error adding comment: " plus the message; the edit marker, `loading` and `error` never change |
| `CommentsPanel.Panel.EditComment` | Task2.py:111-128 | success replaces every entry with the id by the returned record and closes the edit form; any failure changes nothing (the form stays open) and alerts "Error editing comment: " plus the message |
| `CommentsPanel.Panel.DeleteComment` | Task2.py:130-139 | a declined confirmation sends no request and changes nothing; a successful delete filters out the id; a failure changes nothing and alerts "Error deleting comment: " plus the message |
| `CommentsPanel.Panel.StartEdit` | Task2.py:158 | the edit marker becomes the id: exactly the entries with that id show their edit form, so any other open one closes |
| `CommentsPanel.Panel.CancelEdit` | Task2.py:168 | the edit marker is cleared, so no entry shows its edit form |

## Left out

- Rendering and styling (Task2.py:31-59, 141-176): presentation only. What the panel shows is captured by `Comments.ShowsEditForm` and `Comments.DisplayAuthor`.
- `fetch`, JSON serialisation, headers and URLs (Task2.py:78, 95-99, 113-117, 133): network I/O. Each request's outcome is a `Responses.Response` parameter, and the request payload is `CommentForm.Payload`.
- `alert` and `window.confirm` (Task2.py:22, 107, 126, 131, 137): browser dialogs. An alert is the text a handler returns, and a confirmation is a boolean parameter.
- `new Date(...).toLocaleString()` (Task2.py:154): locale formatting by a library outside the model. `createdAt` stays an opaque string.
- React scheduling and effects. The load effect runs only when `taskId` is truthy (Task2.py:89-91); the model's `Load` is the load itself. The field reset is an effect keyed on the identity of the `initial` object (Task2.py:14-17); the model has `CommentForm.Reset` as an explicit operation. When no `initial` is passed, the default parameter is a new object on every render, so the reset fires after every render of the creation form: every keystroke re-renders it, and the text typed into it is set back to "" each time. That is React's effect scheduling and is not modelled; `CommentForm.Reset` is the reset itself.
- Keystroke updates of the fields (Task2.py:36, 45): plain setters. `CommentForm.Fields` is their current value.
- Races between overlapping requests and responses arriving after a task switch: concurrency. The model applies each outcome in sequence.
- `TaskDetail` and its fallback task id, and the `package.json` proxy (Task2.py:179-203): wiring and configuration.
- Responses.ServerMessage: an `error` property that is a non-string truthy value (a number, an object) is not modelled. The property is a string or absent.
- Responses.AddError / Responses.EditError: the TypeError message for a null error body is a parameter (`NullBody`), since its text comes from the JavaScript engine.
- Comment bodies of an unexpected shape: a success body that parses but is not a list (load) or a record (add, edit) is not modelled. A body is either well-typed or `Malformed`.
- Text.IsWhitespace: the set of Unicode space separators is fixed to the code points listed there, not taken from a Unicode database.
