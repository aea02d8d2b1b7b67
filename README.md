# Task list: server store and client list logic, in Dafny

This project models the two pieces of logic in a small task-list application.

- **The server's in-memory task store** (`server/controllers/tasks.ts`). It is
  an array of `Task` records (`id`, `title`, `completed`) with four handlers:
  list, create (a missing or empty title gives 400), update (shallow merge of
  the given fields into the first record with the id; an unknown id gives 404)
  and delete (splice out the first record with the id; an unknown id gives 404).
  Each handler answers with a status and a `{message, success, data}` envelope.
  The store is the class `TaskStore.Store`. It owns a `seq<Task>` field that
  its methods change: append, replace at an index, remove at an index. The
  `findIndex` search is the loop method `TaskStore.FindIndex`. It is proved
  against `Tasks.IndexOfId`.
- **The client page's list logic** (`client/app/page.tsx`). It covers the
  case-insensitive search filter, add, toggle, delete, drag-and-drop reorder
  and the footer's completion count. With React and HTTP removed, each is a
  function on a `TaskPage.PageState`. That state holds `tasks`,
  `filteredTasks`, the new-task title and the search query. A handler that
  awaits the server takes the server's reply as a parameter. For add and
  toggle the reply is an `Option<Task>`, and `None` stands for a failed
  request. For delete it is a flag `ok`, since the page does not read the
  reply's body. On a failed request the page keeps its old state.

Module `ClientServer` relates the two sides. Suppose the page's list equals
the store and ids are unique. Then after an add, a toggle or a delete, the
page's list equals the store again. A drag sends nothing to the server. When
a search is active, the drag handler replaces `tasks` with the reordered
*filtered* list, so the tasks the search hides drop out of the page's list
(`TaskPage.DragDropsHidden`, `TaskPage.DragShrinksTasks`). The model keeps this
behaviour as written.

Files: `types.dfy` (module `Tasks`), `sequences.dfy` (module `Sequences`:
`splice` and `filter`), `task_store.dfy` (module `TaskStore`), `text.dfy`
(module `Text`: `toLowerCase`, `includes`, `trim`), `task_page.dfy` (module
`TaskPage`), `client_server.dfy` (module `ClientServer`).

## Model

| member | source | states |
|---|---|---|
| Tasks.IndexOfId | server/controllers/tasks.ts:61 | `findIndex` by id: none exactly when no record has the id; otherwise an in-range index holding the id with no earlier index holding it |
| Tasks.IndexOfIdUnique | server/controllers/tasks.ts:61 | under unique ids, the index found is the only index with that id |
| TaskStore.FindIndex | server/controllers/tasks.ts:61 | the search loop returns -1 exactly when the id is absent, otherwise the first index with the id |
| TaskStore.Failure | server/controllers/tasks.ts:40 | an error envelope has `success: false` and no data |
| TaskStore.HasTitle | server/controllers/tasks.ts:39 | the `!title` test: a missing or empty title fails, and any non-empty title passes |
| TaskStore.CompletedOrFalse | server/controllers/tasks.ts:46 | `completed \|\| false` is true exactly when the input says `completed: true` |
| TaskStore.NewTask | server/controllers/tasks.ts:43-47 | the created record has the supplied id and the given non-empty title; it is completed exactly when the input says `completed: true` (absent or false give false) |
| TaskStore.Merge | server/controllers/tasks.ts:67-70 | the merge of a typed update body never changes the id |
| TaskStore.MergeFields | server/controllers/tasks.ts:67-70 | each field is taken from the body when present there and kept from the existing record when absent |
| TaskStore.MergeEmpty | server/controllers/tasks.ts:67-70 | an empty body leaves the record unchanged |
| TaskStore.MergeIdempotent | server/controllers/tasks.ts:67-71 | applying the same update twice equals applying it once |
| TaskStore.MergeCompletedOnly | server/controllers/tasks.ts:67-70 | `{completed: c}` changes only `completed`; title and id stay |
| TaskStore.UpdateAcceptsEmptyTitle | server/controllers/tasks.ts:66-71 | an update is not validated: it can set the title to "", which a create would reject |
| TaskStore.SampleTasks | server/controllers/tasks.ts:5-21 | the three start-up records have distinct ids |
| TaskStore.Store.constructor | server/controllers/tasks.ts:5-21 | the store starts with the three sample records |
| TaskStore.Store.GetTasks | server/controllers/tasks.ts:22-35 | status 200, success, the fixed message, and the whole store as data |
| TaskStore.Store.AddTask | server/controllers/tasks.ts:37-55 | a missing or empty title gives 400 and leaves the store unchanged; otherwise the new record is appended and returned with 201, and with a fresh id a lookup then finds it at the end |
| TaskStore.Store.UpdateTask | server/controllers/tasks.ts:57-82 | an unknown id gives 404 and leaves the store unchanged; otherwise only the first record with the id is replaced by its merge with the body, and that record is returned with 200 |
| TaskStore.Store.DeleteTask | server/controllers/tasks.ts:84-103 | an unknown id gives 404 and leaves the store unchanged; otherwise the first record with the id is spliced out and the id is returned with 200 |
| TaskStore.CreateAppends | server/controllers/tasks.ts:43-48 | with a fresh id, a later lookup finds the created record at the end |
| TaskStore.UpdateKeepsIds | server/controllers/tasks.ts:61-71 | an update keeps the id at every index, so every lookup by id gives the same index as before |
| TaskStore.DeleteRemovesOne | server/controllers/tasks.ts:87-92 | a delete removes exactly one occurrence of the found record, and the rest keep their relative order |
| Sequences.RemoveAtIsSubseq | server/controllers/tasks.ts:92 | splicing out one element leaves a subsequence of the original |
| TaskStore.DeleteTwiceNotFound | server/controllers/tasks.ts:87-91 | after deleting an id that occurred once, a second delete of it finds nothing (404) |
| TaskStore.CreateKeepsUnique | server/controllers/tasks.ts:43-48 | a create with an unused id keeps ids unique |
| TaskStore.UpdateKeepsUnique | server/controllers/tasks.ts:66-71 | an update keeps ids unique |
| TaskStore.DeleteKeepsUnique | server/controllers/tasks.ts:92 | a delete keeps ids unique |
| TaskStore.ExampleSession | server/controllers/tasks.ts:37-103 | on a fresh store: create "Buy milk" gives 201 with completed false; an update `{completed: true}` gives 200 with completed true; a delete gives 200 with the id; a repeated delete gives 404 |
| Sequences.RemoveAt | server/controllers/tasks.ts:92 | `splice(i, 1)` shortens the array by one; elements before `i` stay, and elements after it move down by one |
| Sequences.InsertAt | client/app/page.tsx:111 | `splice(i, 0, x)` lengthens the array by one; `x` is at `i`, elements before `i` stay, and the rest move up by one |
| Sequences.RemoveAtMultiset | server/controllers/tasks.ts:92 | the removed element plus the rest is the original multiset |
| Sequences.InsertAtMultiset | client/app/page.tsx:111 | insertion adds exactly the inserted element to the multiset |
| Sequences.RemoveInsert | client/app/page.tsx:110-111 | an element inserted at `i` sits at `i`, and removing at `i` gives back the original |
| Sequences.InsertRemove | client/app/page.tsx:110-111 | removing at `i` and re-inserting the same element at `i` gives back the original |
| Sequences.Filter | client/app/page.tsx:48-50 | `filter` keeps only elements that satisfy the test, keeps every element that does, and never lengthens the array |
| Sequences.FilterIsSubseq | client/app/page.tsx:48-50 | the kept elements are in their original order |
| Sequences.FilterCount | client/app/page.tsx:48-50 | each element that passes is kept as many times as it occurs; each that fails is dropped entirely |
| Sequences.FilterAll | client/app/page.tsx:48-50 | when every element passes, the filter changes nothing |
| Sequences.FilterNone | client/app/page.tsx:296 | when no element passes, the filter leaves nothing |
| Sequences.FilterDrops | client/app/page.tsx:48-50 | one failing element makes the result strictly shorter |
| Sequences.FilterExt | client/app/page.tsx:48-50 | tests that agree on every element give the same filter |
| Sequences.FilterConcat | client/app/page.tsx:98 | filtering distributes over concatenation |
| Text.LowerChar | client/app/page.tsx:49 | an ASCII upper-case letter becomes its lower-case letter (code point + 32); every other character is unchanged |
| Text.LowerCharEq | client/app/page.tsx:49 | two characters lower alike exactly when they are equal or are the same ASCII letter in the two cases |
| Text.LowerEq | client/app/page.tsx:49 | two strings lower alike exactly when they have the same length and differ at most in the case of ASCII letters |
| Text.Lower | client/app/page.tsx:49 | `toLowerCase` keeps the length and lowers each character |
| Text.LowerIdempotent | client/app/page.tsx:49 | lowering twice equals lowering once |
| Text.Includes | client/app/page.tsx:49 | `includes` holds for the empty substring, and never for a substring longer than the string |
| Text.IncludesIff | client/app/page.tsx:49 | `includes` holds exactly when the substring occurs at some index |
| Text.IncludesEmpty | client/app/page.tsx:49 | every string includes "" |
| Text.IsSpace | client/app/page.tsx:56 | the characters `trim` removes: on ASCII exactly space and tab through carriage return; never a letter or a digit |
| Text.TrimStart | client/app/page.tsx:56 | the result is a suffix that does not start with white space, and the part cut off is blank |
| Text.TrimEnd | client/app/page.tsx:56 | the result is a prefix that does not end with white space, and the part cut off is blank |
| Text.Trim | client/app/page.tsx:56 | `trim()` is the string with a blank start and a blank end cut off; it is "" exactly when the string is all white space, and otherwise starts and ends with a non-space character |
| TaskPage.Matches | client/app/page.tsx:48-49 | the filter callback; the empty query matches every task, and a query longer than the title matches none |
| TaskPage.FilterTasks | client/app/page.tsx:47-51 | the filtered list holds only tasks whose lowercased title includes the lowercased query, holds every such task, and is no longer than `tasks` |
| TaskPage.FilterTasksExact | client/app/page.tsx:47-51 | the filtered list is a subsequence of `tasks`, with each matching task as often as in `tasks` and each other task not at all |
| TaskPage.FilterEmptyQuery | client/app/page.tsx:47-51 | an empty query keeps every task |
| TaskPage.SearchIgnoresCase | client/app/page.tsx:49 | queries that differ only in the case of ASCII letters select the same tasks |
| TaskPage.FilterEffect | client/app/page.tsx:45-53 | the effect changes only `filteredTasks`, and sets it to the full filter of `tasks`, in order |
| TaskPage.FilterTasksAppend | client/app/page.tsx:65 | an appended task shows at the end of the filtered list exactly when it matches |
| TaskPage.AddRequest | client/app/page.tsx:56-62 | nothing is sent exactly when the title trims to ""; otherwise the body is the untrimmed title with `completed: false` |
| TaskPage.AddTask | client/app/page.tsx:55-66 | a blank title or a failed request changes nothing; otherwise the server's task is appended after the unchanged earlier tasks and the input is cleared |
| TaskPage.ToggleRequest | client/app/page.tsx:76-81 | nothing is sent exactly when no task has the id; otherwise the body negates `completed` of the first task with the id |
| TaskPage.ReplaceById | client/app/page.tsx:85-87 | the length is kept; every task with the id becomes the reply, and every other task is unchanged |
| TaskPage.ToggleTask | client/app/page.tsx:74-92 | an unknown id or a failed request changes nothing; otherwise every task with the id is replaced by the reply |
| TaskPage.RemoveById | client/app/page.tsx:98 | the result holds no task with the id, and holds every task with another id |
| TaskPage.RemoveByIdExact | client/app/page.tsx:98 | the remaining tasks are the others, in their original order and multiplicity |
| TaskPage.DeleteTask | client/app/page.tsx:95-103 | a failed request changes nothing; otherwise `tasks` loses exactly the tasks with the id |
| TaskPage.Move | client/app/page.tsx:109-111 | the two splices give a permutation of the same length; the dragged task lands at the destination, and the others keep their relative order |
| TaskPage.MoveBack | client/app/page.tsx:109-111 | dragging the task back to its source restores the list |
| TaskPage.OnDragEnd | client/app/page.tsx:106-116 | with no destination nothing changes; otherwise both `filteredTasks` and `tasks` become the reordered filtered list |
| TaskPage.DragDropsHidden | client/app/page.tsx:115 | after a drag, no task hidden by the search remains in `tasks` |
| TaskPage.DragShrinksTasks | client/app/page.tsx:115 | if the search hides any task, a drag makes `tasks` strictly shorter |
| TaskPage.DragThenEffect | client/app/page.tsx:112-115 | the filter effect that follows a drag leaves the lists as the drag set them |
| TaskPage.FooterView | client/app/page.tsx:292-303 | no footer for an empty list; otherwise the completed count is the number of completed tasks and at most the total, there are min(5, total) dots, and dot `i` is filled exactly when `i` is below the completed count |
| TaskPage.FilterDoneCount | client/app/page.tsx:296 | filtering on `completed` keeps exactly as many tasks as are completed |
| TaskPage.FooterCountExtremes | client/app/page.tsx:296 | the count equals the total when every task is completed, and is 0 when none is |
| TaskPage.FooterDotsFilledFirst | client/app/page.tsx:299-303 | the filled dots come first, then the empty ones |
| ClientServer.AddRequestAccepted | client/app/page.tsx:59-62 | every body the page posts passes the server's title check; the server stores the untrimmed title with completed false |
| ClientServer.BlankTitleAcceptedByServer | server/controllers/tasks.ts:39 | a title of spaces passes the server's check although the page never sends one |
| ClientServer.AddInSync | client/app/page.tsx:64-65 | the page appends the created record, just as the store does |
| ClientServer.ToggleInSync | client/app/page.tsx:79-87 | under unique ids, the server's merge flips only `completed`, and the page's list equals the updated store |
| ClientServer.ToggleDuplicateIdsDiverge | client/app/page.tsx:85-87 | with a repeated id, the page replaces every copy but the server only the first, so the two lists differ |
| ClientServer.DeleteInSync | client/app/page.tsx:98 | under unique ids, removing every task with the id equals splicing out the first one |
| ClientServer.DeleteDuplicateIdsDiverge | client/app/page.tsx:98 | with a repeated id, the page removes every copy but the server only the first, so the two lists differ |

## Left out

- Id generation from the clock (`Date.now().toString()`): `TaskStore.Store.AddTask` takes the id as a parameter. Nothing enforces unique ids, so the model does not assume them; the lemmas that need them say so in their `requires`.
- The `try`/`catch` 500 branches of the server handlers: the modelled operations cannot throw. Also left out is the unhandled exception at `server/controllers/tasks.ts:38` when `req.body` is undefined, which depends on the Express version. With `express.json()` mounted (`server/index.ts:15`), Express 4 sets an empty body to `{}`, so the title is missing and the request gets 400 as modelled. Express 5 leaves `req.body` undefined, and there the destructuring throws.
- Express routing, CORS, `app.listen` and JSON serialisation (`server/index.ts`, `server/routes/tasks.ts`). A response is the `Envelope` datatype with a status code.
- Request bodies with other JSON shapes: non-string titles, `null` fields, or extra fields. For example, an `id` field in an update body would overwrite the id under the spread. The model uses the typed inputs of `server/types.ts`.
- Client: axios calls, `async`/`await`, React state scheduling, toasts, the loading flag, `fetchTasks` (client/app/page.tsx:24-39), the drag-and-drop library and all rendering. A reply parameter stands for the server's answer.
- Text.Lower: lowers only the ASCII letters A-Z, not the full Unicode case mapping of `toLowerCase`.
- TaskPage.OnDragEnd: requires the source and destination indices to lie within the filtered list, as the drag-and-drop library guarantees. What `splice` does with indices out of range is not modelled.
- TaskPage.Matches: a task whose title is missing (`title?.` yields undefined and the task is excluded) cannot occur, because `Task.title` is always a string here.
