# To-do list model

A Dafny model of the in-memory to-do list of a small command-line task
tracker. The list is an ordered sequence of items. Each item holds a task
text, a done flag, a creation time and a completion time. Callers address
items by 1-based position. The model covers these operations:

- adding an item, which takes two clock readings;
- completing an item, which checks the index and refuses to complete an item twice;
- deleting an item, after which the later items move down one position;
- counting pending items;
- loading the list from what a file read returned;
- two per-row decisions of the table printer: the "Completed In" label and the "..." placeholder for the completion time.

`todo.dfy` (module `Todo`) holds the data model and the class `Todos`. Its
methods update the field `items: seq<Item>` in place. Each method's contract
ties the new list to the old one. The recursive function `Pending` specifies
the counting loop. Lemmas about `Pending` and `Without` carry the pending-count
and order facts.

`render.dfy` (module `Render`) holds the printer's label logic as pure
functions over the integer calendar fields of the two timestamps.

The clock is not called: `Add` takes its two readings as parameters
(`created`, `completed`), and `Complete` takes `now`. File reading is a
`ReadResult` parameter. JSON decoding is an `unmarshal` function parameter.

Loading from a missing file does not empty the list: it returns success and
leaves the list as it was (todo.go:64-66).

## Model

| member | source | states |
|---|---|---|
| `Todo.Pending` | todo.go:157-167 | the number of items not done, never more than the length |
| `Todo.PendingConcat` | todo.go:157-167 | the pending count of a concatenation is the sum of the two parts' counts |
| `Todo.PendingCons` | todo.go:157-167 | putting an item in front adds 1 to the pending count if it is pending, else 0 |
| `Todo.PendingAppend` | todo.go:23-32 | appending an item adds 1 to the pending count if it is pending, else 0 |
| `Todo.PendingReplace` | todo.go:44-45 | replacing one item changes the pending count by the change in that item's weight |
| `Todo.PendingWithout` | todo.go:56 | removing an item takes its weight (1 if pending) off the pending count |
| `Todo.PendingZeroIffAllDone` | todo.go:157-167 | the pending count is 0 if and only if every item is done |
| `Todo.PendingFullIffNoneDone` | todo.go:157-167 | the pending count equals the length if and only if no item is done |
| `Todo.Without` | todo.go:56 | removing 0-based position k gives one item fewer: items before k stay, items after k move down by one, and the multiset loses exactly that item |
| `Todo.Todos.constructor` | todo.go:21 | a new list is empty |
| `Todo.Todos.Add` | todo.go:23-32 | the list grows by exactly one pending item with the given task and both clock readings; earlier items are unchanged; the pending count goes up by 1 |
| `Todo.Todos.Complete` | todo.go:34-48 | InvalidIndex exactly when idx <= 0 or idx > length; AlreadyCompleted exactly when the in-range item is already done; the list is unchanged on either error; on Ok only item idx-1 changes, to done with completion time `now`, keeping its task and creation time; the pending count drops by 1; afterwards an in-range idx is done, so a second Complete fails |
| `Todo.Todos.Delete` | todo.go:50-59 | Ok exactly when 1 <= idx <= length, otherwise InvalidIndex with the list unchanged; on Ok the list is `old[..idx-1] + old[idx..]` and the pending count drops by the removed item's weight |
| `Todo.Todos.CountPending` | todo.go:157-167 | the loop's total equals `Pending(items)`, is at most the length, and is 0 exactly when every item is done |
| `Todo.Todos.Load` | todo.go:61-82 | a missing file or zero bytes gives success with the list unchanged; another read failure gives ReadError with the list unchanged; non-empty contents that decode replace the list; contents that fail to decode give DecodeError |
| `Todo.Scenario` | todo.go:23-59 | start empty, add two tasks, complete 1, complete 1 again, delete 2: the second Complete returns AlreadyCompleted, one item is left ("buy milk", done, completed at `now`), and nothing is pending |
| `Render.CompletedIn` | todo.go:112-130 | no label exactly when the item is pending; days when the day fields differ (the count is creation minus completion); hours when only the hours differ (completion minus creation); minutes otherwise (completion minus creation) |
| `Render.CompletedAtCell` | todo.go:132-135 | "..." exactly when the two timestamps have the same unix second, otherwise the completion time |
| `Render.WrittenFlipsOnlyDays` | todo.go:117-127 | the printed label and the intended label pick the same unit; they differ only in the sign of a day count |
| `Render.WrittenNextDayIsNegative` | todo.go:117-120 | a task created on day 14 and completed on day 15 is labelled "-1 days" |
| `Render.WrittenLaterDayIsNegative` | todo.go:117-120 | completion on a later calendar day always gives a negative day count |
| `Render.IntendedNotNegative` | todo.go:117-127 | with every unit counted as completion minus creation, an item completed no earlier than it was created never shows a negative amount |
| `Render.IntendedSignMatchesOrder` | todo.go:117-127 | under the intended label, the amount is negative exactly when completion is earlier in the first field that differs |
| `Render.FreshItemRow` | todo.go:132-135 | a new item whose two clock readings fall in the same second shows "..." and no label |
| `Render.PlaceholderIndependentOfDone` | todo.go:132-135 | for every item, the "Completed At" cell is the same whether the item is done or not: only the two unix seconds decide "..." |
| `Render.PlaceholderExamples` | todo.go:132-135 | "..." does not mean pending: a done item completed in the same second shows "..." and "0 minutes", and a pending item whose readings fall in different seconds shows a time |

## Findings

| source | as written | input that shows it | evidently intended | confidence | as-written member | corrected member |
|---|---|---|---|---|---|---|
| todo.go:117-120 | the day count is `CreatedAt.Day() - CompletedAt.Day()` | created on day 14 at 09:00 and completed on day 15 at 09:00: the label is "-1 days" | completion minus creation, as the hours branch prints at line 125 | medium, not executed | `Render.CompletedIn`, shown by `Render.WrittenNextDayIsNegative` | `Render.CompletedInIntended`, proved by `Render.IntendedNotNegative` |

`Render.CompletedIn` keeps the printed behaviour. `Render.CompletedInIntended`
is the corrected label. No other member of the model uses either label,
because the table printer itself is not modelled.

## Left out

- `Store` (todo.go:84-91): JSON encoding and the file write use `encoding/json` and `ioutil`. That code is not part of this model. The store-then-load round trip depends on the encoding, so it is left out too.
- JSON decoding in `Load`: it is the `unmarshal` parameter. Whether a given byte string decodes, and to what, is not modelled.
- Todo.Todos.Load: on a decode error the contract promises the list is unchanged. `encoding/json` rejects malformed syntax before it writes anything. A type mismatch part-way through an array can leave a partly decoded list, and the model does not capture that.
- Table rendering in `Print` (todo.go:93-155) is left out: layout, colours, the check-mark prefix, the position column and the footer text. The footer's count is `CountPending`.
- RFC822 formatting and timestamp internals are left out. A `Timestamp` holds only unix seconds, day, hour and minute, as independent integers. Calendar consistency between them is not modelled. Neither is the month or hour wrap-around that raw field subtraction gets wrong.
- `time.Now()`: `Add` takes its two readings as parameters, and `Complete` takes one.
- Slice aliasing: Go's `Delete` shifts items inside the same backing array, and `Complete` writes into it. Another slice sharing that array would see the writes. The model keeps the list as a value in one field, where no such alias exists.
- Go's `int` (32 or 64 bits) is modelled as an unbounded integer. Positions are only compared, and the pending count is bounded by the length, so overflow never arises.
