# Browser-local task tracker: state and analytics

A model of the one script of a browser-local to-do list. The script keeps two
lists in memory, the category labels and the tasks, plus an editing pointer
that switches the add/update button between two states:
- **Adding**: the pointer is `null`;
- **Editing**: the pointer is an index.

Its handlers change this state in place. From it the script derives, for each
category, how many of the tasks tagged with it are completed.

- `wrappers.dfy`: `Option`. It stands for JavaScript `null`, a storage key never written, and an invalid date.
- `text.dfy`: `String.prototype.trim`, over the white space and line terminators of ECMA-262 (sections 12.2 and 12.3).
- `lists.dfy`: `splice(i, 1)`.
- `tasks.dfy`: the task record, the completion flip, the overdue test, and the category options that `editTask` selects.
- `analytics.dfy`: the per-category completion figures shared by `updateAnalytics` and `renderChart`.
- `store.dfy`: class `Store`, holding the three globals, and the handlers as methods.

The handlers' methods spell out the whole new state: what changes and that
nothing else does. The lemmas in `analytics.dfy` say how each handler moves
the completion figures.

The editing pointer has no range invariant, because `removeTask` does not
reset it. `TodoState.StaleEditOverwritesNext` shows the effect: the next
submit overwrites the task that moved into the removed task's place.

Each category's figures are kept as the exact pair (completed count, tagged
count). The ratio is completed / `Divisor()`, where `Divisor()` is
`tagged || 1`, so a category with no tasks has ratio 0/1.

Two behaviours of the code are worth noting:
- Removing a category or task at an index past the end changes nothing,
  as `splice` does.
- Task names loaded from storage are not assumed non-empty. The handlers
  preserve "every name is non-empty and trimmed" (`TaskNamesTrimmed`), but
  the constructor does not establish it.

## Model

| member | source | states |
|---|---|---|
| `Text.Trim` | todolist/Mylist.html/script.js:37 | The result is a slice of the input with only white space cut from both ends. It has no white space at either end. It is empty exactly when the input is all white space, which is when the category and task-name guards (lines 38, 61) reject it. |
| `Text.TrimPadded` | todolist/Mylist.html/script.js:37 | Trim of (white space + trimmed core + white space) is the core. So Trim removes exactly the padding and nothing more. |
| `Text.TrimOfTrimmed` | todolist/Mylist.html/script.js:57 | A string with no white space at either end is returned unchanged. So a stored task name comes back unchanged when the edit form resubmits it. |
| `Text.TrimIdempotent` | todolist/Mylist.html/script.js:57 | Trimming twice gives the same as trimming once. |
| `Lists.RemoveAt` | todolist/Mylist.html/script.js:49 | For an in-range index: the length drops by one, earlier elements stay put and later ones shift left by one. Past the end: the list is unchanged. |
| `Lists.RemoveAtMultiset` | todolist/Mylist.html/script.js:125 | Removal loses exactly one copy of the removed element and keeps everything else. |
| `Tasks.ToggleAt` | todolist/Mylist.html/script.js:103 | Only `completed` of task `i` flips. Its name, due date and labels stay, and every other task is unchanged. |
| `Tasks.ToggleTwice` | todolist/Mylist.html/script.js:103 | Toggling the same task twice restores the original list. |
| `Tasks.DateBefore` | todolist/Mylist.html/script.js:87 | Comparing dates is false when the due date is invalid (NaN). Otherwise it is `<` on time values. |
| `Tasks.IsOverdue` | todolist/Mylist.html/script.js:87 | A task is overdue exactly when it has a due date strictly before now and is not completed. So a completed task is never overdue, and neither is a task without a due date. |
| `Tasks.SelectedOptions` | todolist/Mylist.html/script.js:115-117 | A category option is selected exactly when it is a current category and the task carries its label. No more options are selected than exist. |
| `Tasks.SelectedOptionsMultiset` | todolist/Mylist.html/script.js:115-117 | Every copy of a matching option is selected, and no copy of any other. So duplicate categories give duplicate labels. |
| `Tasks.SelectedOptionsConcat` | todolist/Mylist.html/script.js:115-117 | Selection distributes over a split of the option list, so the selected labels keep option order. |
| `Analytics.TaggedWith` | todolist/Mylist.html/script.js:138 | The filtered list is no longer than the input, and every task in it carries the label. |
| `Analytics.CompletedOnly` | todolist/Mylist.html/script.js:139 | The filtered list is no longer than the input, and every task in it is completed. |
| `Analytics.TaggedWithMultiset` | todolist/Mylist.html/script.js:138 | The filter keeps every copy of each task that carries the label, and drops every copy of each task that does not. |
| `Analytics.CompletedOnlyMultiset` | todolist/Mylist.html/script.js:139 | The filter keeps every copy of each completed task, and drops every copy of each open one. |
| `Analytics.RateOf` | todolist/Mylist.html/script.js:138-140 | completed ≤ tagged ≤ number of tasks. With no tagged task the completed count is 0 and the divisor is 1, so the ratio is 0 and not NaN. |
| `Analytics.CompletionRates` | todolist/Mylist.html/script.js:137-141 | There is one rate per category, in category order, and entry `i` is the rate of category `i`. Every ratio lies in [0, 1], and an untagged category has completed count 0. The same computation is repeated at lines 156-163. |
| `Analytics.RateOfConcat` | todolist/Mylist.html/script.js:138-139 | Both counts of a category add up over any split of the task list. |
| `Analytics.RateAfterAppend` | todolist/Mylist.html/script.js:68 | Adding a task raises the tagged count by one for each of its categories, and no completed count changes. |
| `Analytics.RateAfterReplace` | todolist/Mylist.html/script.js:63 | Updating task `i` replaces its contribution to each category's counts by the new task's contribution. |
| `Analytics.RateAfterToggle` | todolist/Mylist.html/script.js:103 | Toggling never changes a tagged count. It moves the completed count by one, in the direction of the flip, for each category the task carries. Every other category's figures are unchanged. |
| `Analytics.RateAfterRemove` | todolist/Mylist.html/script.js:125 | Removing task `i` with `RemoveAt`, as the handler does, subtracts its contribution from each category's counts. |
| `Analytics.RatesAfterAddCategory` | todolist/Mylist.html/script.js:39 | A new category adds one rate at the end, and earlier rates are unchanged. |
| `Analytics.RatesAfterRemoveCategory` | todolist/Mylist.html/script.js:49 | Removing category `i` with `RemoveAt`, as the handler does, removes exactly the `i`-th rate. |
| `Analytics.WorkHomeScenario` | todolist/Mylist.html/script.js:137-141 | Categories Work and Home with one open task tagged Work give Work 0/1 and Home 0 (divisor 1). After toggling the task, Work is 1/1 and Home is still 0. |
| `TodoState.Store.constructor` | todolist/Mylist.html/script.js:12-14 | A missing storage key loads as an empty list. A stored list loads as it is. No edit is in progress. |
| `TodoState.Store.AddCategory` | todolist/Mylist.html/script.js:36-45 | A non-empty trimmed input is appended at the end and "added" is signalled. White-space-only input changes nothing and signals nothing. Tasks and the pointer are untouched. |
| `TodoState.Store.RemoveCategory` | todolist/Mylist.html/script.js:48-53 | The categories become `RemoveAt(old, index)`. Tasks are unchanged, so there is no cascade and orphan labels remain. |
| `TodoState.Store.AddOrUpdateTask` | todolist/Mylist.html/script.js:56-80 | An empty trimmed name changes nothing and signals the error. In the Editing state, task `i` is replaced in place with `completed = false`, the length stays the same and the pointer is cleared. In the Adding state, the new open task is appended. Task names stay trimmed and non-empty. |
| `TodoState.Store.ToggleTask` | todolist/Mylist.html/script.js:102-107 | The tasks become `ToggleAt(old, index)`. Categories and the pointer are unchanged. |
| `TodoState.Store.EditTask` | todolist/Mylist.html/script.js:110-121 | Only the pointer changes, and it becomes `index`. The form receives the task's name, its due date and its selected category options. |
| `TodoState.Store.RemoveTask` | todolist/Mylist.html/script.js:124-130 | The tasks become `RemoveAt(old, index)`. Categories are unchanged, and the editing pointer is not reset. |
| `TodoState.EditAndResubmit` | todolist/Mylist.html/script.js:110-119 | Editing task `i` and submitting the form as filled keeps the task's position, name and due date. Its labels become those current categories it carried, so labels of removed categories are dropped, and `completed` is reset to false. The categories are unchanged. |
| `TodoState.StaleEditOverwritesNext` | todolist/Mylist.html/script.js:62-64 | Edit task 0 of two, remove task 0, then submit "X". The surviving task, which was never edited, is replaced by "X". |

## Left out

- Local storage and JSON serialisation (lines 12-13, 40, 50, 72, 104, 126). Stored values enter only as the constructor's parameters.
- DOM reads and writes: list and option rebuilding, input clearing, and the button label (lines 65, 120). The form contents and selected options are parameters and results.
- `alert`. The message is returned as an `Alert` value.
- Chart.js rendering, the colour palette and chart destruction (lines 154-202).
- Floating-point percentages and `toFixed(2)`. Rates are exact (completed, tagged) pairs with `Divisor()`.
- The wall clock and date parsing (lines 87, 92). A due date is the time value `new Date(dueDate)` yields, with `None` for the empty input. `now` is a parameter.
- `toLocaleDateString` display (line 92).
- The unused `totalTasks` and `completedTasks` (lines 134-135).
- Negative indices, which `splice` counts from the end. Indices are `nat`: the rendered rows only ever pass indices from 0 up.
- TodoState.Store.AddOrUpdateTask: requires an in-range editing pointer on the update path. In JavaScript, assigning at the length appends, and assigning beyond it leaves holes that a sequence of tasks cannot hold.
- TodoState.Store.ToggleTask: requires an in-range index, because the script throws a TypeError otherwise.
- TodoState.Store.EditTask: requires an in-range index, because the script throws a TypeError otherwise.
