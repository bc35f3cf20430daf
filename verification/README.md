# Task list manager — Dafny model

A model of the to-do list manager in `main.py`. The manager keeps an ordered
list of tasks in memory. Each task is a description and a `done` flag. The
list is also stored in a JSON file, `tasks.json`. The file is read once at
start-up. It is rewritten in full after every successful add, remove or
complete. A task is referred to by its position in the list: the menu
subtracts one from the number the user types. The list operations then apply
Python's list indexing, so negative indices count from the end.

Modules:

- `Wrappers` (`wrappers.dfy`): the `Option` datatype.
- `Tasks` (`tasks.dfy`): the `Task` datatype, `mark_done`, and the record
  codec `to_dict`/`from_dict`. A record is a map from field names to JSON
  values.
- `Storage` (`storage.dfy`): the backing file as a `Snapshot`. A snapshot is
  `None` when the file is missing, otherwise the array of records. This
  module also holds the list codec (`load_tasks`/`save_tasks`).
- `Indexing` (`indexing.dfy`): Python index resolution and the menu's `- 1`.
- `TaskManager` (`manager.dfy`): the manager state (list plus file content),
  the four operations, and menu sessions as sequences of commands. `Step`
  carries out one menu request (main.py:92-110) and `Run` carries out a whole
  session (the loop at main.py:83-115). A session ends early when a request
  raises an exception that the program does not catch.

The file write is modelled as a value: each manager state carries the
snapshot it last wrote. The invariant `Consistent` says that reloading that
snapshot yields the list in memory. Start-up establishes it, and every menu
request keeps it.

The menu asks for the number of a listed task. The code passes the typed
number minus one straight to `list.pop` or `list[...]`, so every number from
`1 - length` to `length` is accepted. A typed `0` removes or completes the
*last* task (`Indexing.MenuNumberTargets`, `TaskManager.RemoveZeroRemovesLast`).

Very large numbers behave differently at the two prompts. `list.pop` first
converts its argument to a C `Py_ssize_t` (64 bits on the platforms
considered here). An index outside that range raises `OverflowError`, which
neither `except` clause catches, so the program stops
(`TaskManager.RemoveOverflowEndsSession`). Subscripting reports the same
index as the caught `IndexError`.

## Model

| member | source | states |
|---|---|---|
| Tasks.MarkDone | main.py:12-13 | completing a task leaves it done and keeps its description |
| Tasks.MarkDoneIdempotent | main.py:12-13 | completing twice equals completing once; the description never changes |
| Tasks.ToDict | main.py:16-17 | a task becomes a record with exactly the fields `description` and `done`, holding the task's text and flag |
| Tasks.FromDict | main.py:20-22 | a record decodes exactly when both fields are present with the right kinds; the task takes its text and flag from them |
| Tasks.FromDictToDict | main.py:16-22 | decoding an encoded task gives the same task |
| Tasks.ToDictFromDict | main.py:16-22 | encoding a decoded record that has only the two fields gives the same record |
| Tasks.FromDictIgnoresOtherFields | main.py:21-22 | decoding reads only the two named fields; any other field has no effect |
| Storage.Encode | main.py:41 | one record per task, in list order, each decoding back to its task |
| Storage.Decode | main.py:35 | the array decodes exactly when every record does; then the list has one task per record, in order, each the decoding of its record |
| Storage.Load | main.py:31-36 | a missing file gives the empty list; otherwise loading succeeds exactly when every record is well formed, giving one task per record, in order, each the decoding of its record |
| Storage.Save | main.py:39-41 | the file exists afterwards and holds exactly `to_dict` of each task, in list order; loading it gives back the list |
| Storage.LoadAfterSave | main.py:31-41 | load after save reproduces the list in order, descriptions and flags |
| Storage.SaveAfterLoad | main.py:31-41 | saving the list loaded from a file that `save_tasks` wrote rewrites that same file |
| Indexing.Resolve | main.py:52-62 | a list index is accepted exactly when `-n <= index < n`; the position reached is the index modulo `n`, so negative indices count from the end |
| Indexing.MenuIndex | main.py:100 | for every list length `n`, the index reached from a typed number is accepted exactly when the number lies in `[1 - n, n]`, and a number in `[1, n]` reaches the task listed with that number |
| Indexing.MenuNumberTargets | main.py:100-108 | under Python indexing, typed numbers `1..n` reach that task, `0` reaches the last task, numbers down to `1 - n` count back from the end, and all others are out of range; at the remove prompt, an out-of-range number so large that its index does not fit a `Py_ssize_t` stops the program instead (`RemoveTask`) |
| TaskManager.Start | main.py:26-36 | a missing file starts an empty manager; start-up succeeds exactly when the file loads, and then the list is consistent with the file |
| TaskManager.AddTask | main.py:44-47 | the list grows by one; earlier tasks keep position and content; the new last task has the given text and is not done; the file is rewritten from the whole list |
| TaskManager.RemoveAt | main.py:53 | removing position `k` drops one element: earlier elements stay, later ones move down one place, and the multiset loses exactly that element |
| TaskManager.RemoveTask | main.py:51-57 | an index that does not fit a `Py_ssize_t` aborts with list and file unchanged (uncaught `OverflowError`). Otherwise the removal succeeds exactly for `-n <= index < n`: it removes and reports the task at the resolved position, earlier tasks stay, later ones shift down, and the file is rewritten. Any other index leaves list and file unchanged |
| TaskManager.MarkTaskDone | main.py:60-66 | this succeeds exactly for `-n <= index < n`: only the resolved task becomes done, every description and every other task is unchanged, and the file is rewritten. Any other index, however large, is the caught invalid-number case, with list and file unchanged |
| TaskManager.MarkTaskDoneIdempotent | main.py:60-63 | completing the same index twice succeeds both times and leaves the same list and file as completing it once |
| TaskManager.ShowTasks | main.py:69-77 | line `i` shows number `i`, which is the text and flag of the task at position `i - 1`; that number, typed back at the menu, reaches that task |
| TaskManager.StepKeepsConsistent | main.py:92-110 | every menu request the program survives leaves reloading the file equal to the list in memory |
| TaskManager.RunKeepsConsistent | main.py:81-110 | after any session of menu requests from a consistent state, reloading the file reproduces the list |
| TaskManager.RemoveZeroRemovesLast | main.py:104-108 | on a non-empty list, typing `0` at the remove prompt removes the last task |
| TaskManager.OutOfRangeNumberChangesNothing | main.py:97-110 | a typed number outside `[1 - n, n]` for complete or remove changes neither list nor file; the program carries on, except at the remove prompt when the index does not fit a `Py_ssize_t`, where it stops |
| TaskManager.Step | main.py:92-110 | a request ends the program exactly when it is a remove whose index does not fit a `Py_ssize_t`; listing changes nothing |
| TaskManager.RemoveOverflowEndsSession | main.py:104-110 | a remove request whose index does not fit a `Py_ssize_t` ends the session: later requests never run, and list and file stay as they were |
| TaskManager.ListedNumberRemoves | main.py:104-108 | on any list CPython can hold (at most the `Py_ssize_t` maximum of elements), typing a listed number at the remove prompt removes exactly that task and rewrites the file |
| TaskManager.ListedNumberCompletes | main.py:97-101 | typing a listed number at the complete prompt marks exactly that task done and rewrites the file |
| TaskManager.AddTwoCompleteRemoveFirst | main.py:81-110 | on any empty manager, adding two tasks and then completing and removing number 1 leaves the second task, not done |
| TaskManager.FirstRunSession | main.py:81-110 | the session starts with no file, adds "buy milk" and "write report", completes 1 and removes 1; it leaves one undone "write report", and a restart from the file sees the same list |

## Left out

- File I/O: `os.path.exists`, `open`, `json.load`/`json.dump` and the `indent=4` layout. The file is the `Snapshot` value.
- I/O failures such as an unreadable or unwritable file. Durability of the direct overwrite is not modelled either: there is no concurrency, and crash behaviour cannot be stated here.
- JSON syntax errors, and a file whose top level is not an array. A snapshot is always an array of records.
- Stored JSON values are limited to strings and booleans. Numbers, null, arrays and nested objects appear only as an opaque `Other` value whose content is not tracked.
- Tasks.FromDict: a present field of the wrong JSON kind counts as a decoding failure. Python would build a `Task` from whatever value it finds there, which the `string`/`bool` task type cannot hold.
- Console output: every `print` message and the `✓`/`✗` rendering. `ShowTasks` returns the lines as data. The "No tasks remaining." branch is the empty listing.
- The menu loop's `input()` calls, the `int()` parse with its `ValueError` branch (including, on Python versions that limit integer-string conversion, the rejection of numbers with more than 4300 digits), the "Exit" choice and the "Invalid choice" message. Only the `- 1` conversion and the four requests are kept, as `Command` values.
- `Py_ssize_t` is taken to be 64 bits wide; on a 32-bit build the `OverflowError` bound is lower.
- The `filename` constructor parameter. The model has a single backing file.
