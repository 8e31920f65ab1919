# tui_top: the event loop, the process sort and the uptime text, in Dafny

tui_top is a terminal process monitor. Two producer threads feed one channel: one forwards
key events and the other sends periodic snapshots of the process list and of the system
uptime. A single consumer, `App::run`, repeatedly drains everything pending on that channel
into the `App` state and then draws one frame. This project models that consumer and the
logic it relies on:

- **`Processes`**: `ProcessInfo`, `Column` and the four-entry `COLUMNS` table, with their
  comparators. pid and mem use integer order, name uses lexicographic order, and cpu uses
  `partial_cmp` with `unwrap_or(Equal)`. The lemmas show that each comparator is a total
  preorder, and that the name comparator is exactly lexicographic order as defined
  independently by `LexLess`.
- **`Sort`**: `sort_processes`.
  - `SortProcesses` is a stable insertion sort, in place on an `array`. It is proved equal
    to the specification function `StableSort`.
  - `StableSort` is proved to be a sorted permutation that keeps every group of mutually
    Equal entries in input order. Such a group is a `Class`.
  - `StableSortCharacterization` proves that `StableSort` is the only sequence with those
    properties. So any stable sorting algorithm, including the standard library's
    `sort_by`, returns exactly this result.
  - Re-sorting is idempotent.
- **`TimeUtils`**: `seconds_to_days` and `format_time`. The decomposition is shown to be
  unique. The text is read back by a separate parser, `ParseTime`, which spells out the
  `" day, "` and `" days, "` separators itself rather than reusing the formatter's. It gives the
  round trip `ParseTime(FormatTime(n)) == Some(n)`; injectivity follows from it.
  `FormatTime`'s own contract covers the day count without a leading zero and the day word;
  the zero-padded clock has its own lemma.
- **`AppState`**: the `App` struct as a class, its `Default` constructor, and `AppValue`,
  the value of an `App` at one moment. The class has `exit`, `processes`, `system_info`,
  `sort_column` and `sort_desc`. `table_state` is reduced to its selected row, and
  `scrollbar_state` is left out (see "## Left out").
- **`Events`**: `Event`, `handle_key` and `handle_events`.
  - `HandleKey` and `HandleEvents` are methods on the `App` object and a `Receiver`, which
    stands for the channel's receiving end.
  - They are proved against the pure transition functions `KeyStep`, `EventStep` and
    `Drain`, about which every key binding, snapshot rule and drain-order property is
    proved.
- **`AppRun`**: `App::run`.
  - `Run` alternates a drain and a draw until `exit` is set. It is proved against
    `RunFrames`, the sequence of states drawn.
  - The lemmas about `RunFrames` show: frame `k` is the initial state with every event sent
    so far applied in order; nothing is drawn after `exit`; and the loop stops early only
    because of `exit`.

The `i32` and `u64` fields are integer subset types (`MachineInts`). `SysInfo` holds
`SystemInfo` and its default. `Wrappers` holds `Option`.

### Three behaviours a user might not expect

The model does what the code does. In three places that differs from what a user of the
table might expect, and each is stated by a lemma. The first two describe the state that
`handle_events` leaves for the draw; the table widget may still move the selection while
rendering, which is not modelled.

- One would expect the selection to stay inside the list when a snapshot shrinks it.
  `handle_events` replaces the list without touching the selection
  (`Events.SnapshotKeepsStaleSelection`).
- One would expect Down to stop at the last row. On an empty list there is no last row,
  and Down selects row 0, which does not exist (`Events.DownOnEmptyTable`).
- One would expect the list to be re-sorted when the sort column or direction changes.
  `handle_key` only changes the settings, and the list stays in the old order until the
  next snapshot (`Events.SortKeyChangeDoesNotResort`, `Events.ListChangesOnlyOnSnapshot`).

## Model

| member | source | states |
|---|---|---|
| `Processes.ColumnsTable` | src/system/processes.rs:20-45 | There are exactly four columns, in the order pid/PID, name/NAME, cpu/CPU%, mem/MEM, each with its comparator. |
| `Processes.PartialCompareCpu` | src/system/processes.rs:34-38 | `partial_cmp` on the cpu stand-in always returns an ordering, and it is Less, Equal or Greater exactly when the first value is below, equal to or above the second. |
| `Processes.CompareStrings` | src/system/processes.rs:29 | The string comparison is Equal exactly when the two strings are equal. |
| `Processes.Compare` | src/system/processes.rs:20-45 | A column's comparator says Equal exactly when the two entries have the same value in that column's field. |
| `Processes.CompareStringsAntisymmetric` | src/system/processes.rs:29 | Comparing y with x gives the reverse of comparing x with y. |
| `Processes.CompareStringsTransitive` | src/system/processes.rs:29 | "Not Greater" on strings is transitive. |
| `Processes.CompareStringsLexicographic` | src/system/processes.rs:29 | The string comparison is Less exactly when `LexLess` holds: x is a proper prefix of y, or x is smaller at the first position where they differ. |
| `Processes.CompareReflexive` | src/system/processes.rs:20-45 | Every column's comparator compares an entry Equal to itself. |
| `Processes.CompareAntisymmetric` | src/system/processes.rs:20-45 | For every column, `cmp(a, b)` is the reverse of `cmp(b, a)`. |
| `Processes.CompareTransitive` | src/system/processes.rs:20-45 | For every column, "not Greater" is transitive, so each comparator is a total preorder. |
| `Processes.NumericColumnsOrder` | src/system/processes.rs:20-45 | The pid, cpu and mem comparators are Less or Equal exactly when the field is less or equal. |
| `Processes.NameColumnOrder` | src/system/processes.rs:29 | The name comparator is Less exactly for lexicographic order and Equal exactly for equal names. |
| `Sort.Cmp` | src/utils/sort.rs:7-10 | The `sort_by` closure says Equal exactly when the entries have the same value in the column's field, in either direction. |
| `Sort.StableSort` | src/utils/sort.rs:4-11 | The sorted list has as many entries as the input. That it is a sorted, stable permutation is `Sort.StableSortCorrect`'s contract, and that it is the only such list is `Sort.StableSortCharacterization`'s. |
| `Sort.CmpReflexive` | src/utils/sort.rs:7-10 | The sort closure, in either direction, compares an entry Equal to itself. |
| `Sort.CmpAntisymmetric` | src/utils/sort.rs:7-10 | The sort closure is antisymmetric in both directions. |
| `Sort.CmpTransitive` | src/utils/sort.rs:7-10 | "Not Greater" under the sort closure is transitive in both directions, including the reversed one. |
| `Sort.SortedDescending` | src/utils/sort.rs:9 | Sorted descending means that no adjacent pair compares Less under the column's own comparator. |
| `Sort.SortedPair` | src/utils/sort.rs:7-10 | In a sorted list, every earlier entry is not Greater than every later one, not only adjacent ones. |
| `Sort.ClassIgnoresDirection` | src/utils/sort.rs:9 | The groups of Equal entries are the same in both directions. |
| `Sort.InsertPosBounds` | src/utils/sort.rs:7-10 | Every entry after the insertion point compares Greater than the inserted entry, and the entry before it does not. |
| `Sort.InsertSorted` | src/utils/sort.rs:7-10 | Inserting into a sorted list keeps it sorted. |
| `Sort.InsertPermutes` | src/utils/sort.rs:7-10 | Inserting adds exactly the one entry to the multiset. |
| `Sort.InsertClass` | src/utils/sort.rs:7-10 | An inserted entry joins its group after every entry already Equal to it. |
| `Sort.StableSortCorrect` | src/utils/sort.rs:4-11 | The sorted list is a permutation of the input, is sorted by the column and direction, and keeps every group of Equal entries in input order. |
| `Sort.SortedUnique` | src/utils/sort.rs:7-10 | Two sorted lists whose groups of Equal entries coincide are identical. |
| `Sort.StableSortCharacterization` | src/utils/sort.rs:7-10 | A list is the result of the stable sort if and only if it is sorted and keeps each group of Equal entries in input order. |
| `Sort.StableSortIdempotent` | src/utils/sort.rs:7-10 | Sorting a list that is already sorted by the same column and direction leaves it unchanged. |
| `Sort.StableSortTwice` | src/utils/sort.rs:7-10 | Sorting twice gives the same result as sorting once. |
| `Sort.StableSortPair` | src/utils/sort.rs:7-10 | Two entries swap exactly when the first compares Greater than the second under the closure. |
| `Sort.StableSortExtend` | src/utils/sort.rs:7-10 | Sorting one more input entry inserts it into the sorted prefix. |
| `Sort.SortProcesses` | src/utils/sort.rs:4-11 | The array afterwards holds `StableSort` of its old contents, for the column and direction given. |
| `Sort.InsertLast` | src/utils/sort.rs:7-10 | One insertion pass puts the next entry of the array into the sorted prefix and leaves the rest untouched. |
| `TimeUtils.SecondsToDays` | src/utils/time_utils.rs:1-12 | days·86400 + hours·3600 + minutes·60 + seconds gives back the input, with hours < 24, minutes < 60 and seconds < 60. |
| `TimeUtils.SecondsToDaysUnique` | src/utils/time_utils.rs:1-12 | Any decomposition with those bounds is the one returned, and the day count is the quotient by 86400. |
| `TimeUtils.SecondsToDaysInjective` | src/utils/time_utils.rs:1-12 | Different inputs give different tuples. |
| `TimeUtils.DecimalString` | src/utils/time_utils.rs:19 | The `{d}` text is nonempty and all digits, and it has no leading zero: it starts with `0` only for 0, which is written `"0"`. |
| `TimeUtils.DecimalRoundTrip` | src/utils/time_utils.rs:19 | Reading back the `{d}` digits gives d. |
| `TimeUtils.Pad2Digits` | src/utils/time_utils.rs:19 | `{:02}` of a value below 100 is exactly its tens digit then its units digit. |
| `TimeUtils.DayWord` | src/utils/time_utils.rs:17 | The word after the day count is "day" exactly when there is one day, and "days" otherwise. |
| `TimeUtils.FormatTime` | src/utils/time_utils.rs:14-20 | The text starts with `0` only when there are no days, so the day count has no leading zero. Right after the day count comes " day, " exactly when there is one day, and " days," otherwise. |
| `TimeUtils.FormatTimeRoundTrip` | src/utils/time_utils.rs:14-20 | The independent reader `ParseTime` recovers the uptime from its text. |
| `TimeUtils.FormatTimeInjective` | src/utils/time_utils.rs:14-20 | Two uptimes with the same text are equal. |
| `TimeUtils.FormatTimeClock` | src/utils/time_utils.rs:19 | The text ends in `HH:MM:SS`, each field exactly two digits. |
| `TimeUtils.FormatTimeOf` | src/utils/time_utils.rs:14-20 | The text of an uptime is its day count, the day word and the clock digits of its decomposition. |
| `TimeUtils.FormatTimeZero` | src/utils/time_utils.rs:14-20 | 0 seconds is "0 days, 00:00:00". |
| `TimeUtils.FormatTimeOneDay` | src/utils/time_utils.rs:14-20 | 86400 seconds is "1 day, 00:00:00". |
| `TimeUtils.FormatTimeExample` | src/utils/time_utils.rs:14-20 | 266399 seconds is "3 days, 01:59:59". |
| `SysInfo.DefaultSystemInfo` | src/system/system_info.rs:7-13 | The default system snapshot has uptime 0. |
| `AppState.App.constructor` | src/app/app.rs:21-33 | A new `App` is not exiting and has no processes, uptime 0, no selection, sort column 0 and descending order. |
| `Events.Receiver.TryRecv` | src/app/events.rs:18 | Returns the oldest pending event and removes it, or returns nothing and waits for nothing when none is pending. |
| `Events.Receiver.Send` | src/system/threads.rs:36-37 | The events sent are queued behind everything already pending, in order. |
| `Events.KeyStep` | src/app/events.rs:31-69 | A key never changes the process list or the system info, and it keeps the sort column a valid index. |
| `Events.EventStep` | src/app/events.rs:19-26 | Every event keeps the sort column a valid index. |
| `Events.Drain` | src/app/events.rs:17-28 | Draining any sequence of events keeps the sort column a valid index. |
| `Events.HandleKey` | src/app/events.rs:31-69 | The `App`'s new state is `KeyStep` of its old state and the key. |
| `Events.HandleEvents` | src/app/events.rs:17-28 | The channel is left empty and the `App`'s new state is every pending event applied to the old state in queue order. |
| `Events.NonPressIsIgnored` | src/app/events.rs:32-34 | Release and repeat events change nothing. |
| `Events.QuitKey` | src/app/events.rs:37 | `q` sets `exit` and changes nothing else. |
| `Events.DownKey` | src/app/events.rs:38-50 | Down selects row 0 when nothing is selected, otherwise the next row if one exists and the same row if not; nothing else changes. |
| `Events.DownStaysInTable` | src/app/events.rs:38-50 | If the selection was inside the list, it stays inside the list after Down. |
| `Events.UpKey` | src/app/events.rs:51-57 | Up selects the previous row, or row 0 at the top or when nothing is selected; nothing else changes. |
| `Events.UpStaysInTable` | src/app/events.rs:51-57 | On a nonempty list, a selection inside the list (or none) is inside the list after Up. |
| `Events.LeftRightWrap` | src/app/events.rs:58-63 | Left and Right always give a valid column, and they wrap from column 0 to 3 and from 3 to 0. |
| `Events.LeftRightInverse` | src/app/events.rs:58-63 | Left undoes Right, and Right undoes Left. |
| `Events.FourRights` | src/app/events.rs:61-63 | Four Right presses drained in a row give back the starting state. |
| `Events.RightStep` | src/app/events.rs:61-63 | Right moves to the next column, or from the last column back to 0, and changes nothing else. |
| `Events.ToggleDirection` | src/app/events.rs:64-66 | `s` flips the direction and nothing else, so two presses give back the starting state. |
| `Events.OtherKeysIgnored` | src/app/events.rs:67 | Any other key changes nothing. |
| `Events.ProcessesEvent` | src/app/events.rs:21-24 | A snapshot becomes the list as a permutation, sorted stably by the current column and direction; nothing else changes. |
| `Events.SystemInfoEvent` | src/app/events.rs:25 | A system snapshot replaces the system info and nothing else. |
| `Events.DrainNothing` | src/app/events.rs:18 | An empty channel leaves the state as it was. |
| `Events.DrainFirst` | src/app/events.rs:18-20 | The oldest event is applied first. |
| `Events.DrainAppend` | src/app/events.rs:17-28 | Draining `a` then `b` gives the same state as draining `a + b`; events apply strictly in queue order. |
| `Events.ListChangesOnlyOnSnapshot` | src/app/events.rs:17-28 | Without a Processes event, the list is unchanged; in particular, keys never re-sort it. |
| `Events.ControlsChangeOnlyOnInput` | src/app/events.rs:17-28 | Without key events, the exit flag, the selection and the sort settings are unchanged. |
| `Events.SnapshotKeepsStaleSelection` | src/app/events.rs:21-24 | An empty snapshot leaves selection `Some(2)` in place, pointing past the end of the list. |
| `Events.DownOnEmptyTable` | src/app/events.rs:38-50 | Down on an empty list with no selection selects row 0, which does not exist. |
| `Events.SortKeyChangeDoesNotResort` | src/app/events.rs:58-63 | After Right, the sort column is name, yet a list sorted by pid stays in pid order, which is not sorted by name. |
| `Events.EndToEnd` | src/app/events.rs:21-24 | A two-entry snapshot is ordered by pid ascending, by pid descending and by cpu ascending as expected. |
| `Events.DownThroughThreeRows` | src/app/events.rs:38-50 | With three rows and no selection, Down selects 0, then 1, then 2, and further presses stay at 2. |
| `AppRun.RunFrames` | src/app/app.rs:36-43 | The loop draws at most one frame per tick. |
| `AppRun.Run` | src/app/app.rs:36-43 | The `App` loop draws exactly the frames `RunFrames` describes and ends in the state of the last frame drawn. |
| `AppRun.ExitEndsTheLoop` | src/app/app.rs:37 | Nothing is drawn once `exit` is set, and only the last frame drawn can have `exit` set. |
| `AppRun.StopsOnlyOnExit` | src/app/app.rs:37 | If the loop draws fewer frames than there are ticks, the last frame has `exit` set. |
| `AppRun.FrameIsDrainOfPrefix` | src/app/app.rs:36-43 | Frame k is the starting state with every event sent up to tick k applied in order. |
| `AppRun.IdleTick` | src/app/app.rs:38-39 | A tick with nothing pending still draws one frame, showing the state unchanged. |

## Left out

- The producer threads (`src/system/threads.rs`) and the concurrency of the channel.
  - The model replaces them with a schedule `arrivals`: `arrivals[k]` is the batch sent
    between drain k-1 and drain k.
  - Any interleaving of the two producers is one such schedule. The model says nothing
    about timing.
- `Run` ends when the schedule runs out, not only on `exit`. Without `q`, the real loop
  ends only when a draw fails (see the draw errors below).
- `collect_processes` and `fetch_system_info` read the operating system, which is outside
  the model. Snapshots are inputs.
- `ProcessInfo.cpuUsage`: the `f32` percentage is an integer stand-in (hundredths of a
  percent). NaN is therefore not modelled. The `unwrap_or(Equal)` branch of the cpu
  comparator exists in the model but is never taken.
- Drawing (`src/interfaces/*` and `terminal.draw`) is modelled as reading the state and
  recording it.
  - `draw` takes `&mut App`. The table widget may adjust the selection and offset in
    `table_state`, and `render_process_table` rewrites `scrollbar_state`. None of this is
    modelled.
  - Draw errors returned by `?` are not modelled either. In the code such an error ends
    `run`.
- `TableState` is reduced to its `selected()` index. Its scroll offset and
  `ScrollbarState` are not modelled.
- `src/main.rs` calls `run_app`, which does not exist in the code shown, and it does not
  create the channel. Start-up and terminal set-up and restore are not modelled.
- `usize` overflow: `i + 1` in Down and `sort_column + COLUMNS.len() - 1` in Left are
  modelled on unbounded naturals. Down cannot reach the overflow in practice, since only
  Down raises the index and Down stops below the list length.
- `KeyEvent.modifiers` and `KeyEvent.state` do not affect `handle_key` and are not
  modelled. Key codes other than characters and arrows collapse to `Other`.
- `Processes.CompareStrings` compares characters, not UTF-8 bytes as Rust's `String::cmp`
  does. For valid strings the two orders are the same.
- Sort.StableSort: its own contract states only the length. The permutation, the order
  and stability are the contract of `Sort.StableSortCorrect` instead, because a multiset
  clause on the function itself makes every proof that unfolds it too costly to check.
- The panic of `COLUMNS[sort_column]` at `src/utils/sort.rs:5` when `sort_column` is 4 or
  more is not modelled. `Sort.Cmp`, `Sort.StableSort` and `Sort.SortProcesses` require
  `sortColumn < |COLUMNS|` instead. `AppValue.Valid()` keeps the column below 4, so this
  case cannot be reached from `handle_events` (`src/app/events.rs:23`).
- `SortProcesses` is an insertion sort, whereas the standard library's `sort_by` is a
  merge sort. `Sort.StableSortCharacterization` shows that every stable sort with this
  comparator gives the same list. Time complexity is not modelled.
