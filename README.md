# procps `top` refresh and render core, modelled in Dafny

This project models the bookkeeping at the centre of procps `top` (`top.c`).
That is the integer and string logic that runs on every frame and on every key
that reconfigures a window. It needs neither a terminal nor `/proc`:

- **History delta engine** (`frame_states`). Two generation buffers of
  `(pid, ticks)` pairs are swapped by reference and grown by `siz*5/4+100`
  when full. Every live task of the sentinel-terminated table is recorded, and
  its `pcpu` becomes the ticks elapsed since its pid was last seen. Tasks are
  also counted by state code. Modules `History` and `Tasks`.
- **CPU tick deltas** (`cpudo`, integer part). Each category delta is
  clamped at zero, the total is floored at one, and the counters are rebased.
  Module `CpuTicks`.
- **Tick formatting** (`scale_tics`). The first of five renderings that fits
  a width, or `"?"`. Module `ScaleTics`, on the decimal helpers of `Text`.
- **Comparators** `sort_P_TME` and `sort_P_CMD`. They are pure orderings
  over explicit cumulative-time, command-line and direction flags. Module
  `Sorting`, on the `strcmp`/`strncmp` model of `Text`.
- **Field groups**:
  - the field-group string: one letter per field, upper case when shown;
  - the three editors `fields_toggle`, `fields_reorder` and `fields_sort`
    (module `Fields`);
  - `win_colsheads`: displayed fields, the fitting prefix, the column header
    and `maxcmdln`;
  - `win_fldviz`;
  - the `<`/`>` sort-field stepping.

  The last three are in module `Windows`.
- **The window ring** (module `Ring`):
  - `windows_stage1`, `win_select`, `wins_reflag` and `wins_resize`;
  - the `do_key` cases that act on the windows;
  - the row apportionment of `sohelpme`;
  - the row loop of `do_window`.

  The last two rest on the specification functions of module `Layout`.
- **`strim`**. It models the whitespace handling on a character buffer
  (module `Text`).

Code that changes state step by step is modelled as methods over the same
state:
- the history buffers are arrays held by a `HistoryTracker` object;
- the cpu slots and the process table are arrays;
- the four windows are an array in a `Session` object.

Each method is proved against a specification function:
- `Record` and `Elapsed` for the history engine;
- `Laid` for `win_colsheads`;
- `Apportion` for `sohelpme`;
- `Rows` for `do_window`;
- `KeyWin` for the key cases;
- `ToggleAll`, `ReorderAll` and `SortPick` for the editors.

The lemmas prove what the source promises about those functions.

Two behaviours of the code that are easy to miss:
- The elapsed ticks of a task are not clamped at zero (`top.c:1902`). A pid
  not seen in the previous generation is charged its full cumulative ticks.
- The four state counts can add up to less than the task total. Only `S`,
  `D`, `T`, `Z` and `R` are counted. `History.CountsCoverTotal` proves that
  equality holds exactly when every task has one of those codes.

## Model

| member | source | states |
|---|---|---|
| Tasks.Live | procps/top.c:1868 | the loop's stopping point: the position of the first entry whose pid is -1; every entry before it is live |
| Tasks.LiveIgnoresPayload | procps/top.c:1908 | writing members other than pid (the `pcpu` update) leaves the sentinel where it was |
| Text.DecRoundTrip | procps/top.c:724-737 | the `%u` rendering reads back as the number it prints |
| Text.DecLengthMonotone | procps/top.c:727-737 | a larger number never prints in fewer digits |
| Text.DecLengthBound | procps/top.c:724 | a number below 10^k prints in at most k digits |
| Text.Pad2 | procps/top.c:724 | `%02u` of a value below 100 is exactly two digits that read back as the value |
| Text.StrcmpZeroIffEqual | procps/top.c:2620 | `strcmp` is zero exactly for equal strings, the user filter's equality test |
| Text.StrcmpAntisymmetric | procps/top.c:215 | swapping the operands of `strcmp` negates its sign |
| Text.StrcmpTransitive | procps/top.c:215 | `strcmp` order is transitive |
| Text.Head | procps/top.c:211-212 | the characters `strncmp` compares: the first `n` of the string, or all of it when it is shorter or `n` is negative |
| Text.StrncmpZeroIffEqual | procps/top.c:211-212 | `strncmp` is zero exactly when the compared leading parts are equal |
| Text.StrncmpAntisymmetric | procps/top.c:211-212 | swapping the operands of `strncmp` negates its sign, for every length limit |
| Text.StrncmpTransitive | procps/top.c:211-212 | `strncmp` order is transitive for every length limit |
| Text.FirstTrimmed | procps/top.c:271-273 | `strpbrk(str, ws)`: the first whitespace position, with none before it, or none at all |
| Text.Strpbrk | procps/top.c:271-273 | the scan over the buffer returns the first whitespace position, if any |
| Text.SpacedProperties | procps/top.c:270-271 | replacing each whitespace by a space keeps the length and every other character, leaves no whitespace and is idempotent |
| Text.CutProperties | procps/top.c:272-273 | cutting at the first whitespace keeps a prefix, the rest starts with whitespace, and the result has none and is idempotent |
| Text.Strim | procps/top.c:265-275 | with `sp` every whitespace of the string becomes a space; without it the string ends at its first whitespace, which becomes the NUL, and the rest of the buffer is untouched; nothing past the string changes |
| CpuTicks.SharesOfTotal | procps/top.c:1815-1822 | each category is at most the total, the total is their sum, or 1 when no tick elapsed |
| CpuTicks.MonotoneCountersNotClamped | procps/top.c:1815-1819 | with counters that did not run backwards each delta is the plain difference |
| CpuTicks.RegressedCounterClamped | procps/top.c:1809-1819 | a counter that ran backwards contributes 0 |
| CpuTicks.RebasedFrameIsIdle | procps/top.c:1815-1840 | after the rebase, an unchanged cpu shows all-zero deltas over a total of 1 |
| CpuTicks.Cpudo | procps/top.c:1807-1843 | returns the slot's deltas and rebases that slot only |
| CpuTicks.CpuStates | procps/top.c:1927-1938 | with the summary toggle only the aggregate slot is processed, otherwise each cpu in order; the other slots are untouched |
| ScaleTics.Scale | procps/top.c:704-748 | the result is the first rendering that fits the width, and `"?"` exactly when none fits |
| ScaleTics.RenderingsShrink | procps/top.c:726-737 | each rendering is no longer than the one tried before it |
| ScaleTics.UnknownOnlyWhenWeeksTooWide | procps/top.c:737-741 | `"?"` comes back exactly when even the weeks form is too wide |
| ScaleTics.TimePlusKeepsHundredths | procps/top.c:722-725 | in a 9-wide column every time below 1000 minutes is shown as `min:ss.cc` |
| ScaleTics.FirstRenderingReadsBack | procps/top.c:722-724 | the first rendering is minutes, `:`, two-digit seconds, `.` and two-digit hundredths, each reading back as its value |
| Sorting.SortTime | procps/top.c:176-192 | result in -1..1; zero exactly for equal times; the sign follows the times in the chosen direction |
| Sorting.SortTimeMirror | procps/top.c:176-192 | swapping the tasks, or flipping the direction, negates the result |
| Sorting.SortTimeTransitive | procps/top.c:176-192 | the time order is transitive in either direction |
| Sorting.SortCommandOrder | procps/top.c:204-216 | with the flag set, a task with an argument vector sorts first; two tasks tie exactly when both have an argument vector and their first arguments agree on the first `maxcmdln` characters, or, when no argument vector takes part, their names are equal |
| Sorting.SortCommandMirror | procps/top.c:204-216 | swapping the tasks, or flipping the direction, negates the result |
| Sorting.SortCommandTransitive | procps/top.c:204-216 | the command order is transitive in either direction |
| History.Grow | procps/top.c:1889 | the new size is at least the old size plus a quarter of it (rounded down) plus 100 |
| History.CapacityAfterBounds | procps/top.c:1888-1892 | the capacity never shrinks, exceeds every index written, and is unchanged when it was large enough |
| History.FindPid | procps/top.c:1900-1905 | the first previous entry with the pid, or none |
| History.ElapsedAgainstFirstMatch | procps/top.c:1899-1908 | elapsed ticks are the current ticks minus those of the first matching previous entry, or the full ticks without one |
| History.ElapsedExamples | procps/top.c:1896-1908 | 530 after 500 is 30; 500 after 530 is -30 (no clamping); an unseen pid is charged 530 |
| History.UnchangedTaskElapsesNothing | procps/top.c:1896-1908 | a task with a unique pid whose ticks did not move shows zero elapsed ticks against its own recorded generation |
| History.TallyCount | procps/top.c:1873-1887 | one task adds one to the counts exactly when its state is S, D, T, Z or R |
| History.CountsCoverTotal | procps/top.c:1873-1887 | the four counts never exceed the task total and equal it exactly when every task has a counted state |
| History.Realloc | procps/top.c:789-797 | the grown buffer keeps the old contents at the front |
| History.ElapsedTics | procps/top.c:1899-1905 | the scan over the first `Frame_maxtask` entries computes `Elapsed` |
| History.HistoryTracker.constructor | procps/top.c:1853-1855 | both buffers start empty, with no previous frame |
| History.HistoryTracker.FrameStates | procps/top.c:1851-1914 | the live count is the sentinel's position; buffers swapped (when no growth happened); capacity per the growth rule and above the count; the new generation is the table's record; the previous one is kept; every live task is charged its elapsed ticks; the rest of the table is untouched; state counts returned |
| History.RecordFrame | procps/top.c:1864-1911 | the frame loop after the swap: the same buffer, charge and count facts |
| History.MakeRoom | procps/top.c:1888-1892 | grows both buffers exactly when `total+1 >= hist_siz`, keeping both generations' contents |
| History.TrackTask | procps/top.c:1888-1910 | one task: grow if needed, record its entry and charge its elapsed ticks, keeping the buffer invariant |
| Fields.FieldKey | procps/top.c:1430-1431 | a key selects a field exactly when it is a letter, `toupper(c) - 'A'` |
| Fields.FirstIndex | procps/top.c:1432 | `strchr`: the first position holding the character, or none exactly when it is absent |
| Fields.Visible | procps/top.c:1453-1456 | the displayed fields are table indices, at most one per character |
| Fields.VisibleMembers | procps/top.c:1453-1456 | a field is displayed exactly when its upper-case letter is in the string |
| Fields.ToggleFlipsOneLetter | procps/top.c:1432-1435 | a toggle flips the case of exactly one letter of the field, when the field is there, and changes nothing else |
| Fields.ToggleFlipsVisibility | procps/top.c:1432-1435 | the typed field's visibility flips, every other field's is kept, and the string stays well formed |
| Fields.ToggleKeepsFields | procps/top.c:1432-1435 | every position keeps its field; well-formedness is kept |
| Fields.ToggleFlipsUpper | procps/top.c:1432-1435 | the field's upper-case letter is present after the toggle exactly when it was absent before |
| Fields.ToggleKeepsOthers | procps/top.c:1432-1435 | other fields' upper-case letters are unaffected |
| Fields.ToggleTwice | procps/top.c:1432-1435 | toggling a field twice restores a well-formed string |
| Fields.Swap | procps/top.c:1372-1374 | exchanges two neighbours and keeps every other position |
| Fields.Locate | procps/top.c:1368-1369 | the field's upper-case letter first, else its lower-case one; none exactly when the field is absent |
| Fields.SwapMultiset | procps/top.c:1372-1374 | a swap is a permutation |
| Fields.ReorderPermutes | procps/top.c:1366-1376 | a reorder key keeps the same letters, each as often, and well-formedness |
| Fields.SwapPreservesWellFormed | procps/top.c:1372-1374 | a swap keeps a well-formed string well formed |
| Fields.ReorderMovesField | procps/top.c:1370-1375 | an upper-case key moves the field one place left, a lower-case key one right, nothing at the ends |
| Fields.ExposeShowsField | procps/top.c:1407-1408 | after the sort editor the chosen field is displayed, the others keep their visibility, and the string stays well formed |
| Fields.ExposeKeepsFields | procps/top.c:1407-1408 | every position keeps its field |
| Fields.ExposeKeepsOthers | procps/top.c:1407-1408 | other fields' upper-case letters are unaffected |
| Fields.SessionKeys | procps/top.c:1429-1431 | a session acts on the letters typed before the first non-letter |
| Fields.SessionsKeepWellFormed | procps/top.c:1362-1376 | whole toggle and reorder sessions keep the string well formed; a reorder session is a permutation |
| Fields.SortPick | procps/top.c:1395-1406 | the sort field becomes the last letter typed, or stays when none was |
| Windows.FitCountLongest | procps/top.c:1461-1466 | the fitting prefix's preliminary header fits the screen, and every longer prefix overflows |
| Windows.FirstOverflowIsFitCount | procps/top.c:1461-1471 | the first-overflow scan yields the longest fitting prefix |
| Windows.CmdHeading | procps/top.c:1484-1486 | the Command heading is `maxcmdln`+1 wide |
| Windows.ColumnsWidth | procps/top.c:1480-1489 | the final headings are as wide as the plain ones, plus the Command growth when Command is shown once |
| Windows.HeaderWidth | procps/top.c:1478-1489 | the final header's width with or without the Command column |
| Windows.LaidFits | procps/top.c:1452-1473 | displayed fields from the upper-case letters; the preliminary header fits and is the longest that does; the command line gets at least 7 columns |
| Windows.LaidWidthWithCommand | procps/top.c:1468-1489 | with Command shown the final header is exactly the screen width |
| Windows.LaidWidthWithoutCommand | procps/top.c:1478-1489 | without Command the final header is exactly as wide as the preliminary one |
| Windows.DisplayedFields | procps/top.c:1453-1456 | the first pass collects `Visible(fieldscur)` |
| Windows.FitHeaders | procps/top.c:1460-1471 | the second pass finds the longest fitting prefix and its width |
| Windows.BuildHeader | procps/top.c:1478-1489 | the third pass builds the window number plus every fitting heading |
| Windows.ColsHeads | procps/top.c:1447-1489 | the three passes leave the window `Laid` describes, changing only `procflags`, `maxpflgs`, `maxcmdln` and `columnhdr` |
| Windows.VisibleDistinct | procps/top.c:1453-1456 | a well-formed string lists each displayed field once |
| Windows.FldViz | procps/top.c:1508-1514 | true exactly when the flag is among the fitting fields |
| Windows.LastPos | procps/top.c:2472-2474 | the backward scan stops at the last occurrence |
| Windows.FirstPos | procps/top.c:2482-2484 | the forward scan stops at the first occurrence |
| Windows.StepsRoundTrip | procps/top.c:2470-2488 | stepping keeps the sort field displayed, and with distinct fields `>` undoes a `<` that moved and vice versa |
| Windows.SortLeftOf | procps/top.c:2470-2478 | the `<` scan computes `StepLeft` |
| Windows.SortRightOf | procps/top.c:2480-2488 | the `>` scan over every displayed field computes `StepRight`; the sort field need only be displayed |
| Windows.FirstPosPrefix | procps/top.c:2482-2486 | when the sort field fits, the scan over every displayed field finds it where a scan of the fitting fields would, and steps the same way |
| Windows.StepRightPastFit | procps/top.c:2482-2486 | a displayed sort field that does not fit is left unchanged by `>` |
| Layout.ShownCount | procps/top.c:2648-2654 | counts the visible windows of a range, never more than its size |
| Layout.ScanEnd | procps/top.c:2648-2654 | where the first loop stops: past the window where the reserve reaches `max`, or at the end |
| Layout.CDiv | procps/top.c:2659 | C division truncates toward zero: the remainder has the sign of the dividend and is smaller than the divisor |
| Layout.DemandOfShare | procps/top.c:2659-2669 | without caps the rows asked for are one share plus a header line per shown window |
| Layout.UncappedShareFits | procps/top.c:2643-2669 | without caps every shown window gets `(max - n)/n` rows; with headers they fit `max`, and less than one row per window is left over |
| Layout.CappedAndUncappedExample | procps/top.c:2643-2669 | a capped window gets its cap and an uncapped one the even share; hidden windows are untouched |
| Layout.Candidates | procps/top.c:2615-2620 | the qualifying tasks, in table order |
| Layout.WindowRows | procps/top.c:2611-2628 | the loop emits exactly `Rows`, and the line count grows by the header and each row on a terminal |
| Layout.RowLoopExit | procps/top.c:2615-2616 | whichever of the three conditions ends the loop, the rows emitted are the window's rows |
| Layout.RowsBounded | procps/top.c:2615-2628 | rows are live, qualifying, in order, within the row limit and the screen |
| Layout.RowsComplete | procps/top.c:2615-2628 | a qualifying live task is left out only when the row cap is reached |
| Ring.RingCloses | procps/top.c:1765-1771 | a step back undoes a step forward, and four steps return to the start |
| Ring.Stage1 | procps/top.c:1748-1756 | slot i gets window number i+1 and a sort field in the table |
| Ring.Selected | procps/top.c:1538-1549 | the selection stays within the ring |
| Ring.Reflag | procps/top.c:1670-1680 | TOGw is symmetric difference, SETw is union, OFFw is removal |
| Ring.ReflagProperties | procps/top.c:1664-1689 | toggling twice restores the window; the rebalance flag clears the cap and shows the window and its idle tasks |
| Ring.SortEditedShowsField | procps/top.c:1383-1411 | the sort editor picks the last key's field, keeps the string well formed, and displays the field when present |
| Ring.StepKeysRoundTrip | procps/top.c:2470-2488 | `<` and `>` change only the sort field and keep it displayed; with distinct fields each undoes the other |
| Ring.StepKeyPastFit | procps/top.c:2480-2488 | `>` leaves a window alone when its sort field is displayed but does not fit |
| Ring.ReorderKey | procps/top.c:1368-1376 | one reorder key computes `Reorder` |
| Ring.LaidRing | procps/top.c:1711-1715 | every window of the ring laid out, each still consistent for its slot |
| Ring.LayRing | procps/top.c:1711-1715 | walking the ring from the current window lays out every window |
| Ring.Session.constructor | procps/top.c:1724-1774 | four windows from the setup table, the first current, single-window mode |
| Ring.Session.WinSelect | procps/top.c:1528-1550 | the current window becomes `Selected` |
| Ring.Session.WinsReflag | procps/top.c:1664-1689 | the walk applies the flag operation to every window |
| Ring.Session.ColsHeadsAll | procps/top.c:1711-1715 | every window's header laid out again |
| Ring.Session.WinsResize | procps/top.c:1696-1716 | width capped at the maximum; every header laid out for it; nothing else changes |
| Ring.Session.ColsHeadsCur | procps/top.c:2233 | only the current window's header is laid out again |
| Ring.Session.FieldsToggle | procps/top.c:1416-1438 | only the current window's string changes, to `ToggleAll` of the session's keys |
| Ring.Session.FieldsReorder | procps/top.c:1352-1379 | only the current window's string changes, to `ReorderAll` of the session's keys |
| Ring.Session.FieldsSort | procps/top.c:1383-1411 | the sort field becomes `SortPick` and its letter is shown; nothing else changes |
| Ring.Session.SoHelpMe | procps/top.c:2643-2670 | the ring becomes `Apportion` of the old ring |
| Ring.Session.AllotRows | procps/top.c:2664-2669 | visible windows from `wix` on get their cap or the size; the others are untouched |
| Ring.Session.ScanShown | procps/top.c:2648-2654 | the first loop's reserve and window count, up to `ScanEnd` |
| Ring.Session.DoWindow | procps/top.c:2611-2630 | the rows shown and line count of `WindowRows`; afterwards only that window's `winlines` is 0 |
| Ring.Session.DoKey | procps/top.c:2195-2488 | `a`/`w` move only in multi-window mode; `G` selects the window its prompt reads; `A` switches mode, takes the terminal width capped at the maximum, and lays out every header for it; `_` toggles every window's visibility in multi-window mode; `=` resets the monitored pids; window keys act as `KeyWin`; the remaining keys leave the windows, the selection and the mode as they are |
| Ring.Session.WindowKeyCmd | procps/top.c:2215-2488 | the current window becomes `KeyWin` of the key; the others are untouched |
| Ring.Session.FlagKeyCmd | procps/top.c:2184-2443 | `c`, `i`, `R`, `S`, `x`, `y`, `z` toggle their flag when VIZCHKc holds; `1`, `l`, `m`, `t` always toggle their summary flag; `b` toggles bold only when VIZCHKc holds and a highlight is on |
| Ring.Session.EditorKey | procps/top.c:2230-2243 | `f`, `o`, `F`, `O` run their editor session and lay the header out again when VIZCHKc holds |
| Ring.Session.StepKey | procps/top.c:2470-2488 | `<`/`>` step the sort field when VIZCHKc holds; `<` needs the sort field among the fitting fields, `>` only among the displayed ones |
| Ring.Session.ShowKey | procps/top.c:2449-2468 | `=` shows everything, `-` toggles visibility and `+` asks for a rebalance, the last two in multi-window mode only |
| Ring.Session.ToggleCur | procps/top.c:2449-2452 | flips one flag of the current window when asked |

## Left out

- Terminal and terminfo output are left out: `capsmk`, `show_msg`, `show_special`, `putp`, the color escapes, and the percentage lines `cpudo` prints.
- Floating point is left out: `time_elapsed`, the percentages of `cpudo` and of the `%CPU`/`%MEM` columns, `scale_num`, `get_float`.
- The source of the data is not modelled. The contents of `/proc` (`refreshcpus`, `refreshprocs`) and the cpu counters are inputs.
- The `qsort` call and the globals `Frame_srtflg`/`Frame_ctimes`/`Frame_cmdlin` are left out. The comparators take explicit flags instead.
- The window's sort before the row loop of `do_window` is left out.
- The configuration file and argument parsing are not modelled.
- These `do_key` cases are not modelled: `W` (writes the configuration file), `d`/`s` (delay), `k` (kill), `r` (renice), `I` (Irix mode), `q` and the other prompts and messages. `DoKey` leaves the windows, the selection and the mode unchanged for them, and for the following cases, which the source does act on:
  - `n`/`#` set the current window's task cap, and `u` its user filter.
  - `g` renames the current window in multi-window mode.
  - `h`/`?` can go on to the window help, whose loop selects a window for every key read, as `win_select` does.
  - `Z` sets the current window's colors, toggles its bold and color flags, and its `a`/`w` keys change the current window.
- The message `b` shows when there is nothing to highlight is left out, and so is `capsmk` after `x`, `y`, `z` and `b`.
- `<` keeps the requirement that the sort field be among the fitting fields. Otherwise the source's backward scan runs off the front of the field array.
- `1` is modelled as built without `WARN_NOT_SMP`, so it toggles the flag even on one cpu.
- Keys are not read from the terminal. The editors and `DoKey` take the keys typed as a sequence parameter.
- `wins_resize` takes the terminal width as a parameter and caps it at a `screenMax` parameter. It does not re-read `ioctl`/`lines`.
- The screen rows are not modelled, so the row count `A` re-reads through `wins_resize` is not kept.
- The kernel symbol table opening at the end of `win_colsheads` (`needpsdb`) is left out.
- `OFFw(Curwin, FLGSOFF_cwo)` after the row loop of `do_window` is left out. The flag set that macro names is not part of this model.
- Several constants come from `top.h`, which is not part of this model:
  - `SORT_lt`/`SORT_gt` are +1/-1 by direction.
  - `VIZCHKc` is single-window mode or a visible current window.
  - The field indices follow the field table's order.
  - The initial field strings and flags are parameters.
  - The color numbers are the curses ones.
- `so_lets_see_em` is not modelled. It is the orchestration calling `sohelpme` and `do_window` per window.
- `Ring.LayRing`: the ring walk of `wins_resize` lays the windows out on a value copy, which is then written back. The order of the updates therefore does not appear; none of the updates reads another window.
- `History.HistoryTracker.FrameStates`: the counters are unbounded. Unsigned wrap-around of `hist_siz` and of the task ticks is not modelled. Buffer sizes are counted in entries, not bytes.
- `Text.Strcmp`, `Text.Strncmp`: only the sign of `strcmp`/`strncmp` is modelled. C may return any value of that sign, so `sort_P_CMD` may return a larger magnitude; the ordering is the same.
- `Text.Strim`: strings are C strings without their NUL; the buffer's length is a parameter.
- `ScaleTics.Scale`: the seconds count wraps as a 32-bit unsigned. The `tics*100` product does not wrap. Buffer truncation by `snprintf` is not modelled.
- `Windows.ColsHeads`: the header buffer is not truncated to its `snprintf`/`strcat` size. `%d` of the window number is the `Dec` rendering.
- `Ring.Session.SoHelpMe`: the two values assigned to `size` before its last assignment are computed and overwritten unread, as in the source. The reserve is therefore never deducted from the share.
