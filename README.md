# Video downloader front ends, modelled in Dafny

The repository has two PyQt windows over the `yt_dlp` library. Both let the
user paste one link or load a text file of links. They download each link
and report progress in a read-only log panel.

- **main.py** is the parallel front end. It shows one placeholder line per
  link, `[i/n] ⏳ Pendiente…`, and keeps a slot table (`progress_lines`) from
  item number to line index. Worker threads send `(idx, text)` signals that
  overwrite the item's own line. Informational messages are appended at the
  end.
- **yt_coninterfaz.py** is the older, sequential front end. It handles links
  one after the other. Before each download it writes a four-line header and
  points a single cursor (`ultima_linea_progreso`) at the header's blank last
  line. The progress hook overwrites that line until the library reports
  `finished`.

The model treats the panel as its plain text. The lines are Python's
`text.split("\n")`, and `QTextEdit.append` adds a paragraph.

Modules:

- `PyStr`: `str.isspace`, `strip` and `str(n)`.
- `LogBuffer`: split, join and append on the panel's text.
- `Ansi`: the colour-code removal `re.sub(r"\x1b\[[0-9;]*m", "", s)`.
- `Engine`: the values the library hands back.
- `Links`: input normalisation shared by both windows.
- `ProgressLog` and `Parallel`: main.py. The functions are the
  specification; the class `Parallel.DescargadorVideos` is proved against
  them.
- `LegacyLog` and `Sequential`: yt_coninterfaz.py, with the same split.

Each class method's `ensures` ties the new state to a specification function
of the old state. The lemmas beside those functions state what the panel
then shows.

The parallel window's workers send signals from threads, in an order the
model does not fix. `ProgressLog.SlotsTrackLatest` therefore covers any
sequence of emissions. `Parallel.DescargadorVideos.DownloadBatch` runs the
workers one after the other, which is one such order.

## Model

| member | source | states |
|---|---|---|
| PyStr.TrimStartShape | main.py:191 | `lstrip` keeps a suffix, drops only whitespace, and leaves no whitespace at the front |
| PyStr.TrimEndShape | main.py:191 | `rstrip` keeps a prefix, drops only whitespace, and leaves no whitespace at the end |
| PyStr.StripTrimmed | main.py:206 | a stripped string has no whitespace at either end |
| PyStr.StripOfTrimmed | main.py:275-277 | a string with no whitespace at either end strips to itself |
| PyStr.StripKeepsChars | main.py:275-277 | stripping never brings in a character that was not in the input |
| PyStr.StripEmptyIff | main.py:191-192 | `strip()` gives the empty string exactly when the input is all whitespace, in both directions |
| PyStr.StripIsTheTrimmedSlice | yt_coninterfaz.py:110 | `strip()` is the unique slice that drops whitespace only and has no whitespace at either end |
| PyStr.StripBlank | yt_coninterfaz.py:121 | a string made of whitespace strips to nothing |
| PyStr.StripNonBlank | yt_coninterfaz.py:121 | a string strips to the slice between its first and last non-whitespace characters |
| PyStr.StripIdempotent | main.py:206 | stripping twice gives the same result as stripping once |
| PyStr.DigitChar | main.py:156 | the digit character for d lies in '0'..'9' and stands for d |
| PyStr.NatToString | main.py:156 | `str(n)` is a non-empty string of digits, and it has no leading zero unless n is 0 |
| PyStr.NatToStringRoundTrip | main.py:156 | reading the decimal digits of `str(n)` back gives n |
| PyStr.NatToStringInjective | yt_coninterfaz.py:145 | different numbers give different strings |
| LogBuffer.Split | main.py:163 | `split("\n")` never returns an empty list, and no piece holds a line break |
| LogBuffer.SplitManyNonEmpty | yt_coninterfaz.py:160 | a text that splits into two lines or more is not empty |
| LogBuffer.SplitSingle | main.py:163 | a string without a line break splits into itself alone |
| LogBuffer.SplitConcat | main.py:172 | splitting at a joining line break splits the two sides independently |
| LogBuffer.SplitJoin | main.py:163-172 | reading back the joined lines gives the same lines, provided no line holds a break |
| LogBuffer.JoinSplit | main.py:163-172 | joining the split lines gives back the same text, always |
| LogBuffer.JoinAppend | yt_coninterfaz.py:165 | joining two non-empty runs of lines puts exactly one break between them |
| LogBuffer.SplitJoinAppend | yt_coninterfaz.py:160-165 | two runs of lines without breaks, written one after the other, read back as both runs |
| LogBuffer.SplitJoinGrows | yt_coninterfaz.py:195-198 | every line written comes back as at least one line |
| LogBuffer.AppendParagraphLines | main.py:149-150 | `append` adds the message's lines after the old ones, or replaces an empty panel |
| Ansi.Sgr | main.py:279 | the colour code built from parameters p matches the expression |
| Ansi.ParamRun | main.py:279 | the longest run of `[0-9;]` at the front: all parameters, and followed by a non-parameter |
| Ansi.SgrMatch | main.py:279 | the length of the match at the front is 0 or at least 3, and never past the end |
| Ansi.SgrMatchIsTheMatch | main.py:279 | `SgrMatch` finds the expression's match at the front, and it is the only one |
| Ansi.StripSgr | main.py:279 | removing codes never makes the text longer |
| Ansi.StripSgrKeepsChars | yt_coninterfaz.py:193 | removing codes never brings in a character that was not in the input |
| Ansi.StripSgrNoEsc | main.py:279 | text with no escape character is unchanged |
| Ansi.StripSgrKeepsPrefix | main.py:279 | a prefix with no escape character passes through untouched |
| Ansi.StripSgrDropsCode | main.py:279 | a whole colour code at the front is dropped |
| Ansi.StripSgrUncolours | yt_coninterfaz.py:193 | text between a colour code and a reset code comes out bare |
| Ansi.StripSgrExample | main.py:279 | a percentage coloured green comes out as `45%` |
| Ansi.NestedUnmatched | main.py:279 | an escape right after `ESC[` means no match starts at that position |
| Ansi.StripSgrNotIdempotent | main.py:279 | one pass leaves `ESC[31m` from `ESC[ESC[0m31m`, and a second pass removes it, so the pass is not idempotent |
| Engine.Field | main.py:275-277 | `d.get(key, default).strip()`: the field has no whitespace at either end; a value with none is shown as it is, and so is such a default when the key is missing |
| Engine.FieldKeepsChars | main.py:275-277 | a field shows only characters of the value, or of the default when the key is missing |
| Engine.FieldDefaults | yt_coninterfaz.py:188-190 | a missing key shows the literal defaults `0%` and `N/A` |
| Engine.FieldNoBreak | yt_coninterfaz.py:188-190 | a field of a dictionary whose strings have no line break has no line break |
| Links.NormaliseLinks | main.py:206 | the list comprehension keeps at most one link per line |
| Links.LinkOf | yt_coninterfaz.py:121 | a line gives no link exactly when it is blank, and at most one link |
| Links.NormaliseLinksClean | main.py:206 | every link is non-empty and has no whitespace at either end |
| Links.NormaliseLinksAppend | yt_coninterfaz.py:121 | the links of a file are the links of its first part followed by those of the rest, in file order |
| Links.NormaliseLinksSingle | main.py:206 | one line gives its stripped text, or nothing when it is blank |
| Links.NormaliseLinksEmpty | main.py:210-212 | a file gives no link exactly when every line is blank, in both directions |
| Links.PastedLink | main.py:191-195 | a pasted link is rejected exactly when it is blank; otherwise it is the stripped, non-empty, trimmed text |
| ProgressLog.Tag | main.py:278 | the label `[idx/total]` is one non-empty line with no escape character |
| ProgressLog.Placeholder | main.py:156 | a placeholder is one non-empty line |
| ProgressLog.Placeholders | main.py:156 | there are `total` placeholders, and entry k is item k+1's placeholder |
| ProgressLog.SlotMap | main.py:157-158 | the slot table holds exactly slots 1..total, and slot i names line i-1 |
| ProgressLog.InitLines | main.py:154-159 | after the initialisation the panel holds exactly the placeholders (one empty line when total is 0) |
| ProgressLog.UpdateLines | main.py:162-172 | an unknown slot changes nothing; a slot's existing line is replaced and every other line and the table kept; a slot past the end appends the text and is re-pointed at it |
| ProgressLog.AppendInfoLines | main.py:149-150 | informational messages only add lines at the end and leave the table alone |
| ProgressLog.LatestNonEmpty | main.py:162-172 | the last text emitted for a slot is never empty when no emitted text is |
| ProgressLog.SlotsTrackLatest | main.py:149-176 | after the placeholders, whatever one-line messages arrive in whatever order, each slot names its own item's line, and that line holds the last text emitted for the item |
| ProgressLog.HookLineShape | main.py:273-280 | the hook emits exactly for `downloading` events; its text is the item's label, the arrow and the stripped body, which is the body itself when it holds no escape |
| ProgressLog.HookLineSingle | main.py:273-280 | the hook's text is one non-empty line when the dictionary's strings are |
| ProgressLog.HeadAndStrippedBody | main.py:278-279 | a label followed by a stripped one-line body is one non-empty line |
| ProgressLog.HookBodyDefaults | main.py:275-278 | a dictionary with none of the three keys shows `0% \| N/A \| ETA N/A` |
| ProgressLog.HookBodyNoBreak | main.py:278 | `p \| s \| ETA e` stays on one line when its fields do |
| ProgressLog.WorkerOwnSlot | main.py:250-269 | a stopped worker emits nothing; a worker emits only for its own slot; a running worker's last emission is its outcome line |
| ProgressLog.HookEmissionsOwnSlot | main.py:272-280 | the hook of item idx speaks only for slot idx |
| ProgressLog.ApplyAllAppend | main.py:162-176 | applying two runs of emissions is applying the first, then the second |
| ProgressLog.ApplyAllSnoc | main.py:162-176 | one more emission is applied to the state the earlier ones left |
| ProgressLog.LatestAppend | main.py:162-172 | the last text for a slot after two runs is the second run's, falling back on the first's |
| ProgressLog.LatestUntouched | main.py:149-150 | emissions that never name a slot leave its last text as it was |
| ProgressLog.WorkerLatest | main.py:261-269 | a running worker's last word on its slot is its outcome line |
| ProgressLog.BatchLatest | main.py:240-241 | each item's slot is last written by its own worker with its own outcome, whatever the others did; with the flag up no slot is written |
| ProgressLog.LastWorkerLatest | main.py:250-269 | the last worker's slot ends with its own outcome line, or keeps the placeholder's fallback when the flag is up |
| ProgressLog.BatchStep | main.py:241 | the batch's emissions for n items are those for n-1 items followed by worker n's |
| ProgressLog.BatchSilent | main.py:251-252 | with the stop flag up, the whole batch emits nothing |
| ProgressLog.HookEmissionsSingle | main.py:273-280 | the hook's emissions are one-line texts when the dictionaries' strings are |
| ProgressLog.SingleLinesAppend | main.py:162-172 | one-line emissions stay one-line when runs of them are joined |
| ProgressLog.BatchSingle | main.py:240-269 | a batch whose library strings have no line break emits only one-line texts |
| ProgressLog.WorkerSingle | main.py:250-269 | one worker's emissions are one-line texts when its strings are |
| ProgressLog.OutcomeLineSingle | main.py:265-269 | each of the three outcome lines is one non-empty line when its text is |
| ProgressLog.BatchFinalLines | main.py:218-269 | after a batch, the table is still the placeholders' one, and line k shows item k+1's outcome, or its placeholder when the flag was up |
| ProgressLog.BatchItemLatest | main.py:240-269 | informational messages before the workers do not change any item's last text |
| ProgressLog.BatchTracks | main.py:149-269 | a batch after any informational messages keeps every slot on its own line, showing its last text |
| Parallel.WorkerCount | main.py:237 | the worker count is the spin box's value, or 1 for 0, so it lies in 1..10 |
| Parallel.StartEmissions | main.py:238 | the start announcement comes first, followed by the stop message when stop was clicked, and both are informational |
| Parallel.DescargadorVideos.constructor | main.py:48-53 | an empty panel, no slots, no batch, the stop flag down |
| Parallel.DescargadorVideos.AppendInfo | main.py:149-151 | the panel and table become `ProgressLog.AppendInfo` of the old ones, and nothing else changes |
| Parallel.DescargadorVideos.InitProgressLines | main.py:154-160 | the loop leaves the table and panel equal to `Init(total)`, discarding earlier entries |
| Parallel.DescargadorVideos.UpdateProgress | main.py:162-176 | the new state is `Update` of the old one, and the batch fields and flag are unchanged |
| Parallel.DescargadorVideos.Descargar | main.py:250-280 | the state is the old one with the worker's emissions applied: nothing once the flag is up, else the hook lines and then the outcome line |
| Parallel.DescargadorVideos.StartDownloads | main.py:234-245 | with the flag up nothing happens; otherwise the announcements and every worker's emissions are applied in order, and the worker count is returned |
| Parallel.DescargadorVideos.PrepareAndStart | main.py:218-229 | records the batch, lowers the flag, and shows the placeholders plus the preparation notice |
| Parallel.DescargadorVideos.StopDownloads | main.py:286-288 | raises the flag and logs the stop message |
| Parallel.DescargadorVideos.DownloadVideo | main.py:190-195 | a blank link only adds the warning; any other link, stripped, becomes a batch of one |
| Parallel.DescargadorVideos.LoadTextFile | main.py:200-213 | a cancelled dialog does nothing; a failed read logs the error; a file without links logs the warning; otherwise its links become the batch |
| Parallel.BatchRun | main.py:218-248 | a batch emits the preparation notice first, then the stop message alone when stop came before the timer, else the start notice first |
| Parallel.BatchRunLines | main.py:218-269 | after a whole batch, the table is the placeholders' one and line k shows item k+1's outcome, or its placeholder when stop was clicked before or during the start |
| Parallel.DescargadorVideos.DownloadBatch | main.py:218-269 | the batch is the given links, the flag is up exactly when stop was clicked, the panel is `BatchRun` applied to the placeholders, and every slot names its item's line, showing its outcome, or its placeholder when stop was clicked before the workers ran |
| LegacyLog.Log | yt_coninterfaz.py:99-101 | `log` keeps the cursor, and the cursor still names an existing line |
| LegacyLog.Hook | yt_coninterfaz.py:186-206 | the hook keeps the cursor naming an existing line, so the list index never fails |
| LegacyLog.HookAll | yt_coninterfaz.py:186-206 | the same holds after any number of events |
| LegacyLog.Header | yt_coninterfaz.py:158-166 | after the header the cursor names an existing line |
| LegacyLog.ProcessItem | yt_coninterfaz.py:144-179 | handling an item, whatever its outcome, keeps the cursor valid |
| LegacyLog.Drive | yt_coninterfaz.py:139-179 | the loop keeps the cursor valid |
| LegacyLog.Attempted | yt_coninterfaz.py:139-142 | the attempted items end at the first one during which stop was clicked; before it no stop was clicked |
| LegacyLog.Items | yt_coninterfaz.py:139-179 | handling the first m items keeps the cursor valid |
| LegacyLog.ListLinks | yt_coninterfaz.py:128-129 | the listing keeps the cursor and its validity |
| LegacyLog.HookLines | yt_coninterfaz.py:187-206 | a `downloading` event with the cursor set replaces exactly the cursor's line and keeps every other line; with no cursor it changes nothing; `finished` clears the cursor; other statuses do nothing |
| LegacyLog.ProgressMessageDefaults | yt_coninterfaz.py:188-193 | a dictionary with none of the three keys shows `Velocidad: N/A / Tiempo restante: N/A / Progreso: 0%` |
| LegacyLog.ProgressMessageShape | yt_coninterfaz.py:188-193 | the message is the formatted text itself when no escape occurs, and it stays on one line when the fields do |
| LegacyLog.ProgressTextNoBreak | yt_coninterfaz.py:192 | `Velocidad: … / Tiempo restante: … / Progreso: …` stays on one line when its fields do |
| LegacyLog.HeaderLines | yt_coninterfaz.py:158-166 | the header appends the heading, ` - url`, ` - title` and a blank line after the old lines, and the cursor is the new line count |
| LegacyLog.HeaderSplitTitle | yt_coninterfaz.py:158-166 | a title `a\nb` reads back as two lines, so the cursor, counted before the split, names the line `b` and not the blank line |
| LegacyLog.HeaderParts | yt_coninterfaz.py:160-166 | the header's text is the old lines and the link, a break, then the title line and the blank line; the cursor is the old line count plus four |
| LegacyLog.TitleBreakJoin | yt_coninterfaz.py:163-165 | a title line holding a break is written exactly as two lines would be |
| LegacyLog.ProgressAfterHeader | yt_coninterfaz.py:158-206 | after the header and any events, the progress line shows the last `downloading` message before the first `finished`, nothing above it moves, and the cursor stays on it until `finished` |
| LegacyLog.HookAllAtProgress | yt_coninterfaz.py:186-206 | the hook keeps the progress line's shape event after event |
| LegacyLog.HeaderAtProgress | yt_coninterfaz.py:158-166 | right after the header, the progress line is the blank last line and the cursor names it |
| LegacyLog.HookStep | yt_coninterfaz.py:186-206 | one more event keeps the progress line's shape |
| LegacyLog.HookStepShows | yt_coninterfaz.py:195-198 | a `downloading` event before any `finished` puts its message on the progress line |
| LegacyLog.HookStepIdle | yt_coninterfaz.py:205-206 | any other event leaves the text alone and clears the cursor only for `finished` |
| LegacyLog.FinishedSnoc | yt_coninterfaz.py:205-206 | a `finished` event has occurred after one more event exactly when it had before or the new event is one |
| LegacyLog.ShownSnoc | yt_coninterfaz.py:187-206 | the shown message changes only for a `downloading` event before any `finished` |
| LegacyLog.ItemLines | yt_coninterfaz.py:144-179 | each item adds a blank line and its start message, then either the header, progress line and final message, or the failure; nothing earlier changes |
| LegacyLog.StartLines | yt_coninterfaz.py:144-145 | the start of an item adds a blank line and the start message |
| LegacyLog.ProbedLines | yt_coninterfaz.py:156-174 | a readable link adds its header, its progress line and its final message |
| LegacyLog.DriveAttempts | yt_coninterfaz.py:137-179 | the loop handles, in list order, exactly the items up to the first stop click, whatever their outcomes, and logs the stop message only if items remain |
| LegacyLog.DriveFrom | yt_coninterfaz.py:139-179 | from any position before the first stop, the rest of the loop reaches the same end |
| LegacyLog.DriveStep | yt_coninterfaz.py:139-145 | before the first stop click the loop hands the next item over |
| LegacyLog.DriveUnfold | yt_coninterfaz.py:139-142 | a raised flag ends the loop with the stop message; otherwise the next item is handled |
| LegacyLog.AttemptedStep | yt_coninterfaz.py:139-142 | before the first stop click, the loop has items left to attempt |
| LegacyLog.AttemptedAt | yt_coninterfaz.py:139-142 | the loop stops exactly after the attempted items |
| LegacyLog.DriveEnd | yt_coninterfaz.py:140-142 | at the first stop, the stop message is logged only if items remain |
| LegacyLog.BulletLine | yt_coninterfaz.py:128-129 | logging ` - url` after non-empty text adds exactly that one line |
| LegacyLog.ListLinksLines | yt_coninterfaz.py:127-129 | the listing adds one ` - url` line per link, in file order, after the earlier lines |
| Sequential.DescargadorVideos.constructor | yt_coninterfaz.py:20-22 | an empty panel, no cursor, the stop flag down |
| Sequential.DescargadorVideos.Log | yt_coninterfaz.py:99-101 | the panel becomes `LegacyLog.Log` of the old one, and the flag is unchanged |
| Sequential.DescargadorVideos.ProgressHook | yt_coninterfaz.py:186-206 | the panel and cursor become `Hook` of the old ones |
| Sequential.DescargadorVideos.DownloadItem | yt_coninterfaz.py:144-179 | one turn of the loop leaves `ProcessItem` of the old panel |
| Sequential.DescargadorVideos.ProcessDownloads | yt_coninterfaz.py:136-181 | the panel ends as `Finish` after the attempted items, and the flag shows whether the last of them was stopped |
| Sequential.DescargadorVideos.StopDownloads | yt_coninterfaz.py:183-184 | raises the flag and changes nothing else |
| Sequential.DescargadorVideos.DownloadVideo | yt_coninterfaz.py:109-114 | a blank link logs the warning; any other link, stripped, is handled as item 1 of 1 |
| Sequential.DescargadorVideos.LoadTextFile | yt_coninterfaz.py:116-134 | a cancelled dialog does nothing; a failed read logs the error; a file without links logs the warning; otherwise the links are listed under the heading and then handled |

## Left out

- Qt's text handling beyond plain text is not modelled. This covers the normalisation `setPlainText`/`toPlainText` applies (carriage returns, paragraph separators, non-breaking spaces) and `append`'s rich-text detection. The panel is a plain string.
- Threads, the pool's size limit and Qt's signal queue are not modelled. The emissions are one sequence in any order, and `DownloadBatch` runs the workers one after the other. The break out of `as_completed` is not modelled, because the `with` block waits for every worker anyway.
- `processEvents`, `QTimer.singleShot` and `setEnabled` are not modelled. A click on stop while the event loop runs is a boolean parameter: `stopBeforeStart` and `stopDuringNotice` in main.py, and `LegacyRun.userStops` in yt_coninterfaz.py.
- `seleccionar_carpeta`, the window's widgets and styles, the date prefix, the output template and `Path(...).name` are not modelled. A file name is an opaque string.
- Opening and decoding the text file is not modelled. The file dialog's result and the read are a `FileChoice`: cancelled, failed with the exception's text, or the raw lines.
- In yt_coninterfaz.py, the `try` around the read also wraps the listing and the processing; an exception escaping those is not modelled. Every item's exceptions are caught inside the loop anyway.
- `yt_dlp` itself is not modelled. Its work on a link is a value: the progress dictionaries it passes to the hook and the outcome (`Run` for main.py, `Item` and `LegacyRun` for yt_coninterfaz.py).
- The hook dictionary's `status` key is taken to be present. A missing key raises `KeyError` in the source; the model does not cover it.
- A title that is present but `None` is not distinguished from a missing one.
- With the format `bestvideo+bestaudio`, the library reports `finished` after the first stream. From then on the cursor is cleared, and the second stream's progress is not shown. The model shows this behaviour but proves nothing specific about it.
- The hook's `IndexError` is not modelled as a failure, because `CursorValid` shows it cannot happen.
- HeaderLines, ProgressAfterHeader, HeaderAtProgress, ItemLines and ProbedLines require a title with no line break, which the source does not demand. (The link has none: it is one line of a file or of the one-line input field.) For a title `a\nb` the lines shift: `HeaderSplitTitle` shows that the cursor then names the line `b`, which progress overwrites.
- HookLines, HookAllAtProgress, HookStep, HookStepShows and HookStepIdle require the progress dictionary's strings to have no line break, which the source does not demand. The library's progress strings are single lines, so this case does not arise in practice.
- DownloadBatch: a stop click while `_init_progress_lines` processes events (main.py:160) logs the stop message before the preparation notice. The model places every stop click after that notice, as `stopBeforeStart`.
- The parallel window's lemmas about what the slots show require every progress text to be a single non-empty line (`ProgressLog.SingleLines`). A text with a line break shifts later lines, so slot i no longer names item i's line.
