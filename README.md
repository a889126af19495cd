# LogLinesAdapter: the log view engine of AndroidIDE

This project models the core of AndroidIDE's log view, the class
`LogLinesAdapter`. The class keeps a bounded buffer of wrapped log lines
(`lines`, at most `MAX_LINES` = 5000, oldest evicted first) and a view
(`shown`). The view is either the same list object as the buffer (unfiltered)
or a separately owned list (filtered). A pure predicate, `matchesFilter`,
decides which lines belong to a filtered view. It compares the line's
rendering with the query text, ignoring case, and the line's priority with the
priority threshold. `filter` records the query and computes the filtered list
off the UI thread. It also computes a DiffUtil edit script from the buffer to
that list. On completion it either adopts the list or, when the list is as long as the
buffer is at that moment, points the view back at the buffer.

The model has two layers.

- Pure layer:
  - `LogText`: Kotlin's `isBlank` and `contains(…, ignoreCase = true)`.
  - `LogModel`: log lines, wrappers, queries, `lineString`, `wrap`,
    `matchesFilter` and the text of `allAsString`.
  - `EditScript`: a removal-only edit script and what it does when applied.
  - `LogFilter`: the `lines.filter { … }` comprehension.
  - `ViewState`: the adapter's fields as a value. It has one step function
    per state-changing operation, and the ensures clauses of these functions
    state the adapter's properties.
- Imperative layer:
  - `Adapter`: the class `LogLinesAdapter`, which updates its fields in
    place. Each method that changes state is proved equal to its step
    function; the read-only ones are specified directly. While `aliased`
    holds, every change to `lines` is also applied to `shown`.

`filter` is modelled as two sequential steps. `FilterStart` records the query
and computes the result from the buffer as it is at that moment.
`FilterComplete` is the `whenComplete` callback. Any other operation can run
between the two steps, which is the interleaving the asynchronous code allows.
The `notify*` calls are kept as a log of `Notification`s
(`Inserted(i)`, `Removed(i)`, `Reset`), because their indices are observable
behaviour. The two exceptions `add` can throw are modelled as outcomes: a
`NullPointerException` at `query!!` and an `IndexOutOfBoundsException` at
`shown[0]`.

Some behaviours are modelled as the code has them, and lemmas in `ViewState`
show each one:

- If `clear` runs between a filter's start and its completion, and the
  pending result is not empty (more exactly, its size differs from the
  buffer's size at completion), the completion leaves the view filtered with
  no query. It also leaves lines in the view that are no longer in the
  buffer. The next `add` then throws at `query!!`
  (`ClearBeforeCompletionBreaksQuery`). An empty pending result is as long as
  the cleared buffer, so its completion points the view back at the buffer
  and the next `add` succeeds (`ClearBeforeEmptyCompletionRestores`).
- Overlapping filters break the same invariant without any `clear`. Suppose
  the newer filter keeps every line and completes first: it drops the query.
  The older result, which does filter, then completes and leaves the view
  filtered with no query, so the next `add` throws at `query!!`
  (`ReverseCompletionBreaksQuery`). So `isFiltered ⇒ query != null` holds only
  while no `clear` and no other completion has dropped the query between a
  filter's start and its completion.
- Nothing discards stale results. If two filters complete in reverse order,
  the older result is applied last and decides the view
  (`OlderResultAppliedLastWins`).
- Eviction compares the view's head with the buffer's head after the removal.
  As a result, an evicted line can stay in the view
  (`EvictedLineStaysInView`), and a line that is still buffered can leave it
  (`EvictionDropsBufferedLine`).
- On a full buffer, a filter that matches nothing makes the next line that
  does not match throw at `shown[0]` (`FullBufferEmptyViewFails`).
- `clear` does not point `shown` back at `lines`. After a `clear` in filtered
  mode, new lines are buffered and notified, but the view stays empty
  (`ClearLeavesViewDetached`).

The code also behaves as follows, and the model keeps each behaviour:

- The edit script is computed from `lines`, not from the view being shown.
- There is no sequence-number guard against stale results.
- In filtered mode, a line that does not match is still notified, as an insert
  at the buffer's last index.
- Eviction compares the view's head with the new buffer head, not with the
  evicted line.
- `clear` does not return the view to the aliased, unfiltered mode.
- On completion, the filtered list's size is compared with the buffer's size
  at completion time, not at start time.

## Model

| member | source | states |
|---|---|---|
| `LogText.IsBlank` | app/src/main/java/com/itsaky/androidide/adapters/LogLinesAdapter.kt:145 | the empty query is blank, and a query is blank iff every character in it is whitespace |
| `LogText.ContainsIgnoreCase` | app/src/main/java/com/itsaky/androidide/adapters/LogLinesAdapter.kt:145 | the empty query is contained in every text and every text contains itself; a contained query is no longer than the text |
| `LogText.IndexOfIgnoreCase` | app/src/main/java/com/itsaky/androidide/adapters/LogLinesAdapter.kt:145 | the result is -1 exactly when no offset matches ignoring case; otherwise it is the first offset where the query matches and fits |
| `LogText.ContainsIff` | app/src/main/java/com/itsaky/androidide/adapters/LogLinesAdapter.kt:145 | `contains(…, ignoreCase = true)` holds iff some offset of the text matches the query ignoring case |
| `LogText.ExactOccurrenceContained` | app/src/main/java/com/itsaky/androidide/adapters/LogLinesAdapter.kt:145 | a verbatim occurrence of the query is found by the case-insensitive test |
| `LogText.LongerNeedleNotContained` | app/src/main/java/com/itsaky/androidide/adapters/LogLinesAdapter.kt:145 | a query longer than the text is never contained in it |
| `LogModel.LineString` | app/src/main/java/com/itsaky/androidide/adapters/LogLinesAdapter.kt:201-206 | the simple rendering when simple formatting is on, the full rendering otherwise |
| `LogModel.ColorOf` | app/src/main/java/com/itsaky/androidide/adapters/LogLinesAdapter.kt:189-195 | ERROR, WARNING and INFO each get their own colour constant; every other priority gets the fallback colour |
| `LogModel.Wrap` | app/src/main/java/com/itsaky/androidide/adapters/LogLinesAdapter.kt:187-199 | the wrapper holds the line itself, is visible, and carries the line's rendering in the current mode coloured by its priority |
| `LogModel.WrapInjective` | app/src/main/java/com/itsaky/androidide/adapters/LogLinesAdapter.kt:216-226 | wrappers made in one formatting mode are structurally equal iff their log lines are equal |
| `LogModel.Matches` | app/src/main/java/com/itsaky/androidide/adapters/LogLinesAdapter.kt:143-147 | a matching line has the threshold priority unless the threshold is VERBOSE; a blank query matches exactly on priority; a non-blank query that matches is no longer than the line's rendering |
| `LogModel.MatchesIff` | app/src/main/java/com/itsaky/androidide/adapters/LogLinesAdapter.kt:143-147 | `matchesFilter` holds iff (the query is blank or some offset of the rendered line matches it ignoring case) and (the priority equals the threshold or the threshold is VERBOSE) |
| `LogModel.VacuousQueryMatchesAll` | app/src/main/java/com/itsaky/androidide/adapters/LogLinesAdapter.kt:143-147 | the empty query at VERBOSE matches every line |
| `LogModel.ThresholdRejectsOtherPriorities` | app/src/main/java/com/itsaky/androidide/adapters/LogLinesAdapter.kt:146 | a non-VERBOSE threshold rejects every line of another priority, whatever the text |
| `LogModel.VerbatimQueryMatches` | app/src/main/java/com/itsaky/androidide/adapters/LogLinesAdapter.kt:145-146 | at VERBOSE, a line whose rendering contains the query verbatim matches |
| `LogModel.AllText` | app/src/main/java/com/itsaky/androidide/adapters/LogLinesAdapter.kt:151-159 | the export is empty iff there are no lines, has at least one character per line, and ends with a newline when there are lines |
| `LogModel.AllTextConcat` | app/src/main/java/com/itsaky/androidide/adapters/LogLinesAdapter.kt:151-159 | the exported text of two consecutive runs of lines is the concatenation of their exports |
| `LogModel.AllTextFront` | app/src/main/java/com/itsaky/androidide/adapters/LogLinesAdapter.kt:154-157 | the export begins with the first line's rendering and a newline, followed by the export of the rest |
| `EditScript.SubsequenceLength` | app/src/main/java/com/itsaky/androidide/adapters/LogLinesAdapter.kt:95 | a subsequence is no longer than its source |
| `EditScript.SubsequenceMembers` | app/src/main/java/com/itsaky/androidide/adapters/LogLinesAdapter.kt:95 | every element of a subsequence occurs in its source |
| `EditScript.ApplyRemovals` | app/src/main/java/com/itsaky/androidide/adapters/LogLinesAdapter.kt:137 | the empty script changes nothing; a script that succeeds removes exactly one element per position, so no removal-only script is shorter than the lists' length difference |
| `EditScript.Diff` | app/src/main/java/com/itsaky/androidide/adapters/LogLinesAdapter.kt:96-120 | when the new list is a subsequence of the old one, applying the script to the old list yields exactly the new list, with one removal per dropped element |
| `EditScript.DiffOfSame` | app/src/main/java/com/itsaky/androidide/adapters/LogLinesAdapter.kt:96-120 | diffing a list against itself gives the empty script |
| `LogFilter.FilterLines` | app/src/main/java/com/itsaky/androidide/adapters/LogLinesAdapter.kt:95 | the filtered list is no longer than the buffer, all its lines match, and every matching buffer line is in it |
| `LogFilter.FilterMultiplicity` | app/src/main/java/com/itsaky/androidide/adapters/LogLinesAdapter.kt:95 | each matching line occurs in the filtered list exactly as often as in the buffer, and every other line not at all |
| `LogFilter.FilterIsSubsequence` | app/src/main/java/com/itsaky/androidide/adapters/LogLinesAdapter.kt:95 | the filtered list is a subsequence of the buffer (original order kept) |
| `LogFilter.FilterConcat` | app/src/main/java/com/itsaky/androidide/adapters/LogLinesAdapter.kt:95 | filtering distributes over concatenation, so each line is kept or dropped on its own, in order |
| `LogFilter.FilterKeepsAllIff` | app/src/main/java/com/itsaky/androidide/adapters/LogLinesAdapter.kt:95 | the filtered list has the buffer's length iff every line matches, and then it equals the buffer |
| `LogFilter.FilterNoneMatch` | app/src/main/java/com/itsaky/androidide/adapters/LogLinesAdapter.kt:95 | when no line matches, the filtered list is empty |
| `LogFilter.VacuousFilterKeepsAll` | app/src/main/java/com/itsaky/androidide/adapters/LogLinesAdapter.kt:95 | filtering with the empty query at VERBOSE returns the buffer unchanged |
| `LogFilter.ComputeFilter` | app/src/main/java/com/itsaky/androidide/adapters/LogLinesAdapter.kt:94-121 | the background result: the filtered list of the buffer, hence a subsequence of it holding each matching line as often as the buffer does and no other line, and a script that turns the buffer into that subsequence with one removal per dropped line |
| `ViewState.Initial` | app/src/main/java/com/itsaky/androidide/adapters/LogLinesAdapter.kt:51-55 | a new adapter is empty, aliased, unfiltered and has no query, and it satisfies both invariants |
| `ViewState.Dispatch` | app/src/main/java/com/itsaky/androidide/adapters/LogLinesAdapter.kt:137 | dispatching a script sends one removal notification per script entry, at the same positions and in the same order |
| `ViewState.ClearStep` | app/src/main/java/com/itsaky/androidide/adapters/LogLinesAdapter.kt:64-70 | `clear` empties both lists, drops the filter and the query, sends a reset and leaves the aliasing as it was; the invariants hold afterwards |
| `ViewState.AddStep` | app/src/main/java/com/itsaky/androidide/adapters/LogLinesAdapter.kt:72-89 | capacity is kept; a full buffer loses exactly index 0 and gains the new line at the end; aliased, the view is the buffer; filtered, the line joins the view iff it matches, and the view's head is dropped iff it equals the new buffer head; the notifications for each case; and exactly when `query!!` or `shown[0]` throws |
| `ViewState.FilterStartStep` | app/src/main/java/com/itsaky/androidide/adapters/LogLinesAdapter.kt:92-95 | the query is recorded at once and the pending result is computed from the current buffer and formatting mode; the query invariant holds afterwards |
| `ViewState.CompleteStep` | app/src/main/java/com/itsaky/androidide/adapters/LogLinesAdapter.kt:123-140 | a failed computation changes nothing; otherwise `isFiltered` is whether the sizes differ; unfiltered, the view is aliased to the buffer again, the query is dropped and a reset is sent; filtered, the view is the result and the script is dispatched; the query invariant survives when a query was set |
| `ViewState.FilterThenComplete` | app/src/main/java/com/itsaky/androidide/adapters/LogLinesAdapter.kt:92-140 | with no interleaving, the view ends filtered iff some line fails to match; it is then exactly the matching lines in order, reached from the buffer by the dispatched removals; otherwise the adapter is back to unfiltered and aliased |
| `ViewState.VacuousFilterRestoresUnfiltered` | app/src/main/java/com/itsaky/androidide/adapters/LogLinesAdapter.kt:129-135 | the empty query at VERBOSE returns the adapter to the aliased, unfiltered view with a full reset |
| `ViewState.OlderResultAppliedLastWins` | app/src/main/java/com/itsaky/androidide/adapters/LogLinesAdapter.kt:123-138 | when two filters complete in reverse order, the older result decides the view, while the recorded query is the newer one or none |
| `ViewState.ReverseCompletionBreaksQuery` | app/src/main/java/com/itsaky/androidide/adapters/LogLinesAdapter.kt:123-138 | a newer filter that keeps every line and completes first drops the query; the older, filtering result completing afterwards leaves the adapter filtered with no query, and the next add throws at `query!!` |
| `ViewState.ClearBeforeCompletionBreaksQuery` | app/src/main/java/com/itsaky/androidide/adapters/LogLinesAdapter.kt:64-138 | with a non-empty pending result: start, then clear, then completion leaves the adapter filtered with no query and showing an unbuffered line; the next add throws at `query!!` |
| `ViewState.ClearBeforeEmptyCompletionRestores` | app/src/main/java/com/itsaky/androidide/adapters/LogLinesAdapter.kt:64-138 | start with a filter that matches nothing, then clear, then completion: the empty result equals the cleared buffer in size, so the adapter is aliased and unfiltered with no query, and the next add succeeds |
| `ViewState.EvictedLineStaysInView` | app/src/main/java/com/itsaky/androidide/adapters/LogLinesAdapter.kt:82-87 | when the evicted line heads the view and differs from the next buffered line, it stays in the view, and the view stops being a subsequence of the buffer |
| `ViewState.EvictionDropsBufferedLine` | app/src/main/java/com/itsaky/androidide/adapters/LogLinesAdapter.kt:82-87 | when the new buffer head equals the view's head and the evicted line was not shown, a line that is still buffered leaves the view |
| `ViewState.FullBufferEmptyViewFails` | app/src/main/java/com/itsaky/androidide/adapters/LogLinesAdapter.kt:82-84 | on a full buffer, a filter that matches nothing leaves the view filtered and empty, and the next non-matching add throws at `shown[0]` |
| `ViewState.FilteredAddShowsVerbatimMatch` | app/src/main/java/com/itsaky/androidide/adapters/LogLinesAdapter.kt:75-77 | in filtered mode at VERBOSE, a line that contains the query verbatim is added to the end of the view, with an insert at the view's last index |
| `ViewState.ClearLeavesViewDetached` | app/src/main/java/com/itsaky/androidide/adapters/LogLinesAdapter.kt:64-79 | after `clear` in filtered mode, an added line enters the buffer and is notified at 0, but the view stays empty |
| `ViewState.ThreeLinesShownInOrder` | app/src/main/java/com/itsaky/androidide/adapters/LogLinesAdapter.kt:72-80 | three lines added to a fresh adapter are buffered and shown in order, with inserts at 0, 1 and 2 |
| `ViewState.ErrorFilterOfThree` | app/src/main/java/com/itsaky/androidide/adapters/LogLinesAdapter.kt:95-120 | filtering INFO, ERROR, WARNING lines on ERROR keeps the ERROR line, with removals at 0 and then 1 |
| `ViewState.ThreeLinesThenErrorFilter` | app/src/main/java/com/itsaky/androidide/adapters/LogLinesAdapter.kt:72-138 | after those three adds and an ERROR filter, the view is filtered and holds only the ERROR line, with the matching notifications |
| `Adapter.LogLinesAdapter.constructor` | app/src/main/java/com/itsaky/androidide/adapters/LogLinesAdapter.kt:51-55 | the fields start in the initial state |
| `Adapter.LogLinesAdapter.Clear` | app/src/main/java/com/itsaky/androidide/adapters/LogLinesAdapter.kt:64-70 | updates the fields in place exactly as `ClearStep` does and keeps the invariant |
| `Adapter.LogLinesAdapter.Add` | app/src/main/java/com/itsaky/androidide/adapters/LogLinesAdapter.kt:72-89 | updates the fields in place, mirroring each buffer change into an aliased view, exactly as `AddStep` does and with its outcome |
| `Adapter.LogLinesAdapter.FilterStart` | app/src/main/java/com/itsaky/androidide/adapters/LogLinesAdapter.kt:92-122 | changes only `query` and returns the pending result, exactly as `FilterStartStep` does |
| `Adapter.LogLinesAdapter.FilterComplete` | app/src/main/java/com/itsaky/androidide/adapters/LogLinesAdapter.kt:123-140 | updates the fields in place exactly as `CompleteStep` does and keeps the invariant |
| `Adapter.LogLinesAdapter.GetLine` | app/src/main/java/com/itsaky/androidide/adapters/LogLinesAdapter.kt:149 | returns the buffered line at the index iff 0 ≤ index < size of `lines`, and otherwise fails with an out-of-range error; the view plays no part |
| `Adapter.LogLinesAdapter.GetItemCount` | app/src/main/java/com/itsaky/androidide/adapters/LogLinesAdapter.kt:185 | returns the size of the view, which equals the buffer's size while aliased |
| `Adapter.LogLinesAdapter.AllAsString` | app/src/main/java/com/itsaky/androidide/adapters/LogLinesAdapter.kt:151-159 | the loop builds each buffered line's rendering plus a newline, in buffer order, and ignores the view and the filter |
| `Adapter.ThreeLinesClient` | app/src/main/java/com/itsaky/androidide/adapters/LogLinesAdapter.kt:72-159 | a client, proved from the method contracts and the scenario lemma: after three adds and an ERROR filter, one item is shown and the export still holds all three lines |

## Left out

- Text primitives: `LogLine.toSimpleString()`/`toString()`, the JVM's `Character.toUpperCase`/`toLowerCase` and Kotlin's `Char.isWhitespace` are not in the source and are not modelled. They are parameters (`Host`, `CharOps`), so every property holds for any choice of them.
- Strings are sequences of Unicode scalar values, while Kotlin's `contains(…, ignoreCase = true)`, `isBlank` and `length` work on UTF-16 code units. The two differ only for unpaired surrogates and in the length of supplementary characters. That affects the length clause of `LogModel.Matches` and of `LogText.ContainsIgnoreCase`.
- `ILogger.Priority` is not part of this model. Its values are taken to be VERBOSE, DEBUG, INFO, WARNING and ERROR, and only VERBOSE, INFO, WARNING and ERROR are treated specially.
- `LogLine.equals` is not in the source. `LogWrapper.equals` (line 222) relies on it, and the model takes it to be structural over priority, tag and message.
- Styled text: `SpannableString` and `ForegroundColorSpan` are reduced to a value (text, colour), and their equality is taken to be structural. Android's span equality, which compares span objects by identity, is not modelled.
- Concurrency: `CompletableFuture.supplyAsync`, `whenComplete` and `ThreadUtils.runOnUiThread` are modelled as two sequential steps. `FilterComplete` treats the worker-thread part (lines 129-130) and the UI-thread part (lines 131-139) as one atomic step. The worker reads the buffer and the formatting mode as they are when the filter starts.
- The error branch of `whenComplete` (lines 124-127) is modelled as a `Failed` completion that changes nothing. The log call is I/O and is not modelled.
- `DiffUtil.calculateDiff` and `dispatchUpdatesTo` are library code and are modelled only by their contract. The model builds a removal-only script that meets that contract. DiffUtil's own order of dispatch and its batched range notifications are not modelled.
- After an operation throws, the model describes the state at the point of the throw, and no further operation is modelled. On Android, an uncaught exception on the UI thread ends the process.
- `onCreateViewHolder`, `onBindViewHolder`, `TypefaceUtils`, `SizeUtils` and `hashCode` are rendering and hashing code, and they are not modelled.
- `LogViewFragment` is wiring to the UI: view binding, the text watcher, the priority spinner, and `post` to the UI thread. It only forwards calls to the adapter, so it is not part of this model. The public `simpleFormatting` field it sets is a plain field of the class.
- `NBJavaCompiler` is not part of this model.
- How the RecyclerView reacts to notifications, including its consistency checks, is not modelled. The model keeps only the log of notifications sent.
