/** The state of `LogLinesAdapter` as a value, and one step function per
    operation that changes it. The class in module `Adapter` is proved to
    follow these functions; the properties of the adapter are proved here. */
module ViewState {
  import opened Wrappers
  import opened LogText
  import opened LogModel
  import opened EditScript
  import opened LogFilter

  /** The RecyclerView notifications the adapter sends: `notifyItemInserted`,
      `notifyItemRemoved` and `notifyDataSetChanged`. */
  datatype Notification = Inserted(index: nat) | Removed(index: nat) | Reset

  /** The exceptions an adapter operation can end with. */
  datatype Exception = NullPointerException | IndexOutOfBoundsException

  datatype Outcome = Done | Threw(exception: Exception)

  /** How the background filter computation ended: with its result, or with
      an error that `whenComplete` only logs. */
  datatype Completion = Completed(result: FilterResult) | Failed

  /** The adapter's fields. `aliased` records that `shown` is the very list
      object `lines`; `notified` is the log of notifications sent so far. */
  datatype State = State(
    lines: seq<Wrapper>,
    shown: seq<Wrapper>,
    aliased: bool,
    isFiltered: bool,
    query: Option<Query>,
    simpleFormatting: bool,
    notified: seq<Notification>)

  datatype AddResult = AddResult(state: State, outcome: Outcome)

  /** The invariant every operation keeps: the buffer is within capacity, and
      an aliased view is the buffer itself and only happens unfiltered. */
  predicate Valid(s: State)
  {
    |s.lines| <= MAX_LINES &&
    (s.aliased ==> s.shown == s.lines && !s.isFiltered)
  }

  /** The condition under which `query!!` in `add` cannot fail. */
  predicate QueryConsistent(s: State)
  {
    s.isFiltered ==> s.query.Some?
  }

  /** A freshly constructed adapter. */
  function Initial(): (s: State)
    ensures Valid(s) && QueryConsistent(s)
    ensures s.lines == [] && s.shown == [] && s.aliased && !s.isFiltered && s.query == None
  {
    State([], [], true, false, None, true, [])
  }

  /** The notifications `dispatchUpdatesTo` sends for a removal script. */
  function Dispatch(removals: seq<nat>): (r: seq<Notification>)
    ensures |r| == |removals|
    ensures forall k :: 0 <= k < |r| ==> r[k] == Removed(removals[k])
    decreases |removals|
  {
    if removals == [] then [] else [Removed(removals[0])] + Dispatch(removals[1..])
  }

  /** `clear`: both lists emptied and the filter forgotten, but `shown` is not
      pointed back at `lines`. */
  function ClearStep(s: State): (r: State)
    ensures Valid(s) ==> Valid(r)
    ensures QueryConsistent(r)
    ensures r.lines == [] && r.shown == [] && !r.isFiltered && r.query == None
    ensures r.aliased == s.aliased && r.simpleFormatting == s.simpleFormatting
    ensures r.notified == s.notified + [Reset]
  {
    s.(lines := [], shown := [], isFiltered := false, query := None, notified := s.notified + [Reset])
  }

  /** Whether the active query accepts `w`. */
  predicate MatchesQuery(h: Host, s: State, w: Wrapper)
  {
    s.query.Some? && Matches(h, s.simpleFormatting, w, s.query.value.text, s.query.value.priority)
  }

  /** `add`: append the wrapped line, mirror it into the view, and evict the
      oldest line once the buffer is over capacity. */
  function AddStep(h: Host, s: State, line: LogLine): (r: AddResult)
    requires Valid(s)
    // the flags and the query are untouched
    ensures r.state.aliased == s.aliased && r.state.isFiltered == s.isFiltered
    ensures r.state.query == s.query && r.state.simpleFormatting == s.simpleFormatting
    // `query!!` throws exactly when the view is filtered without a query,
    // after the line has joined the buffer
    ensures r.outcome == Threw(NullPointerException) <==> s.isFiltered && s.query.None?
    ensures r.outcome == Threw(NullPointerException) ==>
              r.state == s.(lines := s.lines + [Wrap(h, line, s.simpleFormatting)])
    // otherwise the buffer gains the line and, when it was full, loses exactly its first line
    ensures r.outcome != Threw(NullPointerException) ==>
              r.state.lines == if |s.lines| < MAX_LINES then s.lines + [Wrap(h, line, s.simpleFormatting)]
                               else s.lines[1..] + [Wrap(h, line, s.simpleFormatting)]
    ensures r.outcome.Done? ==> Valid(r.state)
    // unfiltered, aliased: the view is the buffer, insert at the end, then remove at 0 if full
    ensures s.aliased ==>
              r.outcome.Done? && r.state.shown == r.state.lines &&
              r.state.notified == s.notified + [Inserted(|s.lines|)] +
                                  (if |s.lines| == MAX_LINES then [Removed(0)] else [])
    // unfiltered, detached (after `clear` in filtered mode): the view does not change
    ensures !s.aliased && !s.isFiltered ==>
              r.outcome.Done? && r.state.shown == s.shown &&
              r.state.notified == s.notified + [Inserted(|s.lines|)] +
                                  (if |s.lines| == MAX_LINES then [Removed(0)] else [])
    // filtered, room left: the view gains the line iff it matches; the insert
    // notified is at the view's last index if it matched, else at the buffer's
    ensures s.isFiltered && s.query.Some? && |s.lines| < MAX_LINES ==>
              var w := Wrap(h, line, s.simpleFormatting);
              r.outcome.Done? &&
              r.state.shown == (if MatchesQuery(h, s, w) then s.shown + [w] else s.shown) &&
              r.state.notified == s.notified + [Inserted(if MatchesQuery(h, s, w) then |s.shown| else |s.lines|)]
    // filtered, full: `shown[0]` fails on an empty view ...
    ensures r.outcome == Threw(IndexOutOfBoundsException) <==>
              s.isFiltered && s.query.Some? && |s.lines| == MAX_LINES && s.shown == [] &&
              !MatchesQuery(h, s, Wrap(h, line, s.simpleFormatting))
    ensures r.outcome == Threw(IndexOutOfBoundsException) ==>
              r.state.shown == [] && r.state.notified == s.notified + [Inserted(|s.lines|)]
    // ... and otherwise drops the view's head iff it equals the buffer's new head;
    // the removal at 0 is notified either way
    ensures s.isFiltered && s.query.Some? && |s.lines| == MAX_LINES && r.outcome.Done? ==>
              var w := Wrap(h, line, s.simpleFormatting);
              var grown := if MatchesQuery(h, s, w) then s.shown + [w] else s.shown;
              grown != [] &&
              r.state.shown == (if grown[0] == r.state.lines[0] then grown[1..] else grown) &&
              r.state.notified == s.notified +
                                  [Inserted(if MatchesQuery(h, s, w) then |s.shown| else |s.lines|), Removed(0)]
  {
    var w := Wrap(h, line, s.simpleFormatting);
    var appended := s.lines + [w];
    if s.isFiltered && s.query.None? then
      AddResult(s.(lines := appended), Threw(NullPointerException))
    else
      var matched := s.isFiltered && MatchesQuery(h, s, w);
      var grown := if s.aliased then appended else if matched then s.shown + [w] else s.shown;
      var inserted := Inserted(if matched then |s.shown| else |s.lines|);
      if |appended| <= MAX_LINES then
        AddResult(s.(lines := appended, shown := grown, notified := s.notified + [inserted]), Done)
      else
        var evicted := appended[1..];
        if s.aliased then
          AddResult(s.(lines := evicted, shown := evicted, notified := s.notified + [inserted, Removed(0)]), Done)
        else if !s.isFiltered then
          AddResult(s.(lines := evicted, notified := s.notified + [inserted, Removed(0)]), Done)
        else if grown == [] then
          AddResult(s.(lines := evicted, notified := s.notified + [inserted]), Threw(IndexOutOfBoundsException))
        else
          var kept := if grown[0] == evicted[0] then grown[1..] else grown;
          AddResult(s.(lines := evicted, shown := kept, notified := s.notified + [inserted, Removed(0)]), Done)
  }

  /** The foreground half of `filter`: the query is recorded at once and the
      background computation reads the buffer as it is now. */
  function FilterStartStep(h: Host, s: State, text: string, threshold: Priority): (r: (State, FilterResult))
    ensures Valid(s) ==> Valid(r.0)
    ensures QueryConsistent(r.0)
    ensures r.0 == s.(query := Some(Query(text, threshold)))
    ensures r.1 == ComputeFilter(h, s.simpleFormatting, s.lines, text, threshold)
  {
    (s.(query := Some(Query(text, threshold))), ComputeFilter(h, s.simpleFormatting, s.lines, text, threshold))
  }

  /** `whenComplete`: adopt the filtered list; it counts as filtered iff its
      size differs from the buffer's current size. Unfiltered, the view is
      pointed back at the buffer and reset; filtered, the script is dispatched. */
  function CompleteStep(s: State, c: Completion): (r: State)
    requires Valid(s)
    ensures Valid(r)
    ensures r.lines == s.lines && r.simpleFormatting == s.simpleFormatting
    ensures c.Failed? ==> r == s
    ensures c.Completed? ==> r.isFiltered == (|c.result.filtered| != |s.lines|)
    ensures c.Completed? && !r.isFiltered ==>
              r.aliased && r.shown == s.lines && r.query == None && r.notified == s.notified + [Reset]
    ensures c.Completed? && r.isFiltered ==>
              !r.aliased && r.shown == c.result.filtered && r.query == s.query &&
              r.notified == s.notified + Dispatch(c.result.removals)
    // the query invariant survives unless the query was set to null, by `clear`
    // or by another completion, while the computation ran
    ensures s.query.Some? ==> QueryConsistent(r)
  {
    match c
    case Failed => s
    case Completed(result) =>
      if |result.filtered| != |s.lines| then
        s.(shown := result.filtered, aliased := false, isFiltered := true,
           notified := s.notified + Dispatch(result.removals))
      else
        s.(shown := s.lines, aliased := true, isFiltered := false, query := None,
           notified := s.notified + [Reset])
  }

  // ---------------------------------------------------------------------
  // Filtering without interleaving
  // ---------------------------------------------------------------------

  /** A filter whose completion arrives before any other operation: the view
      becomes exactly the matching lines of the buffer, in order, reached from
      the buffer by the dispatched removals; or, when every line matches, the
      adapter returns to the unfiltered, aliased mode with a full reset. */
  lemma FilterThenComplete(h: Host, s: State, text: string, threshold: Priority)
    requires Valid(s)
    ensures var (s1, res) := FilterStartStep(h, s, text, threshold);
            var s2 := CompleteStep(s1, Completed(res));
            var f := FilterLines(h, s.simpleFormatting, s.lines, text, threshold);
            && Valid(s2) && QueryConsistent(s2) && s2.lines == s.lines
            && (s2.isFiltered <==>
                exists k :: 0 <= k < |s.lines| && !Matches(h, s.simpleFormatting, s.lines[k], text, threshold))
            && (s2.isFiltered ==>
                  && s2.shown == f && IsSubsequence(s2.shown, s2.lines)
                  && s2.query == Some(Query(text, threshold))
                  && ApplyRemovals(s.lines, res.removals) == Some(s2.shown)
                  && s2.notified == s.notified + Dispatch(res.removals))
            && (!s2.isFiltered ==>
                  s2.aliased && s2.shown == s2.lines && s2.query == None && s2.notified == s.notified + [Reset])
  {
    FilterKeepsAllIff(h, s.simpleFormatting, s.lines, text, threshold);
    FilterIsSubsequence(h, s.simpleFormatting, s.lines, text, threshold);
  }

  /** The empty query at VERBOSE ends unfiltered: the view is the buffer again. */
  lemma VacuousFilterRestoresUnfiltered(h: Host, s: State)
    requires Valid(s)
    ensures var (s1, res) := FilterStartStep(h, s, "", VERBOSE);
            var s2 := CompleteStep(s1, Completed(res));
            s2.aliased && !s2.isFiltered && s2.shown == s.lines && s2.lines == s.lines &&
            s2.query == None && s2.notified == s.notified + [Reset]
  {
    VacuousFilterKeepsAll(h, s.simpleFormatting, s.lines);
  }

  // ---------------------------------------------------------------------
  // Interleavings the code admits
  // ---------------------------------------------------------------------

  /** No staleness guard: when two filters complete in the opposite order,
      the older result is applied last and decides the view, while the query
      recorded is the newer one (or none). */
  lemma OlderResultAppliedLastWins(h: Host, s: State, t1: string, p1: Priority, t2: string, p2: Priority)
    requires Valid(s)
    ensures var (s1, r1) := FilterStartStep(h, s, t1, p1);
            var (s2, r2) := FilterStartStep(h, s1, t2, p2);
            var s3 := CompleteStep(s2, Completed(r2));
            var s4 := CompleteStep(s3, Completed(r1));
            && s4.shown == (if |r1.filtered| != |s.lines| then r1.filtered else s.lines)
            && s4.query == (if |r1.filtered| != |s.lines| && |r2.filtered| != |s.lines| then Some(Query(t2, p2)) else None)
  {
  }

  /** Overlapping filters alone break the query invariant: when the newer
      filter keeps every line and completes first, it drops the query; the
      older, filtering result then makes the view filtered without a query,
      and the next `add` fails at `query!!`. */
  lemma ReverseCompletionBreaksQuery(h: Host, line: LogLine, next: LogLine)
    requires line.priority == INFO
    ensures var s0 := AddStep(h, Initial(), line).state;
            var (s1, r1) := FilterStartStep(h, s0, "", ERROR);
            var (s2, r2) := FilterStartStep(h, s1, "", VERBOSE);
            var s3 := CompleteStep(s2, Completed(r2));
            var s4 := CompleteStep(s3, Completed(r1));
            && s3.aliased && s3.query == None
            && s4.isFiltered && s4.query == None && !QueryConsistent(s4) && s4.shown == []
            && AddStep(h, s4, next).outcome == Threw(NullPointerException)
  {
    var w := Wrap(h, line, true);
    var s0 := AddStep(h, Initial(), line).state;
    assert s0.lines == [w];
    assert !Matches(h, true, w, "", ERROR);
    assert FilterLines(h, true, [w], "", ERROR) == [];
    VacuousFilterKeepsAll(h, true, [w]);
  }

  /** A `clear` between a filter's start and its completion, when the pending
      result is not empty, leaves the view filtered without a query and holding
      lines that are no longer buffered; the next `add` then fails at `query!!`. */
  lemma ClearBeforeCompletionBreaksQuery(h: Host, line: LogLine, next: LogLine)
    requires line.priority == ERROR
    ensures var s0 := AddStep(h, Initial(), line).state;
            var (s1, res) := FilterStartStep(h, s0, "", ERROR);
            var s2 := ClearStep(s1);
            var s3 := CompleteStep(s2, Completed(res));
            && s3.isFiltered && s3.query == None && !QueryConsistent(s3)
            && s3.lines == [] && s3.shown == [Wrap(h, line, true)]
            && AddStep(h, s3, next).outcome == Threw(NullPointerException)
  {
    var w := Wrap(h, line, true);
    var s0 := AddStep(h, Initial(), line).state;
    assert s0.lines == [w];
    assert Matches(h, true, w, "", ERROR);
    assert FilterLines(h, true, [w], "", ERROR) == [w];
  }

  /** When the pending result is empty, a `clear` before the completion is
      harmless: the result is as long as the emptied buffer, so the completion
      points the view back at the buffer, and the next `add` succeeds. */
  lemma ClearBeforeEmptyCompletionRestores(h: Host, line: LogLine, next: LogLine)
    requires line.priority == INFO
    ensures var s0 := AddStep(h, Initial(), line).state;
            var (s1, res) := FilterStartStep(h, s0, "", ERROR);
            var s2 := ClearStep(s1);
            var s3 := CompleteStep(s2, Completed(res));
            && res.filtered == [] && !s3.isFiltered && s3.aliased && s3.query == None
            && QueryConsistent(s3) && s3.lines == [] && s3.shown == []
            && AddStep(h, s3, next).outcome == Done
  {
    var w := Wrap(h, line, true);
    var s0 := AddStep(h, Initial(), line).state;
    assert s0.lines == [w];
    assert !Matches(h, true, w, "", ERROR);
    assert FilterLines(h, true, [w], "", ERROR) == [];
  }

  // ---------------------------------------------------------------------
  // Eviction in filtered mode
  // ---------------------------------------------------------------------

  /** The eviction check compares the view's head with the buffer's NEW head:
      when the evicted line heads the view and the next buffered line differs
      from it, the evicted line stays in the view, so the view is no longer a
      subsequence of the buffer. */
  lemma EvictedLineStaysInView(h: Host, s: State, line: LogLine)
    requires Valid(s) && s.isFiltered && s.query.Some? && |s.lines| == MAX_LINES
    requires s.shown != [] && s.shown[0] == s.lines[0] && s.lines[0] !in s.lines[1..]
    requires Wrap(h, line, s.simpleFormatting) != s.lines[0]
    ensures var r := AddStep(h, s, line);
            && r.outcome.Done? && r.state.shown[0] == s.lines[0]
            && s.lines[0] !in r.state.lines
            && !IsSubsequence(r.state.shown, r.state.lines)
  {
    var r := AddStep(h, s, line);
    var w := Wrap(h, line, s.simpleFormatting);
    assert r.state.lines == s.lines[1..] + [w];
    if IsSubsequence(r.state.shown, r.state.lines) {
      SubsequenceMembers(r.state.shown, r.state.lines, r.state.shown[0]);
    }
  }

  /** The converse slip: when the buffer's new head happens to equal the
      view's head although the evicted line was not shown, a line that is
      still buffered and matching leaves the view. */
  lemma EvictionDropsBufferedLine(h: Host, s: State, line: LogLine)
    requires Valid(s) && s.isFiltered && s.query.Some? && |s.lines| == MAX_LINES
    requires s.lines[0] !in s.shown && s.shown != [] && s.shown[0] == s.lines[1]
    ensures var r := AddStep(h, s, line);
            && r.outcome.Done? && r.state.lines[0] == s.shown[0]
            && r.state.shown == (if MatchesQuery(h, s, Wrap(h, line, s.simpleFormatting))
                                 then s.shown[1..] + [Wrap(h, line, s.simpleFormatting)]
                                 else s.shown[1..])
  {
    var w := Wrap(h, line, s.simpleFormatting);
    assert (s.lines[1..] + [w])[0] == s.lines[1];
    if MatchesQuery(h, s, w) {
      assert (s.shown + [w])[0] == s.shown[0];
      assert (s.shown + [w])[1..] == s.shown[1..] + [w];
    }
  }

  /** A filter that matches nothing on a full buffer leaves an empty, filtered
      view; the next line that does not match makes `add` fail at `shown[0]`. */
  lemma FullBufferEmptyViewFails(h: Host, s: State, text: string, threshold: Priority, line: LogLine)
    requires Valid(s) && |s.lines| == MAX_LINES
    requires forall k :: 0 <= k < |s.lines| ==> !Matches(h, s.simpleFormatting, s.lines[k], text, threshold)
    requires !Matches(h, s.simpleFormatting, Wrap(h, line, s.simpleFormatting), text, threshold)
    ensures var (s1, res) := FilterStartStep(h, s, text, threshold);
            var s2 := CompleteStep(s1, Completed(res));
            && s2.isFiltered && s2.shown == []
            && AddStep(h, s2, line).outcome == Threw(IndexOutOfBoundsException)
  {
    FilterNoneMatch(h, s.simpleFormatting, s.lines, text, threshold);
  }

  /** In filtered mode with room left, a line whose rendering contains the
      query verbatim joins the end of the view at the VERBOSE threshold, with
      an insert at the view's last index. */
  lemma FilteredAddShowsVerbatimMatch(h: Host, s: State, line: LogLine, text: string, at: nat)
    requires Valid(s) && s.isFiltered && s.query == Some(Query(text, VERBOSE)) && |s.lines| < MAX_LINES
    requires var rendered := LineString(h, line, s.simpleFormatting);
             at + |text| <= |rendered| && rendered[at..at + |text|] == text
    ensures var r := AddStep(h, s, line);
            && r.outcome.Done?
            && r.state.shown == s.shown + [Wrap(h, line, s.simpleFormatting)]
            && r.state.notified == s.notified + [Inserted(|s.shown|)]
  {
    VerbatimQueryMatches(h, s.simpleFormatting, Wrap(h, line, s.simpleFormatting), text, at);
  }

  // ---------------------------------------------------------------------
  // `clear` in filtered mode
  // ---------------------------------------------------------------------

  /** After `clear` in filtered mode the view stays detached from the buffer:
      a new line is buffered and notified as inserted at 0, but the view stays
      empty until the next filter completes. */
  lemma ClearLeavesViewDetached(h: Host, s: State, line: LogLine)
    requires Valid(s) && s.isFiltered
    ensures var c := ClearStep(s);
            var r := AddStep(h, c, line);
            && r.outcome.Done?
            && r.state.lines == [Wrap(h, line, s.simpleFormatting)] && r.state.shown == []
            && r.state.notified == s.notified + [Reset, Inserted(0)]
  {
  }

  // ---------------------------------------------------------------------
  // Worked scenarios
  // ---------------------------------------------------------------------

  /** Three lines added to a fresh adapter are shown in order, each notified
      as inserted at the next index. */
  lemma ThreeLinesShownInOrder(h: Host, a: LogLine, b: LogLine, c: LogLine)
    ensures var s3 := AddStep(h, AddStep(h, AddStep(h, Initial(), a).state, b).state, c).state;
            && Valid(s3) && s3.aliased && !s3.isFiltered && s3.query == None && s3.simpleFormatting
            && s3.lines == [Wrap(h, a, true), Wrap(h, b, true), Wrap(h, c, true)] && s3.shown == s3.lines
            && s3.notified == [Inserted(0), Inserted(1), Inserted(2)]
  {
    var s1 := AddStep(h, Initial(), a).state;
    assert s1.lines == [Wrap(h, a, true)] && s1.notified == [Inserted(0)];
    var s2 := AddStep(h, s1, b).state;
    assert s2.lines == [Wrap(h, a, true), Wrap(h, b, true)] && s2.notified == [Inserted(0), Inserted(1)];
  }

  /** Filtering three lines of priorities INFO, ERROR, WARNING on ERROR keeps
      the error line, by removing index 0 and then index 1. */
  lemma ErrorFilterOfThree(h: Host, wa: Wrapper, wb: Wrapper, wc: Wrapper)
    requires wa.log.priority == INFO && wb.log.priority == ERROR && wc.log.priority == WARNING
    ensures ComputeFilter(h, true, [wa, wb, wc], "", ERROR) == FilterResult([wb], [0, 1])
  {
    var lines := [wa, wb, wc];
    assert lines[1..] == [wb, wc] && lines[1..][1..] == [wc] && lines[1..][1..][1..] == [];
    assert FilterLines(h, true, [wc], "", ERROR) == [];
    assert FilterLines(h, true, [wb, wc], "", ERROR) == [wb];
    assert FilterLines(h, true, lines, "", ERROR) == [wb];
    assert RemovalsFrom([wc], [], 1) == [1];
    assert RemovalsFrom([wb, wc], [wb], 0) == [1];
  }

  /** The two scenarios in sequence: after the ERROR filter completes, the view
      holds only the error line and the removals of the other two are notified. */
  lemma ThreeLinesThenErrorFilter(h: Host, a: LogLine, b: LogLine, c: LogLine)
    requires a.priority == INFO && b.priority == ERROR && c.priority == WARNING
    ensures var s3 := AddStep(h, AddStep(h, AddStep(h, Initial(), a).state, b).state, c).state;
            var (s4, res) := FilterStartStep(h, s3, "", ERROR);
            var s5 := CompleteStep(s4, Completed(res));
            && s5.isFiltered && s5.shown == [Wrap(h, b, true)] && s5.lines == s3.lines
            && s5.notified == [Inserted(0), Inserted(1), Inserted(2), Removed(0), Removed(1)]
  {
    ThreeLinesShownInOrder(h, a, b, c);
    ErrorFilterOfThree(h, Wrap(h, a, true), Wrap(h, b, true), Wrap(h, c, true));
  }
}
