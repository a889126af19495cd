/** `LogLinesAdapter` as a class over its fields. Each operation that changes
    state updates the fields in place and is proved to follow the step
    function of the same name in `ViewState`; the read-only operations are
    specified directly. */
module Adapter {
  import opened Wrappers
  import opened LogModel
  import opened LogFilter
  import opened ViewState

  class LogLinesAdapter {
    /** `LogLine`'s renderings and the runtime's character tables. */
    const host: Host

    var lines: seq<Wrapper>
    var shown: seq<Wrapper>
    /** `shown` is the same list object as `lines`: every change of `lines`
        is also a change of `shown`. */
    var aliased: bool
    var isFiltered: bool
    var query: Option<Query>
    /** Public: the log view sets it before every `add`. */
    var simpleFormatting: bool
    /** The notifications sent to the RecyclerView, oldest first. */
    var notified: seq<Notification>

    /** The fields as a value. */
    function Model(): State
      reads this
    {
      State(lines, shown, aliased, isFiltered, query, simpleFormatting, notified)
    }

    ghost predicate Valid()
      reads this
    {
      ViewState.Valid(Model())
    }

    constructor (host: Host)
      ensures this.host == host
      ensures Model() == Initial() && Valid()
    {
      this.host := host;
      lines, shown, aliased := [], [], true;
      isFiltered, query, simpleFormatting := false, None, true;
      notified := [];
    }

    method Clear()
      requires Valid()
      modifies this
      ensures Model() == ClearStep(old(Model())) && Valid()
    {
      lines := [];
      shown := [];
      isFiltered := false;
      query := None;
      notified := notified + [Reset];
    }

    method Add(line: LogLine) returns (outcome: Outcome)
      requires Valid()
      modifies this
      ensures AddResult(Model(), outcome) == AddStep(host, old(Model()), line)
      ensures outcome.Done? ==> Valid()
    {
      var wrapped := Wrap(host, line, simpleFormatting);
      lines := lines + [wrapped];
      if aliased { shown := lines; }
      if isFiltered && query.None? {
        return Threw(NullPointerException);
      }
      if isFiltered && Matches(host, simpleFormatting, wrapped, query.value.text, query.value.priority) {
        shown := shown + [wrapped];
        notified := notified + [Inserted(|shown| - 1)];
      } else {
        notified := notified + [Inserted(|lines| - 1)];
      }
      if |lines| > MAX_LINES {
        lines := lines[1..];
        if aliased { shown := lines; }
        if isFiltered {
          if |shown| == 0 {
            return Threw(IndexOutOfBoundsException);
          }
          if shown[0] == lines[0] {
            shown := shown[1..];
          }
        }
        notified := notified + [Removed(0)];
      }
      outcome := Done;
    }

    /** The foreground half of `filter`: records the query and returns what the
        background computation produces from the buffer as it is now. */
    method FilterStart(text: string, threshold: Priority) returns (pending: FilterResult)
      requires Valid()
      modifies this`query
      ensures (Model(), pending) == FilterStartStep(host, old(Model()), text, threshold)
      ensures Valid()
    {
      query := Some(Query(text, threshold));
      pending := ComputeFilter(host, simpleFormatting, lines, text, threshold);
    }

    /** The `whenComplete` callback of `filter`. */
    method FilterComplete(completion: Completion)
      requires Valid()
      modifies this
      ensures Model() == CompleteStep(old(Model()), completion) && Valid()
    {
      if completion.Failed? {
        return;
      }
      var result := completion.result;
      shown := result.filtered;
      aliased := false;
      isFiltered := |shown| != |lines|;
      if !isFiltered {
        shown := lines;
        aliased := true;
        query := None;
        notified := notified + [Reset];
      } else {
        notified := notified + Dispatch(result.removals);
      }
    }

    /** `getLine`: the line at `index`, or an out-of-range failure. */
    function GetLine(index: int): (r: Result<LogLine, Exception>)
      reads this
      ensures r.Success? <==> 0 <= index < |lines|
      ensures r.Success? ==> r.value == lines[index].log
      ensures r.Failure? ==> r.error == IndexOutOfBoundsException
    {
      if 0 <= index < |lines| then Success(lines[index].log) else Failure(IndexOutOfBoundsException)
    }

    /** `getItemCount`: the size of the view, which is the buffer's size while aliased. */
    function GetItemCount(): (n: nat)
      reads this
      requires Valid()
      ensures n == |shown|
      ensures aliased ==> n == |lines|
    {
      |shown|
    }

    /** `allAsString`: every buffered line's rendering with a newline, in
        buffer order, whatever the view shows. */
    method AllAsString() returns (text: string)
      ensures text == AllText(host, simpleFormatting, lines)
    {
      text := "";
      var i := 0;
      while i < |lines|
        invariant 0 <= i <= |lines|
        invariant text == AllText(host, simpleFormatting, lines[..i])
      {
        assert lines[..i + 1][..i] == lines[..i];
        text := text + LineString(host, lines[i].log, simpleFormatting) + "\n";
        i := i + 1;
      }
      assert lines[..i] == lines;
    }
  }

  /** A client: three lines, one of them an error, then an ERROR filter that
      completes at once. */
  method ThreeLinesClient(h: Host) returns (count: nat, exported: string)
    ensures count == 1
    ensures exported == LineString(h, LogLine(INFO, "t", "a"), true) + "\n" +
                        LineString(h, LogLine(ERROR, "t", "b"), true) + "\n" +
                        LineString(h, LogLine(WARNING, "t", "c"), true) + "\n"
  {
    var a, b, c := LogLine(INFO, "t", "a"), LogLine(ERROR, "t", "b"), LogLine(WARNING, "t", "c");
    var wa, wb, wc := Wrap(h, a, true), Wrap(h, b, true), Wrap(h, c, true);
    ThreeLinesThenErrorFilter(h, a, b, c);
    var adapter := new LogLinesAdapter(h);
    ghost var s0 := adapter.Model();
    var o1 := adapter.Add(a);
    ghost var s1 := adapter.Model();
    assert s1 == AddStep(h, s0, a).state;
    var o2 := adapter.Add(b);
    ghost var s2 := adapter.Model();
    assert s2 == AddStep(h, s1, b).state;
    var o3 := adapter.Add(c);
    ghost var s3 := adapter.Model();
    assert s3 == AddStep(h, s2, c).state;
    var pending := adapter.FilterStart("", ERROR);
    ghost var s4 := adapter.Model();
    assert (s4, pending) == FilterStartStep(h, s3, "", ERROR);
    adapter.FilterComplete(Completed(pending));
    assert adapter.Model() == CompleteStep(s4, Completed(pending));
    count := adapter.GetItemCount();
    exported := adapter.AllAsString();
    assert adapter.lines == [wa, wb, wc] && adapter.simpleFormatting;
    ExportOfThree(h, wa, wb, wc);
  }

  /** The export of three lines, entry by entry. */
  lemma ExportOfThree(h: Host, wa: Wrapper, wb: Wrapper, wc: Wrapper)
    ensures AllText(h, true, [wa, wb, wc]) ==
            LineString(h, wa.log, true) + "\n" + LineString(h, wb.log, true) + "\n" +
            LineString(h, wc.log, true) + "\n"
  {
    AllTextFront(h, true, [wa, wb, wc]);
    AllTextFront(h, true, [wb, wc]);
    AllTextFront(h, true, [wc]);
    assert [wa, wb, wc][1..] == [wb, wc] && [wb, wc][1..] == [wc] && [wc][1..] == [];
  }
}
