/** The background half of `LogLinesAdapter.filter`: `lines.filter { matchesFilter(..) }`
    and the edit script computed against the buffer. */
module LogFilter {
  import opened LogModel
  import opened EditScript
  import opened Wrappers

  /** What the background computation hands to its completion: the filtered
      lines and the removals DiffUtil would dispatch. */
  datatype FilterResult = FilterResult(filtered: seq<Wrapper>, removals: seq<nat>)

  /** `lines.filter { matchesFilter(it, text, threshold) }`. */
  function FilterLines(h: Host, simple: bool, lines: seq<Wrapper>, text: string, threshold: Priority): (r: seq<Wrapper>)
    ensures |r| <= |lines|
    ensures forall k :: 0 <= k < |r| ==> Matches(h, simple, r[k], text, threshold)
    ensures forall k :: 0 <= k < |lines| && Matches(h, simple, lines[k], text, threshold) ==> lines[k] in r
    decreases |lines|
  {
    if lines == [] then []
    else (if Matches(h, simple, lines[0], text, threshold) then [lines[0]] else [])
         + FilterLines(h, simple, lines[1..], text, threshold)
  }

  /** Each matching line is kept as often as it occurs in the buffer, and no
      other line is kept at all. */
  lemma {:induction false} FilterMultiplicity(h: Host, simple: bool, lines: seq<Wrapper>, text: string, threshold: Priority)
    ensures var r := FilterLines(h, simple, lines, text, threshold);
            forall x :: multiset(r)[x] == if Matches(h, simple, x, text, threshold) then multiset(lines)[x] else 0
    decreases |lines|
  {
    if lines != [] {
      FilterMultiplicity(h, simple, lines[1..], text, threshold);
      assert lines == [lines[0]] + lines[1..];
      assert multiset(lines) == multiset([lines[0]]) + multiset(lines[1..]);
    }
  }

  /** The filtered lines keep the buffer's order: they are a subsequence of it. */
  lemma {:induction false} FilterIsSubsequence(h: Host, simple: bool, lines: seq<Wrapper>, text: string, threshold: Priority)
    ensures IsSubsequence(FilterLines(h, simple, lines, text, threshold), lines)
    decreases |lines|
  {
    if lines != [] {
      FilterIsSubsequence(h, simple, lines[1..], text, threshold);
      var rest := FilterLines(h, simple, lines[1..], text, threshold);
      if Matches(h, simple, lines[0], text, threshold) {
        assert FilterLines(h, simple, lines, text, threshold) == [lines[0]] + rest;
        assert ([lines[0]] + rest)[1..] == rest;
      } else {
        assert FilterLines(h, simple, lines, text, threshold) == rest;
      }
    }
  }

  /** Filtering distributes over concatenation: the filter of a buffer is
      decided line by line, front to back. */
  lemma {:induction false} FilterConcat(h: Host, simple: bool, a: seq<Wrapper>, b: seq<Wrapper>, text: string, threshold: Priority)
    ensures FilterLines(h, simple, a + b, text, threshold) ==
            FilterLines(h, simple, a, text, threshold) + FilterLines(h, simple, b, text, threshold)
    decreases |a|
  {
    if a == [] {
      assert a + b == b;
    } else {
      assert (a + b)[0] == a[0] && (a + b)[1..] == a[1..] + b;
      FilterConcat(h, simple, a[1..], b, text, threshold);
    }
  }

  /** The filter keeps every line exactly when every line matches; then it is
      the buffer itself. */
  lemma {:induction false} FilterKeepsAllIff(h: Host, simple: bool, lines: seq<Wrapper>, text: string, threshold: Priority)
    ensures (|FilterLines(h, simple, lines, text, threshold)| == |lines|) <==>
            (forall k :: 0 <= k < |lines| ==> Matches(h, simple, lines[k], text, threshold))
    ensures (forall k :: 0 <= k < |lines| ==> Matches(h, simple, lines[k], text, threshold)) ==>
            FilterLines(h, simple, lines, text, threshold) == lines
    decreases |lines|
  {
    if lines != [] {
      FilterKeepsAllIff(h, simple, lines[1..], text, threshold);
      var all := forall k :: 0 <= k < |lines| ==> Matches(h, simple, lines[k], text, threshold);
      if all {
        assert forall k :: 0 <= k < |lines[1..]| ==> Matches(h, simple, lines[1..][k], text, threshold) by {
          forall k | 0 <= k < |lines[1..]| ensures Matches(h, simple, lines[1..][k], text, threshold) {
            assert lines[1..][k] == lines[k + 1];
          }
        }
        assert lines == [lines[0]] + lines[1..];
      } else if Matches(h, simple, lines[0], text, threshold) {
        var k :| 0 <= k < |lines| && !Matches(h, simple, lines[k], text, threshold);
        assert lines[1..][k - 1] == lines[k];
      }
    }
  }

  /** When no line matches, the filtered list is empty. */
  lemma FilterNoneMatch(h: Host, simple: bool, lines: seq<Wrapper>, text: string, threshold: Priority)
    requires forall k :: 0 <= k < |lines| ==> !Matches(h, simple, lines[k], text, threshold)
    ensures FilterLines(h, simple, lines, text, threshold) == []
  {
    FilterMultiplicity(h, simple, lines, text, threshold);
  }

  /** The empty query at VERBOSE keeps the whole buffer. */
  lemma VacuousFilterKeepsAll(h: Host, simple: bool, lines: seq<Wrapper>)
    ensures FilterLines(h, simple, lines, "", VERBOSE) == lines
  {
    FilterKeepsAllIff(h, simple, lines, "", VERBOSE);
  }

  /** The supplyAsync block of `filter`: the filtered lines and an edit script
      from the buffer to them, which applied to the buffer yields them. */
  function ComputeFilter(h: Host, simple: bool, lines: seq<Wrapper>, text: string, threshold: Priority): (r: FilterResult)
    ensures r.filtered == FilterLines(h, simple, lines, text, threshold)
    ensures IsSubsequence(r.filtered, lines)
    ensures forall k :: 0 <= k < |r.filtered| ==> Matches(h, simple, r.filtered[k], text, threshold)
    ensures forall x :: multiset(r.filtered)[x] ==
                        if Matches(h, simple, x, text, threshold) then multiset(lines)[x] else 0
    ensures forall k :: 0 <= k < |lines| && Matches(h, simple, lines[k], text, threshold) ==> lines[k] in r.filtered
    ensures ApplyRemovals(lines, r.removals) == Some(r.filtered)
    ensures |r.removals| == |lines| - |r.filtered|
  {
    var filtered := FilterLines(h, simple, lines, text, threshold);
    FilterIsSubsequence(h, simple, lines, text, threshold);
    FilterMultiplicity(h, simple, lines, text, threshold);
    FilterResult(filtered, Diff(lines, filtered))
  }
}
