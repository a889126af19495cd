/** The values the log view works on: a log line, its decorated form
    (`LogLinesAdapter.LogWrapper`) and a filter query, with the functions the
    adapter applies to single lines. */
module LogModel {
  import opened LogText

  /** `LogLinesAdapter.MAX_LINES`. */
  const MAX_LINES: nat := 5 * 1000

  /** `ILogger.Priority`; VERBOSE is the threshold that accepts every priority. */
  datatype Priority = VERBOSE | DEBUG | INFO | WARNING | ERROR

  /** One log record, compared structurally. */
  datatype LogLine = LogLine(priority: Priority, tag: string, message: string)

  /** Code outside the model: `LogLine.toSimpleString()`, `LogLine.toString()`
      and the runtime's character tables. */
  datatype Host = Host(simpleString: LogLine -> string, fullString: LogLine -> string, chars: CharOps)

  /** The styled text of a line: its rendered text and the colour of the
      single foreground span laid over the whole text. */
  datatype Spannable = Spannable(text: string, color: int)

  /** `LogWrapper`: equality is structural over all three fields, as in
      `LogWrapper.equals`. */
  datatype Wrapper = Wrapper(log: LogLine, spannable: Spannable, visible: bool)

  /** `LogLinesAdapter.Query`: the search text and the priority threshold. */
  datatype Query = Query(text: string, priority: Priority)

  /** `lineString`: the short or the full rendering, by the formatting mode. */
  function LineString(h: Host, line: LogLine, simple: bool): (r: string)
    ensures simple ==> r == h.simpleString(line)
    ensures !simple ==> r == h.fullString(line)
  {
    if simple then h.simpleString(line) else h.fullString(line)
  }

  /** The foreground colour `wrap` gives each priority (ARGB as a signed 32-bit int). */
  function ColorOf(p: Priority): (color: int)
    ensures color < 0
    ensures p == ERROR <==> color == -0xbbcca
    ensures p == WARNING <==> color == -0x14c5
    ensures p == INFO <==> color == -0xb350b0
    ensures (p == VERBOSE || p == DEBUG) <==> color == -0xa0a0b
  {
    match p
    case ERROR => -0xbbcca
    case WARNING => -0x14c5
    case INFO => -0xb350b0
    case _ => -0xa0a0b
  }

  /** `wrap`: the line, its rendered and coloured text, and `visible = true`. */
  function Wrap(h: Host, line: LogLine, simple: bool): (w: Wrapper)
    ensures w.log == line && w.visible
    ensures w.spannable.text == LineString(h, line, simple)
    ensures w.spannable.color == ColorOf(line.priority) && w.spannable.color < 0
  {
    Wrapper(line, Spannable(LineString(h, line, simple), ColorOf(line.priority)), true)
  }

  /** Wrapping in one formatting mode keeps lines apart: two wrappers made in
      the same mode are equal exactly when their lines are. */
  lemma WrapInjective(h: Host, a: LogLine, b: LogLine, simple: bool)
    ensures Wrap(h, a, simple) == Wrap(h, b, simple) <==> a == b
  {
  }

  /** `matchesFilter`: the rendered text contains the query ignoring case (a
      blank query always does), and the line has the threshold priority
      (VERBOSE accepts all). */
  predicate Matches(h: Host, simple: bool, w: Wrapper, text: string, threshold: Priority): (r: bool)
    ensures r ==> w.log.priority == threshold || threshold == VERBOSE
    ensures IsBlank(h.chars, text) ==> (r <==> w.log.priority == threshold || threshold == VERBOSE)
    ensures r && !IsBlank(h.chars, text) ==> |text| <= |LineString(h, w.log, simple)|
  {
    (IsBlank(h.chars, text) || ContainsIgnoreCase(h.chars, LineString(h, w.log, simple), text)) &&
    (w.log.priority == threshold || threshold == VERBOSE)
  }

  /** The two halves of the test, stated on their own: the text part holds
      exactly when some offset of the rendered line matches the query. */
  lemma MatchesIff(h: Host, simple: bool, w: Wrapper, text: string, threshold: Priority)
    ensures Matches(h, simple, w, text, threshold) <==>
            (IsBlank(h.chars, text) ||
             exists i :: 0 <= i <= |LineString(h, w.log, simple)| &&
                         RegionMatches(h.chars, LineString(h, w.log, simple), i, text)) &&
            (w.log.priority == threshold || threshold == VERBOSE)
  {
    ContainsIff(h.chars, LineString(h, w.log, simple), text);
  }

  /** The empty query with the VERBOSE threshold matches every line. */
  lemma VacuousQueryMatchesAll(h: Host, simple: bool, w: Wrapper)
    ensures Matches(h, simple, w, "", VERBOSE)
  {
  }

  /** A threshold other than VERBOSE rejects every line of another priority,
      whatever the text. */
  lemma ThresholdRejectsOtherPriorities(h: Host, simple: bool, w: Wrapper, text: string, threshold: Priority)
    requires threshold != VERBOSE && w.log.priority != threshold
    ensures !Matches(h, simple, w, text, threshold)
  {
  }

  /** A query that occurs verbatim in the rendered line matches it at the
      VERBOSE threshold. */
  lemma VerbatimQueryMatches(h: Host, simple: bool, w: Wrapper, text: string, at: nat)
    requires at + |text| <= |LineString(h, w.log, simple)|
    requires LineString(h, w.log, simple)[at..at + |text|] == text
    ensures Matches(h, simple, w, text, VERBOSE)
  {
    ExactOccurrenceContained(h.chars, LineString(h, w.log, simple), text, at);
  }

  /** The text `allAsString` builds: each line's rendering followed by a
      newline, in order. */
  function AllText(h: Host, simple: bool, lines: seq<Wrapper>): (r: string)
    ensures lines == [] <==> r == []
    ensures |r| >= |lines|
    ensures lines != [] ==> r[|r| - 1] == '\n'
  {
    if lines == [] then ""
    else AllText(h, simple, lines[..|lines| - 1]) + LineString(h, lines[|lines| - 1].log, simple) + "\n"
  }

  /** The export of two consecutive runs of lines is the concatenation of
      their exports. */
  lemma {:induction false} AllTextConcat(h: Host, simple: bool, a: seq<Wrapper>, b: seq<Wrapper>)
    ensures AllText(h, simple, a + b) == AllText(h, simple, a) + AllText(h, simple, b)
    decreases |b|
  {
    if b == [] {
      assert a + b == a;
    } else {
      var b' := b[..|b| - 1];
      assert (a + b)[..|a + b| - 1] == a + b';
      assert (a + b)[|a + b| - 1] == b[|b| - 1];
      AllTextConcat(h, simple, a, b');
    }
  }

  /** The export starts with the first line's rendering and a newline, and
      so holds one newline-terminated entry per line, front to back. */
  lemma AllTextFront(h: Host, simple: bool, lines: seq<Wrapper>)
    requires lines != []
    ensures AllText(h, simple, lines) ==
            LineString(h, lines[0].log, simple) + "\n" + AllText(h, simple, lines[1..])
  {
    assert lines == [lines[0]] + lines[1..];
    AllTextConcat(h, simple, [lines[0]], lines[1..]);
    assert [lines[0]][..0] == [];
  }
}
