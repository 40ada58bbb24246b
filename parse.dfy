/**
 * Reading a pasted note: splitting it into lines with their offsets, finding the glossary
 * header, parsing the time-stamped transcript above it, and the binary search from a playback
 * time to the first transcript entry that lies after it.
 */
module Parse {
  import opened Strings
  import opened Constants

  /** One transcript line: its time in whole seconds and its trimmed text. */
  datatype Entry = Entry(sec: nat, text: String)

  /* ---------- timeToSec ---------- */

  predicate AllDigits(s: String)
  {
    forall i | 0 <= i < |s| :: IsDigit(s[i])
  }

  /** The decimal value of a string of digits. */
  function DigitsValue(s: String): (n: nat)
    requires AllDigits(s)
  {
    if s == [] then 0
    else 10 * DigitsValue(s[..|s| - 1]) + (s[|s| - 1] as int - '0' as int)
  }

  /**
   * `Number(part)` for the parts `timeToSec` produces: white space only reads as 0, a
   * (space-padded) digit string as its value, anything else as NaN.
   */
  function PartValue(p: String): Option<nat>
  {
    if p != [] && AllDigits(p) then Some(DigitsValue(p))
    else
      var t := Trim(p);
      if t == [] then Some(0)
      else if AllDigits(t) then Some(DigitsValue(t))
      else None
  }

  /** `map(Number)` over the parts. */
  function PartValues(parts: seq<String>): (r: seq<Option<nat>>)
    ensures |r| == |parts|
  {
    seq(|parts|, i requires 0 <= i < |parts| => PartValue(parts[i]))
  }

  /**
   * The value of the numbers of a stamp: `m:s` or `h:m:s` in seconds, None (NaN) when a part is
   * not a number. Any other number of parts gives NaN whether or not the parts are numbers.
   */
  function ReadParts(v: seq<Option<nat>>): Option<nat>
  {
    if |v| == 2 then
      if v[0].Some? && v[1].Some? then Some(60 * v[0].value + v[1].value) else None
    else if |v| == 3 then
      if v[0].Some? && v[1].Some? && v[2].Some? then Some(3600 * v[0].value + 60 * v[1].value + v[2].value)
      else None
    else None
  }

  /** `timeToSec`: the trimmed text split at every `:` and read as a time. */
  function TimeToSec(s: String): Option<nat>
  {
    ReadParts(PartValues(SplitOn(Trim(s), ':')))
  }

  /** Splitting at the first separator. */
  lemma SplitOnCons(a: String, b: String, sep: char)
    requires sep !in a
    ensures SplitOn(a + [sep] + b, sep) == [a] + SplitOn(b, sep)
  {
    var s := a + [sep] + b;
    IndexOfChar(s, sep);
    assert s[|a|] == sep;
    var i := IndexOf(s, [sep]);
    assert s[i] == sep;
    assert i == |a|;
    assert s[..i] == a && s[i + 1..] == b;
  }

  lemma SplitOnNone(a: String, sep: char)
    requires sep !in a
    ensures SplitOn(a, sep) == [a]
  {
    IndexOfChar(a, sep);
  }

  lemma DigitsTrimmed(d: String)
    requires |d| >= 1 && AllDigits(d)
    ensures Trim(d) == d
  {
    assert IsDigit(d[0]) && IsDigit(d[|d| - 1]);
    TrimOfTrimmed(d);
  }

  lemma AllDigitsNoColon(d: String)
    requires AllDigits(d)
    ensures ':' !in d
  {
  }

  /** Text that begins and ends with a digit has nothing to trim. */
  lemma DigitEndsNoTrim(x: String)
    requires |x| >= 1 && IsDigit(x[0]) && IsDigit(x[|x| - 1])
    ensures Trim(x) == x
  {
    TrimOfTrimmed(x);
  }

  lemma SplitThree(h: String, m: String, s: String)
    requires ':' !in h && ':' !in m && ':' !in s
    ensures SplitOn(h + [':'] + (m + [':'] + s), ':') == [h, m, s]
  {
    SplitOnCons(h, m + [':'] + s, ':');
    SplitOnCons(m, s, ':');
    SplitOnNone(s, ':');
  }

  /** How a stamp of three digit groups splits. */
  lemma SplitHms(h: String, m: String, s: String)
    requires |h| >= 1 && |m| >= 1 && |s| >= 1
    requires AllDigits(h) && AllDigits(m) && AllDigits(s)
    ensures SplitOn(Trim(h + ":" + m + ":" + s), ':') == [h, m, s]
  {
    var x := h + [':'] + (m + [':'] + s);
    assert x == h + ":" + m + ":" + s;
    assert x[0] == h[0] && x[|x| - 1] == s[|s| - 1];
    DigitEndsNoTrim(x);
    AllDigitsNoColon(h);
    AllDigitsNoColon(m);
    AllDigitsNoColon(s);
    SplitThree(h, m, s);
  }

  /** How a stamp of two digit groups splits. */
  lemma SplitMs(m: String, s: String)
    requires |m| >= 1 && |s| >= 1
    requires AllDigits(m) && AllDigits(s)
    ensures SplitOn(Trim(m + ":" + s), ':') == [m, s]
  {
    var x := m + [':'] + s;
    assert x == m + ":" + s;
    assert x[0] == m[0] && x[|x| - 1] == s[|s| - 1];
    DigitEndsNoTrim(x);
    AllDigitsNoColon(m);
    AllDigitsNoColon(s);
    SplitOnCons(m, s, ':');
    SplitOnNone(s, ':');
  }

  /** A digit string reads as its value. */
  lemma DigitPartValue(p: String)
    requires |p| >= 1 && AllDigits(p)
    ensures PartValue(p) == Some(DigitsValue(p))
  {
  }

  lemma ReadThree(v: seq<Option<nat>>, a: nat, b: nat, c: nat)
    requires |v| == 3 && v[0] == Some(a) && v[1] == Some(b) && v[2] == Some(c)
    ensures ReadParts(v) == Some(3600 * a + 60 * b + c)
  {
  }

  lemma ReadTwo(v: seq<Option<nat>>, a: nat, b: nat)
    requires |v| == 2 && v[0] == Some(a) && v[1] == Some(b)
    ensures ReadParts(v) == Some(60 * a + b)
  {
  }

  lemma HmsValue(h: String, m: String, s: String)
    requires |h| >= 1 && |m| >= 1 && |s| >= 1
    requires AllDigits(h) && AllDigits(m) && AllDigits(s)
    ensures ReadParts(PartValues([h, m, s])) == Some(3600 * DigitsValue(h) + 60 * DigitsValue(m) + DigitsValue(s))
  {
    var v := PartValues([h, m, s]);
    assert v == [PartValue(h), PartValue(m), PartValue(s)];
    DigitPartValue(h);
    DigitPartValue(m);
    DigitPartValue(s);
    ReadThree(v, DigitsValue(h), DigitsValue(m), DigitsValue(s));
  }

  lemma MsValue(m: String, s: String)
    requires |m| >= 1 && |s| >= 1
    requires AllDigits(m) && AllDigits(s)
    ensures ReadParts(PartValues([m, s])) == Some(60 * DigitsValue(m) + DigitsValue(s))
  {
    var v := PartValues([m, s]);
    assert v == [PartValue(m), PartValue(s)];
    DigitPartValue(m);
    DigitPartValue(s);
    ReadTwo(v, DigitsValue(m), DigitsValue(s));
  }

  /** A stamp of three digit groups reads as hours, minutes and seconds. */
  lemma TimeToSecHms(h: String, m: String, s: String)
    requires |h| >= 1 && |m| >= 1 && |s| >= 1
    requires AllDigits(h) && AllDigits(m) && AllDigits(s)
    ensures TimeToSec(h + ":" + m + ":" + s) == Some(3600 * DigitsValue(h) + 60 * DigitsValue(m) + DigitsValue(s))
  {
    SplitHms(h, m, s);
    HmsValue(h, m, s);
  }

  /** A stamp of two digit groups reads as minutes and seconds. */
  lemma TimeToSecMs(m: String, s: String)
    requires |m| >= 1 && |s| >= 1
    requires AllDigits(m) && AllDigits(s)
    ensures TimeToSec(m + ":" + s) == Some(60 * DigitsValue(m) + DigitsValue(s))
  {
    SplitMs(m, s);
    MsValue(m, s);
  }

  /** Text without any `:` is never a time. */
  lemma TimeToSecNeedsColon(s: String)
    requires ':' !in s
    ensures TimeToSec(s) == None
  {
    var t := Trim(s);
    TrimMeans(s);
    assert forall i | 0 <= i < |t| :: t[i] == s[LeadWs(s) + i];
    SplitOnNone(t, ':');
  }

  /* ---------- computeLines ---------- */

  /** `replace(/\r$/, "")`: one carriage return at the very end is dropped. */
  function StripCR(s: String): (r: String)
    ensures r == s || (s == r + ['\r'])
  {
    if s != [] && s[|s| - 1] == '\r' then s[..|s| - 1] else s
  }

  /** The lines of a note and the offset where each begins. */
  datatype Layout = Layout(lines: seq<String>, starts: seq<nat>)

  lemma NewlineAt(h: String, k: nat)
    ensures OccursAt(h, "\n", k) <==> k < |h| && h[k] == '\n'
  {
    if k < |h| && h[k] == '\n' {
      assert h[k..k + 1] == "\n";
    }
  }

  /** The offset of the first line feed at or after `pos`, or -1. */
  function NextLineFeed(c: String, pos: nat): (r: int)
    requires pos <= |c|
    decreases |c| - pos
    ensures r == -1 || (pos <= r < |c| && c[r] == '\n')
    ensures forall k | pos <= k < |c| && (r == -1 || k < r) :: c[k] != '\n'
  {
    if pos == |c| then -1 else if c[pos] == '\n' then pos else NextLineFeed(c, pos + 1)
  }

  /** `content.indexOf("\n", pos)` is the next line feed. */
  lemma NextLineFeedIsIndexOf(c: String, pos: nat)
    requires pos <= |c|
    ensures NextLineFeed(c, pos) == IndexOfFrom(c, "\n", pos)
  {
    var r, q := NextLineFeed(c, pos), IndexOfFrom(c, "\n", pos);
    if q >= 0 {
      NewlineAt(c, q);
    }
    if r >= 0 {
      NewlineAt(c, r);
    }
    if q >= 0 && r >= 0 {
      assert !(q < r) && !(r < q);
    }
  }

  /** The lines from offset `pos` on: each one cut at the next line feed, its `\r` dropped. */
  function LinesFrom(c: String, pos: nat): (r: Layout)
    requires pos <= |c|
    decreases |c| - pos
    ensures |r.lines| == |r.starts| >= 1 && r.starts[0] == pos
  {
    var nl := NextLineFeed(c, pos);
    if nl < 0 then Layout([StripCR(c[pos..])], [pos])
    else
      var rest := LinesFrom(c, nl + 1);
      Layout([StripCR(c[pos..nl])] + rest.lines, [pos] + rest.starts)
  }

  /** The `lines` of `computeLines`. */
  function Lines(content: String): seq<String>
  {
    LinesFrom(content, 0).lines
  }

  /** The `starts` of `computeLines`. */
  function Starts(content: String): seq<nat>
  {
    LinesFrom(content, 0).starts
  }

  /** What separates a line from the next one: a line feed, with the dropped `\r` before it. */
  predicate GapOk(g: String)
  {
    g == "\n" || g == "\r\n"
  }

  /** What follows the last line: nothing, or the dropped `\r`. */
  predicate EndOk(g: String)
  {
    g == [] || g == "\r"
  }

  /** The line is the text at offset `start`, character by character, and holds no line feed. */
  predicate LineAt(c: String, line: String, start: nat)
  {
    start + |line| <= |c| && forall k | 0 <= k < |line| :: line[k] == c[start + k] && line[k] != '\n'
  }

  /** Each line is the text at its offset and holds no line feed. */
  predicate LinesAt(c: String, lines: seq<String>, starts: seq<nat>)
    requires |lines| == |starts|
  {
    forall i | 0 <= i < |lines| :: LineAt(c, lines[i], starts[i])
  }

  /** Line `i` and line `i + 1` are separated by a line feed, with at most one `\r` before it. */
  predicate GapAfter(c: String, lines: seq<String>, starts: seq<nat>, i: nat)
    requires |lines| == |starts| && i + 1 < |lines|
  {
    starts[i] + |lines[i]| <= starts[i + 1] <= |c| && GapOk(c[starts[i] + |lines[i]|..starts[i + 1]])
  }

  /** Consecutive lines are separated by line breaks. */
  predicate Gaps(c: String, lines: seq<String>, starts: seq<nat>)
    requires |lines| == |starts|
  {
    forall i | 0 <= i < |lines| - 1 :: GapAfter(c, lines, starts, i)
  }

  /** The last line runs to the end of `c` but for at most one `\r`. */
  predicate LastRunsToEnd(c: String, lines: seq<String>, starts: seq<nat>)
    requires |lines| == |starts| >= 1
  {
    starts[|lines| - 1] + |lines[|lines| - 1]| <= |c|
    && EndOk(c[starts[|lines| - 1] + |lines[|lines| - 1]|..])
  }

  /** `lines` and `starts` lay out `c`. */
  predicate Laid(c: String, lines: seq<String>, starts: seq<nat>)
  {
    |lines| == |starts| >= 1 && LinesAt(c, lines, starts) && Gaps(c, lines, starts)
    && LastRunsToEnd(c, lines, starts)
  }

  /** The first line from `pos`: the text up to `end` holds no line feed. */
  lemma HeadLine(c: String, pos: nat, end: nat)
    requires pos <= end <= |c|
    requires forall k | pos <= k < end :: c[k] != '\n'
    ensures var line := StripCR(c[pos..end]);
      pos + |line| <= end && LineAt(c, line, pos) && EndOk(c[pos + |line|..end])
  {
    var seg := c[pos..end];
    var line := StripCR(seg);
    assert forall k | 0 <= k < |seg| :: seg[k] == c[pos + k];
    assert forall k | 0 <= k < |line| :: line[k] == seg[k];
    assert c[pos + |line|..end] == seg[|line|..];
  }

  lemma LinesAtCons(c: String, line: String, pos: nat, lines: seq<String>, starts: seq<nat>)
    requires |lines| == |starts| && LinesAt(c, lines, starts)
    requires LineAt(c, line, pos)
    ensures LinesAt(c, [line] + lines, [pos] + starts)
  {
    var ls, ss := [line] + lines, [pos] + starts;
    forall i | 0 <= i < |ls|
      ensures LineAt(c, ls[i], ss[i])
    {
      if i > 0 {
        assert ls[i] == lines[i - 1] && ss[i] == starts[i - 1];
      }
    }
  }

  lemma GapsCons(c: String, line: String, pos: nat, lines: seq<String>, starts: seq<nat>)
    requires |lines| == |starts| >= 1 && Gaps(c, lines, starts) && starts[0] <= |c|
    requires pos + |line| <= starts[0] && GapOk(c[pos + |line|..starts[0]])
    ensures Gaps(c, [line] + lines, [pos] + starts)
  {
    var ls, ss := [line] + lines, [pos] + starts;
    forall i | 0 <= i < |ls| - 1
      ensures GapAfter(c, ls, ss, i)
    {
      if i > 0 {
        assert GapAfter(c, lines, starts, i - 1);
        assert ls[i] == lines[i - 1] && ss[i] == starts[i - 1] && ss[i + 1] == starts[i];
      } else {
        assert ls[0] == line && ss[0] == pos && ss[1] == starts[0];
      }
    }
  }

  /** A line put in front of a laid-out rest, separated from it by a line break. */
  lemma LaidCons(c: String, line: String, pos: nat, lines: seq<String>, starts: seq<nat>)
    requires Laid(c, lines, starts)
    requires pos + |line| <= starts[0] && LineAt(c, line, pos)
    requires GapOk(c[pos + |line|..starts[0]])
    ensures Laid(c, [line] + lines, [pos] + starts)
  {
    assert starts[0] <= |c| by {
      if 0 < |lines| - 1 {
        assert GapAfter(c, lines, starts, 0);
      }
    }
    LinesAtCons(c, line, pos, lines, starts);
    GapsCons(c, line, pos, lines, starts);
    var ls, ss := [line] + lines, [pos] + starts;
    assert ls[|ls| - 1] == lines[|lines| - 1] && ss[|ls| - 1] == starts[|lines| - 1];
  }

  /** A single line running to the end of `c`. */
  lemma LaidOne(c: String, line: String, pos: nat)
    requires LineAt(c, line, pos) && EndOk(c[pos + |line|..])
    ensures Laid(c, [line], [pos])
  {
    assert [line][0] == line;
  }

  /** The head line followed by the line feed at `nl` makes a proper gap. */
  lemma GapAtNewline(c: String, a: nat, nl: nat)
    requires a <= nl < |c| && c[nl] == '\n' && EndOk(c[a..nl])
    ensures GapOk(c[a..nl + 1])
  {
    assert c[a..nl + 1] == c[a..nl] + [c[nl]];
  }

  /** `LinesFrom` cuts the first line at the next line feed. */
  lemma LinesFromCut(c: String, pos: nat)
    requires pos <= |c| && NextLineFeed(c, pos) >= 0
    ensures var nl := NextLineFeed(c, pos);
      && LinesFrom(c, pos).lines == [StripCR(c[pos..nl])] + LinesFrom(c, nl + 1).lines
      && LinesFrom(c, pos).starts == [pos] + LinesFrom(c, nl + 1).starts
  {
  }

  /** Without a further line feed `LinesFrom` is the rest of the note, as one line. */
  lemma LinesFromEnd(c: String, pos: nat)
    requires pos <= |c| && NextLineFeed(c, pos) < 0
    ensures LinesFrom(c, pos).lines == [StripCR(c[pos..])] && LinesFrom(c, pos).starts == [pos]
  {
  }

  /** `Laid`, stated line by line from the first one. */
  predicate Chained(c: String, lines: seq<String>, starts: seq<nat>)
    decreases |lines|
  {
    && |lines| == |starts| >= 1 && LineAt(c, lines[0], starts[0])
    && var e := starts[0] + |lines[0]|;
      if |lines| == 1 then EndOk(c[e..])
      else e <= starts[1] <= |c| && GapOk(c[e..starts[1]]) && Chained(c, lines[1..], starts[1..])
  }

  lemma {:induction false} ChainedLaid(c: String, lines: seq<String>, starts: seq<nat>)
    requires Chained(c, lines, starts)
    ensures Laid(c, lines, starts)
    decreases |lines|
  {
    if |lines| == 1 {
      LaidOne(c, lines[0], starts[0]);
      assert lines == [lines[0]] && starts == [starts[0]];
    } else {
      ChainedLaid(c, lines[1..], starts[1..]);
      LaidCons(c, lines[0], starts[0], lines[1..], starts[1..]);
      assert [lines[0]] + lines[1..] == lines && [starts[0]] + starts[1..] == starts;
    }
  }

  /** A line in front of a chained rest, separated from it by a line break. */
  lemma ChainedCons(c: String, line: String, pos: nat, rest: Layout)
    requires LineAt(c, line, pos) && Chained(c, rest.lines, rest.starts)
    requires pos + |line| <= rest.starts[0] <= |c| && GapOk(c[pos + |line|..rest.starts[0]])
    ensures Chained(c, [line] + rest.lines, [pos] + rest.starts)
  {
    var ls, ss := [line] + rest.lines, [pos] + rest.starts;
    assert ls[0] == line && ss[0] == pos && ss[1] == rest.starts[0];
    assert ls[1..] == rest.lines && ss[1..] == rest.starts;
  }

  /** The line up to the next line feed, in front of the chained lines after it. */
  lemma ChainedHead(c: String, pos: nat, rest: Layout)
    requires pos <= |c| && NextLineFeed(c, pos) >= 0
    requires |rest.lines| == |rest.starts| >= 1 && rest.starts[0] == NextLineFeed(c, pos) + 1
    ensures var nl := NextLineFeed(c, pos);
      Chained(c, rest.lines, rest.starts) ==> Chained(c, [StripCR(c[pos..nl])] + rest.lines, [pos] + rest.starts)
  {
    var nl := NextLineFeed(c, pos);
    if Chained(c, rest.lines, rest.starts) {
      HeadLine(c, pos, nl);
      var line := StripCR(c[pos..nl]);
      GapAtNewline(c, pos + |line|, nl);
      ChainedCons(c, line, pos, rest);
    }
  }

  /** The line from `pos` to the end of the note, which holds no further line feed. */
  lemma ChainedLast(c: String, pos: nat)
    requires pos <= |c| && NextLineFeed(c, pos) < 0
    ensures Chained(c, [StripCR(c[pos..])], [pos])
  {
    HeadLine(c, pos, |c|);
    assert c[pos..|c|] == c[pos..];
    var line := StripCR(c[pos..]);
    assert [line][0] == line;
  }

  /** Each line `LinesFrom` cuts is the text at its offset, followed by a line break or the end. */
  lemma {:induction false} LinesFromChained(c: String, pos: nat)
    requires pos <= |c|
    ensures Chained(c, LinesFrom(c, pos).lines, LinesFrom(c, pos).starts)
    decreases |c| - pos
  {
    var nl := NextLineFeed(c, pos);
    var r := LinesFrom(c, pos);
    if nl >= 0 {
      var rest := LinesFrom(c, nl + 1);
      LinesFromChained(c, nl + 1);
      ChainedHead(c, pos, rest);
      assert r == Layout([StripCR(c[pos..nl])] + rest.lines, [pos] + rest.starts);
    } else {
      ChainedLast(c, pos);
      assert r == Layout([StripCR(c[pos..])], [pos]);
    }
  }

  /** Laid-out lines leave at least one character between consecutive lines. */
  lemma LaidSpaced(c: String, lines: seq<String>, starts: seq<nat>)
    requires Laid(c, lines, starts)
    ensures forall i, j | 0 <= i < |starts| - 1 && j == i + 1 :: starts[i] + |lines[i]| + 1 <= starts[j]
  {
    forall i, j | 0 <= i < |starts| - 1 && j == i + 1
      ensures starts[i] + |lines[i]| + 1 <= starts[j]
    {
      assert GapAfter(c, lines, starts, i);
      assert GapOk(c[starts[i] + |lines[i]|..starts[j]]);
    }
  }

  /** Line `i` starts after a line feed unless it is the first. */
  predicate Spaced(lines: seq<String>, starts: seq<nat>)
  {
    |lines| == |starts| >= 1 && starts[0] == 0
    && forall i, j | 0 <= i < |starts| - 1 && j == i + 1 :: starts[i] + |lines[i]| + 1 <= starts[j]
  }

  /**
   * The layout `computeLines` produces: the first line at offset 0, each line the text at its
   * offset without any line feed, consecutive lines separated by `\n` or `\r\n`, the last line
   * running to the end of the note but for one `\r`; in particular the lines never overlap.
   */
  lemma LinesLayout(content: String)
    ensures Laid(content, Lines(content), Starts(content))
    ensures Spaced(Lines(content), Starts(content))
  {
    LinesFromChained(content, 0);
    ChainedLaid(content, Lines(content), Starts(content));
    LaidSpaced(content, Lines(content), Starts(content));
  }

  /** The offsets of well-spaced lines strictly increase. */
  lemma SpacedIncreasing(lines: seq<String>, starts: seq<nat>)
    requires Spaced(lines, starts)
    ensures forall i, j | 0 <= i < j < |starts| :: starts[i] < starts[j]
  {
    forall i, j | 0 <= i < j < |starts|
      ensures starts[i] < starts[j]
    {
      SpacedChain(lines, starts, i, j);
    }
  }

  lemma {:induction false} SpacedChain(lines: seq<String>, starts: seq<nat>, i: nat, j: nat)
    requires Spaced(lines, starts) && i < j < |starts|
    ensures starts[i] < starts[j]
    decreases j - i
  {
    var h := j - 1;
    assert starts[h] + |lines[h]| + 1 <= starts[j];
    if i < h {
      SpacedChain(lines, starts, i, h);
    }
  }

  /** A note without line feeds is one line. */
  lemma OneLine(content: String)
    requires '\n' !in content
    ensures Lines(content) == [StripCR(content)] && Starts(content) == [0]
  {
  }

  /** `computeLines` as a loop: each line is cut at the next line feed, starting at offset 0. */
  method ComputeLines(content: String) returns (lines: seq<String>, starts: seq<nat>)
    ensures lines == Lines(content) && starts == Starts(content)
  {
    lines, starts := [], [];
    var pos: nat := 0;
    ghost var whole := LinesFrom(content, 0);
    while pos <= |content|
      invariant pos <= |content| && CollectedUpTo(content, pos, lines, starts, whole)
      decreases |content| - pos
    {
      var nl := IndexOfFrom(content, "\n", pos);
      LinesStep(content, pos, lines, starts, whole);
      if nl == -1 {
        lines, starts := lines + [StripCR(content[pos..])], starts + [pos];
        return;
      }
      lines, starts := lines + [StripCR(content[pos..nl])], starts + [pos];
      pos := nl + 1;
    }
  }

  /** The lines collected so far, followed by those `left` to collect, make up the `whole` layout. */
  predicate Collected(lines: seq<String>, starts: seq<nat>, left: Layout, whole: Layout)
  {
    lines + left.lines == whole.lines && starts + left.starts == whole.starts
  }

  /** `Collected` with what is left to collect being the lines from offset `pos` on. */
  predicate CollectedUpTo(content: String, pos: nat, lines: seq<String>, starts: seq<nat>, whole: Layout)
    requires pos <= |content|
  {
    Collected(lines, starts, LinesFrom(content, pos), whole)
  }

  /**
   * One turn of `computeLines`'s loop keeps what is left to collect: the line cut at `pos`,
   * moved onto the collected ones, leaves the lines after its line feed to collect; without a
   * further line feed the last line completes the layout.
   */
  lemma LinesStep(content: String, pos: nat, lines: seq<String>, starts: seq<nat>, whole: Layout)
    requires pos <= |content| && CollectedUpTo(content, pos, lines, starts, whole)
    ensures var nl := IndexOfFrom(content, "\n", pos);
      && (nl == -1 ==> lines + [StripCR(content[pos..])] == whole.lines && starts + [pos] == whole.starts)
      && (nl != -1 ==>
            && pos <= nl < |content|
            && CollectedUpTo(content, nl + 1, lines + [StripCR(content[pos..nl])], starts + [pos], whole))
  {
    NextLineFeedIsIndexOf(content, pos);
    var nl := NextLineFeed(content, pos);
    if nl < 0 {
      LinesFromEnd(content, pos);
    } else {
      LinesFromCut(content, pos);
      CollectedMoves(lines, starts, StripCR(content[pos..nl]), pos, LinesFrom(content, pos), LinesFrom(content, nl + 1), whole);
    }
  }

  /** Moving the first line left to collect onto the collected ones keeps `Collected`. */
  lemma CollectedMoves(lines: seq<String>, starts: seq<nat>, line: String, pos: nat, left: Layout, rest: Layout, whole: Layout)
    requires Collected(lines, starts, left, whole)
    requires left.lines == [line] + rest.lines && left.starts == [pos] + rest.starts
    ensures Collected(lines + [line], starts + [pos], rest, whole)
  {
    SeqAssoc(lines, [line], rest.lines);
    SeqAssoc(starts, [pos], rest.starts);
  }

  /* ---------- locateVocabulary ---------- */

  /** `isVocabHeaderLine`: the line holds the sentinel or the header pattern matches it. */
  predicate IsVocabHeaderLine(line: String)
  {
    Contains(line, VOCAB_SENTINEL) || MatchVocabHeader("\n" + line).Some?
  }

  /** `findIndex`: the first index whose line is a glossary header, or -1. */
  function FindHeader(lines: seq<String>, from: nat): (r: int)
    requires from <= |lines|
    decreases |lines| - from
    ensures r == -1 || from <= r < |lines|
  {
    if from == |lines| then -1
    else if IsVocabHeaderLine(lines[from]) then from
    else FindHeader(lines, from + 1)
  }

  /** The index found is the first header line from `from` on, and -1 when there is none. */
  lemma {:induction false} FindHeaderMeans(lines: seq<String>, from: nat)
    requires from <= |lines|
    decreases |lines| - from
    ensures var r := FindHeader(lines, from);
      && (r >= 0 ==> IsVocabHeaderLine(lines[r]))
      && (forall j | from <= j < |lines| && (r == -1 || j < r) :: !IsVocabHeaderLine(lines[j]))
  {
    if from == |lines| {
      assert FindHeader(lines, from) == -1;
    } else if IsVocabHeaderLine(lines[from]) {
      assert FindHeader(lines, from) == from;
    } else {
      var r := FindHeader(lines, from + 1);
      assert FindHeader(lines, from) == r;
      FindHeaderMeans(lines, from + 1);
      forall j | from <= j < |lines| && (r == -1 || j < r)
        ensures !IsVocabHeaderLine(lines[j])
      {
        if j > from {
          assert from + 1 <= j;
        }
      }
    }
  }

  datatype Located = Located(lines: seq<String>, starts: seq<nat>, headerIdx: int, vocabStart: nat)

  /**
   * `locateVocabulary`: the layout of the note, the first glossary-header line (or -1) and the
   * offset where the glossary body begins: the start of the line after the header, or the end
   * of the note when there is no header or it is the last line.
   */
  function LocateVocabulary(content: String): (r: Located)
    ensures r.lines == Lines(content) && r.starts == Starts(content) && Spaced(r.lines, r.starts)
    ensures -1 <= r.headerIdx < |r.lines|
    ensures r.vocabStart <= |content|
    ensures 0 <= r.headerIdx < |r.lines| - 1 ==> r.vocabStart == r.starts[r.headerIdx + 1]
    ensures (r.headerIdx == -1 || r.headerIdx == |r.lines| - 1) ==> r.vocabStart == |content|
  {
    var lines, starts := Lines(content), Starts(content);
    LinesLayout(content);
    var h := FindHeader(lines, 0);
    var vs := if h >= 0 then (if h + 1 < |starts| then starts[h + 1] else |content|) else |content|;
    Located(lines, starts, h, vs)
  }

  /** The header is the first line the glossary-header pattern accepts, and -1 when it accepts none. */
  lemma LocateVocabularyHeader(content: String)
    ensures var r := LocateVocabulary(content);
      && (r.headerIdx >= 0 ==> IsVocabHeaderLine(r.lines[r.headerIdx]))
      && (forall j | 0 <= j < |r.lines| && (r.headerIdx == -1 || j < r.headerIdx) :: !IsVocabHeaderLine(r.lines[j]))
  {
    FindHeaderMeans(Lines(content), 0);
  }

  /** A bare `Vocabulary:` line is a glossary header: the pattern matches it without bullet or `key`. */
  lemma VocabularyLineIsHeader()
    ensures IsVocabHeaderLine("Vocabulary:")
  {
    KeywordOpensLine("Vocabulary:");
  }

  /** A line holding the sentinel is a glossary header. */
  lemma SentinelLineIsHeader()
    ensures IsVocabHeaderLine(":::VOCAB:::")
  {
    var t := ":::VOCAB:::";
    assert OccursAt(t, VOCAB_SENTINEL, 0);
    ContainsAt(t, VOCAB_SENTINEL, 0);
  }

  /** A line on which the header pattern matches from its first character is a glossary header. */
  lemma HeaderBodyIsHeader(line: String)
    requires BodyLen(line, HeaderPattern).Some?
    ensures IsVocabHeaderLine(line)
  {
    var s := "\n" + line;
    assert s[0] == '\n' && s[1..] == line;
  }

  /**
   * A line of blanks, an optional bullet run (with an optional `.` or `)` and blanks), an
   * optional `key` with blanks, then `vocab` or `vocabulary` in any case is a glossary header,
   * whatever follows the keyword.
   */
  lemma VocabHeaderLineAccepts(line: String, p1: nat, p2: nat, p3: nat, p4: nat, p5: nat)
    requires p1 <= p2 <= p3 <= p4 <= p5 && p5 + 5 <= |line|
    requires forall i | 0 <= i < p1 :: IsHws(line[i])
    requires forall i | p1 <= i < p2 :: IsBullet(line[i])
    requires p3 == p2 || (p3 == p2 + 1 && (line[p2] == '.' || line[p2] == ')'))
    requires forall i | p3 <= i < p4 :: IsHws(line[i])
    requires p1 == p2 ==> p4 == p2
    requires p5 == p4 || (p4 + 3 <= p5 && Lower(line[p4..p4 + 3]) == "key" && forall i | p4 + 3 <= i < p5 :: IsHws(line[i]))
    requires MatchesCI(line, p5, "vocab")
    ensures IsVocabHeaderLine(line)
  {
    HeaderBodyAccepts(line, p1, p2, p3, p4, p5);
    HeaderBodyIsHeader(line);
  }

  /** Without a `:` a line cannot hold the sentinel. */
  lemma NoSentinelWithoutColon(s: String)
    requires ':' !in s
    ensures !Contains(s, VOCAB_SENTINEL)
  {
    forall k | 0 <= k && k + |VOCAB_SENTINEL| <= |s|
      ensures !OccursAt(s, VOCAB_SENTINEL, k)
    {
      assert s[k..k + |VOCAB_SENTINEL|][0] == s[k];
    }
  }

  /** With no line break from `p` on, the anchored scan finds nothing from `p`. */
  lemma {:induction false} NoLineStartAfter(s: String, pat: Pattern, p: nat)
    requires 0 < p <= |s|
    requires '\n' !in s[p..]
    ensures FindAtLineStart(s, pat, p) == None
    decreases |s| - p
  {
    if p < |s| {
      assert s[p] == s[p..][0] && s[p + 1..] == s[p..][1..];
      NoLineStartAfter(s, pat, p + 1);
    }
  }

  /** The header pattern has no end anchor: `Vocabulary is important` is a glossary header. */
  lemma VocabularyProseIsHeader()
    ensures IsVocabHeaderLine("Vocabulary is important")
  {
    KeywordOpensLine("Vocabulary is important");
  }

  /** A bullet and `key` may precede the keyword: `- Key Vocabulary:` is a glossary header. */
  lemma BulletKeyVocabularyIsHeader()
    ensures IsVocabHeaderLine("- Key Vocabulary:")
  {
    BulletKeyOpensLine("- Key Vocabulary:");
  }

  /** `o` counts as a bullet: `o vocab` is a glossary header. */
  lemma LetterBulletVocabIsHeader()
    ensures IsVocabHeaderLine("o vocab")
  {
    BulletOpensLine("o vocab");
  }

  /** `vocab` in any case at `p`, letter by letter. */
  lemma VocabAt(l: String, p: nat)
    requires p + 5 <= |l|
    requires LowerChar(l[p]) == 'v' && LowerChar(l[p + 1]) == 'o' && LowerChar(l[p + 2]) == 'c'
    requires LowerChar(l[p + 3]) == 'a' && LowerChar(l[p + 4]) == 'b'
    ensures MatchesCI(l, p, "vocab")
  {
    LowerIs(l[p..p + 5], "vocab");
  }

  /** A line that opens with `Vocab` is a glossary header. */
  lemma KeywordOpensLine(l: String)
    requires |l| >= 5 && l[0] == 'V' && l[1] == 'o' && l[2] == 'c' && l[3] == 'a' && l[4] == 'b'
    ensures IsVocabHeaderLine(l)
  {
    VocabAt(l, 0);
    VocabHeaderLineAccepts(l, 0, 0, 0, 0, 0);
  }

  /** A line that opens with a bullet, a blank and `vocab` is a glossary header. */
  lemma BulletOpensLine(l: String)
    requires |l| >= 7 && IsBullet(l[0]) && IsHws(l[1])
    requires l[2] == 'v' && l[3] == 'o' && l[4] == 'c' && l[5] == 'a' && l[6] == 'b'
    ensures IsVocabHeaderLine(l)
  {
    VocabAt(l, 2);
    VocabHeaderLineAccepts(l, 0, 1, 1, 2, 2);
  }

  /** A line that opens with a bullet, a blank, `Key`, a blank and `Vocab` is a glossary header. */
  lemma BulletKeyOpensLine(l: String)
    requires |l| >= 11 && IsBullet(l[0]) && IsHws(l[1]) && l[2] == 'K' && l[3] == 'e' && l[4] == 'y' && IsHws(l[5])
    requires l[6] == 'V' && l[7] == 'o' && l[8] == 'c' && l[9] == 'a' && l[10] == 'b'
    ensures IsVocabHeaderLine(l)
  {
    LowerIs(l[2..5], "key");
    VocabAt(l, 6);
    VocabHeaderLineAccepts(l, 0, 1, 1, 2, 6);
  }

  /** The keyword must open the line: `The vocabulary` is not a glossary header. */
  lemma KeywordMidLineIsNotHeader()
    ensures !IsVocabHeaderLine("The vocabulary")
  {
    var l := "The vocabulary";
    assert '\n' !in l && ':' !in l;
    NoSentinelWithoutColon(l);
    var s := "\n" + l;
    assert s[0] == '\n' && s[1..] == l;
    MidLineBodiesRefused(s, l);
    NoLineStartAfter(s, HeaderPattern, 1);
  }

  /** Neither the line break nor the `T` opening `The vocabulary` can start the header pattern. */
  lemma MidLineBodiesRefused(s: String, l: String)
    requires l == "The vocabulary" && s == "\n" + l
    ensures BodyLen(s, HeaderPattern) == None && BodyLen(l, HeaderPattern) == None
  {
    assert s[0] == '\n' && !IsHws('\n') && LowerChar('\n') == '\n';
    HeaderBodyRefuses(s);
    assert l[0] == 'T' && l[1] == 'h';
    assert IsUpper('T') && !IsWs('T') && LowerChar('T') == 't' && LowerChar('h') == 'h';
    HeaderBodyRefuses(l);
  }

  /* ---------- parseTranscriptFromTop ---------- */

  /** The characters `.` refuses to match. */
  predicate IsLineTerminator(c: char)
  {
    c == '\n' || c == '\r' || c == '\U{2028}' || c == '\U{2029}'
  }

  /** `\d{n}` at `p`, for the counts of at most three digits the pattern uses. */
  predicate DigitsAt(s: String, p: nat, n: nat)
  {
    n <= 3 && p + n <= |s|
    && (n >= 1 ==> IsDigit(s[p])) && (n >= 2 ==> IsDigit(s[p + 1])) && (n >= 3 ==> IsDigit(s[p + 2]))
  }

  /** `((?:\d{g}:)?\d{m}:\d{2})` at `p`, with `g == 0` for the skipped optional group. */
  predicate StampAt(s: String, p: nat, g: nat, m: nat)
  {
    var q := if g == 0 then p else p + g + 1;
    (g == 0 || (DigitsAt(s, p, g) && p + g < |s| && s[p + g] == ':'))
    && DigitsAt(s, q, m) && q + m < |s| && s[q + m] == ':' && DigitsAt(s, q + m + 1, 2)
  }

  function StampLen(g: nat, m: nat): nat
  {
    (if g == 0 then 0 else g + 1) + m + 3
  }

  /** The counts the pattern allows: `g` is 0 (group skipped) to 3, `m` is 1 or 2. */
  predicate IsShape(g: nat, m: nat)
  {
    g <= 3 && 1 <= m <= 2
  }

  /**
   * Where `(.*)` starts after the stamp: `\s*(?:[-–—]\s*)?` taken greedily. Every other way
   * of matching these optional parts starts `(.*)` earlier, so only this one can succeed
   * where it fails.
   */
  function TailStart(s: String, e: nat): (t: nat)
    requires e <= |s|
    ensures e <= t <= |s|
  {
    var a := e + RunFrom(s, e, Ws);
    if a < |s| && (s[a] == '-' || s[a] == '\U{2013}' || s[a] == '\U{2014}') then
      a + 1 + RunFrom(s, a + 1, Ws)
    else a
  }

  /** Where the text after the last line terminator begins (0 when there is none). */
  function AfterLastBreak(s: String): (b: nat)
    ensures b <= |s| && (b == 0 || IsLineTerminator(s[b - 1]))
    ensures forall i | b <= i < |s| :: !IsLineTerminator(s[i])
  {
    if s == [] then 0
    else if IsLineTerminator(s[|s| - 1]) then |s|
    else AfterLastBreak(s[..|s| - 1])
  }

  /** `(.*)$` from `t`: the rest of the line holds no line terminator. */
  predicate TailOk(s: String, t: nat)
  {
    AfterLastBreak(s) <= t
  }

  /** `TailOk` says that no line terminator lies at or after `t`. */
  lemma TailOkMeans(s: String, t: nat)
    requires t <= |s|
    ensures TailOk(s, t) <==> forall i | t <= i < |s| :: !IsLineTerminator(s[i])
  {
    var b := AfterLastBreak(s);
    if b > t {
      assert IsLineTerminator(s[b - 1]);
    }
  }

  /** The stamp of shape `(g, m)` matches at `p`, and so does the rest of the pattern after it. */
  predicate ShapeMatches(s: String, p: nat, g: nat, m: nat)
  {
    StampAt(s, p, g, m) && p + StampLen(g, m) <= |s| && TailOk(s, TailStart(s, p + StampLen(g, m)))
  }

  /**
   * The choices of counts in the order the backtracking engine tries them: the greedy
   * `\d{1,3}` from three digits down, then the skipped group, each with `\d{1,2}` trying two
   * digits before one.
   */
  const SHAPES: seq<(nat, nat)> := [(3, 2), (3, 1), (2, 2), (2, 1), (1, 2), (1, 1), (0, 2), (0, 1)]

  /** Every choice the pattern allows is tried. */
  lemma ShapesAll(g: nat, m: nat)
    requires IsShape(g, m)
    ensures (g, m) in SHAPES
  {
  }

  /** The first choice in `shapes` for which the whole pattern matches at `p`. */
  function FirstOf(s: String, p: nat, shapes: seq<(nat, nat)>): (r: Option<(nat, nat)>)
    ensures r.Some? ==> r.value in shapes && ShapeMatches(s, p, r.value.0, r.value.1)
  {
    if shapes == [] then None
    else if ShapeMatches(s, p, shapes[0].0, shapes[0].1) then Some(shapes[0])
    else FirstOf(s, p, shapes[1..])
  }

  /** `FirstOf` finds nothing exactly when no choice in `shapes` matches. */
  lemma {:induction false} FirstOfNone(s: String, p: nat, shapes: seq<(nat, nat)>)
    ensures FirstOf(s, p, shapes).None? <==> forall i | 0 <= i < |shapes| :: !ShapeMatches(s, p, shapes[i].0, shapes[i].1)
  {
    if shapes != [] {
      FirstOfNone(s, p, shapes[1..]);
      assert forall i | 1 <= i < |shapes| :: shapes[i] == shapes[1..][i - 1];
    }
  }

  /** The first choice of counts, in the engine's order, for which the whole pattern matches at `p`. */
  function FirstShape(s: String, p: nat): Option<(nat, nat)>
  {
    FirstOf(s, p, SHAPES)
  }

  /** The choice found is allowed and matches; none is found exactly when no allowed choice matches. */
  lemma FirstShapeMeans(s: String, p: nat)
    ensures FirstShape(s, p).Some? ==>
      IsShape(FirstShape(s, p).value.0, FirstShape(s, p).value.1) && ShapeMatches(s, p, FirstShape(s, p).value.0, FirstShape(s, p).value.1)
    ensures FirstShape(s, p).None? <==> forall g, m | IsShape(g, m) :: !ShapeMatches(s, p, g, m)
  {
    FirstOfNone(s, p, SHAPES);
    if FirstShape(s, p).None? {
      forall g, m | IsShape(g, m)
        ensures !ShapeMatches(s, p, g, m)
      {
        ShapesAll(g, m);
      }
    }
  }

  /** A matched stamp always reads as a time, so `isFinite` never drops a matched line. */
  lemma MatchedStampIsTime(s: String, p: nat, g: nat, m: nat)
    requires m >= 1 && StampAt(s, p, g, m) && p + StampLen(g, m) <= |s|
    ensures TimeToSec(s[p..p + StampLen(g, m)]).Some?
  {
    if g == 0 {
      StampMsIsTime(s, p, m);
    } else {
      StampHmsIsTime(s, p, g, m);
    }
  }

  lemma StampMsIsTime(s: String, p: nat, m: nat)
    requires m >= 1 && StampAt(s, p, 0, m) && p + StampLen(0, m) <= |s|
    ensures TimeToSec(s[p..p + StampLen(0, m)]).Some?
  {
    var t := s[p..p + StampLen(0, m)];
    assert forall i | 0 <= i < |t| :: t[i] == s[p + i];
    MsShapeIsTime(t, m);
  }

  /** Minute digits, `:`, two second digits: `m` digits, a colon, then the rest. */
  lemma MsShapeIsTime(t: String, m: nat)
    requires 1 <= m && |t| == m + 3 && t[m] == ':'
    requires forall i | 0 <= i < |t| && i != m :: IsDigit(t[i])
    ensures TimeToSec(t).Some?
  {
    var mm, ss := t[..m], t[m + 1..];
    assert forall i | 0 <= i < |mm| :: mm[i] == t[i];
    assert forall i | 0 <= i < |ss| :: ss[i] == t[m + 1 + i];
    assert t == mm + ":" + ss;
    TimeToSecMs(mm, ss);
  }

  lemma StampHmsIsTime(s: String, p: nat, g: nat, m: nat)
    requires g > 0 && m >= 1 && StampAt(s, p, g, m) && p + StampLen(g, m) <= |s|
    ensures TimeToSec(s[p..p + StampLen(g, m)]).Some?
  {
    var t := s[p..p + StampLen(g, m)];
    assert forall i | 0 <= i < |t| :: t[i] == s[p + i];
    HmsShapeIsTime(t, g, m);
  }

  /** Hour digits, `:`, minute digits, `:`, two second digits. */
  lemma HmsShapeIsTime(t: String, g: nat, m: nat)
    requires 1 <= g && 1 <= m && |t| == g + m + 4 && t[g] == ':' && t[g + m + 1] == ':'
    requires forall i | 0 <= i < |t| && i != g && i != g + m + 1 :: IsDigit(t[i])
    ensures TimeToSec(t).Some?
  {
    var q := g + 1;
    var hh, mm, ss := t[..g], t[q..q + m], t[q + m + 1..];
    assert forall i | 0 <= i < |hh| :: hh[i] == t[i];
    assert forall i | 0 <= i < |mm| :: mm[i] == t[q + i];
    assert forall i | 0 <= i < |ss| :: ss[i] == t[q + m + 1 + i];
    assert t == hh + ":" + mm + ":" + ss;
    TimeToSecHms(hh, mm, ss);
  }

  /** A match of the transcript pattern: the counts the stamp took, group 1 and group 2. */
  datatype LineMatch = LineMatch(g: nat, m: nat, stamp: String, rest: String)

  /** The transcript pattern on one line. */
  function MatchTranscript(s: String): Option<LineMatch>
  {
    MatchFrom(s, RunFrom(s, 0, Ws))
  }

  /** The pattern once `^\s*` has taken the white space before `w`. */
  function MatchFrom(s: String, w: nat): Option<LineMatch>
  {
    match FirstShape(s, w)
    case None => None
    case Some((g, m)) => Some(Groups(s, w, g, m))
  }

  /** The two groups the stamp of counts `(g, m)` at `w` captures. */
  function Groups(s: String, w: nat, g: nat, m: nat): (r: LineMatch)
    requires w + StampLen(g, m) <= |s|
    ensures r.g == g && r.m == m
  {
    var e := w + StampLen(g, m);
    LineMatch(g, m, s[w..e], s[TailStart(s, e)..])
  }

  /** A match is the groups of a choice of counts whose stamp and tail match. */
  lemma MatchFromShape(s: String, w: nat)
    ensures var r := MatchFrom(s, w);
      r.Some? ==> (IsShape(r.value.g, r.value.m) && ShapeMatches(s, w, r.value.g, r.value.m)
        && r.value == Groups(s, w, r.value.g, r.value.m))
  {
    FirstShapeMeans(s, w);
  }

  /** The stamp of a match always reads as a time, and the rest holds no line terminator. */
  lemma MatchTranscriptGroups(s: String)
    ensures var r := MatchTranscript(s);
      r.Some? ==> TimeToSec(r.value.stamp).Some? && forall i | 0 <= i < |r.value.rest| :: !IsLineTerminator(r.value.rest[i])
  {
    var w := RunFrom(s, 0, Ws);
    MatchFromShape(s, w);
    var r := MatchFrom(s, w);
    if r.Some? {
      MatchedGroups(s, w, r.value.g, r.value.m);
    }
  }

  /** The pattern fails on a line exactly when no choice of counts matches after its leading white space. */
  lemma MatchTranscriptNone(s: String)
    ensures MatchTranscript(s).None? <==>
      forall g, m | IsShape(g, m) :: !ShapeMatches(s, RunFrom(s, 0, Ws), g, m)
  {
    FirstShapeMeans(s, RunFrom(s, 0, Ws));
  }

  /** The groups of a matching shape: the stamp reads as a time and the rest has no terminator. */
  lemma MatchedGroups(s: String, w: nat, g: nat, m: nat)
    requires m >= 1 && ShapeMatches(s, w, g, m)
    ensures TimeToSec(Groups(s, w, g, m).stamp).Some?
    ensures var rest := Groups(s, w, g, m).rest;
      forall i | 0 <= i < |rest| :: !IsLineTerminator(rest[i])
  {
    MatchedStampIsTime(s, w, g, m);
    var t := TailStart(s, w + StampLen(g, m));
    TailOkMeans(s, t);
    assert forall i | 0 <= i < |s[t..]| :: s[t..][i] == s[t + i];
  }

  /** The entry a line yields, if any. */
  function EntryOfLine(raw: String): Option<Entry>
  {
    match MatchTranscript(raw)
    case None => None
    case Some(lm) => EntryOfMatch(lm)
  }

  /** The entry a match yields: kept when its stamp is a time and its trimmed text is not empty. */
  function EntryOfMatch(lm: LineMatch): Option<Entry>
  {
    var t := TimeToSec(lm.stamp);
    var txt := Trim(lm.rest);
    if t.None? || txt == [] then None else Some(Entry(t.value, txt))
  }

  /** A match whose stamp is a time yields an entry exactly when its text is not blank, and that text is trimmed. */
  lemma EntryOfMatchSome(lm: LineMatch)
    requires TimeToSec(lm.stamp).Some?
    ensures EntryOfMatch(lm).Some? <==> Trim(lm.rest) != []
    ensures EntryOfMatch(lm).Some? ==> EntryOfMatch(lm).value.text != [] && Trim(EntryOfMatch(lm).value.text) == EntryOfMatch(lm).value.text
  {
    TrimMeans(lm.rest);
    TrimOfTrimmed(Trim(lm.rest));
  }

  /**
   * A line yields an entry exactly when the pattern matches and its text is not blank (the
   * time check never drops a line), and the entry's text is trimmed and not empty.
   */
  lemma EntryOfLineSome(raw: String)
    ensures EntryOfLine(raw).Some? <==> MatchTranscript(raw).Some? && Trim(MatchTranscript(raw).value.rest) != []
    ensures EntryOfLine(raw).Some? ==> EntryOfLine(raw).value.text != [] && Trim(EntryOfLine(raw).value.text) == EntryOfLine(raw).value.text
  {
    var r := MatchTranscript(raw);
    if r.Some? {
      MatchTranscriptGroups(raw);
      EntryOfMatchSome(r.value);
    }
  }

  /** The entries the lines yield, in order. */
  function EntriesOf(lines: seq<String>): (r: seq<Entry>)
    ensures |r| <= |lines|
  {
    if lines == [] then []
    else
      var rest := EntriesOf(lines[..|lines| - 1]);
      match EntryOfLine(lines[|lines| - 1])
      case None => rest
      case Some(e) => rest + [e]
  }

  /** Every entry's text is trimmed and not empty. */
  predicate TextsTrimmed(r: seq<Entry>)
  {
    forall k | 0 <= k < |r| :: r[k].text != [] && Trim(r[k].text) == r[k].text
  }

  /** Every entry the lines yield has a trimmed, non-empty text. */
  lemma {:induction false} EntriesOfTexts(lines: seq<String>)
    ensures TextsTrimmed(EntriesOf(lines))
  {
    if lines != [] {
      var init := lines[..|lines| - 1];
      EntriesOfTexts(init);
      var e := EntryOfLine(lines[|lines| - 1]);
      EntryOfLineSome(lines[|lines| - 1]);
      if e.Some? {
        assert EntriesOf(lines) == EntriesOf(init) + [e.value];
        TextsTrimmedPush(EntriesOf(init), e.value);
      } else {
        assert EntriesOf(lines) == EntriesOf(init);
      }
    }
  }

  lemma TextsTrimmedPush(r: seq<Entry>, e: Entry)
    requires TextsTrimmed(r) && e.text != [] && Trim(e.text) == e.text
    ensures TextsTrimmed(r + [e])
  {
    assert forall k | 0 <= k < |r| :: (r + [e])[k] == r[k];
  }

  /** The transcript: the entries of the lines above the glossary header, or of all lines. */
  function Transcript(lines: seq<String>, headerIdx: int): seq<Entry>
    requires headerIdx <= |lines|
  {
    EntriesOf(lines[..if headerIdx >= 0 then headerIdx else |lines|])
  }

  /** Each line is read on its own: the entries of two runs of lines are those of each run. */
  lemma {:induction false} EntriesOfAppend(a: seq<String>, b: seq<String>)
    ensures EntriesOf(a + b) == EntriesOf(a) + EntriesOf(b)
    decreases |b|
  {
    if b == [] {
      assert a + b == a;
    } else {
      var b0 := b[..|b| - 1];
      assert (a + b)[..|a + b| - 1] == a + b0;
      assert (a + b)[|a + b| - 1] == b[|b| - 1];
      EntriesOfAppend(a, b0);
    }
  }

  /** `parseTranscriptFromTop` as a loop over the lines above the header. */
  method ParseTranscriptFromTop(lines: seq<String>, headerIdx: int) returns (entries: seq<Entry>)
    requires headerIdx <= |lines|
    ensures entries == Transcript(lines, headerIdx)
  {
    var end := if headerIdx >= 0 then headerIdx else |lines|;
    entries := [];
    var i := 0;
    while i < end
      invariant 0 <= i <= end <= |lines|
      invariant entries == EntriesOf(lines[..i])
    {
      assert lines[..i + 1][..i] == lines[..i];
      var e := EntryOfLine(lines[i]);
      if e.Some? {
        entries := entries + [e.value];
      }
      i := i + 1;
    }
  }

  /* ---------- firstIdxAfter ---------- */

  predicate SortedBySec(entries: seq<Entry>)
  {
    forall i, j | 0 <= i < j < |entries| :: entries[i].sec <= entries[j].sec
  }

  /** Where the binary search of `firstIdxAfter` ends once it has narrowed the range to `[lo, hi)`. */
  function SearchAfter(entries: seq<Entry>, t: real, lo: nat, hi: nat): nat
    requires lo <= hi <= |entries|
    decreases hi - lo
  {
    if lo == hi then lo
    else
      var mid := (lo + hi) / 2;
      if entries[mid].sec as real > t then SearchAfter(entries, t, lo, mid) else SearchAfter(entries, t, mid + 1, hi)
  }

  /** The index `firstIdxAfter` returns. */
  function FirstAfter(entries: seq<Entry>, t: real): nat
  {
    SearchAfter(entries, t, 0, |entries|)
  }

  /** The search keeps the entries before `lo` at or before `t` and the entry at `hi` after it. */
  lemma {:induction false} SearchAfterSplits(entries: seq<Entry>, t: real, lo: nat, hi: nat)
    requires lo <= hi <= |entries|
    requires lo > 0 ==> entries[lo - 1].sec as real <= t
    requires hi < |entries| ==> entries[hi].sec as real > t
    decreases hi - lo
    ensures var r := SearchAfter(entries, t, lo, hi);
      && lo <= r <= hi
      && (r > 0 ==> entries[r - 1].sec as real <= t)
      && (r < |entries| ==> entries[r].sec as real > t)
  {
    if lo < hi {
      var mid := (lo + hi) / 2;
      var later := entries[mid].sec as real > t;
      var lo', hi' := if later then lo else mid + 1, if later then mid else hi;
      HalvingKeeps(entries, t, lo, hi, lo', hi');
      SearchAfterSplits(entries, t, lo', hi');
    }
  }

  /** The entry before the index found is at or before `t`, and the entry at it is after `t`. */
  lemma FirstAfterSplits(entries: seq<Entry>, t: real)
    ensures var r := FirstAfter(entries, t);
      && r <= |entries|
      && (r > 0 ==> entries[r - 1].sec as real <= t)
      && (r < |entries| ==> entries[r].sec as real > t)
  {
    SearchAfterSplits(entries, t, 0, |entries|);
  }

  /**
   * `firstIdxAfter`: binary search for the first entry later than `t`. On sorted entries the
   * result splits them into those at or before `t` and those after it.
   */
  method FirstIdxAfter(entries: seq<Entry>, t: real) returns (r: nat)
    ensures r == FirstAfter(entries, t)
    ensures r <= |entries|
    ensures r > 0 ==> entries[r - 1].sec as real <= t
    ensures r < |entries| ==> entries[r].sec as real > t
    ensures SortedBySec(entries) ==>
      (forall i | 0 <= i < r :: entries[i].sec as real <= t) && (forall i | r <= i < |entries| :: entries[i].sec as real > t)
  {
    var lo: nat, hi: nat := 0, |entries|;
    while lo < hi
      invariant Bracketed(entries, t, lo, hi)
      invariant SearchAfter(entries, t, lo, hi) == FirstAfter(entries, t)
      decreases hi - lo
    {
      var mid := (lo + hi) / 2;
      ghost var lo0, hi0 := lo, hi;
      if entries[mid].sec as real > t {
        hi := mid;
      } else {
        lo := mid + 1;
      }
      HalvingKeeps(entries, t, lo0, hi0, lo, hi);
    }
    r := lo;
    SearchEnds(entries, t, r);
  }

  /** Once the range is empty, its bound is the index found, with every entry on its side of `t`. */
  lemma SearchEnds(entries: seq<Entry>, t: real, r: nat)
    requires Bracketed(entries, t, r, r) && SearchAfter(entries, t, r, r) == FirstAfter(entries, t)
    ensures r == FirstAfter(entries, t)
    ensures r <= |entries|
    ensures r > 0 ==> entries[r - 1].sec as real <= t
    ensures r < |entries| ==> entries[r].sec as real > t
    ensures SortedBySec(entries) ==>
      (forall i | 0 <= i < r :: entries[i].sec as real <= t) && (forall i | r <= i < |entries| :: entries[i].sec as real > t)
  {
    if SortedBySec(entries) {
      SortedSplit(entries, t, r);
    }
  }

  /** The range `[lo, hi)` of the search: every entry before it is at or before `t`, the entry at its end after `t`. */
  predicate Bracketed(entries: seq<Entry>, t: real, lo: nat, hi: nat)
  {
    && lo <= hi <= |entries|
    && (lo > 0 ==> entries[lo - 1].sec as real <= t)
    && (hi < |entries| ==> entries[hi].sec as real > t)
  }

  /** One halving of the range keeps it bracketed, shrinks it and leaves the search's end where it was. */
  lemma HalvingKeeps(entries: seq<Entry>, t: real, lo: nat, hi: nat, lo': nat, hi': nat)
    requires lo < hi && Bracketed(entries, t, lo, hi)
    requires var mid := (lo + hi) / 2;
      if entries[mid].sec as real > t then lo' == lo && hi' == mid else lo' == mid + 1 && hi' == hi
    ensures Bracketed(entries, t, lo', hi') && lo <= lo' && hi' <= hi && hi' - lo' < hi - lo
    ensures SearchAfter(entries, t, lo', hi') == SearchAfter(entries, t, lo, hi)
  {
  }

  /** On sorted entries, a boundary between an entry at or before `t` and one after it splits them all. */
  lemma SortedSplit(entries: seq<Entry>, t: real, r: nat)
    requires SortedBySec(entries) && r <= |entries|
    requires r > 0 ==> entries[r - 1].sec as real <= t
    requires r < |entries| ==> entries[r].sec as real > t
    ensures forall i | 0 <= i < r :: entries[i].sec as real <= t
    ensures forall i | r <= i < |entries| :: entries[i].sec as real > t
  {
    forall i | 0 <= i < r
      ensures entries[i].sec as real <= t
    {
      assert entries[i].sec <= entries[r - 1].sec;
    }
    forall i | r <= i < |entries|
      ensures entries[i].sec as real > t
    {
      assert entries[r].sec <= entries[i].sec;
    }
  }
}
