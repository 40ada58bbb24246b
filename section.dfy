/**
 * Section geometry over the line layout of a note: which lines begin a section, which line
 * holds an offset, and the section around an offset.
 */
module Section {
  import opened Strings
  import opened Constants
  import opened Parse

  /** A boundary line and the offset where it begins. */
  datatype SectionStart = SectionStart(line: nat, pos: nat)

  /* ---------- computeSectionStarts ---------- */

  /** The boundary lines among the first `n` lines, in line order. */
  function BoundariesBefore(lines: seq<String>, starts: seq<nat>, n: nat): seq<SectionStart>
    requires |lines| == |starts| && n <= |lines|
  {
    if n == 0 then []
    else
      var rest := BoundariesBefore(lines, starts, n - 1);
      if IsBoundaryLine(lines[n - 1]) then rest + [SectionStart(n - 1, starts[n - 1])] else rest
  }

  /** The section starts of a note: every boundary line with its offset. */
  function SectionStarts(lines: seq<String>, starts: seq<nat>): seq<SectionStart>
    requires |lines| == |starts|
  {
    BoundariesBefore(lines, starts, |lines|)
  }

  /** `b` names a boundary line and that line's offset. */
  predicate IsBoundaryAt(lines: seq<String>, starts: seq<nat>, b: SectionStart)
    requires |lines| == |starts|
  {
    b.line < |lines| && IsBoundaryLine(lines[b.line]) && b.pos == starts[b.line]
  }

  /** One more line adds its boundary, if it is one, after the earlier ones. */
  lemma BoundaryStep(lines: seq<String>, starts: seq<nat>, n: nat)
    requires |lines| == |starts| && 0 < n <= |lines|
    ensures var rest, r := BoundariesBefore(lines, starts, n - 1), BoundariesBefore(lines, starts, n);
      && |rest| <= |r| <= |rest| + 1
      && (forall k | 0 <= k < |rest| :: r[k] == rest[k])
      && (|r| == |rest| + 1 <==> IsBoundaryLine(lines[n - 1]))
      && (|r| == |rest| + 1 ==> r[|rest|] == SectionStart(n - 1, starts[n - 1]))
  {
  }

  /** Each boundary before `n` names a boundary line below `n` and its offset. */
  lemma {:induction false} BoundariesBeforeValid(lines: seq<String>, starts: seq<nat>, n: nat)
    requires |lines| == |starts| && n <= |lines|
    ensures var r := BoundariesBefore(lines, starts, n);
      forall k | 0 <= k < |r| :: r[k].line < n && IsBoundaryAt(lines, starts, r[k])
  {
    if n > 0 {
      BoundariesBeforeValid(lines, starts, n - 1);
      BoundaryStep(lines, starts, n);
    }
  }

  /** The boundaries before `n` come in strictly increasing line order. */
  lemma {:induction false} BoundariesBeforeOrdered(lines: seq<String>, starts: seq<nat>, n: nat)
    requires |lines| == |starts| && n <= |lines|
    ensures var r := BoundariesBefore(lines, starts, n);
      forall k, l | 0 <= k < l < |r| :: r[k].line < r[l].line
  {
    if n > 0 {
      BoundariesBeforeOrdered(lines, starts, n - 1);
      BoundariesBeforeValid(lines, starts, n - 1);
      BoundaryStep(lines, starts, n);
    }
  }

  /** Every boundary line below `n`, with its offset, is among the boundaries before `n`. */
  lemma {:induction false} BoundariesBeforeComplete(lines: seq<String>, starts: seq<nat>, n: nat)
    requires |lines| == |starts| && n <= |lines|
    ensures var r := BoundariesBefore(lines, starts, n);
      forall i | 0 <= i < n && IsBoundaryLine(lines[i]) :: SectionStart(i, starts[i]) in r
  {
    if n > 0 {
      BoundariesBeforeComplete(lines, starts, n - 1);
      var rest, r := BoundariesBefore(lines, starts, n - 1), BoundariesBefore(lines, starts, n);
      assert r == if IsBoundaryLine(lines[n - 1]) then rest + [SectionStart(n - 1, starts[n - 1])] else rest;
    }
  }

  /** `computeSectionStarts` lists exactly the boundary lines, in line order, each with its offset. */
  lemma SectionStartsExact(lines: seq<String>, starts: seq<nat>)
    requires |lines| == |starts|
    ensures var r := SectionStarts(lines, starts);
      && (forall k | 0 <= k < |r| :: IsBoundaryAt(lines, starts, r[k]))
      && (forall k, l | 0 <= k < l < |r| :: r[k].line < r[l].line)
      && (forall i | 0 <= i < |lines| && IsBoundaryLine(lines[i]) :: SectionStart(i, starts[i]) in r)
  {
    var r := SectionStarts(lines, starts);
    assert r == BoundariesBefore(lines, starts, |lines|);
    BoundariesBeforeValid(lines, starts, |lines|);
    BoundariesBeforeOrdered(lines, starts, |lines|);
    BoundariesBeforeComplete(lines, starts, |lines|);
  }

  /** `computeSectionStarts` as a loop over the lines. */
  method ComputeSectionStarts(lines: seq<String>, starts: seq<nat>) returns (sections: seq<SectionStart>)
    requires |lines| == |starts|
    ensures sections == SectionStarts(lines, starts)
  {
    sections := [];
    for i := 0 to |lines|
      invariant sections == BoundariesBefore(lines, starts, i)
    {
      if IsBoundaryLine(lines[i]) {
        sections := sections + [SectionStart(i, starts[i])];
      }
    }
  }

  /** Section starts in non-decreasing order of offset. */
  predicate PosSorted(ss: seq<SectionStart>)
  {
    forall k, l | 0 <= k < l < |ss| :: ss[k].pos <= ss[l].pos
  }

  /** On the layout of a note the section starts come in order of offset. */
  lemma SectionStartsSorted(lines: seq<String>, starts: seq<nat>)
    requires Spaced(lines, starts)
    ensures PosSorted(SectionStarts(lines, starts))
  {
    SectionStartsExact(lines, starts);
    SpacedIncreasing(lines, starts);
  }

  /* ---------- lineIndexForPos ---------- */

  /**
   * The last of the first `n` lines whose start is at or before `pos`, or 0 when every one of
   * them starts after it.
   */
  function LastStartAtOrBefore(starts: seq<nat>, pos: int, n: nat): (r: nat)
    requires n <= |starts|
    ensures n == 0 ==> r == 0
    ensures n > 0 ==> r < n
    ensures forall j | r < j < n :: pos < starts[j]
    ensures 0 < n && pos < starts[r] ==> forall j | 0 <= j < n :: pos < starts[j]
  {
    if n == 0 then 0
    else if starts[n - 1] <= pos then n - 1
    else LastStartAtOrBefore(starts, pos, n - 1)
  }

  /** The line that holds offset `pos`: the last line starting at or before it. */
  function LineIndexFor(starts: seq<nat>, pos: int): nat
  {
    LastStartAtOrBefore(starts, pos, |starts|)
  }

  /** A line starting at or before `pos` with every later line starting after it is `LineIndexFor`. */
  lemma LineIndexForIs(starts: seq<nat>, pos: int, i: nat)
    requires i < |starts| && starts[i] <= pos
    requires forall j | i < j < |starts| :: pos < starts[j]
    ensures LineIndexFor(starts, pos) == i
  {
  }

  /**
   * `lineIndexForPos`: a binary search over the line starts. Its answer is a line of the note,
   * and on the layout of a note, for an offset that is not negative, it is the last line
   * starting at or before the offset.
   */
  method LineIndexForPos(starts: seq<nat>, lines: seq<String>, pos: int) returns (r: nat)
    ensures |starts| == 0 ==> r == 0
    ensures |starts| > 0 ==> r < |starts|
    ensures Spaced(lines, starts) && 0 <= pos ==> r == LineIndexFor(starts, pos)
  {
    ghost var laid := Spaced(lines, starts) && 0 <= pos;
    if laid {
      SpacedIncreasing(lines, starts);
    }
    var lo, hi, ans := 0, |starts| - 1, 0;
    while lo <= hi
      invariant 0 <= lo <= hi + 1 <= |starts|
      invariant ans == if lo == 0 then 0 else lo - 1
      invariant laid ==> forall i | 0 <= i < lo :: starts[i] <= pos
      invariant laid ==> forall j | hi < j < |starts| :: pos < starts[j]
      decreases hi - lo
    {
      var mid := (lo + hi) / 2;
      var lineLen := if mid < |lines| then |lines[mid]| else 0;
      var start := starts[mid];
      var end := start + lineLen + 1;
      if start <= pos < end {
        if laid && mid + 1 < |starts| {
          assert start + |lines[mid]| + 1 <= starts[mid + 1];
        }
        if laid {
          LineIndexForIs(starts, pos, mid);
        }
        return mid;
      }
      if pos < start {
        hi := mid - 1;
      } else {
        ans := mid;
        lo := mid + 1;
      }
    }
    if laid {
      assert starts[0] == 0;
      LineIndexForIs(starts, pos, ans);
    }
    return ans;
  }

  /* ---------- getSectionBoundsByPos ---------- */

  /**
   * How many section starts, from the first, begin at or before `anchor`, up to the first one
   * that begins after it.
   */
  function LeadingAtOrBefore(ss: seq<SectionStart>, anchor: int): (k: nat)
    ensures k <= |ss|
    ensures forall i | 0 <= i < k :: ss[i].pos <= anchor
    ensures k < |ss| ==> anchor < ss[k].pos
  {
    if ss == [] || anchor < ss[0].pos then 0
    else 1 + LeadingAtOrBefore(ss[1..], anchor)
  }

  /** A section as a range of offsets. */
  datatype Bounds = Bounds(startPos: nat, endPos: nat)

  /**
   * `getSectionBoundsByPos`: the section that begins at the last of the leading starts at or
   * before `anchor` and ends where the next one begins or at `totalLen`; the whole text when
   * there is no start or the first one lies after `anchor`.
   */
  function SectionBounds(ss: seq<SectionStart>, anchor: int, totalLen: nat): Bounds
  {
    var k := LeadingAtOrBefore(ss, anchor);
    if k == 0 then Bounds(0, totalLen)
    else Bounds(ss[k - 1].pos, if k < |ss| then ss[k].pos else totalLen)
  }

  /** `getSectionBoundsByPos` as the source's loop, which stops at the first start past the anchor. */
  method GetSectionBoundsByPos(ss: seq<SectionStart>, anchor: int, totalLen: nat) returns (b: Bounds)
    ensures b == SectionBounds(ss, anchor, totalLen)
  {
    if |ss| == 0 {
      return Bounds(0, totalLen);
    }
    ghost var k := LeadingAtOrBefore(ss, anchor);
    var startPos, endPos := 0, totalLen;
    var i := 0;
    while i < |ss|
      invariant i <= k
      invariant i == 0 ==> startPos == 0 && endPos == totalLen
      invariant i > 0 ==> startPos == ss[i - 1].pos && endPos == if i < |ss| then ss[i].pos else totalLen
    {
      if ss[i].pos <= anchor {
        startPos := ss[i].pos;
        endPos := if i + 1 < |ss| then ss[i + 1].pos else totalLen;
      } else {
        break;
      }
      i := i + 1;
    }
    return Bounds(startPos, endPos);
  }

  /** Without section starts the section is the whole text. */
  lemma SectionBoundsNone(anchor: int, totalLen: nat)
    ensures SectionBounds([], anchor, totalLen) == Bounds(0, totalLen)
  {
  }

  /**
   * When the first start lies after the anchor the section is the whole text, not the part
   * before that start.
   */
  lemma SectionBoundsBeforeFirst(ss: seq<SectionStart>, anchor: int, totalLen: nat)
    requires ss != [] && anchor < ss[0].pos
    ensures SectionBounds(ss, anchor, totalLen) == Bounds(0, totalLen)
  {
  }

  /** The section holds its anchor: it starts at or before it and, inside the text, ends after it. */
  lemma SectionBoundsContain(ss: seq<SectionStart>, anchor: int, totalLen: nat)
    requires 0 <= anchor < totalLen
    ensures var b := SectionBounds(ss, anchor, totalLen); b.startPos <= anchor < b.endPos
  {
  }

  /**
   * With the starts in order, a section begins at the last start at or before the anchor and,
   * when there is one, no start lies strictly inside it.
   */
  lemma SectionBoundsSorted(ss: seq<SectionStart>, anchor: int, totalLen: nat)
    requires PosSorted(ss) && 0 <= anchor
    ensures var b := SectionBounds(ss, anchor, totalLen);
      && (forall i | 0 <= i < |ss| && ss[i].pos <= anchor :: ss[i].pos <= b.startPos)
      && (ss != [] && ss[0].pos <= anchor ==> forall i | 0 <= i < |ss| :: !(b.startPos < ss[i].pos < b.endPos))
  {
    var k := LeadingAtOrBefore(ss, anchor);
    var b := SectionBounds(ss, anchor, totalLen);
    forall i | 0 <= i < |ss|
      ensures ss[i].pos <= anchor ==> ss[i].pos <= b.startPos
      ensures k > 0 ==> !(b.startPos < ss[i].pos < b.endPos)
    {
      if i < k {
        assert ss[i].pos <= ss[k - 1].pos;
      } else if k < |ss| {
        assert ss[k].pos <= ss[i].pos;
      }
    }
  }

  /** With the starts in order, a later anchor never lies in an earlier section. */
  lemma {:induction false} SectionBoundsMonotone(ss: seq<SectionStart>, a1: int, a2: int, totalLen: nat)
    requires PosSorted(ss) && a1 <= a2
    ensures SectionBounds(ss, a1, totalLen).startPos <= SectionBounds(ss, a2, totalLen).startPos
  {
    var k1, k2 := LeadingAtOrBefore(ss, a1), LeadingAtOrBefore(ss, a2);
    assert k1 <= k2;
    if k1 > 0 {
      assert ss[k1 - 1].pos <= ss[k2 - 1].pos;
    }
  }

  /** With the starts in order, anchoring at a section's start finds the same section again. */
  lemma SectionBoundsIdempotent(ss: seq<SectionStart>, anchor: int, totalLen: nat)
    requires PosSorted(ss) && 0 <= anchor
    ensures var b := SectionBounds(ss, anchor, totalLen); SectionBounds(ss, b.startPos, totalLen) == b
  {
    var k := LeadingAtOrBefore(ss, anchor);
    var b := SectionBounds(ss, anchor, totalLen);
    var k2 := LeadingAtOrBefore(ss, b.startPos);
    if k > 0 {
      assert forall i | 0 <= i < k :: ss[i].pos <= b.startPos;
      assert k2 == k;
    } else {
      assert k2 == 0;
    }
  }

  /* ---------- getSectionBoundsByLine ---------- */

  /** The start of line `lineIdx` clamped to the lines of the note, or 0 when there are none. */
  function ClampedLineStart(starts: seq<nat>, lineIdx: int): (r: nat)
    ensures |starts| == 0 ==> r == 0
    ensures 0 <= lineIdx < |starts| ==> r == starts[lineIdx]
    ensures |starts| > 0 && lineIdx < 0 ==> r == starts[0]
    ensures |starts| > 0 && lineIdx >= |starts| ==> r == starts[|starts| - 1]
  {
    if |starts| == 0 then 0
    else
      var i := if lineIdx < 0 then 0 else if lineIdx > |starts| - 1 then |starts| - 1 else lineIdx;
      starts[i]
  }

  /** `getSectionBoundsByLine`: the section around the clamped line's start. */
  function SectionBoundsByLine(starts: seq<nat>, ss: seq<SectionStart>, lineIdx: int, totalLen: nat): Bounds
  {
    SectionBounds(ss, ClampedLineStart(starts, lineIdx), totalLen)
  }

  /**
   * A line index past either end gives the section of the first or the last line, and the
   * section of a line inside the text holds that line's start.
   */
  lemma SectionBoundsByLineMeans(starts: seq<nat>, ss: seq<SectionStart>, lineIdx: int, totalLen: nat)
    requires |starts| > 0
    ensures var k := if lineIdx < 0 then 0 else if lineIdx >= |starts| then |starts| - 1 else lineIdx;
      var b := SectionBoundsByLine(starts, ss, lineIdx, totalLen);
      && b == SectionBoundsByLine(starts, ss, k, totalLen)
      && (starts[k] < totalLen ==> b.startPos <= starts[k] < b.endPos)
  {
    var k := if lineIdx < 0 then 0 else if lineIdx >= |starts| then |starts| - 1 else lineIdx;
    if starts[k] < totalLen {
      SectionBoundsContain(ss, starts[k], totalLen);
    }
  }

  /** With the starts in order and inside the text, a section is a range of the text. */
  lemma SectionBoundsInText(ss: seq<SectionStart>, anchor: int, totalLen: nat)
    requires PosSorted(ss) && forall i | 0 <= i < |ss| :: ss[i].pos <= totalLen
    ensures var b := SectionBounds(ss, anchor, totalLen); b.startPos <= b.endPos <= totalLen
  {
    var k := LeadingAtOrBefore(ss, anchor);
    if 0 < k < |ss| {
      assert ss[k - 1].pos <= ss[k].pos;
    }
  }
}
