/**
 * The note engine: the note, the structures derived from it, the playback clock and the html
 * the viewer shows. A content change rebuilds everything; a tick of the clock plans searches
 * for the transcript line being played and shows the first one that finds something, never
 * going back to an earlier section through the glossary or the text match; a manual search
 * does the same for a typed term without the floor.
 */
module Engine {
  import opened Strings
  import opened Constants
  import opened Parse
  import opened Section
  import opened Search
  import opened Plan
  import opened Render

  /** The note and what is derived from it. */
  datatype Note = Note(content: String, lines: seq<String>, starts: seq<nat>, headerIdx: int, vocabStart: nat,
                       entries: seq<Entry>, vocabIndex: seq<VocabItem>, sectionStarts: seq<SectionStart>)

  /**
   * What the content effect derives from a note: the located glossary, the transcript above
   * it, the glossary index and the section starts.
   */
  function NoteOf(content: String): (n: Note)
    ensures n.content == content
  {
    var loc := LocateVocabulary(content);
    Note(content, loc.lines, loc.starts, loc.headerIdx, loc.vocabStart, Transcript(loc.lines, loc.headerIdx),
         VocabIndex(loc.lines, loc.starts, loc.headerIdx), SectionStarts(loc.lines, loc.starts))
  }

  /**
   * The facts about a derived note the engine relies on: the layout is that of `computeLines`,
   * the glossary index is that of the layout, and the section starts come in order and lie
   * inside the note.
   */
  predicate Consistent(n: Note)
  {
    && Spaced(n.lines, n.starts) && n.headerIdx < |n.lines|
    && n.vocabIndex == VocabIndex(n.lines, n.starts, n.headerIdx)
    && PosSorted(n.sectionStarts) && (forall i | 0 <= i < |n.sectionStarts| :: n.sectionStarts[i].pos <= |n.content|)
  }

  /** A derived note is consistent: every section start is the start of a line of it. */
  lemma NoteOfConsistent(content: String)
    ensures Consistent(NoteOf(content))
  {
    var n := NoteOf(content);
    LinesLayout(content);
    SectionStartsSorted(n.lines, n.starts);
    SectionStartsExact(n.lines, n.starts);
  }

  /** The body of the content effect: locate the glossary, then parse the transcript, index the glossary and find the sections. */
  method Derive(content: String) returns (n: Note)
    ensures n == NoteOf(content)
  {
    var loc := LocateVocabulary(content);
    var entries := ParseTranscriptFromTop(loc.lines, loc.headerIdx);
    var vocabIndex := BuildVocabLineIndex(loc.lines, loc.starts, loc.headerIdx);
    var sectionStarts := ComputeSectionStarts(loc.lines, loc.starts);
    n := Note(content, loc.lines, loc.starts, loc.headerIdx, loc.vocabStart, entries, vocabIndex, sectionStarts);
  }

  /**
   * What a candidate puts on screen, the start of the section it tracks, the stage that found
   * it, its anchor (the glossary line for stage 1, the hit's start otherwise) and the needle it
   * highlights.
   */
  datatype Shown = Shown(html: String, sectionStart: nat, stage: nat, anchor: int, needle: String)

  /** What a manual search did: nothing for a blank term, showed something, or found nothing. */
  datatype Outcome = Blank | Found | NotFound

  /** The texts of the transcript entries. */
  function EntryTexts(entries: seq<Entry>): (r: seq<String>)
    ensures |r| == |entries| && forall i | 0 <= i < |r| :: r[i] == entries[i].text
  {
    seq(|entries|, i requires 0 <= i < |entries| => entries[i].text)
  }

  /** The line being played at `t`: the one before the first entry after `t`, clamped to the entries. */
  function ActiveLine(entries: seq<Entry>, t: real): int
  {
    Max(0, Min(FirstAfter(entries, t) - 1, |entries| - 1))
  }

  /**
   * The active line is an entry when there are any. It is the last entry at or before `t`, the
   * next one being after `t`; when every entry is after `t` it is the first one.
   */
  lemma ActiveLineMeans(entries: seq<Entry>, t: real)
    ensures var j := ActiveLine(entries, t);
      && 0 <= j && (entries != [] ==> j < |entries|)
      && (entries != [] && FirstAfter(entries, t) > 0 ==>
            entries[j].sec as real <= t && (j + 1 < |entries| ==> entries[j + 1].sec as real > t))
      && (entries != [] && FirstAfter(entries, t) == 0 ==> j == 0 && entries[0].sec as real > t)
  {
    FirstAfterSplits(entries, t);
  }

  /** The floor of a tick: the glossary start, or the tracked section's start when that is later. */
  function AllowedMinPos(vocabStart: nat, last: Option<nat>): (r: nat)
    ensures r >= vocabStart && (last.Some? ==> r >= last.value)
    ensures r == vocabStart || (last.Some? && r == last.value)
  {
    var l := if last.Some? then last.value else vocabStart;
    if vocabStart < l then l else vocabStart
  }

  /** A tracked section start is the start of the section it anchors. */
  predicate Tracked(n: Note, last: Option<nat>)
  {
    last.Some? ==> SectionBounds(n.sectionStarts, last.value, |n.content|).startPos == last.value
  }

  /**
   * One plan item tried against the note. Stage 1: the glossary line of the best item at or
   * after the floor, when it lies in the glossary and its section renders to something. Stage 2:
   * the best hit's section, when it renders to something and starts at or after the floor.
   * Stage 3: the context around the hit, tracking the hit's section whatever the floor.
   * Nothing when the hit search finds nothing.
   */
  function Candidate(n: Note, highlight: String, search: String, floor: Option<int>): Option<Shown>
    requires |n.lines| == |n.starts| && n.headerIdx < |n.lines|
  {
    var k := PickItem(TokensFromSentence(search), n.vocabIndex, floor);
    var line := if k == -1 then -1 else LineIndexFor(n.starts, n.vocabIndex[k].start);
    var byLine := ExplainByLine(n.content, n.starts, n.sectionStarts, line, highlight);
    if 0 <= line < |n.starts| && n.starts[line] >= n.vocabStart && byLine.html != [] then
      Some(Shown(byLine.html, byLine.sectionStartPos, 1, line, highlight))
    else
      match BestHit(n.content, n.vocabStart, search, n.vocabIndex, n.lines, n.starts, n.headerIdx)
      case None => None
      case Some(h) =>
        var e := ExplainByPos(n.content, n.sectionStarts, h.start, highlight);
        if e.html != [] && (floor.None? || e.sectionStartPos >= floor.value) then
          Some(Shown(e.html, e.sectionStartPos, 2, h.start, highlight))
        else
          var html := ContextHtml(n.content, n.lines, n.starts, n.headerIdx, h.start, CONTEXT_LINES_UP,
                                  CONTEXT_LINES_DOWN, highlight, n.sectionStarts);
          Some(Shown(html, SectionBounds(n.sectionStarts, h.start, |n.content|).startPos, 3, h.start, highlight))
  }

  /** The first plan item long enough to search that yields a candidate. */
  function FirstAccepted(n: Note, plan: seq<PlanItem>, floor: Option<int>): Option<Shown>
    requires |n.lines| == |n.starts| && n.headerIdx < |n.lines|
  {
    if plan == [] then None
    else if |plan[0].highlight| < MIN_SEARCH_LEN then FirstAccepted(n, plan[1..], floor)
    else
      var c := Candidate(n, plan[0].highlight, plan[0].search, floor);
      if c.Some? then c else FirstAccepted(n, plan[1..], floor)
  }

  /** One step of the scan: item `i` is skipped, accepted, or passes over to the next. */
  lemma FirstAcceptedStep(n: Note, plan: seq<PlanItem>, floor: Option<int>, i: nat)
    requires |n.lines| == |n.starts| && n.headerIdx < |n.lines| && i < |plan|
    ensures var c := Candidate(n, plan[i].highlight, plan[i].search, floor);
      FirstAccepted(n, plan[i..], floor)
        == if |plan[i].highlight| < MIN_SEARCH_LEN || c.None? then FirstAccepted(n, plan[i + 1..], floor) else c
  {
    assert plan[i..][0] == plan[i];
    assert plan[i..][1..] == plan[i + 1..];
  }

  /** What a tick at `t` shows, given the tracked section: the plan for the active line, tried from the floor. */
  function TickChoice(n: Note, t: real, last: Option<nat>): Option<Shown>
    requires |n.lines| == |n.starts| && n.headerIdx < |n.lines|
  {
    FirstAccepted(n, PlanFor(EntryTexts(n.entries), ActiveLine(n.entries, t)), Some(AllowedMinPos(n.vocabStart, last)))
  }

  /**
   * On a note, a candidate tracks a section start, shows at most one mark, and: a stage-1
   * candidate is a glossary line at or after the floor whose section it shows; a stage-2
   * candidate is the best hit's section, starting at or after the floor; a stage-3 candidate
   * is the context of the best hit, used only when its section renders to nothing or starts
   * below the floor. There is no candidate only when the hit search finds nothing.
   */
  lemma CandidateMeans(n: Note, highlight: String, search: String, floor: Option<int>)
    requires Consistent(n)
    ensures var r := Candidate(n, highlight, search, floor);
            var hit := BestHit(n.content, n.vocabStart, search, n.vocabIndex, n.lines, n.starts, n.headerIdx);
      && (r.None? ==> hit.None?)
      && (r.Some? ==>
            && Tracked(n, Some(r.value.sectionStart))
            && Marks(r.value.html) <= 1
            && 1 <= r.value.stage <= 3
            && r.value.needle == highlight
            && (r.value.stage == 1 ==>
                  && 0 <= r.value.anchor < |n.starts|
                  && n.starts[r.value.anchor] >= n.vocabStart
                  && (floor.Some? ==> n.starts[r.value.anchor] >= floor.value)
                  && r.value.html != []
                  && r.value.sectionStart == SectionBounds(n.sectionStarts, n.starts[r.value.anchor], |n.content|).startPos)
            && (r.value.stage >= 2 ==>
                  && hit.Some? && r.value.anchor == hit.value.start
                  && r.value.sectionStart == SectionBounds(n.sectionStarts, hit.value.start, |n.content|).startPos)
            && (r.value.stage == 2 ==> r.value.html != [] && (floor.Some? ==> r.value.sectionStart >= floor.value))
            && (r.value.stage == 3 ==>
                  var e := ExplainByPos(n.content, n.sectionStarts, hit.value.start, highlight);
                  e.html == [] || (floor.Some? && e.sectionStartPos < floor.value)))
  {
    CandidateShows(n, highlight, search, floor);
    CandidateFirstStage(n, highlight, search, floor);
    CandidateHitStages(n, highlight, search, floor);
  }

  /** A candidate tracks a section start and shows at most one mark. */
  lemma CandidateShows(n: Note, highlight: String, search: String, floor: Option<int>)
    requires Consistent(n)
    ensures var r := Candidate(n, highlight, search, floor);
      r.Some? ==> Tracked(n, Some(r.value.sectionStart)) && Marks(r.value.html) <= 1 && 1 <= r.value.stage <= 3
                  && r.value.needle == highlight
  {
    var c := Candidate(n, highlight, search, floor);
    var k := PickItem(TokensFromSentence(search), n.vocabIndex, floor);
    var line := if k == -1 then -1 else LineIndexFor(n.starts, n.vocabIndex[k].start);
    var byLine := ExplainByLine(n.content, n.starts, n.sectionStarts, line, highlight);
    if 0 <= line < |n.starts| && n.starts[line] >= n.vocabStart && byLine.html != [] {
      var sh := Shown(byLine.html, byLine.sectionStartPos, 1, line, highlight);
      assert c == Some(sh);
      ExplainedShows(n, ClampedLineStart(n.starts, line), highlight);
      assert Tracked(n, Some(sh.sectionStart)) && Marks(sh.html) <= 1;
    } else {
      match BestHit(n.content, n.vocabStart, search, n.vocabIndex, n.lines, n.starts, n.headerIdx)
      case None =>
        assert c == None;
      case Some(h) =>
        var e := ExplainByPos(n.content, n.sectionStarts, h.start, highlight);
        ExplainedShows(n, h.start, highlight);
        if e.html != [] && (floor.None? || e.sectionStartPos >= floor.value) {
          assert c == Some(Shown(e.html, e.sectionStartPos, 2, h.start, highlight));
        } else {
          var html := ContextHtml(n.content, n.lines, n.starts, n.headerIdx, h.start, CONTEXT_LINES_UP,
                                  CONTEXT_LINES_DOWN, highlight, n.sectionStarts);
          var sh := Shown(html, SectionBounds(n.sectionStarts, h.start, |n.content|).startPos, 3, h.start, highlight);
          assert c == Some(sh);
          ContextShows(n, h.start, highlight);
          assert sh.sectionStart == e.sectionStartPos;
        }
    }
  }

  /** The context fallback holds at most one mark. */
  lemma ContextShows(n: Note, hitStart: nat, needle: String)
    ensures Marks(ContextHtml(n.content, n.lines, n.starts, n.headerIdx, hitStart, CONTEXT_LINES_UP, CONTEXT_LINES_DOWN,
                              needle, n.sectionStarts)) <= 1
  {
    var w := ContextWindow(|n.content|, n.lines, n.starts, n.headerIdx, hitStart, CONTEXT_LINES_UP, CONTEXT_LINES_DOWN, n.sectionStarts);
    RenderSnippetMeans(Slice(n.content, CharStart(n.starts, w.fromLine), CharEnd(n.lines, n.starts, w.toLine)), needle);
  }

  /** The section around an anchor is tracked by its start, and its rendering holds at most one mark. */
  lemma ExplainedShows(n: Note, anchor: nat, needle: String)
    requires Consistent(n)
    ensures var e := ExplainByPos(n.content, n.sectionStarts, anchor, needle);
      Tracked(n, Some(e.sectionStartPos)) && Marks(e.html) <= 1
  {
    var b := SectionBounds(n.sectionStarts, anchor, |n.content|);
    SectionBoundsIdempotent(n.sectionStarts, anchor, |n.content|);
    SectionFullMarks(Slice(n.content, b.startPos, b.endPos), needle);
  }

  /** A stage-1 candidate is a glossary line at or after the floor, and its section is shown. */
  lemma CandidateFirstStage(n: Note, highlight: String, search: String, floor: Option<int>)
    requires Consistent(n)
    ensures var r := Candidate(n, highlight, search, floor);
      r.Some? && r.value.stage == 1 ==>
        && 0 <= r.value.anchor < |n.starts|
        && n.starts[r.value.anchor] >= n.vocabStart
        && (floor.Some? ==> n.starts[r.value.anchor] >= floor.value)
        && r.value.html != []
        && r.value.sectionStart == SectionBounds(n.sectionStarts, n.starts[r.value.anchor], |n.content|).startPos
  {
    CandidateLine(n, search, floor);
  }

  /**
   * Stages 2 and 3 come from the best hit; stage 2 renders its section and respects the floor,
   * and stage 3 is used only when stage 2 does not.
   */
  lemma CandidateHitStages(n: Note, highlight: String, search: String, floor: Option<int>)
    requires Consistent(n)
    ensures var r := Candidate(n, highlight, search, floor);
            var hit := BestHit(n.content, n.vocabStart, search, n.vocabIndex, n.lines, n.starts, n.headerIdx);
      && (r.None? ==> hit.None?)
      && (r.Some? && r.value.stage >= 2 ==>
            && hit.Some? && r.value.anchor == hit.value.start
            && r.value.sectionStart == SectionBounds(n.sectionStarts, hit.value.start, |n.content|).startPos)
      && (r.Some? && r.value.stage == 2 ==> r.value.html != [] && (floor.Some? ==> r.value.sectionStart >= floor.value))
      && (r.Some? && r.value.stage == 3 ==>
            var e := ExplainByPos(n.content, n.sectionStarts, hit.value.start, highlight);
            e.html == [] || (floor.Some? && e.sectionStartPos < floor.value))
  {
    var r := Candidate(n, highlight, search, floor);
    var k := PickItem(TokensFromSentence(search), n.vocabIndex, floor);
    var line := if k == -1 then -1 else LineIndexFor(n.starts, n.vocabIndex[k].start);
    var byLine := ExplainByLine(n.content, n.starts, n.sectionStarts, line, highlight);
    var hit := BestHit(n.content, n.vocabStart, search, n.vocabIndex, n.lines, n.starts, n.headerIdx);
    if 0 <= line < |n.starts| && n.starts[line] >= n.vocabStart && byLine.html != [] {
      assert r.value.stage == 1;
    } else if hit.Some? {
      var e := ExplainByPos(n.content, n.sectionStarts, hit.value.start, highlight);
      if e.html != [] && (floor.None? || e.sectionStartPos >= floor.value) {
        assert r == Some(Shown(e.html, e.sectionStartPos, 2, hit.value.start, highlight));
      } else {
        assert r.value.stage == 3 && r.value.anchor == hit.value.start;
      }
    } else {
      assert r.None?;
    }
  }

  /** A section rendering holds at most one mark. */
  lemma SectionFullMarks(raw: String, needle: String)
    ensures Marks(BuildSectionFullHtml(raw, needle)) <= 1
  {
    SectionFullHtmlMeans(raw, needle);
  }

  /** The glossary line of stage 1 starts with the chosen item, which lies at or after the floor. */
  lemma CandidateLine(n: Note, search: String, floor: Option<int>)
    requires Consistent(n)
    ensures var k := PickItem(TokensFromSentence(search), n.vocabIndex, floor);
      k != -1 ==>
        var line := LineIndexFor(n.starts, n.vocabIndex[k].start);
        line < |n.starts| && n.starts[line] == n.vocabIndex[k].start && (floor.Some? ==> n.starts[line] >= floor.value)
  {
    var tokens := TokensFromSentence(search);
    var k := PickItem(tokens, n.vocabIndex, floor);
    if k != -1 {
      PickItemMeans(tokens, n.vocabIndex, floor);
      VocabIndexExact(n.lines, n.starts, n.headerIdx);
      var m := VocabLines(n.lines, n.headerIdx)[k];
      assert n.vocabIndex[k].start == n.starts[m];
      LineIndexForLineStart(n.lines, n.starts, m);
    }
  }

  /**
   * Forward progress: with the floor at or after the tracked section, a stage-1 or stage-2
   * candidate never tracks an earlier section.
   */
  lemma CandidateForward(n: Note, highlight: String, search: String, floor: int, last: nat)
    requires Consistent(n) && Tracked(n, Some(last)) && last <= floor
    ensures var r := Candidate(n, highlight, search, Some(floor));
      r.Some? && r.value.stage <= 2 ==> last <= r.value.sectionStart
  {
    var r := Candidate(n, highlight, search, Some(floor));
    CandidateMeans(n, highlight, search, Some(floor));
    if r.Some? && r.value.stage == 1 {
      SectionBoundsMonotone(n.sectionStarts, last, n.starts[r.value.anchor], |n.content|);
    }
  }

  /**
   * Stage 3 ignores the floor: when the hit's section renders to something but starts below
   * the floor, the candidate tracks that earlier section.
   */
  lemma CandidateStage3Regresses(n: Note, highlight: String, search: String, floor: int)
    requires Consistent(n)
    ensures var r := Candidate(n, highlight, search, Some(floor));
            var hit := BestHit(n.content, n.vocabStart, search, n.vocabIndex, n.lines, n.starts, n.headerIdx);
      r.Some? && r.value.stage == 3 && ExplainByPos(n.content, n.sectionStarts, hit.value.start, highlight).html != [] ==>
        r.value.sectionStart < floor
  {
    CandidateMeans(n, highlight, search, Some(floor));
  }

  /** The plan's choice is the candidate of one of its long-enough items, and nothing when none yields one. */
  lemma {:induction false} FirstAcceptedMeans(n: Note, plan: seq<PlanItem>, floor: Option<int>)
    requires Consistent(n)
    ensures var r := FirstAccepted(n, plan, floor);
      && (r.None? <==> forall i | 0 <= i < |plan| && |plan[i].highlight| >= MIN_SEARCH_LEN ::
                         Candidate(n, plan[i].highlight, plan[i].search, floor).None?)
      && (r.Some? ==> exists i | 0 <= i < |plan| && |plan[i].highlight| >= MIN_SEARCH_LEN ::
                         r == Candidate(n, plan[i].highlight, plan[i].search, floor))
  {
    if plan != [] {
      FirstAcceptedMeans(n, plan[1..], floor);
      forall i | 1 <= i < |plan|
        ensures plan[i] == plan[1..][i - 1]
      {
      }
      if FirstAccepted(n, plan[1..], floor).Some? && FirstAccepted(n, plan, floor) == FirstAccepted(n, plan[1..], floor) {
        var j :| 0 <= j < |plan[1..]| && |plan[1..][j].highlight| >= MIN_SEARCH_LEN
                 && FirstAccepted(n, plan[1..], floor) == Candidate(n, plan[1..][j].highlight, plan[1..][j].search, floor);
        assert plan[j + 1] == plan[1..][j];
      }
    }
  }

  /**
   * Forward progress of a tick: its choice tracks a section start, and one found in the
   * glossary or by the text match never lies before the tracked section or the glossary.
   */
  lemma TickForward(n: Note, t: real, last: Option<nat>)
    requires Consistent(n) && Tracked(n, last)
    ensures var r := TickChoice(n, t, last);
      r.Some? ==>
        && Tracked(n, Some(r.value.sectionStart))
        && Marks(r.value.html) <= 1
        && (r.value.stage == 1 ==>
              0 <= r.value.anchor < |n.starts| && n.starts[r.value.anchor] >= AllowedMinPos(n.vocabStart, last))
        && (r.value.stage == 2 ==> r.value.sectionStart >= AllowedMinPos(n.vocabStart, last))
        && (r.value.stage <= 2 && last.Some? ==> last.value <= r.value.sectionStart)
  {
    var plan := PlanFor(EntryTexts(n.entries), ActiveLine(n.entries, t));
    var floor := AllowedMinPos(n.vocabStart, last);
    FirstAcceptedMeans(n, plan, Some(floor));
    var r := TickChoice(n, t, last);
    if r.Some? {
      var i :| 0 <= i < |plan| && |plan[i].highlight| >= MIN_SEARCH_LEN
               && r == Candidate(n, plan[i].highlight, plan[i].search, Some(floor));
      CandidateMeans(n, plan[i].highlight, plan[i].search, Some(floor));
      if last.Some? {
        CandidateForward(n, plan[i].highlight, plan[i].search, floor, last.value);
      }
    }
  }

  /** One plan item tried as the source does, with the binary searches and the section loop. */
  method TryCandidate(n: Note, highlight: String, search: String, floor: Option<int>) returns (r: Option<Shown>)
    requires Consistent(n)
    ensures r == Candidate(n, highlight, search, floor)
  {
    var tokens := TokensFromSentence(search);
    var line;
    if floor.None? {
      line := PickBestVocabLineIdx(tokens, n.vocabIndex, n.lines, n.starts);
    } else {
      line := PickBestVocabLineIdxDirectional(tokens, n.vocabIndex, n.lines, n.starts, floor);
    }
    if line >= 0 && n.starts[line] >= n.vocabStart {
      var e := ExplainByLine(n.content, n.starts, n.sectionStarts, line, highlight);
      if e.html != [] {
        return Some(Shown(e.html, e.sectionStartPos, 1, line, highlight));
      }
    }
    var hit := FindBestHit(n.content, n.vocabStart, search, n.vocabIndex, n.lines, n.starts, n.headerIdx);
    if hit.None? {
      return None;
    }
    var e := ExplainByPos(n.content, n.sectionStarts, hit.value.start, highlight);
    if e.html != [] && (floor.None? || e.sectionStartPos >= floor.value) {
      return Some(Shown(e.html, e.sectionStartPos, 2, hit.value.start, highlight));
    }
    var html := BuildContextHtml(n.content, n.lines, n.starts, n.headerIdx, hit.value.start, CONTEXT_LINES_UP,
                                 CONTEXT_LINES_DOWN, highlight, n.sectionStarts);
    var b := GetSectionBoundsByPos(n.sectionStarts, hit.value.start, |n.content|);
    return Some(Shown(html, b.startPos, 3, hit.value.start, highlight));
  }

  /** The loop over the plan: skip short items, stop at the first candidate. */
  method ChooseFromPlan(n: Note, plan: seq<PlanItem>, floor: Option<int>) returns (r: Option<Shown>)
    requires Consistent(n)
    ensures r == FirstAccepted(n, plan, floor)
  {
    var i := 0;
    while i < |plan|
      invariant 0 <= i <= |plan|
      invariant FirstAccepted(n, plan[i..], floor) == FirstAccepted(n, plan, floor)
    {
      FirstAcceptedStep(n, plan, floor, i);
      if |plan[i].highlight| >= MIN_SEARCH_LEN {
        r := TryCandidate(n, plan[i].highlight, plan[i].search, floor);
        if r.Some? {
          return;
        }
      }
      i := i + 1;
    }
    return None;
  }

  /**
   * The context fallback of a tick can go back: when the best hit's section renders to something
   * but starts below the floor, and the tracked section lies in the glossary, the tick tracks a
   * section that starts before the tracked one.
   */
  lemma TickStage3Regresses(n: Note, t: real, last: nat)
    requires Consistent(n) && last >= n.vocabStart
    ensures var r := TickChoice(n, t, Some(last));
      r.Some? && r.value.stage == 3 && ExplainByPos(n.content, n.sectionStarts, r.value.anchor, r.value.needle).html != [] ==>
        r.value.sectionStart < last
  {
    var plan := PlanFor(EntryTexts(n.entries), ActiveLine(n.entries, t));
    var floor := AllowedMinPos(n.vocabStart, Some(last));
    FirstAcceptedMeans(n, plan, Some(floor));
    var r := TickChoice(n, t, Some(last));
    if r.Some? {
      var i :| 0 <= i < |plan| && |plan[i].highlight| >= MIN_SEARCH_LEN
               && r == Candidate(n, plan[i].highlight, plan[i].search, Some(floor));
      CandidateMeans(n, plan[i].highlight, plan[i].search, Some(floor));
    }
  }

  /** The plan of a tick: the search plan of the line being played. */
  method TickPlan(entries: seq<Entry>, t: real) returns (plan: seq<PlanItem>)
    ensures plan == PlanFor(EntryTexts(entries), ActiveLine(entries, t))
  {
    var after := FirstIdxAfter(entries, t);
    var j := Max(0, Min(after as int - 1, |entries| - 1));
    plan := BuildSearchPlanForLine(EntryTexts(entries), j);
  }

  /**
   * The search of a tick: the active line's plan tried from the floor. The choice tracks a
   * section start and shows at most one mark.
   */
  method TickSearch(n: Note, t: real, last: Option<nat>) returns (r: Option<Shown>)
    requires Consistent(n) && Tracked(n, last)
    ensures r == TickChoice(n, t, last)
    ensures r.Some? ==> Tracked(n, Some(r.value.sectionStart)) && Marks(r.value.html) <= 1
  {
    var plan := TickPlan(n.entries, t);
    if |plan| == 0 {
      return None;
    }
    var floor := AllowedMinPos(n.vocabStart, last);
    r := ChooseFromPlan(n, plan, Some(floor));
    TickForward(n, t, last);
  }

  /** The engine of one note editor. */
  class NoteEngine {
    var content: String
    var lines: seq<String>
    var starts: seq<nat>
    var headerIdx: int
    var vocabStart: nat
    var entries: seq<Entry>
    var vocabIndex: seq<VocabItem>
    var sectionStarts: seq<SectionStart>
    var displayHtml: String
    var prevTime: real
    var lastSectionStart: Option<nat>

    /** The note and its derived structures as the fields hold them. */
    function Doc(): Note
      reads this
    {
      Note(content, lines, starts, headerIdx, vocabStart, entries, vocabIndex, sectionStarts)
    }

    /**
     * The derived structures are those of the content, the tracked section start is the start
     * of its section, and the viewer holds at most one mark.
     */
    ghost predicate Valid()
      reads this
    {
      && Doc() == NoteOf(content)
      && Tracked(Doc(), lastSectionStart)
      && Marks(displayHtml) <= 1
    }

    /** A mounted engine: an empty note, nothing shown, the clock at 0. */
    constructor ()
      ensures Valid() && content == [] && displayHtml == [] && lastSectionStart == None && prevTime == 0.0
    {
      prevTime := 0.0;
      displayHtml := [];
      lastSectionStart := None;
      content := [];
      new;
      Rebuild();
    }

    /** The content effect: derive everything from the note, clear the viewer and the tracked section. */
    method Rebuild()
      modifies this
      ensures Doc() == NoteOf(content) && content == old(content) && prevTime == old(prevTime)
      ensures displayHtml == [] && lastSectionStart == None
    {
      var n := Derive(content);
      Load(n);
    }

    /** Store the structures derived from the note, clearing the viewer and the tracked section. */
    method Load(n: Note)
      requires n.content == content
      modifies this
      ensures Doc() == n && prevTime == old(prevTime) && displayHtml == [] && lastSectionStart == None
    {
      lines, starts, headerIdx, vocabStart := n.lines, n.starts, n.headerIdx, n.vocabStart;
      entries, vocabIndex, sectionStarts := n.entries, n.vocabIndex, n.sectionStarts;
      displayHtml := [];
      lastSectionStart := None;
    }

    /** Show a candidate and track its section. */
    method Show(s: Shown)
      requires Valid() && Tracked(Doc(), Some(s.sectionStart)) && Marks(s.html) <= 1
      modifies this
      ensures Valid() && Doc() == old(Doc()) && prevTime == old(prevTime)
      ensures displayHtml == s.html && lastSectionStart == Some(s.sectionStart)
    {
      displayHtml := s.html;
      lastSectionStart := Some(s.sectionStart);
      assert Doc() == old(Doc());
    }

    /**
     * `setContent`: a different note is derived afresh, with the viewer and the tracked
     * section cleared; the same note changes nothing.
     */
    method OnContentChanged(c: String)
      requires Valid()
      modifies this
      ensures Valid() && content == c && prevTime == old(prevTime)
      ensures c != old(content) ==> displayHtml == [] && lastSectionStart == None
      ensures c == old(content) ==> unchanged(this)
    {
      if c == content {
        return;
      }
      content := c;
      Rebuild();
    }

    /** `clearEngine`: an empty note, nothing shown, no tracked section. */
    method Clear()
      requires Valid()
      modifies this
      ensures Valid() && content == [] && displayHtml == [] && lastSectionStart == None && prevTime == old(prevTime)
    {
      content := [];
      Rebuild();
    }

    /**
     * The time effect. The clock always moves to `t`. Without entries nothing else changes; a
     * seek back by more than the threshold only forgets the tracked section; otherwise the
     * viewer shows the tick's choice and tracks its section, or keeps what it had.
     */
    method OnTick(t: real)
      requires Valid()
      modifies this
      ensures Valid() && Doc() == old(Doc()) && prevTime == t
      ensures entries == [] ==> displayHtml == old(displayHtml) && lastSectionStart == old(lastSectionStart)
      ensures entries != [] && t < old(prevTime) - SEEK_BACK_THRESHOLD ==>
        displayHtml == old(displayHtml) && lastSectionStart == None
      ensures entries != [] && !(t < old(prevTime) - SEEK_BACK_THRESHOLD) ==>
        var r := TickChoice(Doc(), t, old(lastSectionStart));
        && (r.None? ==> displayHtml == old(displayHtml) && lastSectionStart == old(lastSectionStart))
        && (r.Some? ==> displayHtml == r.value.html && lastSectionStart == Some(r.value.sectionStart))
    {
      var prev := prevTime;
      SetClock(t);
      if |entries| == 0 {
        return;
      }
      if t < prev - SEEK_BACK_THRESHOLD {
        Forget();
        return;
      }
      Follow(t);
    }

    /** `prevTimeRef.current = t`: the clock moves, nothing else changes. */
    method SetClock(t: real)
      requires Valid()
      modifies this
      ensures Valid() && Doc() == old(Doc()) && prevTime == t
      ensures displayHtml == old(displayHtml) && lastSectionStart == old(lastSectionStart)
    {
      prevTime := t;
    }

    /** A seek back: the tracked section is forgotten, the viewer keeps what it shows. */
    method Forget()
      requires Valid()
      modifies this
      ensures Valid() && Doc() == old(Doc()) && prevTime == old(prevTime)
      ensures displayHtml == old(displayHtml) && lastSectionStart == None
    {
      lastSectionStart := None;
    }

    /** The tick's search from the tracked section: its choice is shown and tracked, or nothing changes. */
    method Follow(t: real)
      requires Valid()
      modifies this
      ensures Valid() && Doc() == old(Doc()) && prevTime == old(prevTime)
      ensures var r := TickChoice(Doc(), t, old(lastSectionStart));
        && (r.None? ==> displayHtml == old(displayHtml) && lastSectionStart == old(lastSectionStart))
        && (r.Some? ==> displayHtml == r.value.html && lastSectionStart == Some(r.value.sectionStart))
    {
      NoteOfConsistent(content);
      var r := TickSearch(Doc(), t, lastSectionStart);
      if r.Some? {
        Show(r.value);
      }
    }

    /**
     * `doSearch`: a blank term does nothing; otherwise the trimmed term is tried without a
     * floor and its candidate is shown and tracked, or nothing changes when none is found.
     */
    method DoSearch(searchText: String) returns (outcome: Outcome)
      requires Valid()
      modifies this
      ensures Valid() && Doc() == old(Doc()) && prevTime == old(prevTime)
      ensures outcome == Blank <==> IsBlank(searchText)
      ensures var term := Trim(searchText);
              var r := Candidate(Doc(), term, term, None);
        && (outcome == NotFound <==> !IsBlank(searchText) && r.None?)
        && (outcome != Found ==> displayHtml == old(displayHtml) && lastSectionStart == old(lastSectionStart))
        && (outcome == Found ==> r.Some? && displayHtml == r.value.html && lastSectionStart == Some(r.value.sectionStart))
    {
      var term := Trim(searchText);
      BlankIsTrimEmpty(searchText);
      if |term| == 0 {
        return Blank;
      }
      NoteOfConsistent(content);
      var r := TryCandidate(Doc(), term, term, None);
      CandidateMeans(Doc(), term, term, None);
      if r.None? {
        return NotFound;
      }
      Show(r.value);
      return Found;
    }
  }
}
