/**
 * The search side of the engine: query tokens, the glossary line index, token-overlap
 * scoring and the staged hit finder.
 */
module Search {
  import opened Strings
  import opened Constants
  import opened Text
  import opened Parse
  import opened Section

  /* ---------- tokensFromSentence ---------- */

  /** The words of at least three characters, in order. */
  function LongWords(ws: seq<String>): (r: seq<String>)
    ensures |r| <= |ws|
  {
    if ws == [] then []
    else (if |ws[0]| >= 3 then [ws[0]] else []) + LongWords(ws[1..])
  }

  /** `a` is `b` with some elements left out. */
  predicate IsSubsequence(a: seq<String>, b: seq<String>)
    decreases |b|
  {
    if a == [] then true
    else if b == [] then false
    else if a[0] == b[0] then IsSubsequence(a[1..], b[1..])
    else IsSubsequence(a, b[1..])
  }

  lemma {:induction false} SubsequencePrefix(a: seq<String>, b: seq<String>, n: nat)
    requires IsSubsequence(a, b) && n <= |a|
    ensures IsSubsequence(a[..n], b)
    decreases |b|
  {
    if n > 0 && b != [] {
      if a[0] == b[0] {
        assert a[..n][1..] == a[1..][..n - 1];
        SubsequencePrefix(a[1..], b[1..], n - 1);
      } else {
        SubsequencePrefix(a, b[1..], n);
      }
    }
  }

  /** The long words are exactly the words of at least three characters, kept in order. */
  lemma {:induction false} LongWordsExact(ws: seq<String>)
    ensures IsSubsequence(LongWords(ws), ws)
    ensures forall k | 0 <= k < |LongWords(ws)| :: |LongWords(ws)[k]| >= 3 && LongWords(ws)[k] in ws
    ensures forall w | w in ws && |w| >= 3 :: w in LongWords(ws)
  {
    if ws != [] {
      LongWordsExact(ws[1..]);
      var r := LongWords(ws);
      if |ws[0]| >= 3 {
        assert r == [ws[0]] + LongWords(ws[1..]);
        assert r[1..] == LongWords(ws[1..]);
      } else {
        assert r == LongWords(ws[1..]);
      }
    }
  }

  /** The first eight words of three or more characters of `t`, split at spaces. */
  function TokensOfText(t: String): seq<String>
  {
    var ws := LongWords(SplitOn(t, ' '));
    if |ws| <= 8 then ws else ws[..8]
  }

  /** `tokensFromSentence`: the tokens of the search-normalised text. */
  function TokensFromSentence(s: String): seq<String>
  {
    TokensOfText(NormForSearch(s))
  }

  /**
   * At most eight tokens, each of at least three characters and without a space, taken in
   * order from the words of the text; fewer than eight only when no long word is left out.
   */
  lemma TokensOfTextMeans(t: String)
    ensures var r, ws := TokensOfText(t), SplitOn(t, ' ');
      && |r| <= 8
      && (forall k | 0 <= k < |r| :: |r[k]| >= 3 && ' ' !in r[k])
      && IsSubsequence(r, ws)
      && (|r| < 8 ==> forall w | w in ws && |w| >= 3 :: w in r)
  {
    var ws := SplitOn(t, ' ');
    SplitOnPieces(t, ' ');
    LongWordsExact(ws);
    var lw := LongWords(ws);
    if |lw| > 8 {
      SubsequencePrefix(lw, ws, 8);
    }
    forall k | 0 <= k < |lw|
      ensures ' ' !in lw[k]
    {
      var j :| 0 <= j < |ws| && ws[j] == lw[k];
    }
  }

  /* ---------- buildVocabLineIndex ---------- */

  /** A glossary line with its range in the note and its normalised text. */
  datatype VocabItem = VocabItem(start: nat, end: nat, raw: String, norm: String)

  /** The index item of line `i`. */
  function ItemOf(lines: seq<String>, starts: seq<nat>, i: nat): VocabItem
    requires |lines| == |starts| && i < |lines|
  {
    VocabItem(starts[i], starts[i] + |lines[i]|, lines[i], Normalize(lines[i]))
  }

  /** The non-blank lines from `b` up to `n`, in order. */
  function NonBlankBetween(lines: seq<String>, b: nat, n: nat): (r: seq<nat>)
    requires b <= n <= |lines|
    decreases n - b
    ensures forall k | 0 <= k < |r| :: b <= r[k] < n
  {
    if n == b then []
    else
      var rest := NonBlankBetween(lines, b, n - 1);
      if IsBlank(lines[n - 1]) then rest else rest + [n - 1]
  }

  /** They are exactly the non-blank lines in range, in strictly increasing order. */
  lemma {:induction false} NonBlankBetweenExact(lines: seq<String>, b: nat, n: nat)
    requires b <= n <= |lines|
    ensures var r := NonBlankBetween(lines, b, n);
      && (forall k | 0 <= k < |r| :: b <= r[k] < n && !IsBlank(lines[r[k]]))
      && (forall k, l | 0 <= k < l < |r| :: r[k] < r[l])
      && (forall i | b <= i < n && !IsBlank(lines[i]) :: i in r)
    decreases n - b
  {
    if n > b {
      NonBlankBetweenExact(lines, b, n - 1);
      var rest := NonBlankBetween(lines, b, n - 1);
      if IsBlank(lines[n - 1]) {
        assert NonBlankBetween(lines, b, n) == rest;
        forall i | b <= i < n && !IsBlank(lines[i])
          ensures i in rest
        {
          assert i < n - 1;
        }
      } else {
        var r := rest + [n - 1];
        assert NonBlankBetween(lines, b, n) == r;
        NonBlankSnoc(lines, b, n, rest);
      }
    }
  }

  /** Appending the non-blank line `n - 1` to the non-blank lines before it keeps them exact. */
  lemma NonBlankSnoc(lines: seq<String>, b: nat, n: nat, rest: seq<nat>)
    requires b < n <= |lines| && !IsBlank(lines[n - 1])
    requires forall k | 0 <= k < |rest| :: b <= rest[k] < n - 1 && !IsBlank(lines[rest[k]])
    requires forall k, l | 0 <= k < l < |rest| :: rest[k] < rest[l]
    requires forall i | b <= i < n - 1 && !IsBlank(lines[i]) :: i in rest
    ensures var r := rest + [n - 1];
      && (forall k | 0 <= k < |r| :: b <= r[k] < n && !IsBlank(lines[r[k]]))
      && (forall k, l | 0 <= k < l < |r| :: r[k] < r[l])
      && (forall i | b <= i < n && !IsBlank(lines[i]) :: i in r)
  {
    var r := rest + [n - 1];
    forall k | 0 <= k < |r|
      ensures b <= r[k] < n && !IsBlank(lines[r[k]])
    {
      if k < |rest| {
        assert r[k] == rest[k];
      }
    }
    forall k, l | 0 <= k < l < |r|
      ensures r[k] < r[l]
    {
      assert r[k] == rest[k];
      if l < |rest| {
        assert r[l] == rest[l];
      }
    }
    forall i | b <= i < n && !IsBlank(lines[i])
      ensures i in r
    {
      if i < n - 1 {
        assert i in rest;
      } else {
        assert r[|rest|] == i;
      }
    }
  }

  /** Where the glossary body begins: the line after the header, or past the end without one. */
  function VocabBegin(lines: seq<String>, headerIdx: int): nat
  {
    if headerIdx >= 0 then headerIdx + 1 else |lines|
  }

  /** The glossary lines the index covers. */
  function VocabLines(lines: seq<String>, headerIdx: int): seq<nat>
  {
    var b := VocabBegin(lines, headerIdx);
    if b >= |lines| then [] else NonBlankBetween(lines, b, |lines|)
  }

  /** The items of the non-blank lines from `b` up to `n`, in line order. */
  function ItemsBetween(lines: seq<String>, starts: seq<nat>, b: nat, n: nat): (r: seq<VocabItem>)
    requires |lines| == |starts| && b <= n <= |lines|
    decreases n - b
  {
    if n == b then []
    else
      var rest := ItemsBetween(lines, starts, b, n - 1);
      if IsBlank(lines[n - 1]) then rest else rest + [ItemOf(lines, starts, n - 1)]
  }

  /** Item `k` is the item of the `k`-th non-blank line in range. */
  lemma {:induction false} ItemsBetweenAt(lines: seq<String>, starts: seq<nat>, b: nat, n: nat)
    requires |lines| == |starts| && b <= n <= |lines|
    ensures var r, ls := ItemsBetween(lines, starts, b, n), NonBlankBetween(lines, b, n);
      |r| == |ls| && forall k | 0 <= k < |r| :: r[k] == ItemOf(lines, starts, ls[k])
    decreases n - b
  {
    if n > b {
      ItemsBetweenAt(lines, starts, b, n - 1);
      var rest, ls := ItemsBetween(lines, starts, b, n - 1), NonBlankBetween(lines, b, n - 1);
      if !IsBlank(lines[n - 1]) {
        assert ItemsBetween(lines, starts, b, n) == rest + [ItemOf(lines, starts, n - 1)];
        assert NonBlankBetween(lines, b, n) == ls + [n - 1];
        ItemsSnoc(lines, starts, rest, ls, n - 1);
      } else {
        assert ItemsBetween(lines, starts, b, n) == rest;
        assert NonBlankBetween(lines, b, n) == ls;
      }
    }
  }

  /** Appending a line's item and its index keeps items and indices in step. */
  lemma ItemsSnoc(lines: seq<String>, starts: seq<nat>, rest: seq<VocabItem>, ls: seq<nat>, i: nat)
    requires |lines| == |starts| && i < |lines| && |rest| == |ls|
    requires forall k | 0 <= k < |ls| :: ls[k] < |lines|
    requires forall k | 0 <= k < |rest| :: rest[k] == ItemOf(lines, starts, ls[k])
    ensures var r, ls' := rest + [ItemOf(lines, starts, i)], ls + [i];
      |r| == |ls'| && forall k | 0 <= k < |r| :: r[k] == ItemOf(lines, starts, ls'[k])
  {
    var r, ls' := rest + [ItemOf(lines, starts, i)], ls + [i];
    forall k | 0 <= k < |r|
      ensures r[k] == ItemOf(lines, starts, ls'[k])
    {
      if k < |rest| {
        assert r[k] == rest[k] && ls'[k] == ls[k];
      }
    }
  }

  /** `buildVocabLineIndex`: an item per non-blank line after the glossary header. */
  function VocabIndex(lines: seq<String>, starts: seq<nat>, headerIdx: int): seq<VocabItem>
    requires |lines| == |starts|
  {
    var b := VocabBegin(lines, headerIdx);
    if b >= |lines| then [] else ItemsBetween(lines, starts, b, |lines|)
  }

  lemma NonBlankLinesExact(lines: seq<String>, headerIdx: int)
    ensures var r, b := VocabLines(lines, headerIdx), VocabBegin(lines, headerIdx);
      && (forall k | 0 <= k < |r| :: b <= r[k] < |lines| && !IsBlank(lines[r[k]]))
      && (forall k, l | 0 <= k < l < |r| :: r[k] < r[l])
      && (forall i | b <= i < |lines| && !IsBlank(lines[i]) :: i in r)
  {
    var b := VocabBegin(lines, headerIdx);
    if b < |lines| {
      NonBlankBetweenExact(lines, b, |lines|);
    }
  }

  /**
   * No header, no index; otherwise one item per non-blank line after the header, in line
   * order, each covering exactly that line and carrying its normalised text.
   */
  lemma VocabIndexExact(lines: seq<String>, starts: seq<nat>, headerIdx: int)
    requires |lines| == |starts|
    ensures headerIdx < 0 ==> VocabIndex(lines, starts, headerIdx) == []
    ensures var r, ls := VocabIndex(lines, starts, headerIdx), VocabLines(lines, headerIdx);
      && |r| == |ls|
      && (forall k | 0 <= k < |r| :: VocabBegin(lines, headerIdx) <= ls[k] < |lines| && !IsBlank(lines[ls[k]]))
      && (forall k, l | 0 <= k < l < |r| :: ls[k] < ls[l])
      && (forall i | VocabBegin(lines, headerIdx) <= i < |lines| && !IsBlank(lines[i]) :: i in ls)
      && (forall k | 0 <= k < |r| :: r[k] == VocabItem(starts[ls[k]], starts[ls[k]] + |lines[ls[k]]|, lines[ls[k]], Normalize(lines[ls[k]])))
  {
    NonBlankLinesExact(lines, headerIdx);
    var b := VocabBegin(lines, headerIdx);
    if b < |lines| {
      ItemsBetweenAt(lines, starts, b, |lines|);
    }
  }

  /** On the layout of a note the items come in strictly increasing order of offset. */
  lemma VocabIndexOrdered(lines: seq<String>, starts: seq<nat>, headerIdx: int)
    requires Spaced(lines, starts)
    ensures var r := VocabIndex(lines, starts, headerIdx);
      forall k, l | 0 <= k < l < |r| :: r[k].start < r[l].start
  {
    var r, ls := VocabIndex(lines, starts, headerIdx), VocabLines(lines, headerIdx);
    VocabIndexExact(lines, starts, headerIdx);
    SpacedIncreasing(lines, starts);
    forall k, l | 0 <= k < l < |r|
      ensures r[k].start < r[l].start
    {
      assert r[k].start == starts[ls[k]] && r[l].start == starts[ls[l]];
    }
  }

  /** `buildVocabLineIndex` as the source's loop. */
  method BuildVocabLineIndex(lines: seq<String>, starts: seq<nat>, headerIdx: int) returns (out: seq<VocabItem>)
    requires |lines| == |starts|
    ensures out == VocabIndex(lines, starts, headerIdx)
  {
    out := [];
    var begin := VocabBegin(lines, headerIdx);
    if begin >= |lines| {
      return;
    }
    var i: nat := begin;
    while i < |lines|
      invariant begin <= i <= |lines|
      invariant out == ItemsBetween(lines, starts, begin, i)
    {
      if !IsBlank(lines[i]) {
        out := out + [ItemOf(lines, starts, i)];
      }
      assert out == ItemsBetween(lines, starts, begin, i + 1);
      i := i + 1;
    }
  }

  /* ---------- token-overlap scoring ---------- */

  /** How many of the tokens `norm` contains. */
  function Score(tokens: seq<String>, norm: String): (n: nat)
    ensures n <= |tokens|
  {
    if tokens == [] then 0
    else Score(tokens[..|tokens| - 1], norm) + (if Contains(norm, tokens[|tokens| - 1]) then 1 else 0)
  }

  /** The score is zero exactly when no token is contained, and full exactly when every one is. */
  lemma {:induction false} ScoreMeans(tokens: seq<String>, norm: String)
    ensures Score(tokens, norm) == 0 <==> forall k | 0 <= k < |tokens| :: !Contains(norm, tokens[k])
    ensures Score(tokens, norm) == |tokens| <==> forall k | 0 <= k < |tokens| :: Contains(norm, tokens[k])
  {
    if tokens != [] {
      var init := tokens[..|tokens| - 1];
      ScoreMeans(init, norm);
      assert forall k | 0 <= k < |init| :: init[k] == tokens[k];
    }
  }

  /** The inner loop `for (const t of tokens) if (norm.includes(t)) score++`. */
  method CountContained(tokens: seq<String>, norm: String) returns (sc: nat)
    ensures sc == Score(tokens, norm)
  {
    sc := 0;
    for i := 0 to |tokens|
      invariant sc == Score(tokens[..i], norm)
    {
      assert tokens[..i + 1][..i] == tokens[..i];
      if Contains(norm, tokens[i]) {
        sc := sc + 1;
      }
    }
    assert tokens[..|tokens|] == tokens;
  }

  /** The largest score, 0 for none. */
  function MaxScore(scores: seq<nat>): nat
  {
    if scores == [] then 0
    else
      var m := MaxScore(scores[..|scores| - 1]);
      if scores[|scores| - 1] > m then scores[|scores| - 1] else m
  }

  /** `MaxScore` bounds every score and is one of them, unless it is 0. */
  lemma {:induction false} MaxScoreMeans(scores: seq<nat>)
    ensures forall i | 0 <= i < |scores| :: scores[i] <= MaxScore(scores)
    ensures MaxScore(scores) == 0 || MaxScore(scores) in scores
  {
    if scores != [] {
      var init := scores[..|scores| - 1];
      MaxScoreMeans(init);
      assert forall i | 0 <= i < |init| :: init[i] == scores[i];
    }
  }

  /**
   * The choice of a scan that starts from score 0 and takes a position only when its score
   * beats the best so far: -1, or the first position with the largest score.
   */
  function FirstBest(scores: seq<nat>): (r: int)
    ensures r == -1 || 0 <= r < |scores|
  {
    if scores == [] then -1
    else
      var init := scores[..|scores| - 1];
      if scores[|scores| - 1] > MaxScore(init) then |scores| - 1 else FirstBest(init)
  }

  /**
   * No choice exactly when every score is 0; otherwise the choice has the largest score, which
   * is positive, and every earlier position scores less.
   */
  lemma {:induction false} FirstBestMeans(scores: seq<nat>)
    ensures var r := FirstBest(scores);
      && (r == -1 <==> forall i | 0 <= i < |scores| :: scores[i] == 0)
      && (r != -1 ==> (0 <= r < |scores| && 0 < scores[r] && scores[r] == MaxScore(scores)
            && forall i | 0 <= i < r :: scores[i] < scores[r]))
  {
    if scores != [] {
      var init := scores[..|scores| - 1];
      FirstBestMeans(init);
      MaxScoreMeans(init);
      assert forall i | 0 <= i < |init| :: init[i] == scores[i];
      if MaxScore(init) == 0 {
        assert forall i | 0 <= i < |init| :: init[i] == 0;
      }
    }
  }

  /* ---------- pickBestVocabLineIdx(Directional) ---------- */

  /** The item lies at or after the floor, when there is one. */
  predicate Eligible(v: VocabItem, minStart: Option<int>)
  {
    minStart.None? || v.start >= minStart.value
  }

  /** The score of each item; an item below the floor is skipped, which acts as a score of 0. */
  function PickScores(tokens: seq<String>, index: seq<VocabItem>, minStart: Option<int>): (r: seq<nat>)
    ensures |r| == |index|
  {
    seq(|index|, i requires 0 <= i < |index| => if Eligible(index[i], minStart) then Score(tokens, index[i].norm) else 0)
  }

  /** The item the scan settles on, or -1. */
  function PickItem(tokens: seq<String>, index: seq<VocabItem>, minStart: Option<int>): (k: int)
    ensures k == -1 || 0 <= k < |index|
  {
    FirstBest(PickScores(tokens, index, minStart))
  }

  /**
   * No item for no tokens, no items or no eligible item containing a token; otherwise the
   * first eligible item with the largest number of contained tokens.
   */
  lemma PickItemMeans(tokens: seq<String>, index: seq<VocabItem>, minStart: Option<int>)
    ensures tokens == [] || index == [] ==> PickItem(tokens, index, minStart) == -1
    ensures var k := PickItem(tokens, index, minStart);
      && (k == -1 <==> forall i | 0 <= i < |index| && Eligible(index[i], minStart) :: Score(tokens, index[i].norm) == 0)
      && (k != -1 ==> (Eligible(index[k], minStart) && 0 < Score(tokens, index[k].norm)
            && (forall i | 0 <= i < |index| && Eligible(index[i], minStart) :: Score(tokens, index[i].norm) <= Score(tokens, index[k].norm))
            && (forall i | 0 <= i < k && Eligible(index[i], minStart) :: Score(tokens, index[i].norm) < Score(tokens, index[k].norm))))
  {
    var scores := PickScores(tokens, index, minStart);
    FirstBestMeans(scores);
    MaxScoreMeans(scores);
    forall i | 0 <= i < |index|
      ensures scores[i] == if Eligible(index[i], minStart) then Score(tokens, index[i].norm) else 0
    {
    }
  }

  /**
   * `pickBestVocabLineIdxDirectional`: -1 when the scan settles on no item; otherwise the line
   * that holds the chosen item's start, found by `lineIndexForPos`.
   */
  method PickBestVocabLineIdxDirectional(tokens: seq<String>, index: seq<VocabItem>, lines: seq<String>,
                                         starts: seq<nat>, minStart: Option<int>) returns (best: int)
    ensures var k := PickItem(tokens, index, minStart);
      && (k == -1 ==> best == -1)
      && (k != -1 ==> (0 <= best && (|starts| > 0 ==> best < |starts|)
            && (Spaced(lines, starts) ==> best == LineIndexFor(starts, index[k].start))))
  {
    if |tokens| == 0 || |index| == 0 {
      PickItemMeans(tokens, index, minStart);
      return -1;
    }
    best := -1;
    var bestScore := 0;
    ghost var scores := PickScores(tokens, index, minStart);
    ghost var bestItem := -1;
    for i := 0 to |index|
      invariant bestScore == MaxScore(scores[..i])
      invariant bestItem == FirstBest(scores[..i])
      invariant bestItem == -1 ==> best == -1
      invariant bestItem != -1 ==> (0 <= bestItem < |index| && 0 <= best && (|starts| > 0 ==> best < |starts|)
        && (Spaced(lines, starts) ==> best == LineIndexFor(starts, index[bestItem].start)))
    {
      assert scores[..i + 1][..i] == scores[..i];
      var v := index[i];
      if minStart.Some? && v.start < minStart.value {
        continue;
      }
      var sc := CountContained(tokens, v.norm);
      if sc > bestScore {
        bestScore := sc;
        best := LineIndexForPos(starts, lines, v.start);
        bestItem := i;
      }
    }
    assert scores[..|index|] == scores;
  }

  /** `pickBestVocabLineIdx`: the same scan with no floor. */
  method PickBestVocabLineIdx(tokens: seq<String>, index: seq<VocabItem>, lines: seq<String>, starts: seq<nat>)
    returns (best: int)
    ensures var k := PickItem(tokens, index, None);
      && (k == -1 ==> best == -1)
      && (k != -1 ==> (0 <= best && (|starts| > 0 ==> best < |starts|)
            && (Spaced(lines, starts) ==> best == LineIndexFor(starts, index[k].start))))
  {
    best := PickBestVocabLineIdxDirectional(tokens, index, lines, starts, None);
  }

  /* ---------- findBestHit ---------- */

  /** A range `[start, end)` of the note. */
  datatype Hit = Hit(start: nat, end: nat)

  /** `Math.max(0, vocabStart)`. */
  function VocabFrom(vocabStart: int): nat
  {
    if vocabStart < 0 then 0 else vocabStart
  }

  /** The needle's pattern matches the note at `h.start`, and `h` is as long as the needle. */
  predicate NeedleAt(content: String, needle: String, h: Hit)
  {
    h.start <= |content| && h.end == h.start + |needle| && MatchesPrefix(PatternOf(needle), content[h.start..])
  }

  /** The needle's pattern matches the note nowhere in `[from, |content|]`. */
  predicate NoMatchFrom(content: String, needle: String, from: nat)
  {
    forall j | from <= j <= |content| :: !MatchesPrefix(PatternOf(needle), content[j..])
  }

  /**
   * Stage 1: the needle's pattern in the note after `vocabStart`, tried only when the
   * normalised needle occurs in the normalised region; the hit is as long as the needle.
   */
  function InVocabHit(content: String, vocabStart: int, needle: String): Option<Hit>
  {
    var from := VocabFrom(vocabStart);
    var region := Slice(content, from, |content|);
    if IndexOf(NormForSearch(region), NormForSearch(needle)) >= 0 then
      var idx := FindIndexNormalized(region, needle);
      if idx >= 0 then Some(Hit(from + idx, from + idx + |needle|)) else None
    else None
  }

  /**
   * A stage-1 hit lies after `vocabStart`, is the first match there and is as long as the
   * needle; there is none only when the normalised check fails or nothing matches there.
   */
  lemma InVocabHitMeans(content: String, vocabStart: int, needle: String)
    ensures var r := InVocabHit(content, vocabStart, needle); var from := VocabFrom(vocabStart);
      && (r.Some? ==> InVocabFirst(content, from, needle, r.value))
      && (r.None? && NormForSearch(needle) != [] && Contains(NormForSearch(Slice(content, from, |content|)), NormForSearch(needle)) ==>
            NoMatchFrom(content, needle, from))
  {
    InVocabHitSome(content, vocabStart, needle);
    InVocabHitNone(content, vocabStart, needle);
  }

  /** `h` is the first match of the needle's pattern at or after `from`, and as long as the needle. */
  predicate InVocabFirst(content: String, from: nat, needle: String, h: Hit)
  {
    && from <= h.start && NeedleAt(content, needle, h)
    && forall j | from <= j < h.start :: !MatchesPrefix(PatternOf(needle), content[j..])
  }

  lemma InVocabHitSome(content: String, vocabStart: int, needle: String)
    ensures var r := InVocabHit(content, vocabStart, needle);
      r.Some? ==> InVocabFirst(content, VocabFrom(vocabStart), needle, r.value)
  {
    var from := VocabFrom(vocabStart);
    var region := Slice(content, from, |content|);
    if from > |content| {
      PastTheEnd(content, from, needle);
    } else {
      var idx := FindIndexNormalized(region, needle);
      if idx >= 0 {
        InVocabFound(content, from, region, needle, idx);
      }
    }
  }

  lemma InVocabHitNone(content: String, vocabStart: int, needle: String)
    ensures var r := InVocabHit(content, vocabStart, needle); var from := VocabFrom(vocabStart);
      r.None? && NormForSearch(needle) != [] && Contains(NormForSearch(Slice(content, from, |content|)), NormForSearch(needle)) ==>
        NoMatchFrom(content, needle, from)
  {
    var from := VocabFrom(vocabStart);
    var region := Slice(content, from, |content|);
    if from <= |content| {
      var idx := FindIndexNormalized(region, needle);
      if idx < 0 && NormForSearch(needle) != [] && Contains(NormForSearch(region), NormForSearch(needle)) {
        InVocabMissed(content, from, region, needle);
      }
    }
  }

  /** A match at `idx` in the region is the first match at or after `from` in the note. */
  lemma InVocabFound(content: String, from: nat, region: String, needle: String, idx: nat)
    requires from <= |content| && region == content[from..] && idx <= |region|
    requires MatchesPrefix(PatternOf(needle), region[idx..])
    requires forall j | 0 <= j < idx :: !MatchesPrefix(PatternOf(needle), region[j..])
    ensures InVocabFirst(content, from, needle, Hit(from + idx, from + idx + |needle|))
  {
    assert region[idx..] == content[from + idx..];
    forall j | from <= j < from + idx
      ensures !MatchesPrefix(PatternOf(needle), content[j..])
    {
      assert region[j - from..] == content[j..];
    }
  }

  /** No match in the region is no match at or after `from` in the note. */
  lemma InVocabMissed(content: String, from: nat, region: String, needle: String)
    requires from <= |content| && region == content[from..]
    requires forall j | 0 <= j <= |region| :: !MatchesPrefix(PatternOf(needle), region[j..])
    ensures NoMatchFrom(content, needle, from)
  {
    forall j | from <= j <= |content|
      ensures !MatchesPrefix(PatternOf(needle), content[j..])
    {
      assert region[j - from..] == content[j..];
    }
  }

  /** Past the end of the note the region is empty, and nothing is found there. */
  lemma PastTheEnd(content: String, from: nat, needle: String)
    requires from > |content|
    ensures InVocabHit(content, from, needle).None?
  {
    var region := Slice(content, from, |content|);
    assert region == [];
    assert Lower(region) == [];
    assert MapSearchQuotes(Lower(region)) == [];
    assert NormForSearch(region) == [];
  }

  /** Item `k` has the most tokens of all items, and strictly more than every item before it. */
  predicate BestItemAt(tokens: seq<String>, index: seq<VocabItem>, k: int)
  {
    && 0 <= k < |index| && 0 < Score(tokens, index[k].norm)
    && (forall i | 0 <= i < |index| :: Score(tokens, index[i].norm) <= Score(tokens, index[k].norm))
    && (forall i | 0 <= i < k :: Score(tokens, index[i].norm) < Score(tokens, index[k].norm))
  }

  /** Stage 2: the range of the glossary line with the most tokens of the needle, the first on ties. */
  function VocabLineHit(tokens: seq<String>, index: seq<VocabItem>): Option<Hit>
  {
    if tokens == [] then None
    else
      var k := PickItem(tokens, index, None);
      if k >= 0 then Some(Hit(index[k].start, index[k].end)) else None
  }

  /** No stage-2 hit exactly when there are no tokens or no item holds any; else the best item's range. */
  lemma VocabLineHitMeans(tokens: seq<String>, index: seq<VocabItem>)
    ensures var r := VocabLineHit(tokens, index);
      && (r.None? <==> tokens == [] || forall i | 0 <= i < |index| :: Score(tokens, index[i].norm) == 0)
      && (r.Some? ==> exists k | 0 <= k < |index| && BestItemAt(tokens, index, k) :: r.value == Hit(index[k].start, index[k].end))
  {
    VocabLineHitNone(tokens, index);
    PickItemMeans(tokens, index, None);
    var k := PickItem(tokens, index, None);
    if tokens != [] && k >= 0 {
      assert BestItemAt(tokens, index, k);
    }
  }

  lemma VocabLineHitNone(tokens: seq<String>, index: seq<VocabItem>)
    ensures VocabLineHit(tokens, index).None? <==>
      tokens == [] || forall i | 0 <= i < |index| :: Score(tokens, index[i].norm) == 0
  {
    PickItemMeans(tokens, index, None);
  }

  /** Stage 3: the needle's pattern anywhere in the note; the hit is as long as the needle. */
  function AnywhereHit(content: String, needle: String): (r: Option<Hit>)
    ensures r.Some? ==>
      && NeedleAt(content, needle, r.value)
      && forall j | 0 <= j < r.value.start :: !MatchesPrefix(PatternOf(needle), content[j..])
    ensures r.None? && NormForSearch(needle) != [] && Contains(NormForSearch(content), NormForSearch(needle)) ==>
      NoMatchFrom(content, needle, 0)
  {
    var idx := FindIndexNormalized(content, needle);
    if idx >= 0 then Some(Hit(idx, idx + |needle|)) else None
  }

  /** `lines[i] || ""`. */
  function LineOr(lines: seq<String>, i: nat): String
  {
    if i < |lines| then lines[i] else []
  }

  /** How many tokens the line holds once normalised with `normalize`. */
  function LineScore(tokens: seq<String>, line: String): nat
  {
    Score(tokens, Normalize(line))
  }

  /** The score of each line before `end`. */
  function LineScores(tokens: seq<String>, lines: seq<String>, end: nat): (r: seq<nat>)
    ensures |r| == end
  {
    seq(end, i requires 0 <= i < end => LineScore(tokens, LineOr(lines, i)))
  }

  lemma LineScoresAt(tokens: seq<String>, lines: seq<String>, end: nat)
    ensures forall i | 0 <= i < end :: LineScores(tokens, lines, end)[i] == LineScore(tokens, LineOr(lines, i))
  {
  }

  /** Line `i` has the most tokens of the lines before `end`, and strictly more than every line before it. */
  predicate BestLineAt(tokens: seq<String>, lines: seq<String>, end: nat, i: int)
    requires end <= |lines|
  {
    && 0 <= i < end && 0 < LineScore(tokens, lines[i])
    && (forall j | 0 <= j < end :: LineScore(tokens, lines[j]) <= LineScore(tokens, lines[i]))
    && (forall j | 0 <= j < i :: LineScore(tokens, lines[j]) < LineScore(tokens, lines[i]))
  }

  /** Stage 4: the range of the transcript line before `end` with the most tokens, the first on ties. */
  function TranscriptLineHit(tokens: seq<String>, lines: seq<String>, starts: seq<nat>, end: nat): Option<Hit>
    requires |starts| == |lines| && end <= |lines|
  {
    var i := BestLineIdx(tokens, lines, end);
    if i >= 0 then Some(Hit(starts[i], starts[i] + |lines[i]|)) else None
  }

  /** The line before `end` the scan settles on, or -1. */
  function BestLineIdx(tokens: seq<String>, lines: seq<String>, end: nat): (i: int)
    ensures i == -1 || 0 <= i < end
  {
    FirstBest(LineScores(tokens, lines, end))
  }

  /** No stage-4 hit exactly when no line before `end` holds a token; else the best line's range. */
  lemma TranscriptLineHitMeans(tokens: seq<String>, lines: seq<String>, starts: seq<nat>, end: nat)
    requires |starts| == |lines| && end <= |lines|
    ensures var r := TranscriptLineHit(tokens, lines, starts, end);
      && (r.None? <==> forall j | 0 <= j < end :: LineScore(tokens, lines[j]) == 0)
      && (r.Some? ==> exists i | 0 <= i < end && BestLineAt(tokens, lines, end, i) :: r.value == Hit(starts[i], starts[i] + |lines[i]|))
  {
    TranscriptLineHitNone(tokens, lines, starts, end);
    TranscriptLineHitSome(tokens, lines, starts, end);
  }

  lemma TranscriptLineHitNone(tokens: seq<String>, lines: seq<String>, starts: seq<nat>, end: nat)
    requires |starts| == |lines| && end <= |lines|
    ensures TranscriptLineHit(tokens, lines, starts, end).None? <==>
      forall j | 0 <= j < end :: LineScore(tokens, lines[j]) == 0
  {
    var scores := LineScores(tokens, lines, end);
    LineScoresAt(tokens, lines, end);
    FirstBestMeans(scores);
    MaxScoreMeans(scores);
    if FirstBest(scores) >= 0 {
      BestLineFromScores(tokens, lines, end, scores, FirstBest(scores));
    } else {
      NoLineFromScores(tokens, lines, end, scores);
    }
  }

  lemma TranscriptLineHitSome(tokens: seq<String>, lines: seq<String>, starts: seq<nat>, end: nat)
    requires |starts| == |lines| && end <= |lines|
    ensures var r := TranscriptLineHit(tokens, lines, starts, end);
      r.Some? ==> exists i | 0 <= i < end && BestLineAt(tokens, lines, end, i) :: r.value == Hit(starts[i], starts[i] + |lines[i]|)
  {
    var i := BestLineIdx(tokens, lines, end);
    if i >= 0 {
      FirstBestLine(tokens, lines, end);
      assert TranscriptLineHit(tokens, lines, starts, end).value == Hit(starts[i], starts[i] + |lines[i]|);
    }
  }

  /** The line the scan settles on is a best line. */
  lemma FirstBestLine(tokens: seq<String>, lines: seq<String>, end: nat)
    requires end <= |lines|
    ensures var i := BestLineIdx(tokens, lines, end); i >= 0 ==> BestLineAt(tokens, lines, end, i)
  {
    var scores := LineScores(tokens, lines, end);
    var i := FirstBest(scores);
    if i >= 0 {
      LineScoresAt(tokens, lines, end);
      FirstBestMeans(scores);
      MaxScoreMeans(scores);
      BestLineFromScores(tokens, lines, end, scores, i);
    }
  }

  lemma BestLineFromScores(tokens: seq<String>, lines: seq<String>, end: nat, scores: seq<nat>, i: nat)
    requires end <= |lines| && |scores| == end
    requires forall j | 0 <= j < end :: scores[j] == LineScore(tokens, LineOr(lines, j))
    requires i < end && 0 < scores[i] && scores[i] == MaxScore(scores)
    requires forall j | 0 <= j < i :: scores[j] < scores[i]
    requires forall j | 0 <= j < |scores| :: scores[j] <= MaxScore(scores)
    ensures BestLineAt(tokens, lines, end, i)
    ensures exists j | 0 <= j < end :: LineScore(tokens, lines[j]) != 0
  {
    assert scores[i] == LineScore(tokens, lines[i]);
    forall j | 0 <= j < end
      ensures LineScore(tokens, lines[j]) == scores[j]
    {
    }
  }

  lemma NoLineFromScores(tokens: seq<String>, lines: seq<String>, end: nat, scores: seq<nat>)
    requires end <= |lines| && |scores| == end
    requires forall j | 0 <= j < end :: scores[j] == LineScore(tokens, LineOr(lines, j))
    requires forall j | 0 <= j < end :: scores[j] == 0
    ensures forall j | 0 <= j < end :: LineScore(tokens, lines[j]) == 0
  {
    forall j | 0 <= j < end
      ensures LineScore(tokens, lines[j]) == 0
    {
      assert scores[j] == 0;
    }
  }

  /**
   * `findBestHit`: nothing for a blank needle; else the first stage that finds something, the
   * fourth only when there is a glossary header.
   */
  function BestHit(content: String, vocabStart: int, needle: String, index: seq<VocabItem>,
                   lines: seq<String>, starts: seq<nat>, headerIdx: int): Option<Hit>
    requires |starts| == |lines| && headerIdx < |lines|
  {
    var tokens := TokensFromSentence(needle);
    if IsBlank(needle) then None
    else if InVocabHit(content, vocabStart, needle).Some? then InVocabHit(content, vocabStart, needle)
    else if VocabLineHit(tokens, index).Some? then VocabLineHit(tokens, index)
    else if AnywhereHit(content, needle).Some? then AnywhereHit(content, needle)
    else if headerIdx >= 0 then TranscriptLineHit(tokens, lines, starts, headerIdx)
    else None
  }

  /** `h` is the range of a glossary item with the most tokens of the needle. */
  predicate BestItemRange(tokens: seq<String>, index: seq<VocabItem>, h: Hit)
  {
    exists k | 0 <= k < |index| && BestItemAt(tokens, index, k) :: h == Hit(index[k].start, index[k].end)
  }

  /** `h` is the range of a transcript line before `end` with the most tokens of the needle. */
  predicate BestLineRange(tokens: seq<String>, lines: seq<String>, starts: seq<nat>, end: nat, h: Hit)
    requires |starts| == |lines| && end <= |lines|
  {
    exists i | 0 <= i < end && BestLineAt(tokens, lines, end, i) :: h == Hit(starts[i], starts[i] + |lines[i]|)
  }

  /**
   * A blank needle finds nothing; a match after `vocabStart` wins over every other stage; any
   * hit is a first match of the needle after `vocabStart`, a best glossary item, a match of the
   * needle in the note or, with a glossary header, a best transcript line before it.
   */
  lemma BestHitSome(content: String, vocabStart: int, needle: String, index: seq<VocabItem>,
                    lines: seq<String>, starts: seq<nat>, headerIdx: int)
    requires |starts| == |lines| && headerIdx < |lines|
    ensures var r := BestHit(content, vocabStart, needle, index, lines, starts, headerIdx);
            var tokens := TokensFromSentence(needle);
      && (IsBlank(needle) ==> r.None?)
      && (!IsBlank(needle) && InVocabHit(content, vocabStart, needle).Some? ==> r == InVocabHit(content, vocabStart, needle))
      && (r.Some? ==>
            || InVocabFirst(content, VocabFrom(vocabStart), needle, r.value)
            || BestItemRange(tokens, index, r.value)
            || NeedleAt(content, needle, r.value)
            || (0 <= headerIdx && BestLineRange(tokens, lines, starts, headerIdx, r.value)))
  {
    var tokens := TokensFromSentence(needle);
    InVocabHitSome(content, vocabStart, needle);
    VocabLineHitMeans(tokens, index);
    if 0 <= headerIdx {
      TranscriptLineHitSome(tokens, lines, starts, headerIdx);
    }
  }

  /**
   * No hit for a needle that is not blank means: no glossary item holds a token of the needle
   * and, with a glossary header, no transcript line before it does either.
   */
  lemma BestHitNone(content: String, vocabStart: int, needle: String, index: seq<VocabItem>,
                    lines: seq<String>, starts: seq<nat>, headerIdx: int)
    requires |starts| == |lines| && headerIdx < |lines|
    ensures var r := BestHit(content, vocabStart, needle, index, lines, starts, headerIdx);
            var tokens := TokensFromSentence(needle);
      r.None? && !IsBlank(needle) ==>
        && (tokens == [] || forall i | 0 <= i < |index| :: Score(tokens, index[i].norm) == 0)
        && (0 <= headerIdx ==> forall j | 0 <= j < headerIdx :: LineScore(tokens, lines[j]) == 0)
  {
    var tokens := TokensFromSentence(needle);
    BestHitNoneStages(content, vocabStart, needle, index, lines, starts, headerIdx);
    VocabLineHitNone(tokens, index);
    if 0 <= headerIdx {
      TranscriptLineHitNone(tokens, lines, starts, headerIdx);
    }
  }

  lemma BestHitNoneStages(content: String, vocabStart: int, needle: String, index: seq<VocabItem>,
                          lines: seq<String>, starts: seq<nat>, headerIdx: int)
    requires |starts| == |lines| && headerIdx < |lines|
    ensures var r := BestHit(content, vocabStart, needle, index, lines, starts, headerIdx);
            var tokens := TokensFromSentence(needle);
      r.None? && !IsBlank(needle) ==>
        && VocabLineHit(tokens, index).None?
        && (0 <= headerIdx ==> TranscriptLineHit(tokens, lines, starts, headerIdx).None?)
  {
  }

  /** The scan settles on a position only with a positive best score. */
  lemma FirstBestPositive(scores: seq<nat>)
    ensures FirstBest(scores) >= 0 ==> MaxScore(scores) > 0
  {
    FirstBestMeans(scores);
  }

  /** One more position for the best-score scan. */
  lemma ScanStep(scores: seq<nat>, i: nat)
    requires i < |scores|
    ensures MaxScore(scores[..i + 1]) == if scores[i] > MaxScore(scores[..i]) then scores[i] else MaxScore(scores[..i])
    ensures FirstBest(scores[..i + 1]) == if scores[i] > MaxScore(scores[..i]) then i else FirstBest(scores[..i])
  {
    assert scores[..i + 1][..i] == scores[..i];
  }

  /** The scoring loop of stage 2. */
  method BestVocabItem(tokens: seq<String>, index: seq<VocabItem>) returns (bestIdx: int, bestScore: nat)
    ensures bestIdx == PickItem(tokens, index, None)
    ensures bestIdx >= 0 ==> bestScore > 0
  {
    bestIdx := -1;
    bestScore := 0;
    ghost var scores := PickScores(tokens, index, None);
    for i := 0 to |index|
      invariant bestScore == MaxScore(scores[..i]) && bestIdx == FirstBest(scores[..i])
    {
      ScanStep(scores, i);
      var score := CountContained(tokens, index[i].norm);
      if score > bestScore {
        bestScore := score;
        bestIdx := i;
      }
    }
    assert scores[..|index|] == scores;
    FirstBestPositive(scores);
  }

  /** The scoring loop of stage 4, over the lines before `end`. */
  method BestTranscriptLine(tokens: seq<String>, lines: seq<String>, end: nat) returns (bestLine: int, bestScore: nat)
    ensures bestLine == BestLineIdx(tokens, lines, end)
    ensures bestLine >= 0 ==> bestScore > 0
  {
    bestLine := -1;
    bestScore := 0;
    ghost var scores := LineScores(tokens, lines, end);
    for i := 0 to end
      invariant bestScore == MaxScore(scores[..i]) && bestLine == FirstBest(scores[..i])
    {
      ScanStep(scores, i);
      var normLn := Normalize(LineOr(lines, i));
      var score := CountContained(tokens, normLn);
      if score > bestScore {
        bestScore := score;
        bestLine := i;
      }
    }
    assert scores[..end] == scores;
    FirstBestPositive(scores);
  }

  /** `findBestHit`, stage by stage. */
  method FindBestHit(content: String, vocabStart: int, needle: String, index: seq<VocabItem>,
                     lines: seq<String>, starts: seq<nat>, headerIdx: int) returns (r: Option<Hit>)
    requires |starts| == |lines| && headerIdx < |lines|
    ensures r == BestHit(content, vocabStart, needle, index, lines, starts, headerIdx)
  {
    if IsBlank(needle) {
      return None;
    }
    r := InVocabHit(content, vocabStart, needle);
    if r.Some? {
      return;
    }
    var tokens := TokensFromSentence(needle);
    r := VocabLineStage(tokens, index);
    if r.Some? {
      return;
    }
    r := AnywhereHit(content, needle);
    if r.Some? {
      return;
    }
    if headerIdx >= 0 {
      r := TranscriptLineStage(tokens, lines, starts, headerIdx);
    }
  }

  /** Stage 2 of `findBestHit`, with its scoring loop. */
  method VocabLineStage(tokens: seq<String>, index: seq<VocabItem>) returns (r: Option<Hit>)
    ensures r == VocabLineHit(tokens, index)
  {
    r := None;
    if tokens != [] {
      var bestIdx, bestScore := BestVocabItem(tokens, index);
      if bestIdx >= 0 && bestScore > 0 {
        var ln := index[bestIdx];
        r := Some(Hit(ln.start, ln.end));
      }
    }
  }

  /** Stage 4 of `findBestHit`, with its scoring loop over the lines before the header. */
  method TranscriptLineStage(tokens: seq<String>, lines: seq<String>, starts: seq<nat>, headerIdx: nat)
    returns (r: Option<Hit>)
    requires |starts| == |lines| && headerIdx <= |lines|
    ensures r == TranscriptLineHit(tokens, lines, starts, headerIdx)
  {
    r := None;
    var bestLine, bestScore := BestTranscriptLine(tokens, lines, headerIdx);
    TranscriptLineHitAt(tokens, lines, starts, headerIdx);
    if bestLine >= 0 && bestScore > 0 {
      var start := starts[bestLine];
      r := Some(Hit(start, start + |lines[bestLine]|));
    }
  }

  /** Stage 4's result from the line the scan settles on. */
  lemma TranscriptLineHitAt(tokens: seq<String>, lines: seq<String>, starts: seq<nat>, end: nat)
    requires |starts| == |lines| && end <= |lines|
    ensures var i := BestLineIdx(tokens, lines, end);
      && (i < 0 ==> TranscriptLineHit(tokens, lines, starts, end) == None)
      && (0 <= i ==> TranscriptLineHit(tokens, lines, starts, end) == Some(Hit(starts[i], starts[i] + |lines[i]|)))
  {
  }
}
