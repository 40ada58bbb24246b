/**
 * Sentence reconstruction from time-chunked caption entries and the per-line search plan:
 * which text to highlight in the glossary and which text to search for it.
 */
module Plan {
  import opened Strings
  import opened Constants
  import opened Parse

  /* ---------- splitIntoSentencesKeepDot ---------- */

  /** A sentence terminator: `.`, `?` or `!`. */
  predicate IsTerm(c: char)
  {
    c == '.' || c == '?' || c == '!'
  }


  /** `/[.!?]$/.test(s)`. */
  predicate EndsWithTerm(s: String)
  {
    s != [] && IsTerm(s[|s| - 1])
  }

  /** The offset of the first terminator at or after `from`, or -1. */
  function TermFrom(s: String, from: nat): int
    decreases |s| - from
  {
    if from >= |s| then -1
    else if IsTerm(s[from]) then from
    else TermFrom(s, from + 1)
  }

  lemma {:induction false} TermFromMeans(s: String, from: nat)
    ensures var j := TermFrom(s, from);
      && (j == -1 || (from <= j < |s| && IsTerm(s[j])))
      && forall i | from <= i < |s| && (j == -1 || i < j) :: !IsTerm(s[i])
    decreases |s| - from
  {
    if from < |s| && !IsTerm(s[from]) {
      TermFromMeans(s, from + 1);
    }
  }

  /** `/[.!?]/.test(s)`: a scan for the first terminator finds one. */
  predicate HasTerm(s: String)
  {
    TermFrom(s, 0) >= 0
  }

  /** The scan finds a terminator exactly when one of `.`, `?` and `!` occurs in the text. */
  lemma HasTermMeans(s: String)
    ensures HasTerm(s) <==> ('.' in s || '?' in s || '!' in s)
  {
    TermFromMeans(s, 0);
    if '.' in s || '?' in s || '!' in s {
      var i :| 0 <= i < |s| && IsTerm(s[i]);
    }
  }

  /**
   * The raw runs of `s[from..]` the character loop accumulates: each run up to and including
   * a terminator, then the rest when it is not blank.
   */
  function Runs(s: String, from: nat): seq<String>
    requires from <= |s|
    decreases |s| - from
  {
    var j := TermFrom(s, from);
    if j < 0 then (if IsBlank(s[from..]) then [] else [s[from..]])
    else TermFromMeans(s, from); [s[from..j + 1]] + Runs(s, j + 1)
  }

  /** Each string of `rs`, trimmed. */
  function TrimAll(rs: seq<String>): seq<String>
  {
    if rs == [] then [] else [Trim(rs[0])] + TrimAll(rs[1..])
  }

  lemma {:induction false} TrimAllAt(rs: seq<String>)
    ensures |TrimAll(rs)| == |rs| && forall k | 0 <= k < |rs| :: TrimAll(rs)[k] == Trim(rs[k])
  {
    if rs != [] {
      TrimAllAt(rs[1..]);
    }
  }

  lemma TrimAllCons(x: String, rs: seq<String>)
    ensures TrimAll([x] + rs) == [Trim(x)] + TrimAll(rs)
  {
    assert ([x] + rs)[1..] == rs;
  }

  /** The fragments `splitIntoSentencesKeepDot` returns: the runs, trimmed. */
  function Sentences(s: String): seq<String>
  {
    TrimAll(Runs(s, 0))
  }

  /**
   * A run is not blank and holds a terminator at most at its end; every run but the last ends
   * with one.
   */
  predicate RunOk(x: String)
  {
    !IsBlank(x) && forall i | 0 <= i < |x| - 1 :: !IsTerm(x[i])
  }

  predicate RunsOk(r: seq<String>)
  {
    && (forall k | 0 <= k < |r| :: RunOk(r[k]))
    && (forall k | 0 <= k < |r| - 1 :: EndsWithTerm(r[k]))
  }

  lemma RunsOkCons(x: String, rest: seq<String>)
    requires RunOk(x) && EndsWithTerm(x) && RunsOk(rest)
    ensures RunsOk([x] + rest)
  {
    var r := [x] + rest;
    forall k | 1 <= k < |r|
      ensures r[k] == rest[k - 1]
    {
    }
  }

  lemma {:induction false} RunsMeans(s: String, from: nat)
    requires from <= |s|
    ensures RunsOk(Runs(s, from))
    decreases |s| - from
  {
    var j := TermFrom(s, from);
    TermFromMeans(s, from);
    var t := s[from..];
    if j < 0 {
      assert forall i | 0 <= i < |t| :: t[i] == s[from + i];
    } else {
      var x := s[from..j + 1];
      RunsMeans(s, j + 1);
      assert RunOk(x) && EndsWithTerm(x) by {
        assert x[j - from] == s[j] && !IsWs(x[j - from]);
        assert forall i | 0 <= i < j - from :: x[i] == s[from + i];
      }
      RunsOkCons(x, Runs(s, j + 1));
    }
  }

  /** A run ends at the first terminator: a loop step that meets one closes the run. */
  lemma RunsAtTerm(s: String, from: nat, i: nat)
    requires from <= i < |s| && IsTerm(s[i]) && forall k | from <= k < i :: !IsTerm(s[k])
    ensures Runs(s, from) == [s[from..i + 1]] + Runs(s, i + 1)
  {
    TermFromMeans(s, from);
  }

  /** Without terminators the rest is one run, unless it is blank. */
  lemma RunsNoTerm(s: String, from: nat)
    requires from <= |s| && forall k | from <= k < |s| :: !IsTerm(s[k])
    ensures Runs(s, from) == if IsBlank(s[from..]) then [] else [s[from..]]
  {
    TermFromMeans(s, from);
  }

  /** Trimming keeps a text that ends with a non-space character ending with it. */
  lemma TrimKeepsLast(s: String)
    requires s != [] && !IsWs(s[|s| - 1])
    ensures Trim(s) != [] && Trim(s)[|Trim(s)| - 1] == s[|s| - 1]
  {
    TrimMeans(s);
    var r, a := Trim(s), LeadWs(s);
    assert !AllWs(s) by {
      assert !IsWs(s[|s| - 1]);
    }
    assert a + |r| == |s| by {
      assert AllWs(s[a + |r|..]);
    }
  }

  /**
   * A fragment is not empty, starts and ends with a non-space character (so trimming keeps it,
   * `TrimOfTrimmed`), and holds a terminator at most at its end.
   */
  predicate FragmentOk(f: String)
  {
    f != [] && !IsWs(f[0]) && !IsWs(f[|f| - 1]) && forall i | 0 <= i < |f| - 1 :: !IsTerm(f[i])
  }

  /** A run ending with a terminator trims to a fragment ending with it. */
  lemma RunFragment(x: String)
    requires RunOk(x) && EndsWithTerm(x)
    ensures FragmentOk(Trim(x)) && EndsWithTerm(Trim(x))
  {
    TrimMeans(x);
    TrimKeepsLast(x);
    var f, a := Trim(x), LeadWs(x);
    assert a + |f| == |x| by {
      assert AllWs(x[a + |f|..]);
    }
    forall i | 0 <= i < |f| - 1
      ensures !IsTerm(f[i])
    {
      assert f[i] == x[a + i];
    }
  }

  /** A run without terminators trims to a fragment without one. */
  lemma RestFragment(t: String)
    requires !IsBlank(t) && forall i | 0 <= i < |t| :: !IsTerm(t[i])
    ensures FragmentOk(Trim(t)) && !EndsWithTerm(Trim(t))
  {
    TrimMeans(t);
    var f, a := Trim(t), LeadWs(t);
    assert forall i | 0 <= i < |f| :: f[i] == t[a + i];
  }

  /**
   * The fragments are not empty and start and end with a non-space character; each holds a
   * terminator at most at its end, and every one but the last ends with one.
   */
  lemma SentencesMeans(s: String)
    ensures var r := Sentences(s);
      && (forall k | 0 <= k < |r| :: FragmentOk(r[k]))
      && (forall k | 0 <= k < |r| - 1 :: EndsWithTerm(r[k]))
  {
    var runs := Runs(s, 0);
    RunsMeans(s, 0);
    TrimAllAt(runs);
    forall k | 0 <= k < |runs|
      ensures FragmentOk(Trim(runs[k])) && (EndsWithTerm(runs[k]) ==> EndsWithTerm(Trim(runs[k])))
    {
      if EndsWithTerm(runs[k]) {
        RunFragment(runs[k]);
      } else {
        RestFragment(runs[k]);
      }
    }
  }

  /**
   * `splitIntoSentencesKeepDot` as the source's character loop. The closing `filter(Boolean)`
   * drops nothing, because every fragment is non-empty (`SentencesMeans`).
   */
  method SplitIntoSentencesKeepDot(s: String) returns (out: seq<String>)
    ensures out == Sentences(s)
  {
    out := [];
    var acc: String := [];
    for i := 0 to |s|
      invariant SplitLoop(s, i, acc, out) == SplitLoop(s, 0, [], [])
    {
      acc := acc + [s[i]];
      if IsTerm(s[i]) {
        out := out + [Trim(acc)];
        acc := [];
      }
    }
    if !IsBlank(acc) {
      out := out + [Trim(acc)];
    }
    SplitLoopMeans(s);
  }

  /**
   * The loop of `splitIntoSentencesKeepDot` from character `i` on, with `acc` the characters
   * since the last terminator and `out` the fragments pushed so far.
   */
  function SplitLoop(s: String, i: nat, acc: String, out: seq<String>): seq<String>
    requires i <= |s|
    decreases |s| - i
  {
    if i == |s| then (if IsBlank(acc) then out else out + [Trim(acc)])
    else if IsTerm(s[i]) then SplitLoop(s, i + 1, [], out + [Trim(acc + [s[i]])])
    else SplitLoop(s, i + 1, acc + [s[i]], out)
  }

  /** The character loop yields the trimmed runs. */
  lemma SplitLoopMeans(s: String)
    ensures SplitLoop(s, 0, [], []) == Sentences(s)
  {
    SplitLoopIsRuns(s, 0, 0, []);
    assert s[0..0] == [];
  }

  /** No terminator among `s[from..i]`. */
  predicate NoTermIn(s: String, from: nat, i: nat)
    requires from <= i <= |s|
  {
    forall k | from <= k < i :: !IsTerm(s[k])
  }

  /** Run from `i` with the open run `s[from..i]`, the loop pushes the trimmed runs from `from`. */
  predicate SplitLoopEnds(s: String, from: nat, i: nat, out: seq<String>)
    requires from <= i <= |s|
  {
    SplitLoop(s, i, s[from..i], out) == out + TrimAll(Runs(s, from))
  }

  lemma {:induction false} SplitLoopIsRuns(s: String, from: nat, i: nat, out: seq<String>)
    requires from <= i <= |s| && NoTermIn(s, from, i)
    ensures SplitLoopEnds(s, from, i, out)
    decreases |s| - i
  {
    if i == |s| {
      SplitLoopAtEnd(s, from, out);
    } else if IsTerm(s[i]) {
      var out' := out + [Trim(s[from..i + 1])];
      SplitLoopIsRuns(s, i + 1, i + 1, out');
      SplitLoopAtTerm(s, from, i, out);
    } else {
      SplitLoopIsRuns(s, from, i + 1, out);
      SplitLoopGoesOn(s, from, i, out);
    }
  }

  lemma SplitLoopAtEnd(s: String, from: nat, out: seq<String>)
    requires from <= |s| && NoTermIn(s, from, |s|)
    ensures SplitLoopEnds(s, from, |s|, out)
  {
    RunsNoTerm(s, from);
    assert s[from..|s|] == s[from..];
    if !IsBlank(s[from..]) {
      TrimAllCons(s[from..], []);
    }
  }

  lemma SplitLoopAtTerm(s: String, from: nat, i: nat, out: seq<String>)
    requires from <= i < |s| && NoTermIn(s, from, i) && IsTerm(s[i])
    requires SplitLoopEnds(s, i + 1, i + 1, out + [Trim(s[from..i + 1])])
    ensures SplitLoopEnds(s, from, i, out)
  {
    assert s[from..i] + [s[i]] == s[from..i + 1];
    assert s[i + 1..i + 1] == [];
    RunsAtTerm(s, from, i);
    TrimAllCons(s[from..i + 1], Runs(s, i + 1));
  }

  lemma SplitLoopGoesOn(s: String, from: nat, i: nat, out: seq<String>)
    requires from <= i < |s| && NoTermIn(s, from, i) && !IsTerm(s[i])
    requires SplitLoopEnds(s, from, i + 1, out)
    ensures SplitLoopEnds(s, from, i, out)
  {
    assert s[from..i] + [s[i]] == s[from..i + 1];
  }

  /* ---------- getFullPreviousSentence ---------- */

  /** Default look-back and look-forward limits of the two sentence rebuilders. */
  const MAX_BACK_LINES: nat := 3
  const MAX_FORWARD_LINES: nat := 2

  /** `entries[idx]?.text ?? ""`, over the texts of the entries. */
  function TextAt(texts: seq<String>, idx: int): String
  {
    if 0 <= idx < |texts| then texts[idx] else []
  }

  /** The look-back buffer after `n` earlier texts have been prepended to entry `idx`. */
  function BackBuf(texts: seq<String>, idx: int, n: nat): String
  {
    if n == 0 then TextAt(texts, idx)
    else Trim(TextAt(texts, idx - n) + " " + BackBuf(texts, idx, n - 1))
  }

  /** How many texts the look-back loop may prepend: those before `idx`, at most `maxBack`. */
  function BackLimit(idx: int, maxBack: nat): nat
  {
    if idx <= 0 then 0 else if idx < maxBack then idx else maxBack
  }

  /** Some entry from `idx - m` up to `idx` holds a terminator. */
  predicate TermUpTo(texts: seq<String>, idx: int, m: nat)
  {
    if m == 0 then HasTerm(TextAt(texts, idx))
    else HasTerm(TextAt(texts, idx - m)) || TermUpTo(texts, idx, m - 1)
  }

  /** Trimming neither adds nor removes a terminator. */
  lemma TrimHasTerm(s: String)
    ensures HasTerm(Trim(s)) == HasTerm(s)
  {
    HasTermMeans(s);
    HasTermMeans(Trim(s));
    TrimKeepsNonWs(s, '.');
    TrimKeepsNonWs(s, '?');
    TrimKeepsNonWs(s, '!');
  }

  /** Two texts joined by a space and trimmed hold a terminator exactly when one of them does. */
  lemma JoinHasTerm(a: String, b: String)
    ensures HasTerm(Trim(a + " " + b)) == (HasTerm(a) || HasTerm(b))
  {
    TrimHasTerm(a + " " + b);
    HasTermMeans(a);
    HasTermMeans(b);
    HasTermMeans(a + " " + b);
  }

  /** The look-back buffer holds a terminator exactly when one of the texts joined into it does. */
  lemma {:induction false} BackBufHasTerm(texts: seq<String>, idx: int, m: nat)
    ensures HasTerm(BackBuf(texts, idx, m)) == TermUpTo(texts, idx, m)
  {
    if m > 0 {
      BackBufHasTerm(texts, idx, m - 1);
      JoinHasTerm(TextAt(texts, idx - m), BackBuf(texts, idx, m - 1));
    }
  }

  /**
   * The number of texts the look-back has prepended when it stops, having prepended `n`
   * already: it stops once the buffer holds a terminator (by `BackBufHasTerm`, once one of its
   * texts does), or at `limit`.
   */
  function BackStepsFrom(texts: seq<String>, idx: int, n: nat, limit: nat): (k: nat)
    requires n <= limit
    ensures n <= k <= limit
    decreases limit - n
  {
    if n == limit then limit
    else if TermUpTo(texts, idx, n + 1) then n + 1
    else BackStepsFrom(texts, idx, n + 1, limit)
  }

  /** The number of texts the look-back loop prepends. */
  function BackSteps(texts: seq<String>, idx: int, maxBack: nat): (k: nat)
    ensures k <= BackLimit(idx, maxBack)
  {
    BackStepsFrom(texts, idx, 0, BackLimit(idx, maxBack))
  }

  /**
   * The fragment taken as the previous sentence: the last one if it ends with a terminator,
   * else the one before it if there is one, else the last; `""` without fragments.
   */
  function PickPrevious(ss: seq<String>): String
  {
    if ss == [] then []
    else if EndsWithTerm(ss[|ss| - 1]) then ss[|ss| - 1]
    else if |ss| >= 2 then ss[|ss| - 2]
    else ss[|ss| - 1]
  }

  /**
   * `getFullPreviousSentence(texts, idx, maxBack)`: the fragment picked from the buffer the
   * look-back loop ends with (`LookBackMeans` says which buffer that is).
   */
  function FullPrevious(texts: seq<String>, idx: int, maxBack: nat): String
    requires idx <= |texts|
  {
    PickPrevious(Sentences(BackLoop(texts, idx - 1, 0, maxBack, TextAt(texts, idx))))
  }

  lemma {:induction false} BackStepsFromMeans(texts: seq<String>, idx: int, n: nat, limit: nat)
    requires n <= limit
    ensures var k := BackStepsFrom(texts, idx, n, limit);
      && (n < limit ==> n < k)
      && (forall m: nat | n < m < k :: !TermUpTo(texts, idx, m))
      && (k == limit || TermUpTo(texts, idx, k))
    decreases limit - n
  {
    if n < limit && !TermUpTo(texts, idx, n + 1) {
      BackStepsFromMeans(texts, idx, n + 1, limit);
    }
  }

  /**
   * The look-back prepends at most `maxBack` texts, never one before the first, and at least
   * one when it may; no buffer before the last holds a terminator, and it stops early only at
   * one that does.
   */
  lemma BackStepsMeans(texts: seq<String>, idx: int, maxBack: nat)
    ensures var k := BackSteps(texts, idx, maxBack);
      && k <= maxBack && (k == 0 || k <= idx) && (k == 0 <==> BackLimit(idx, maxBack) == 0)
      && (forall m: nat | 0 < m < k :: !HasTerm(BackBuf(texts, idx, m)))
      && (k == BackLimit(idx, maxBack) || HasTerm(BackBuf(texts, idx, k)))
  {
    var k := BackSteps(texts, idx, maxBack);
    BackStepsFromMeans(texts, idx, 0, BackLimit(idx, maxBack));
    forall m: nat | 0 < m <= k {
      BackBufHasTerm(texts, idx, m);
    }
  }

  /**
   * When the entry itself holds a terminator, the look-back prepends one entry and stops
   * (if there is an earlier entry and `maxBack` allows one).
   */
  lemma BackStopsAfterOne(texts: seq<String>, idx: int, maxBack: nat)
    requires 0 < idx < |texts| && 0 < maxBack && HasTerm(texts[idx])
    ensures BackSteps(texts, idx, maxBack) == 1
  {
    BackBufHasTerm(texts, idx, 1);
  }

  /**
   * What the look-back returns: `""` exactly when the buffer has no fragment; otherwise one of
   * its fragments, which ends with a terminator unless it is the only fragment, and which is
   * the last fragment whenever that one is terminated.
   */
  lemma PickPreviousMeans(buf: String)
    ensures var ss, r := Sentences(buf), PickPrevious(Sentences(buf));
      && (r == [] <==> ss == [])
      && (ss != [] ==> r in ss && FragmentOk(r) && (EndsWithTerm(r) || |ss| == 1))
      && (ss != [] && EndsWithTerm(ss[|ss| - 1]) ==> r == ss[|ss| - 1])
  {
    SentencesMeans(buf);
  }

  /** One turn of the look-back loop prepends the entry before the buffer's first one. */
  lemma BackStep(texts: seq<String>, idx: int, count: nat, maxBack: nat)
    requires count < BackLimit(idx, maxBack) && idx <= |texts|
    ensures 0 <= idx - 1 - count < |texts|
    ensures Trim(texts[idx - 1 - count] + " " + BackBuf(texts, idx, count))
      == BackBuf(texts, idx, count + 1)
  {
  }

  /**
   * The rest of the look-back loop, run from position `i` with `count` texts prepended and
   * buffer `buf`: the buffer it ends with.
   */
  function BackLoop(texts: seq<String>, i: int, count: nat, maxBack: nat, buf: String): String
    requires i < |texts|
    decreases i + 1
  {
    if i >= 0 && count < maxBack then
      var next := Trim(texts[i] + " " + buf);
      if HasTerm(next) then next else BackLoop(texts, i - 1, count + 1, maxBack, next)
    else buf
  }

  /**
   * The loop, run from any point it can reach, ends with the buffer of `BackSteps` texts: it
   * prepends one text per turn and stops exactly where `BackStepsFrom` does.
   */
  lemma {:induction false} BackLoopIsBackBuf(texts: seq<String>, idx: int, count: nat, maxBack: nat)
    requires idx <= |texts| && count <= BackLimit(idx, maxBack)
    ensures BackLoopEnds(texts, idx, count, maxBack)
    decreases BackLimit(idx, maxBack) - count
  {
    if count == BackLimit(idx, maxBack) {
      BackLoopAtLimit(texts, idx, count, maxBack);
    } else if TermUpTo(texts, idx, count + 1) {
      BackLoopStops(texts, idx, count, maxBack);
    } else {
      BackLoopIsBackBuf(texts, idx, count + 1, maxBack);
      BackLoopGoesOn(texts, idx, count, maxBack);
    }
  }

  /**
   * The loop run from the point where `count` texts are prepended ends with the buffer of
   * `BackStepsFrom` texts.
   */
  predicate BackLoopEnds(texts: seq<String>, idx: int, count: nat, maxBack: nat)
    requires idx <= |texts| && count <= BackLimit(idx, maxBack)
  {
    BackLoop(texts, idx - 1 - count, count, maxBack, BackBuf(texts, idx, count))
      == BackBuf(texts, idx, BackStepsFrom(texts, idx, count, BackLimit(idx, maxBack)))
  }

  lemma BackLoopAtLimit(texts: seq<String>, idx: int, count: nat, maxBack: nat)
    requires idx <= |texts| && count == BackLimit(idx, maxBack)
    ensures BackLoopEnds(texts, idx, count, maxBack)
  {
    assert !(idx - 1 - count >= 0 && count < maxBack);
  }

  lemma BackLoopStops(texts: seq<String>, idx: int, count: nat, maxBack: nat)
    requires idx <= |texts| && count < BackLimit(idx, maxBack) && TermUpTo(texts, idx, count + 1)
    ensures BackLoopEnds(texts, idx, count, maxBack)
  {
    BackLoopStep(texts, idx, count, maxBack);
  }

  lemma BackLoopGoesOn(texts: seq<String>, idx: int, count: nat, maxBack: nat)
    requires idx <= |texts| && count < BackLimit(idx, maxBack) && !TermUpTo(texts, idx, count + 1)
    requires BackLoopEnds(texts, idx, count + 1, maxBack)
    ensures BackLoopEnds(texts, idx, count, maxBack)
  {
    BackLoopStep(texts, idx, count, maxBack);
  }

  /** One turn of the loop, in terms of the buffers: it stops after `count + 1` texts or goes on. */
  lemma BackLoopStep(texts: seq<String>, idx: int, count: nat, maxBack: nat)
    requires idx <= |texts| && count < BackLimit(idx, maxBack)
    ensures BackLoop(texts, idx - 1 - count, count, maxBack, BackBuf(texts, idx, count))
      == if TermUpTo(texts, idx, count + 1) then BackBuf(texts, idx, count + 1)
         else BackLoop(texts, idx - 1 - (count + 1), count + 1, maxBack, BackBuf(texts, idx, count + 1))
  {
    BackStep(texts, idx, count, maxBack);
    BackBufHasTerm(texts, idx, count + 1);
  }

  /** The look-back loop ends with the buffer of the `BackSteps` texts before `idx` and `idx`'s own. */
  lemma LookBackMeans(texts: seq<String>, idx: int, maxBack: nat)
    requires idx <= |texts|
    ensures BackLoop(texts, idx - 1, 0, maxBack, TextAt(texts, idx))
      == BackBuf(texts, idx, BackSteps(texts, idx, maxBack))
  {
    BackLoopIsBackBuf(texts, idx, 0, maxBack);
  }

  /** The look-back loop of `getFullPreviousSentence`: the buffer it ends with. */
  method LookBack(texts: seq<String>, idx: int, maxBack: nat) returns (buf: String)
    requires idx <= |texts|
    ensures buf == BackLoop(texts, idx - 1, 0, maxBack, TextAt(texts, idx))
  {
    buf := TextAt(texts, idx);
    var i := idx - 1;
    var count: nat := 0;
    while i >= 0 && count < maxBack
      invariant i < |texts|
      invariant BackLoop(texts, i, count, maxBack, buf) == BackLoop(texts, idx - 1, 0, maxBack, TextAt(texts, idx))
      decreases i + 1
    {
      buf := Trim(texts[i] + " " + buf);
      if HasTerm(buf) {
        break;
      }
      i := i - 1;
      count := count + 1;
    }
  }

  /** `getFullPreviousSentence`: the look-back loop, then the fragment it picks. */
  method GetFullPreviousSentence(texts: seq<String>, idx: int, maxBack: nat) returns (r: String)
    requires idx <= |texts|
    ensures r == FullPrevious(texts, idx, maxBack)
  {
    var buf := LookBack(texts, idx, maxBack);
    var sentences := SplitIntoSentencesKeepDot(buf);
    r := PickPrevious(sentences);
  }

  /* ---------- completeSentenceForward ---------- */

  /**
   * The look-forward buffer after `n` later texts, each trimmed, have been appended to the
   * trimmed `initial`.
   */
  function FwdBuf(texts: seq<String>, idxStart: int, initial: String, n: nat): String
  {
    if n == 0 then Trim(initial)
    else Trim(FwdBuf(texts, idxStart, initial, n - 1) + " " + Trim(TextAt(texts, idxStart + n)))
  }

  /** How many texts the look-forward loop may append: those after `idxStart`, at most `maxFwd`. */
  function FwdLimit(texts: seq<String>, idxStart: int, maxFwd: nat): nat
  {
    var avail := |texts| - 1 - idxStart;
    if avail <= 0 then 0 else if avail < maxFwd then avail else maxFwd
  }

  /** `initial` or some text from `idxStart + 1` up to `idxStart + m` holds a terminator. */
  predicate FwdTermUpTo(texts: seq<String>, idxStart: int, initial: String, m: nat)
  {
    if m == 0 then HasTerm(initial)
    else HasTerm(TextAt(texts, idxStart + m)) || FwdTermUpTo(texts, idxStart, initial, m - 1)
  }

  /** The look-forward buffer holds a terminator exactly when one of the texts joined into it does. */
  lemma {:induction false} FwdBufHasTerm(texts: seq<String>, idxStart: int, initial: String, m: nat)
    ensures HasTerm(FwdBuf(texts, idxStart, initial, m)) == FwdTermUpTo(texts, idxStart, initial, m)
  {
    if m == 0 {
      TrimHasTerm(initial);
    } else {
      var next := TextAt(texts, idxStart + m);
      FwdBufHasTerm(texts, idxStart, initial, m - 1);
      TrimHasTerm(next);
      JoinHasTerm(FwdBuf(texts, idxStart, initial, m - 1), Trim(next));
    }
  }

  /**
   * The number of texts the look-forward has appended when it stops, having appended `n`
   * already: it stops once the buffer holds a terminator, or at `limit`. The loop tests only
   * after appending, so a terminator already in `initial` still lets it append one text.
   */
  function FwdStepsFrom(texts: seq<String>, idxStart: int, initial: String, n: nat, limit: nat): (k: nat)
    requires n <= limit
    ensures n <= k <= limit
    decreases limit - n
  {
    if n == limit then limit
    else if FwdTermUpTo(texts, idxStart, initial, n + 1) then n + 1
    else FwdStepsFrom(texts, idxStart, initial, n + 1, limit)
  }

  /** The number of texts the look-forward loop appends. */
  function FwdSteps(texts: seq<String>, idxStart: int, initial: String, maxFwd: nat): (k: nat)
    ensures k <= FwdLimit(texts, idxStart, maxFwd)
  {
    FwdStepsFrom(texts, idxStart, initial, 0, FwdLimit(texts, idxStart, maxFwd))
  }

  /** The first fragment of `acc`, or `acc` itself when it has none. */
  function FirstOr(acc: String): String
  {
    var parts := Sentences(acc);
    if parts != [] then parts[0] else acc
  }

  /** `completeSentenceForward(texts, idxStart, initial, maxFwd)`. */
  function CompleteForward(texts: seq<String>, idxStart: int, initial: String, maxFwd: nat): String
    requires ForwardDefined(texts, idxStart, initial, maxFwd)
  {
    if EndsWithTerm(Trim(initial)) then Trim(initial)
    else FirstOr(FwdLoop(texts, idxStart + 1, 0, maxFwd, Trim(initial)))
  }

  /**
   * The source reads `entries[i].text` for every text it appends, which fails for an index
   * below 0: the loop must not start before the first entry whenever it runs.
   */
  predicate ForwardDefined(texts: seq<String>, idxStart: int, initial: String, maxFwd: nat)
  {
    EndsWithTerm(Trim(initial)) || -1 <= idxStart || maxFwd == 0
  }

  lemma {:induction false} FwdStepsFromMeans(texts: seq<String>, idxStart: int, initial: String, n: nat, limit: nat)
    requires n <= limit
    ensures var k := FwdStepsFrom(texts, idxStart, initial, n, limit);
      && (n < limit ==> n < k)
      && (forall m: nat | n < m < k :: !FwdTermUpTo(texts, idxStart, initial, m))
      && (k == limit || FwdTermUpTo(texts, idxStart, initial, k))
    decreases limit - n
  {
    if n < limit && !FwdTermUpTo(texts, idxStart, initial, n + 1) {
      FwdStepsFromMeans(texts, idxStart, initial, n + 1, limit);
    }
  }

  /**
   * The look-forward appends at most `maxFwd` texts, never one past the last entry, and at
   * least one when it may; no buffer before the last holds a terminator, and it stops early
   * only at one that does.
   */
  lemma FwdStepsMeans(texts: seq<String>, idxStart: int, initial: String, maxFwd: nat)
    ensures var k := FwdSteps(texts, idxStart, initial, maxFwd);
      && k <= maxFwd && (k == 0 || idxStart + k < |texts|)
      && (k == 0 <==> FwdLimit(texts, idxStart, maxFwd) == 0)
      && (forall m: nat | 0 < m < k :: !HasTerm(FwdBuf(texts, idxStart, initial, m)))
      && (k == FwdLimit(texts, idxStart, maxFwd) || HasTerm(FwdBuf(texts, idxStart, initial, k)))
  {
    var k := FwdSteps(texts, idxStart, initial, maxFwd);
    FwdStepsFromMeans(texts, idxStart, initial, 0, FwdLimit(texts, idxStart, maxFwd));
    forall m: nat | 0 < m <= k {
      FwdBufHasTerm(texts, idxStart, initial, m);
    }
  }

  /** A text holding a terminator has a first fragment, and that fragment ends with one. */
  lemma FirstFragmentTerminated(s: String)
    requires HasTerm(s)
    ensures Sentences(s) != [] && EndsWithTerm(Sentences(s)[0])
  {
    var j := TermFrom(s, 0);
    TermFromMeans(s, 0);
    var x := s[..j + 1];
    assert Runs(s, 0) == [x] + Runs(s, j + 1);
    assert RunOk(x) && EndsWithTerm(x) by {
      assert x[j] == s[j] && !IsWs(x[j]);
      assert forall i | 0 <= i < j :: x[i] == s[i];
    }
    RunFragment(x);
    TrimAllAt(Runs(s, 0));
  }

  /** A text has no fragment exactly when it is blank. */
  lemma SentencesEmpty(s: String)
    ensures Sentences(s) == [] <==> IsBlank(s)
  {
    var j := TermFrom(s, 0);
    TermFromMeans(s, 0);
    TrimAllAt(Runs(s, 0));
    if j >= 0 {
      assert Runs(s, 0) == [s[..j + 1]] + Runs(s, j + 1);
      assert !IsWs(s[j]);
    } else {
      assert s[0..] == s;
    }
  }

  /**
   * The first fragment of a text, which ends with a terminator whenever the text holds one;
   * the text itself only when it is blank.
   */
  lemma FirstOrMeans(acc: String)
    ensures var r := FirstOr(acc);
      && (Sentences(acc) == [] ==> r == acc && IsBlank(acc))
      && (Sentences(acc) != [] ==> r == Sentences(acc)[0] && FragmentOk(r))
      && (HasTerm(acc) ==> EndsWithTerm(r))
  {
    SentencesMeans(acc);
    SentencesEmpty(acc);
    if HasTerm(acc) {
      FirstFragmentTerminated(acc);
    }
  }

  /** A trimmed text that is blank is empty. */
  lemma TrimBlankIsEmpty(s: String)
    ensures IsBlank(Trim(s)) ==> Trim(s) == []
  {
    TrimMeans(s);
  }

  /**
   * What the look-forward returns: the trimmed `initial` when that already ends with a
   * terminator; else the first fragment of the buffer, which ends with a terminator whenever
   * the buffer holds one; else `""`, exactly when the buffer is blank.
   */
  lemma CompleteForwardMeans(texts: seq<String>, idxStart: int, initial: String, maxFwd: nat)
    requires ForwardDefined(texts, idxStart, initial, maxFwd)
    ensures var r := CompleteForward(texts, idxStart, initial, maxFwd);
      var acc := FwdBuf(texts, idxStart, initial, FwdSteps(texts, idxStart, initial, maxFwd));
      && (EndsWithTerm(Trim(initial)) ==> r == Trim(initial))
      && (!EndsWithTerm(Trim(initial)) ==>
            && (r == [] <==> IsBlank(acc))
            && (r != [] ==> FragmentOk(r) && r == Sentences(acc)[0])
            && (HasTerm(acc) ==> EndsWithTerm(r)))
  {
    var k := FwdSteps(texts, idxStart, initial, maxFwd);
    var acc := FwdBuf(texts, idxStart, initial, k);
    if !EndsWithTerm(Trim(initial)) {
      LookForwardMeans(texts, idxStart, initial, maxFwd);
    }
    FirstOrMeans(acc);
    if k == 0 {
      TrimBlankIsEmpty(initial);
    } else {
      TrimBlankIsEmpty(FwdBuf(texts, idxStart, initial, k - 1) + " " + Trim(TextAt(texts, idxStart + k)));
    }
  }

  /** One turn of the look-forward loop appends the entry after the buffer's last one. */
  lemma FwdStep(texts: seq<String>, idxStart: int, initial: String, steps: nat, maxFwd: nat)
    requires steps < FwdLimit(texts, idxStart, maxFwd) && -1 <= idxStart
    ensures 0 <= idxStart + 1 + steps < |texts|
    ensures Trim(FwdBuf(texts, idxStart, initial, steps) + " " + Trim(texts[idxStart + 1 + steps]))
      == FwdBuf(texts, idxStart, initial, steps + 1)
  {
  }

  /**
   * The rest of the look-forward loop, run from position `i` with `steps` texts appended and
   * buffer `acc`: the buffer it ends with.
   */
  function FwdLoop(texts: seq<String>, i: int, steps: nat, maxFwd: nat, acc: String): String
    requires steps < maxFwd && i < |texts| ==> 0 <= i
    decreases |texts| - i
  {
    if i < |texts| && steps < maxFwd then
      var next := Trim(acc + " " + Trim(texts[i]));
      if HasTerm(next) then next else FwdLoop(texts, i + 1, steps + 1, maxFwd, next)
    else acc
  }

  /**
   * The loop, run from any point it can reach, ends with the buffer of `FwdSteps` texts: it
   * appends one text per turn and stops exactly where `FwdStepsFrom` does.
   */
  lemma {:induction false} FwdLoopIsFwdBuf(texts: seq<String>, idxStart: int, initial: String, steps: nat, maxFwd: nat)
    requires (-1 <= idxStart || maxFwd == 0) && steps <= FwdLimit(texts, idxStart, maxFwd)
    ensures FwdLoopEnds(texts, idxStart, initial, steps, maxFwd)
    decreases FwdLimit(texts, idxStart, maxFwd) - steps
  {
    if steps == FwdLimit(texts, idxStart, maxFwd) {
      FwdLoopAtLimit(texts, idxStart, initial, steps, maxFwd);
    } else if FwdTermUpTo(texts, idxStart, initial, steps + 1) {
      FwdLoopStops(texts, idxStart, initial, steps, maxFwd);
    } else {
      FwdLoopIsFwdBuf(texts, idxStart, initial, steps + 1, maxFwd);
      FwdLoopGoesOn(texts, idxStart, initial, steps, maxFwd);
    }
  }

  /**
   * The loop run from the point where `steps` texts are appended ends with the buffer of
   * `FwdStepsFrom` texts.
   */
  predicate FwdLoopEnds(texts: seq<String>, idxStart: int, initial: String, steps: nat, maxFwd: nat)
    requires (-1 <= idxStart || maxFwd == 0) && steps <= FwdLimit(texts, idxStart, maxFwd)
  {
    FwdLoop(texts, idxStart + 1 + steps, steps, maxFwd, FwdBuf(texts, idxStart, initial, steps))
      == FwdBuf(texts, idxStart, initial, FwdStepsFrom(texts, idxStart, initial, steps, FwdLimit(texts, idxStart, maxFwd)))
  }

  lemma FwdLoopAtLimit(texts: seq<String>, idxStart: int, initial: String, steps: nat, maxFwd: nat)
    requires (-1 <= idxStart || maxFwd == 0) && steps == FwdLimit(texts, idxStart, maxFwd)
    ensures FwdLoopEnds(texts, idxStart, initial, steps, maxFwd)
  {
    assert !(idxStart + 1 + steps < |texts| && steps < maxFwd);
  }

  lemma FwdLoopStops(texts: seq<String>, idxStart: int, initial: String, steps: nat, maxFwd: nat)
    requires -1 <= idxStart && steps < FwdLimit(texts, idxStart, maxFwd)
    requires FwdTermUpTo(texts, idxStart, initial, steps + 1)
    ensures FwdLoopEnds(texts, idxStart, initial, steps, maxFwd)
  {
    FwdLoopStep(texts, idxStart, initial, steps, maxFwd);
  }

  lemma FwdLoopGoesOn(texts: seq<String>, idxStart: int, initial: String, steps: nat, maxFwd: nat)
    requires -1 <= idxStart && steps < FwdLimit(texts, idxStart, maxFwd)
    requires !FwdTermUpTo(texts, idxStart, initial, steps + 1)
    requires FwdLoopEnds(texts, idxStart, initial, steps + 1, maxFwd)
    ensures FwdLoopEnds(texts, idxStart, initial, steps, maxFwd)
  {
    FwdLoopStep(texts, idxStart, initial, steps, maxFwd);
  }

  /** One turn of the loop, in terms of the buffers: it stops after `steps + 1` texts or goes on. */
  lemma FwdLoopStep(texts: seq<String>, idxStart: int, initial: String, steps: nat, maxFwd: nat)
    requires -1 <= idxStart && steps < FwdLimit(texts, idxStart, maxFwd)
    ensures FwdLoop(texts, idxStart + 1 + steps, steps, maxFwd, FwdBuf(texts, idxStart, initial, steps))
      == if FwdTermUpTo(texts, idxStart, initial, steps + 1) then FwdBuf(texts, idxStart, initial, steps + 1)
         else FwdLoop(texts, idxStart + 1 + (steps + 1), steps + 1, maxFwd, FwdBuf(texts, idxStart, initial, steps + 1))
  {
    FwdStep(texts, idxStart, initial, steps, maxFwd);
    FwdBufHasTerm(texts, idxStart, initial, steps + 1);
  }

  /** The look-forward loop ends with the buffer of `initial` and the `FwdSteps` texts after `idxStart`. */
  lemma LookForwardMeans(texts: seq<String>, idxStart: int, initial: String, maxFwd: nat)
    requires -1 <= idxStart || maxFwd == 0
    ensures FwdLoop(texts, idxStart + 1, 0, maxFwd, Trim(initial))
      == FwdBuf(texts, idxStart, initial, FwdSteps(texts, idxStart, initial, maxFwd))
  {
    FwdLoopIsFwdBuf(texts, idxStart, initial, 0, maxFwd);
  }

  /** The look-forward loop of `completeSentenceForward`: the buffer it ends with. */
  method LookForward(texts: seq<String>, idxStart: int, initial: String, maxFwd: nat)
    returns (acc: String)
    requires -1 <= idxStart || maxFwd == 0
    ensures acc == FwdLoop(texts, idxStart + 1, 0, maxFwd, Trim(initial))
  {
    acc := Trim(initial);
    ghost var target := FwdLoop(texts, idxStart + 1, 0, maxFwd, Trim(initial));
    var i := idxStart + 1;
    var steps: nat := 0;
    while i < |texts| && steps < maxFwd
      invariant 0 <= i || maxFwd == 0
      invariant FwdLoop(texts, i, steps, maxFwd, acc) == target
      decreases |texts| - i
    {
      var next := Trim(acc + " " + Trim(texts[i]));
      FwdLoopUnfold(texts, i, steps, maxFwd, acc);
      acc := next;
      if HasTerm(acc) {
        break;
      }
      i := i + 1;
      steps := steps + 1;
    }
  }

  /** One turn of the look-forward loop. */
  lemma FwdLoopUnfold(texts: seq<String>, i: int, steps: nat, maxFwd: nat, acc: String)
    requires 0 <= i < |texts| && steps < maxFwd
    ensures FwdLoop(texts, i, steps, maxFwd, acc)
      == var next := Trim(acc + " " + Trim(texts[i]));
         if HasTerm(next) then next else FwdLoop(texts, i + 1, steps + 1, maxFwd, next)
  {
  }

  /** `completeSentenceForward`: the early return, the look-forward loop, the first fragment. */
  method CompleteSentenceForward(texts: seq<String>, idxStart: int, initial: String, maxFwd: nat)
    returns (r: String)
    requires ForwardDefined(texts, idxStart, initial, maxFwd)
    ensures r == CompleteForward(texts, idxStart, initial, maxFwd)
  {
    if EndsWithTerm(Trim(initial)) {
      return Trim(initial);
    }
    var acc := LookForward(texts, idxStart, initial, maxFwd);
    var parts := SplitIntoSentencesKeepDot(acc);
    r := if parts != [] then parts[0] else acc;
  }

  /* ---------- buildSearchPlanForLine ---------- */

  /** One step of a line's search plan: the text to highlight and the text to search for. */
  datatype PlanItem = PlanItem(highlight: String, search: String)

  /** `s.trim().length >= MIN_SEARCH_LEN`. */
  predicate LongEnough(s: String)
  {
    |Trim(s)| >= MIN_SEARCH_LEN
  }

  /** A text outside the entries is `""`, which has no fragment. */
  lemma NoSentencesOutside(texts: seq<String>, idx: int)
    ensures Sentences(TextAt(texts, idx)) != [] ==> 0 <= idx < |texts|
  {
    if !(0 <= idx < |texts|) {
      assert Runs([], 0) == [];
    }
  }

  /**
   * The first item, present when the first fragment ends with a terminator and is long
   * enough: it is searched for as the rebuilt previous sentence, or as itself when that is
   * `""`.
   */
  function PrevPart(texts: seq<String>, idx: int, segs: seq<String>): seq<PlanItem>
    requires 0 <= idx < |texts| && segs != []
  {
    var first := segs[0];
    if EndsWithTerm(first) && LongEnough(first) then
      var fullPrev := FullPrevious(texts, idx, MAX_BACK_LINES);
      [PlanItem(first, if fullPrev != [] then fullPrev else first)]
    else []
  }

  /** An item for each text of `fs` that is long enough, in order, searched for as itself. */
  function LongItems(fs: seq<String>): seq<PlanItem>
  {
    if fs == [] then []
    else
      var x := fs[|fs| - 1];
      LongItems(fs[..|fs| - 1]) + (if LongEnough(x) then [PlanItem(x, x)] else [])
  }

  /**
   * The last item, present when the last fragment has no terminator and is long enough: it is
   * searched for as that fragment completed forward from the tail joined with the next line.
   */
  function TailPart(texts: seq<String>, idx: int, segs: seq<String>): seq<PlanItem>
    requires 0 <= idx < |texts| && segs != []
  {
    var tail := segs[|segs| - 1];
    if tail != [] && !EndsWithTerm(tail) && LongEnough(tail) then
      var completed := CompleteForward(texts, idx, tail + " " + TextAt(texts, idx + 1), MAX_FORWARD_LINES);
      [PlanItem(Trim(tail), Trim(completed))]
    else []
  }

  /**
   * `buildSearchPlanForLine(texts, idx)`: nothing for a line without fragments; else the
   * previous-sentence item, the middle items and the tail item, in that order; else the whole
   * trimmed line when it is long enough.
   */
  function PlanFor(texts: seq<String>, idx: int): seq<PlanItem>
  {
    var line := TextAt(texts, idx);
    var segs := Sentences(line);
    if segs == [] then []
    else
      NoSentencesOutside(texts, idx);
      var p := PrevPart(texts, idx, segs) + LongItems(segs[1..]) + TailPart(texts, idx, segs);
      if p == [] && LongEnough(line) then [PlanItem(Trim(line), Trim(line))] else p
  }

  /** `buildSearchPlanForLine`: the three parts in order, then the whole-line fallback. */
  method BuildSearchPlanForLine(texts: seq<String>, idx: int) returns (plan: seq<PlanItem>)
    ensures plan == PlanFor(texts, idx)
  {
    var line := TextAt(texts, idx);
    var nextLine := TextAt(texts, idx + 1);
    var segs := SplitIntoSentencesKeepDot(line);
    plan := [];
    if segs == [] {
      return;
    }
    NoSentencesOutside(texts, idx);
    var prev := PreviousItem(texts, idx, segs);
    var middle := MiddleItems(segs);
    var tail := TailItem(texts, idx, segs, nextLine);
    plan := prev + middle + tail;
    if plan == [] && LongEnough(line) {
      plan := plan + [PlanItem(Trim(line), Trim(line))];
    }
  }

  /** The block of `buildSearchPlanForLine` that pushes the previous-sentence item. */
  method PreviousItem(texts: seq<String>, idx: int, segs: seq<String>) returns (items: seq<PlanItem>)
    requires 0 <= idx < |texts| && segs != []
    ensures items == PrevPart(texts, idx, segs)
  {
    items := [];
    var first := segs[0];
    if EndsWithTerm(first) {
      var fullPrev := GetFullPreviousSentence(texts, idx, MAX_BACK_LINES);
      var searchNeedle := if fullPrev != [] then fullPrev else first;
      if LongEnough(first) {
        items := items + [PlanItem(first, searchNeedle)];
      }
    }
  }

  /** The loop of `buildSearchPlanForLine` over the fragments after the first. */
  method MiddleItems(segs: seq<String>) returns (items: seq<PlanItem>)
    requires segs != []
    ensures items == LongItems(segs[1..])
  {
    items := [];
    for i := 1 to |segs|
      invariant items == LongItems(segs[1..i])
    {
      var sent := segs[i];
      assert segs[1..i + 1][..i - 1] == segs[1..i];
      if LongEnough(sent) {
        items := items + [PlanItem(sent, sent)];
      }
    }
    assert segs[1..|segs|] == segs[1..];
  }

  /** The block of `buildSearchPlanForLine` that pushes the forward-completed tail. */
  method TailItem(texts: seq<String>, idx: int, segs: seq<String>, nextLine: String) returns (items: seq<PlanItem>)
    requires 0 <= idx < |texts| && segs != [] && nextLine == TextAt(texts, idx + 1)
    ensures items == TailPart(texts, idx, segs)
  {
    items := [];
    var tailNoDot := segs[|segs| - 1];
    if tailNoDot != [] && !EndsWithTerm(tailNoDot) {
      var completed := CompleteSentenceForward(texts, idx, tailNoDot + " " + nextLine, MAX_FORWARD_LINES);
      if LongEnough(tailNoDot) {
        items := items + [PlanItem(Trim(tailNoDot), Trim(completed))];
      }
    }
  }

  /**
   * The items are exactly the texts of `fs` that are long enough, each searched for as
   * itself, in their order in `fs`.
   */
  lemma {:induction false} LongItemsMeans(fs: seq<String>)
    ensures var m := LongItems(fs);
      && (forall it | it in m :: it.search == it.highlight && LongEnough(it.highlight) && it.highlight in fs)
      && (forall x | x in fs && LongEnough(x) :: PlanItem(x, x) in m)
      && |m| <= |fs|
  {
    if fs != [] {
      var init := fs[..|fs| - 1];
      LongItemsMeans(init);
      assert fs == init + [fs[|fs| - 1]];
    }
  }

  /** A fragment is its own trim. */
  lemma FragmentTrimmed(s: String, k: nat)
    requires k < |Sentences(s)|
    ensures Trim(Sentences(s)[k]) == Sentences(s)[k]
  {
    SentencesMeans(s);
    TrimOfTrimmed(Sentences(s)[k]);
  }

  /** A highlight long enough that is a fragment of `line` or the whole trimmed `line`. */
  predicate GoodHighlight(line: String, it: PlanItem)
  {
    LongEnough(it.highlight) && (it.highlight in Sentences(line) || it.highlight == Trim(line))
  }

  /**
   * Every highlight is long enough, and is a fragment of the line or the whole trimmed line.
   */
  lemma PlanHighlights(texts: seq<String>, idx: int)
    ensures forall it | it in PlanFor(texts, idx) :: GoodHighlight(TextAt(texts, idx), it)
  {
    var line := TextAt(texts, idx);
    var segs := Sentences(line);
    if segs != [] {
      NoSentencesOutside(texts, idx);
      PrevPartHighlights(texts, idx);
      MiddleHighlights(line);
      TailPartHighlights(texts, idx);
      TrimIdempotent(line);
    }
  }

  lemma PrevPartHighlights(texts: seq<String>, idx: int)
    requires 0 <= idx < |texts| && Sentences(TextAt(texts, idx)) != []
    ensures forall it | it in PrevPart(texts, idx, Sentences(TextAt(texts, idx))) :: GoodHighlight(TextAt(texts, idx), it)
  {
  }

  lemma MiddleHighlights(line: String)
    requires Sentences(line) != []
    ensures forall it | it in LongItems(Sentences(line)[1..]) :: GoodHighlight(line, it)
  {
    var segs := Sentences(line);
    LongItemsMeans(segs[1..]);
    assert forall x | x in segs[1..] :: x in segs;
  }

  lemma TailPartHighlights(texts: seq<String>, idx: int)
    requires 0 <= idx < |texts| && Sentences(TextAt(texts, idx)) != []
    ensures forall it | it in TailPart(texts, idx, Sentences(TextAt(texts, idx))) :: GoodHighlight(TextAt(texts, idx), it)
  {
    var segs := Sentences(TextAt(texts, idx));
    FragmentTrimmed(TextAt(texts, idx), |segs| - 1);
  }

  /** A line whose trimmed text is long enough always yields a plan. */
  lemma PlanNotEmpty(texts: seq<String>, idx: int)
    requires LongEnough(TextAt(texts, idx))
    ensures PlanFor(texts, idx) != []
  {
    var line := TextAt(texts, idx);
    BlankIsTrimEmpty(line);
    SentencesEmpty(line);
  }

  /**
   * When the first fragment ends with a terminator and is long enough, the plan starts with
   * it, searched for as the previous sentence; that sentence is rebuilt from this entry and
   * at most the one before it, because the look-back stops as soon as the buffer holds a
   * terminator.
   */
  lemma PlanStartsWithPrevious(texts: seq<String>, idx: int)
    requires var segs := Sentences(TextAt(texts, idx)); segs != [] && EndsWithTerm(segs[0]) && LongEnough(segs[0])
    ensures var segs, p := Sentences(TextAt(texts, idx)), PlanFor(texts, idx);
      && 0 <= idx < |texts| && p != [] && p[0].highlight == segs[0]
      && var prev := FullPrevious(texts, idx, MAX_BACK_LINES);
      && p[0].search == (if prev != [] then prev else segs[0])
      && prev == PickPrevious(Sentences(BackBuf(texts, idx, if idx == 0 then 0 else 1)))
  {
    var segs := Sentences(TextAt(texts, idx));
    NoSentencesOutside(texts, idx);
    LookBackMeans(texts, idx, MAX_BACK_LINES);
    if idx > 0 {
      FirstFragmentHasTerm(texts[idx]);
      BackStopsAfterOne(texts, idx, MAX_BACK_LINES);
    }
  }

  /** A text whose first fragment ends with a terminator holds one. */
  lemma FirstFragmentHasTerm(s: String)
    requires Sentences(s) != [] && EndsWithTerm(Sentences(s)[0])
    ensures HasTerm(s)
  {
    var j := TermFrom(s, 0);
    TermFromMeans(s, 0);
    if j < 0 {
      RunsNoTerm(s, 0);
      assert s[0..] == s;
      TrimAllAt(Runs(s, 0));
      RestFragment(s);
      assert false;
    }
  }

  /**
   * When there are at least two fragments and the last, long enough, has no terminator, it
   * is highlighted twice at the end of the plan: once searched for as itself, then searched
   * for as completed forward.
   */
  lemma PlanTailTwice(texts: seq<String>, idx: int)
    requires var segs := Sentences(TextAt(texts, idx));
      |segs| >= 2 && !EndsWithTerm(segs[|segs| - 1]) && LongEnough(segs[|segs| - 1])
    ensures var segs, p := Sentences(TextAt(texts, idx)), PlanFor(texts, idx);
      var last := segs[|segs| - 1];
      |p| >= 2 && p[|p| - 2] == PlanItem(last, last) && p[|p| - 1].highlight == last
  {
    var segs := Sentences(TextAt(texts, idx));
    NoSentencesOutside(texts, idx);
    FragmentTrimmed(TextAt(texts, idx), |segs| - 1);
    LongItemsLast(segs[1..]);
    TailPartLast(texts, idx);
    EndsTwice(PrevPart(texts, idx, segs), LongItems(segs[1..]), TailPart(texts, idx, segs), segs[|segs| - 1]);
  }

  lemma EndsTwice(prev: seq<PlanItem>, mid: seq<PlanItem>, tail: seq<PlanItem>, last: String)
    requires mid != [] && mid[|mid| - 1] == PlanItem(last, last) && |tail| == 1 && tail[0].highlight == last
    ensures var p := prev + mid + tail; |p| >= 2 && p[|p| - 2] == PlanItem(last, last) && p[|p| - 1].highlight == last
  {
  }

  lemma LongItemsLast(fs: seq<String>)
    requires fs != [] && LongEnough(fs[|fs| - 1])
    ensures var m := LongItems(fs); m != [] && m[|m| - 1] == PlanItem(fs[|fs| - 1], fs[|fs| - 1])
  {
  }

  lemma TailPartLast(texts: seq<String>, idx: int)
    requires var segs := Sentences(TextAt(texts, idx));
      0 <= idx < |texts| && segs != [] && !EndsWithTerm(segs[|segs| - 1]) && LongEnough(segs[|segs| - 1])
    ensures var segs := Sentences(TextAt(texts, idx));
      var t := TailPart(texts, idx, segs);
      |t| == 1 && t[0].highlight == segs[|segs| - 1]
  {
    var segs := Sentences(TextAt(texts, idx));
    FragmentTrimmed(TextAt(texts, idx), |segs| - 1);
  }

  /* An example: the tail is joined with the next line, and the look-forward appends that line again. */

  const DoubledExample: seq<String> := ["Let us", "go", "home."]

  /**
   * For the entries `Let us`, `go`, `home.`, the plan of the first line highlights `Let us`
   * and searches for `Let us go go home.`: the next line is appended twice.
   */
  lemma NextLineAppendedTwice()
    ensures PlanFor(DoubledExample, 0) == [PlanItem("Let us", "Let us go go home.")]
  {
    var segs := ["Let us"];
    ExampleOneRun("Let us");
    assert PrevPart(DoubledExample, 0, segs) == [];
    assert LongItems(segs[1..]) == [];
    ExampleTail();
  }

  lemma ExampleTail()
    ensures TailPart(DoubledExample, 0, ["Let us"]) == [PlanItem("Let us", "Let us go go home.")]
  {
    ExampleTrimmed("Let us");
    assert LongEnough("Let us");
    ExampleForward();
    ExampleTrimmed("Let us go go home.");
  }

  lemma ExampleForward()
    ensures CompleteForward(DoubledExample, 0, "Let us" + " " + TextAt(DoubledExample, 1), MAX_FORWARD_LINES)
      == "Let us go go home."
  {
    assert "Let us" + " " + TextAt(DoubledExample, 1) == "Let us go";
    ExampleTrimmed("Let us go");
    ExampleFirstTurn();
    ExampleSecondTurn();
    ExampleFirstFragment();
  }

  lemma ExampleTrimmed(s: String)
    requires s != [] && !IsWs(s[0]) && !IsWs(s[|s| - 1])
    ensures Trim(s) == s
  {
    TrimOfTrimmed(s);
  }

  lemma ExampleOneRun(s: String)
    requires s != [] && !IsWs(s[0]) && !IsWs(s[|s| - 1]) && forall i | 0 <= i < |s| :: !IsTerm(s[i])
    ensures Sentences(s) == [s]
  {
    RunsNoTerm(s, 0);
    assert s[0..] == s && !IsBlank(s);
    TrimAllCons(s, []);
    assert [s] + [] == [s];
    TrimOfTrimmed(s);
  }

  lemma ExampleFirstTurn()
    ensures FwdLoop(DoubledExample, 1, 0, 2, "Let us go") == FwdLoop(DoubledExample, 2, 1, 2, "Let us go go")
  {
    ExampleTrimmed("go");
    assert "Let us go" + " " + "go" == "Let us go go";
    ExampleTrimmed("Let us go go");
    ExampleNoTerm();
  }

  lemma ExampleNoTerm()
    ensures !HasTerm("Let us go go")
  {
    HasTermMeans("Let us go go");
  }

  lemma ExampleSecondTurn()
    ensures FwdLoop(DoubledExample, 2, 1, 2, "Let us go go") == "Let us go go home."
  {
    ExampleTrimmed("home.");
    assert "Let us go go" + " " + "home." == "Let us go go home.";
    ExampleTrimmed("Let us go go home.");
    HasTermMeans("Let us go go home.");
  }

  lemma ExampleFirstFragment()
    ensures FirstOr("Let us go go home.") == "Let us go go home."
  {
    var c: String := "Let us go go home.";
    RunsAtTerm(c, 0, |c| - 1);
    RunsNoTerm(c, |c|);
    assert c[0..|c|] == c;
    TrimAllCons(c, []);
    ExampleTrimmed(c);
  }
}
