/**
 * The JavaScript string operations the note engine is built from (`trim`, `indexOf`,
 * `includes`, `split`, `slice`, `toLowerCase`, a global one-character `replace`), stated
 * over sequences of code points.
 */
module Strings {

  type String = seq<char>

  datatype Option<T> = None | Some(value: T)

  /**
   * The characters of JavaScript's `\s` class, which is also the set `trim()` removes: tab to
   * carriage return, space, U+00A0, U+1680, U+2000 to U+200A, U+2028, U+2029, U+202F, U+205F,
   * U+3000 and U+FEFF (compared by code point).
   */
  predicate IsWs(c: char)
  {
    var n := c as int;
    (9 <= n <= 13) || n == 32 || n == 0xA0 || n == 0x1680 || (0x2000 <= n <= 0x200A)
    || n == 0x2028 || n == 0x2029 || n == 0x202F || n == 0x205F || n == 0x3000 || n == 0xFEFF
  }

  predicate AllWs(s: String)
  {
    forall i | 0 <= i < |s| :: IsWs(s[i])
  }

  /** `A` to `Z`. */
  predicate IsUpper(c: char)
  {
    65 <= c as int <= 90
  }

  /** `toLowerCase` on one character, restricted to the ASCII letters. */
  function LowerChar(c: char): (r: char)
    ensures !IsUpper(r)
    ensures !IsUpper(c) ==> r == c
    ensures IsWs(r) <==> IsWs(c)
  {
    if IsUpper(c) then (c as int + 32) as char else c
  }

  /** `toLowerCase`, one character at a time. */
  function Lower(s: String): (r: String)
    ensures |r| == |s|
  {
    if s == [] then [] else [LowerChar(s[0])] + Lower(s[1..])
  }

  lemma {:induction false} LowerAt(s: String)
    ensures forall i | 0 <= i < |s| :: Lower(s)[i] == LowerChar(s[i])
  {
    if s != [] {
      LowerAt(s[1..]);
      assert forall i | 1 <= i < |s| :: Lower(s)[i] == Lower(s[1..])[i - 1];
    }
  }

  /** `Lower(s)` is `w` when each character of `s` lowers to the one of `w` at its place. */
  lemma LowerIs(s: String, w: String)
    requires |s| == |w| && forall i | 0 <= i < |s| :: LowerChar(s[i]) == w[i]
    ensures Lower(s) == w
  {
    LowerAt(s);
  }

  /** The end of the white-space run that starts at `i`. */
  function WsRunEnd(s: String, i: nat): (n: nat)
    requires i <= |s|
    decreases |s| - i
    ensures i <= n <= |s|
    ensures forall k | i <= k < n :: IsWs(s[k])
    ensures n == |s| || !IsWs(s[n])
  {
    if i < |s| && IsWs(s[i]) then WsRunEnd(s, i + 1) else i
  }

  /** The start of the white-space run that ends at `j`. */
  function WsRunStart(s: String, j: nat): (n: nat)
    requires j <= |s|
    ensures n <= j
    ensures forall k | n <= k < j :: IsWs(s[k])
    ensures n == 0 || !IsWs(s[n - 1])
  {
    if j > 0 && IsWs(s[j - 1]) then WsRunStart(s, j - 1) else j
  }

  /** Number of leading white-space characters. */
  function LeadWs(s: String): (n: nat)
    ensures n <= |s|
    ensures AllWs(s[..n])
    ensures n == |s| || !IsWs(s[n])
  {
    WsRunEnd(s, 0)
  }

  /** `trimStart()`: drops the leading white space. */
  function TrimStart(s: String): (r: String)
    ensures |r| <= |s| && r == s[|s| - |r|..]
    ensures AllWs(s[..|s| - |r|])
    ensures r != [] ==> !IsWs(r[0])
  {
    s[LeadWs(s)..]
  }

  /** `trimEnd()`, also `replace(/\s+$/, "")`: drops the trailing white space. */
  function TrimEnd(s: String): (r: String)
    ensures |r| <= |s| && r == s[..|r|]
    ensures AllWs(s[|r|..])
    ensures r != [] ==> !IsWs(r[|r| - 1])
  {
    var n := WsRunStart(s, |s|);
    assert forall k | 0 <= k < |s[n..]| :: s[n..][k] == s[n + k];
    s[..n]
  }

  /** `trim()`: drops white space from both ends. */
  function Trim(s: String): String
  {
    var lo := TrimLo(s, 0, |s|);
    s[lo..TrimHi(s, lo, |s|)]
  }

  /** The first non-space position in `s[i..j]`, or `j`. */
  function TrimLo(s: String, i: nat, j: nat): (k: nat)
    requires i <= j <= |s|
    ensures i <= k <= j
    decreases j - i
  {
    if i < j && IsWs(s[i]) then TrimLo(s, i + 1, j) else i
  }

  /** The end of the last non-space position in `s[i..j]`, or `i`. */
  function TrimHi(s: String, i: nat, j: nat): (k: nat)
    requires i <= j <= |s|
    ensures i <= k <= j
    decreases j - i
  {
    if i < j && IsWs(s[j - 1]) then TrimHi(s, i, j - 1) else j
  }

  /** `LeadWs` is the only length of a white-space prefix followed by a non-space or the end. */
  lemma LeadWsUnique(s: String, m: nat)
    requires m <= |s| && AllWs(s[..m]) && (m == |s| || !IsWs(s[m]))
    ensures m == LeadWs(s)
  {
  }

  /**
   * `r` is `s` trimmed: the part of `s` after its leading white space, starting and ending
   * with a non-space character, empty exactly when `s` is blank, and followed only by white
   * space.
   */
  predicate TrimmedOf(s: String, r: String)
  {
    && LeadWs(s) + |r| <= |s| && r == s[LeadWs(s)..LeadWs(s) + |r|]
    && (r != [] ==> !IsWs(r[0]) && !IsWs(r[|r| - 1]))
    && (r == [] <==> AllWs(s))
    && AllWs(s[LeadWs(s) + |r|..])
  }

  lemma TrimMeans(s: String)
    ensures TrimmedOf(s, Trim(s))
  {
    var lo := TrimLo(s, 0, |s|);
    var hi := TrimHi(s, lo, |s|);
    TrimLoMeans(s, 0, |s|);
    TrimHiMeans(s, lo, |s|);
    assert s[0..lo] == s[..lo];
    LeadWsUnique(s, lo);
    if lo < |s| {
      assert hi > lo;
      assert !AllWs(s) by { assert !IsWs(s[lo]); }
    } else {
      assert AllWs(s) by {
        assert forall k | 0 <= k < |s| :: s[k] == s[..lo][k];
      }
    }
  }

  lemma {:induction false} TrimLoMeans(s: String, i: nat, j: nat)
    requires i <= j <= |s|
    ensures var k := TrimLo(s, i, j);
      && (forall m | i <= m < k :: IsWs(s[m]))
      && (k == j || !IsWs(s[k]))
    decreases j - i
  {
    if i < j && IsWs(s[i]) {
      TrimLoMeans(s, i + 1, j);
    }
  }

  lemma {:induction false} TrimHiMeans(s: String, i: nat, j: nat)
    requires i <= j <= |s|
    ensures var k := TrimHi(s, i, j);
      && (forall m | k <= m < j :: IsWs(s[m]))
      && (k == i || !IsWs(s[k - 1]))
    decreases j - i
  {
    if i < j && IsWs(s[j - 1]) {
      TrimHiMeans(s, i, j - 1);
    }
  }

  /** Trimming keeps every other character: it occurs in the trimmed text exactly when in the text. */
  lemma TrimKeepsNonWs(s: String, c: char)
    requires !IsWs(c)
    ensures c in Trim(s) <==> c in s
  {
    var lo := TrimLo(s, 0, |s|);
    var hi := TrimHi(s, lo, |s|);
    TrimLoMeans(s, 0, |s|);
    TrimHiMeans(s, lo, |s|);
    if c in s {
      var i :| 0 <= i < |s| && s[i] == c;
      assert Trim(s)[i - lo] == c;
    }
  }

  /** `!s.trim()`: the text is empty or only white space (`Trim` shows the two agree). */
  predicate IsBlank(s: String)
  {
    AllWs(s)
  }

  /** A text is blank exactly when trimming leaves nothing. */
  lemma BlankIsTrimEmpty(s: String)
    ensures IsBlank(s) <==> Trim(s) == []
  {
    TrimMeans(s);
  }

  lemma TrimOfTrimmed(s: String)
    requires s == [] || (!IsWs(s[0]) && !IsWs(s[|s| - 1]))
    ensures Trim(s) == s
  {
  }

  /** Trimming twice is trimming once. */
  lemma TrimIdempotent(s: String)
    ensures Trim(Trim(s)) == Trim(s)
  {
    TrimMeans(s);
    TrimOfTrimmed(Trim(s));
  }

  /** Concatenation regrouped. */
  lemma SeqAssoc<T>(a: seq<T>, b: seq<T>, c: seq<T>)
    ensures (a + b) + c == a + (b + c)
  {
  }

  /** `n` occurs in `h` at offset `k`. */
  predicate OccursAt(h: String, n: String, k: int)
  {
    0 <= k && k + |n| <= |h| && h[k..k + |n|] == n
  }

  function IndexOfFrom(h: String, n: String, from: nat): (r: int)
    requires from <= |h|
    decreases |h| - from
    ensures r == -1 || (from <= r && OccursAt(h, n, r))
    ensures forall k | from <= k && (r == -1 || k < r) :: !OccursAt(h, n, k)
  {
    if OccursAt(h, n, from) then from
    else if from == |h| then -1
    else IndexOfFrom(h, n, from + 1)
  }

  /** `h.indexOf(n)`: the first offset where `n` occurs, or -1. */
  function IndexOf(h: String, n: String): (r: int)
    ensures r == -1 || OccursAt(h, n, r)
    ensures forall k | 0 <= k && (r == -1 || k < r) :: !OccursAt(h, n, k)
  {
    IndexOfFrom(h, n, 0)
  }

  /** `h.includes(n)`. */
  predicate Contains(h: String, n: String)
  {
    IndexOf(h, n) >= 0
  }

  lemma ContainsAt(h: String, n: String, k: int)
    requires OccursAt(h, n, k)
    ensures Contains(h, n)
  {
  }

  lemma IndexOfChar(s: String, c: char)
    ensures IndexOf(s, [c]) == -1 ==> c !in s
    ensures IndexOf(s, [c]) >= 0 ==> IndexOf(s, [c]) < |s| && s[IndexOf(s, [c])] == c && c !in s[..IndexOf(s, [c])]
  {
    var r := IndexOf(s, [c]);
    forall k | 0 <= k < |s| && s[k] == c
      ensures r != -1 && r <= k
    {
      assert s[k..k + 1] == [c];
      assert OccursAt(s, [c], k);
    }
    if r >= 0 {
      assert s[r..r + 1] == [c];
    }
  }

  function JoinWith(parts: seq<String>, sep: char): String
  {
    if parts == [] then []
    else if |parts| == 1 then parts[0]
    else parts[0] + [sep] + JoinWith(parts[1..], sep)
  }

  /** `s.split(sep)` for a one-character separator. */
  function SplitOn(s: String, sep: char): (r: seq<String>)
    decreases |s|
    ensures |r| >= 1
  {
    var i := IndexOf(s, [sep]);
    if i < 0 then [s]
    else [s[..i]] + SplitOn(s[i + 1..], sep)
  }

  /** The pieces hold no separator. */
  lemma {:induction false} SplitOnPieces(s: String, sep: char)
    decreases |s|
    ensures forall k | 0 <= k < |SplitOn(s, sep)| :: sep !in SplitOn(s, sep)[k]
  {
    IndexOfChar(s, sep);
    var i := IndexOf(s, [sep]);
    if i >= 0 {
      var rest := SplitOn(s[i + 1..], sep);
      SplitOnPieces(s[i + 1..], sep);
      var r := SplitOn(s, sep);
      assert r == [s[..i]] + rest;
      forall k | 0 <= k < |r|
        ensures sep !in r[k]
      {
        if k > 0 {
          assert r[k] == rest[k - 1];
        }
      }
    }
  }

  /** Joining the pieces with the separator gives back the text. */
  lemma {:induction false} SplitOnJoin(s: String, sep: char)
    decreases |s|
    ensures JoinWith(SplitOn(s, sep), sep) == s
  {
    IndexOfChar(s, sep);
    var i := IndexOf(s, [sep]);
    if i >= 0 {
      var rest := SplitOn(s[i + 1..], sep);
      SplitOnJoin(s[i + 1..], sep);
      assert s == s[..i] + [sep] + s[i + 1..];
      var r := SplitOn(s, sep);
      assert r == [s[..i]] + rest;
      assert r[1..] == rest;
    }
  }

  /** `s.slice(a, b)` for non-negative bounds: both are clamped to the length. */
  function Slice(s: String, a: nat, b: nat): (r: String)
    ensures a <= b <= |s| ==> r == s[a..b]
    ensures |r| <= |s|
    ensures b <= a ==> r == []
  {
    var lo := if a < |s| then a else |s|;
    var hi := if b < |s| then b else |s|;
    if lo < hi then s[lo..hi] else []
  }

  /** `s.replace(/c/g, rep)`: every occurrence of `c` replaced by `rep`. */
  function ReplaceChar(s: String, c: char, rep: String): (r: String)
    ensures c !in s ==> r == s
  {
    if s == [] then []
    else (if s[0] == c then rep else [s[0]]) + ReplaceChar(s[1..], c, rep)
  }

  lemma {:induction false} ReplaceCharAppend(a: String, b: String, c: char, rep: String)
    ensures ReplaceChar(a + b, c, rep) == ReplaceChar(a, c, rep) + ReplaceChar(b, c, rep)
  {
    if a != [] {
      assert (a + b)[1..] == a[1..] + b;
      ReplaceCharAppend(a[1..], b, c, rep);
    } else {
      assert a + b == b;
    }
  }
}
