/**
 * Text utilities of the note engine: the two normalisers, the normalised substring finder
 * that maps a match back into the original text, the "mostly ASCII letters" guard and HTML
 * escaping.
 */
module Text {
  import opened Strings

  /** `“` and `”`. */
  predicate IsCurlyDouble(c: char)
  {
    c as int == 0x201C || c as int == 0x201D
  }

  /** `’`. */
  predicate IsCurlySingle(c: char)
  {
    c as int == 0x2019
  }

  /** The class `[.,!?;:()[\]{}/\\]` that the loose normaliser deletes. */
  predicate IsPunct(c: char)
  {
    var n := c as int;
    n == 46 || n == 44 || n == 33 || n == 63 || n == 59 || n == 58 || n == 40 || n == 41
    || n == 91 || n == 93 || n == 123 || n == 125 || n == 47 || n == 92
  }

  /** `replace(/[“”]/g, '"').replace(/[’']/g, "'")`, one character at a time. */
  function SearchQuote(c: char): char
  {
    if IsCurlyDouble(c) then '"' else if IsCurlySingle(c) then '\'' else c
  }

  /** `replace(/[“”"’']/g, "'")`, one character at a time. */
  function LooseQuote(c: char): char
  {
    if IsCurlyDouble(c) || c == '"' || IsCurlySingle(c) then '\'' else c
  }

  function MapSearchQuotes(s: String): (r: String)
    ensures |r| == |s|
  {
    if s == [] then [] else [SearchQuote(s[0])] + MapSearchQuotes(s[1..])
  }

  lemma {:induction false} MapSearchQuotesAt(s: String)
    ensures forall i | 0 <= i < |s| :: MapSearchQuotes(s)[i] == SearchQuote(s[i])
  {
    if s != [] {
      MapSearchQuotesAt(s[1..]);
      assert forall i | 1 <= i < |s| :: MapSearchQuotes(s)[i] == MapSearchQuotes(s[1..])[i - 1];
    }
  }

  function MapLooseQuotes(s: String): (r: String)
    ensures |r| == |s|
  {
    if s == [] then [] else [LooseQuote(s[0])] + MapLooseQuotes(s[1..])
  }

  lemma {:induction false} MapLooseQuotesAt(s: String)
    ensures forall i | 0 <= i < |s| :: MapLooseQuotes(s)[i] == LooseQuote(s[i])
  {
    if s != [] {
      MapLooseQuotesAt(s[1..]);
      assert forall i | 1 <= i < |s| :: MapLooseQuotes(s)[i] == MapLooseQuotes(s[1..])[i - 1];
    }
  }

  /** `replace(/[.,!?;:()[\]{}/\\]/g, "")`. */
  function StripPunct(s: String): (r: String)
    ensures |r| <= |s|
  {
    if s == [] then []
    else if IsPunct(s[0]) then StripPunct(s[1..])
    else [s[0]] + StripPunct(s[1..])
  }

  predicate NoAdjacentWs(s: String)
  {
    forall i, j | 0 <= i < |s| - 1 && j == i + 1 :: !(IsWs(s[i]) && IsWs(s[j]))
  }

  predicate OnlySpaces(s: String)
  {
    forall i | 0 <= i < |s| :: IsWs(s[i]) ==> s[i] == ' '
  }

  /** `replace(/\s+/g, " ")`: each maximal run of white space becomes one space. */
  function CollapseWs(s: String): (r: String)
    ensures r != [] <==> s != []
  {
    if s == [] then []
    else if IsWs(s[0]) then
      if |s| > 1 && IsWs(s[1]) then CollapseWs(s[1..]) else [' '] + CollapseWs(s[1..])
    else [s[0]] + CollapseWs(s[1..])
  }

  /** The only white space left is single spaces, and the first character keeps its kind. */
  lemma {:induction false} CollapseWsMeans(s: String)
    ensures var r := CollapseWs(s);
      && OnlySpaces(r) && NoAdjacentWs(r)
      && (r != [] ==> (IsWs(r[0]) <==> IsWs(s[0])))
  {
    if s != [] {
      CollapseWsMeans(s[1..]);
    }
  }

  /** A character property that holds of the input and of a space holds of the output. */
  lemma {:induction false} CollapseWsKeeps(s: String, P: char -> bool)
    requires P(' ') && forall i | 0 <= i < |s| :: P(s[i])
    ensures forall i | 0 <= i < |CollapseWs(s)| :: P(CollapseWs(s)[i])
  {
    if s != [] {
      CollapseWsKeeps(s[1..], P);
    }
  }

  lemma {:induction false} StripPunctMeans(s: String)
    ensures forall i | 0 <= i < |StripPunct(s)| :: !IsPunct(StripPunct(s)[i])
  {
    if s != [] {
      StripPunctMeans(s[1..]);
    }
  }

  lemma {:induction false} StripPunctKeeps(s: String, P: char -> bool)
    requires forall i | 0 <= i < |s| :: P(s[i])
    ensures forall i | 0 <= i < |StripPunct(s)| :: P(StripPunct(s)[i])
  {
    if s != [] {
      StripPunctKeeps(s[1..], P);
    }
  }

  lemma TrimKeeps(s: String, P: char -> bool)
    requires forall i | 0 <= i < |s| :: P(s[i])
    ensures forall i | 0 <= i < |Trim(s)| :: P(Trim(s)[i])
  {
    TrimMeans(s);
    var r, k := Trim(s), LeadWs(s);
    forall i | 0 <= i < |r| ensures P(r[i]) {
      assert r[i] == s[k + i];
    }
  }

  lemma TrimKeepsSpacing(s: String)
    requires OnlySpaces(s) && NoAdjacentWs(s)
    ensures OnlySpaces(Trim(s)) && NoAdjacentWs(Trim(s))
  {
    TrimMeans(s);
    var r, k := Trim(s), LeadWs(s);
    forall i | 0 <= i < |r| ensures r[i] == s[k + i] {
    }
  }

  /** Text already in collapsed form is left as it is. */
  lemma {:induction false} CollapseWsFixed(s: String)
    requires OnlySpaces(s) && NoAdjacentWs(s)
    ensures CollapseWs(s) == s
  {
    if s != [] {
      CollapseWsFixed(s[1..]);
    }
  }

  /** `normalize`: lower case, every quote to `'`, punctuation deleted, spaces collapsed, trimmed. */
  function Normalize(s: String): String
  {
    Trim(CollapseWs(StripPunct(MapLooseQuotes(Lower(s)))))
  }

  /** `normalize` leaves no punctuation, no double or curly quote, no upper case, nothing to trim. */
  lemma NormalizeMeans(s: String)
    ensures var r := Normalize(s);
      && (forall i | 0 <= i < |r| :: !IsPunct(r[i]) && r[i] != '"' && !IsCurlyDouble(r[i]) && !IsCurlySingle(r[i]))
      && (forall i | 0 <= i < |r| :: !IsUpper(r[i]))
      && (r == [] || (!IsWs(r[0]) && !IsWs(r[|r| - 1])))
  {
    var p := StripPunct(MapLooseQuotes(Lower(s)));
    var c := CollapseWs(p);
    var P := (x: char) => NormalChar(x);
    StrippedChars(s, p);
    assert P(' ') && forall i | 0 <= i < |p| :: P(p[i]);
    CollapseWsKeeps(p, P);
    TrimKeeps(c, P);
    TrimMeans(c);
  }

  /** A character `normalize` can leave: no punctuation, no double or curly quote, no upper case. */
  predicate NormalChar(x: char)
  {
    !IsPunct(x) && x != '"' && !IsCurlyDouble(x) && !IsCurlySingle(x) && !IsUpper(x)
  }

  /** Lower-casing, straightening quotes and stripping punctuation leave only such characters. */
  lemma StrippedChars(s: String, p: String)
    requires p == StripPunct(MapLooseQuotes(Lower(s)))
    ensures forall i | 0 <= i < |p| :: NormalChar(p[i])
  {
    var q := MapLooseQuotes(Lower(s));
    var Q := (x: char) => x != '"' && !IsCurlyDouble(x) && !IsCurlySingle(x) && !IsUpper(x);
    LowerAt(s);
    MapLooseQuotesAt(Lower(s));
    assert forall i | 0 <= i < |q| :: Q(q[i]);
    StripPunctKeeps(q, Q);
    StripPunctMeans(q);
  }

  /** Lower case, no curly quotes, single spaces only, nothing to trim: `normForSearch`'s range. */
  predicate IsSearchNormal(s: String)
  {
    (forall i | 0 <= i < |s| :: !IsUpper(s[i]) && !IsCurlyDouble(s[i]) && !IsCurlySingle(s[i]))
    && OnlySpaces(s) && NoAdjacentWs(s)
    && (s == [] || (!IsWs(s[0]) && !IsWs(s[|s| - 1])))
  }

  /** `normForSearch`: lower case, curly quotes to straight ones, spaces collapsed, trimmed. */
  function NormForSearch(s: String): String
  {
    Trim(CollapseWs(MapSearchQuotes(Lower(s))))
  }

  lemma NormForSearchMeans(s: String)
    ensures IsSearchNormal(NormForSearch(s))
  {
    var q := MapSearchQuotes(Lower(s));
    var c := CollapseWs(q);
    var P := (x: char) => !IsUpper(x) && !IsCurlyDouble(x) && !IsCurlySingle(x);
    LowerAt(s);
    MapSearchQuotesAt(Lower(s));
    assert forall i | 0 <= i < |q| :: P(q[i]);
    CollapseWsKeeps(q, P);
    CollapseWsMeans(q);
    TrimKeeps(c, P);
    TrimKeepsSpacing(c);
    TrimMeans(c);
  }

  /** Normalising for search twice is normalising once. */
  lemma NormForSearchIdempotent(s: String)
    ensures NormForSearch(NormForSearch(s)) == NormForSearch(s)
  {
    var n := NormForSearch(s);
    NormForSearchMeans(s);
    LowerAt(n);
    assert Lower(n) == n;
    MapSearchQuotesAt(n);
    assert MapSearchQuotes(Lower(n)) == n;
    CollapseWsFixed(n);
    TrimOfTrimmed(n);
  }

  /**
   * The regular expression `findIndexNormalized` builds from a needle: special characters are
   * escaped, so every other character stands for itself (case-insensitively); `“` and `”`
   * become `["“”]`, `’` and `'` become `['’]`, and a run of white space becomes `\s+`.
   */
  datatype Atom = Lit(c: char) | DoubleQuoteClass | SingleQuoteClass | WsRun

  function PatternOf(needle: String): (p: seq<Atom>)
    decreases |needle|
  {
    if needle == [] then []
    else if IsWs(needle[0]) then
      if |needle| > 1 && IsWs(needle[1]) then PatternOf(needle[1..]) else [WsRun] + PatternOf(needle[1..])
    else if IsCurlyDouble(needle[0]) then [DoubleQuoteClass] + PatternOf(needle[1..])
    else if IsCurlySingle(needle[0]) || needle[0] == '\'' then [SingleQuoteClass] + PatternOf(needle[1..])
    else [Lit(needle[0])] + PatternOf(needle[1..])
  }

  predicate AtomAccepts(a: Atom, c: char)
    requires !a.WsRun?
  {
    match a
    case Lit(x) => LowerChar(x) == LowerChar(c)
    case DoubleQuoteClass => c == '"' || IsCurlyDouble(c)
    case SingleQuoteClass => c == '\'' || IsCurlySingle(c)
  }

  /** The pattern matches some prefix of `t` (the regular expression engine backtracks). */
  predicate MatchesPrefix(p: seq<Atom>, t: String)
    decreases |p|, |t|
  {
    if p == [] then true
    else if t == [] then false
    else if p[0].WsRun? then
      IsWs(t[0]) && (MatchesPrefix(p[1..], t[1..]) || MatchesPrefix(p, t[1..]))
    else AtomAccepts(p[0], t[0]) && MatchesPrefix(p[1..], t[1..])
  }

  /** The first offset at or after `k` where the pattern matches, or -1: `String.prototype.match`. */
  function FirstMatchFrom(p: seq<Atom>, h: String, k: nat): (r: int)
    requires k <= |h|
    decreases |h| - k
    ensures r == -1 || (k <= r <= |h| && MatchesPrefix(p, h[r..]))
    ensures forall j | k <= j <= |h| && (r == -1 || j < r) :: !MatchesPrefix(p, h[j..])
  {
    if MatchesPrefix(p, h[k..]) then k
    else if k == |h| then -1
    else FirstMatchFrom(p, h, k + 1)
  }

  /**
   * `findIndexNormalized`: -1 unless the search-normalised needle is non-empty and occurs in the
   * search-normalised haystack; otherwise the first offset of the original haystack where the
   * needle's pattern matches, or -1 when it matches nowhere.
   */
  function FindIndexNormalized(haystack: String, needle: String): (r: int)
    ensures r == -1 || 0 <= r <= |haystack|
    ensures NormForSearch(needle) == [] ==> r == -1
    ensures !Contains(NormForSearch(haystack), NormForSearch(needle)) ==> r == -1
    ensures r >= 0 ==> MatchesPrefix(PatternOf(needle), haystack[r..])
    ensures r >= 0 ==> forall j | 0 <= j < r :: !MatchesPrefix(PatternOf(needle), haystack[j..])
    ensures r == -1 && NormForSearch(needle) != [] && Contains(NormForSearch(haystack), NormForSearch(needle))
            ==> forall j | 0 <= j <= |haystack| :: !MatchesPrefix(PatternOf(needle), haystack[j..])
  {
    var hn := NormForSearch(haystack);
    var nn := NormForSearch(needle);
    if nn == [] then -1
    else if IndexOf(hn, nn) < 0 then -1
    else FirstMatchFrom(PatternOf(needle), haystack, 0)
  }

  /** Number of ASCII letters `[A-Za-z]`. */
  function CountAsciiLetters(s: String): (n: nat)
    ensures n <= |s|
  {
    if s == [] then 0
    else (if 'A' <= s[0] <= 'Z' || 'a' <= s[0] <= 'z' then 1 else 0) + CountAsciiLetters(s[1..])
  }

  /** Number of characters outside `\s`. */
  function CountNonWs(s: String): (n: nat)
    ensures n <= |s|
  {
    if s == [] then 0
    else (if IsWs(s[0]) then 0 else 1) + CountNonWs(s[1..])
  }

  lemma {:induction false} LettersAreNonWs(s: String)
    ensures CountAsciiLetters(s) <= CountNonWs(s)
  {
    if s != [] {
      LettersAreNonWs(s[1..]);
    }
  }

  /** `isAsciiSentence`: some non-space text, of which at least 60% are ASCII letters. */
  function IsAsciiSentence(s: String): (b: bool)
    ensures b <==> CountNonWs(s) > 0 && 5 * CountAsciiLetters(s) >= 3 * CountNonWs(s)
  {
    var letters := CountAsciiLetters(s);
    var total := CountNonWs(s);
    if total > 0 then
      RatioAtLeastThreeFifths(letters, total);
      (letters as real) / (total as real) >= 0.6
    else false
  }

  lemma RatioAtLeastThreeFifths(l: nat, t: nat)
    requires t > 0
    ensures (l as real) / (t as real) >= 0.6 <==> 5 * l >= 3 * t
  {
    var lr, tr := l as real, t as real;
    var x := lr / tr;
    assert x * tr == lr;
    assert 5 * l >= 3 * t <==> lr >= 0.6 * tr;
    if x >= 0.6 {
      ScaleAtLeast(x, 0.6, tr);
    } else {
      ScaleAtLeast(0.6, x, tr);
    }
  }

  lemma ScaleAtLeast(a: real, b: real, c: real)
    requires a >= b && c > 0.0
    ensures a * c >= b * c
  {
  }

  function EscapeChar(c: char): String
  {
    if c == '&' then "&amp;"
    else if c == '<' then "&lt;"
    else if c == '>' then "&gt;"
    else if c == '"' then "&quot;"
    else if c == '\'' then "&#39;"
    else [c]
  }

  /** Escaping one character at a time. */
  function EscapeEach(s: String): (r: String)
  {
    if s == [] then [] else EscapeChar(s[0]) + EscapeEach(s[1..])
  }

  /** `escapeHtml`: the chain of five global replacements, `&` first. */
  function EscapeChain(s: String): String
  {
    var a := ReplaceChar(s, '&', "&amp;");
    var b := ReplaceChar(a, '<', "&lt;");
    var c := ReplaceChar(b, '>', "&gt;");
    var d := ReplaceChar(c, '"', "&quot;");
    ReplaceChar(d, '\'', "&#39;")
  }

  lemma ReplaceCharOne(x: char, c: char, rep: String)
    ensures ReplaceChar([x], c, rep) == if x == c then rep else [x]
  {
    assert [x][1..] == [];
  }

  /** Replacing a character that does not occur leaves the text as it is. */
  lemma {:induction false} ReplaceCharAbsent(s: String, c: char, rep: String)
    requires forall i | 0 <= i < |s| :: s[i] != c
    ensures ReplaceChar(s, c, rep) == s
  {
    if s != [] {
      ReplaceCharAbsent(s[1..], c, rep);
    }
  }

  /** The replacements after the one that fired leave its entity alone. */
  lemma EscapeTail(e: String, from: nat)
    requires 1 <= from <= 4
    requires forall i | 0 <= i < |e| :: e[i] != '<' && e[i] != '>' && e[i] != '"' && e[i] != '\''
    ensures var b := if from <= 1 then ReplaceChar(e, '<', "&lt;") else e;
            var c := if from <= 2 then ReplaceChar(b, '>', "&gt;") else b;
            var d := if from <= 3 then ReplaceChar(c, '"', "&quot;") else c;
            ReplaceChar(d, '\'', "&#39;") == e
  {
    ReplaceCharAbsent(e, '<', "&lt;");
    ReplaceCharAbsent(e, '>', "&gt;");
    ReplaceCharAbsent(e, '"', "&quot;");
    ReplaceCharAbsent(e, '\'', "&#39;");
  }

  lemma EscapeChainOne(c: char)
    ensures EscapeChain([c]) == EscapeChar(c)
  {
    ReplaceCharOne(c, '&', "&amp;");
    if c == '&' {
      EscapeTail("&amp;", 1);
    } else {
      ReplaceCharOne(c, '<', "&lt;");
      if c == '<' {
        EscapeTail("&lt;", 2);
      } else {
        ReplaceCharOne(c, '>', "&gt;");
        if c == '>' {
          EscapeTail("&gt;", 3);
        } else {
          ReplaceCharOne(c, '"', "&quot;");
          if c == '"' {
            EscapeTail("&quot;", 4);
          } else {
            ReplaceCharOne(c, '\'', "&#39;");
          }
        }
      }
    }
  }

  lemma EscapeChainAppend(a: String, b: String)
    ensures EscapeChain(a + b) == EscapeChain(a) + EscapeChain(b)
  {
    ReplaceCharAppend(a, b, '&', "&amp;");
    var a1, b1 := ReplaceChar(a, '&', "&amp;"), ReplaceChar(b, '&', "&amp;");
    ReplaceCharAppend(a1, b1, '<', "&lt;");
    var a2, b2 := ReplaceChar(a1, '<', "&lt;"), ReplaceChar(b1, '<', "&lt;");
    ReplaceCharAppend(a2, b2, '>', "&gt;");
    var a3, b3 := ReplaceChar(a2, '>', "&gt;"), ReplaceChar(b2, '>', "&gt;");
    ReplaceCharAppend(a3, b3, '"', "&quot;");
    var a4, b4 := ReplaceChar(a3, '"', "&quot;"), ReplaceChar(b3, '"', "&quot;");
    ReplaceCharAppend(a4, b4, '\'', "&#39;");
  }

  /** The chain of replacements escapes the characters one at a time. */
  lemma {:induction false} EscapeChainIsPerChar(s: String)
    ensures EscapeChain(s) == EscapeEach(s)
  {
    if s != [] {
      assert s == [s[0]] + s[1..];
      EscapeChainAppend([s[0]], s[1..]);
      EscapeChainOne(s[0]);
      EscapeChainIsPerChar(s[1..]);
    }
  }

  /** `escapeHtml`: its output has no `<`, `>`, `"` or `'`. */
  function EscapeHtml(s: String): (r: String)
    ensures r == EscapeEach(s)
    ensures '<' !in r && '>' !in r && '"' !in r && '\'' !in r
  {
    EscapeChainIsPerChar(s);
    EscapeEachSafe(s);
    EscapeChain(s)
  }

  lemma {:induction false} EscapeEachSafe(s: String)
    ensures var r := EscapeEach(s); '<' !in r && '>' !in r && '"' !in r && '\'' !in r
  {
    if s != [] {
      EscapeEachSafe(s[1..]);
      EscapeCharSafe(s[0]);
    }
  }

  lemma EscapeCharSafe(c: char)
    ensures var r := EscapeChar(c); '<' !in r && '>' !in r && '"' !in r && '\'' !in r
  {
  }

  /** Escaping distributes over concatenation. */
  lemma {:induction false} EscapeHtmlAppend(a: String, b: String)
    ensures EscapeHtml(a + b) == EscapeHtml(a) + EscapeHtml(b)
  {
    EscapeChainAppend(a, b);
    EscapeChainIsPerChar(a + b);
    EscapeChainIsPerChar(a);
    EscapeChainIsPerChar(b);
  }

  /** Decodes the five entities `escapeHtml` produces. */
  function Unescape(t: String): String
    decreases |t|
  {
    if t == [] then []
    else if |t| >= 5 && t[..5] == "&amp;" then ['&'] + Unescape(t[5..])
    else if |t| >= 4 && t[..4] == "&lt;" then ['<'] + Unescape(t[4..])
    else if |t| >= 4 && t[..4] == "&gt;" then ['>'] + Unescape(t[4..])
    else if |t| >= 6 && t[..6] == "&quot;" then ['"'] + Unescape(t[6..])
    else if |t| >= 5 && t[..5] == "&#39;" then ['\''] + Unescape(t[5..])
    else [t[0]] + Unescape(t[1..])
  }

  /** Decoding the escape of one character gives the character back, whatever follows it. */
  lemma UnescapeOne(c: char, rest: String)
    ensures Unescape(EscapeChar(c) + rest) == [c] + Unescape(rest)
  {
    if c == '&' {
      UnescapeAmp(rest);
    } else if c == '<' {
      UnescapeLt(rest);
    } else if c == '>' {
      UnescapeGt(rest);
    } else if c == '"' {
      UnescapeQuot(rest);
    } else if c == '\'' {
      UnescapeApos(rest);
    } else {
      assert EscapeChar(c) == [c];
      UnescapePlain(c, rest);
    }
  }

  lemma UnescapePlain(c: char, rest: String)
    requires c != '&'
    ensures Unescape([c] + rest) == [c] + Unescape(rest)
  {
    var t := [c] + rest;
    assert t[0] == c && t[1..] == rest;
    assert (|t| >= 4 ==> t[..4][0] == c) && (|t| >= 5 ==> t[..5][0] == c) && (|t| >= 6 ==> t[..6][0] == c);
  }

  lemma UnescapeAmp(rest: String)
    ensures Unescape("&amp;" + rest) == ['&'] + Unescape(rest)
  {
    var t := "&amp;" + rest;
    assert t[..5] == "&amp;" && t[5..] == rest;
  }

  lemma UnescapeLt(rest: String)
    ensures Unescape("&lt;" + rest) == ['<'] + Unescape(rest)
  {
    var t := "&lt;" + rest;
    assert t[1] == 'l' && t[..4] == "&lt;" && t[4..] == rest;
  }

  lemma UnescapeGt(rest: String)
    ensures Unescape("&gt;" + rest) == ['>'] + Unescape(rest)
  {
    var t := "&gt;" + rest;
    assert t[1] == 'g' && t[..4] == "&gt;" && t[4..] == rest;
  }

  lemma UnescapeQuot(rest: String)
    ensures Unescape("&quot;" + rest) == ['"'] + Unescape(rest)
  {
    var t := "&quot;" + rest;
    assert t[1] == 'q' && t[..6] == "&quot;" && t[6..] == rest;
  }

  lemma UnescapeApos(rest: String)
    ensures Unescape("&#39;" + rest) == ['\''] + Unescape(rest)
  {
    var t := "&#39;" + rest;
    assert t[1] == '#' && t[..5] == "&#39;" && t[5..] == rest;
  }

  /** Decoding the entities recovers the escaped text. */
  lemma {:induction false} UnescapeEscapeHtml(s: String)
    ensures Unescape(EscapeHtml(s)) == s
  {
    if s != [] {
      UnescapeEscapeHtml(s[1..]);
      UnescapeOne(s[0], EscapeEach(s[1..]));
    }
  }
}
