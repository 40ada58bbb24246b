/**
 * The engine's fixed thresholds and its four recognisers: the glossary sentinel, the
 * glossary-header pattern, the numeric section header and the divider rule. Each pattern is
 * written out as a deterministic scan; none of them needs backtracking, because every
 * character class involved is disjoint from whatever must follow it.
 */
module Constants {
  import opened Strings

  /** A tick more than this many seconds behind the previous one is a seek-back. */
  const SEEK_BACK_THRESHOLD: real := 1.5
  /** Shortest highlight needle worth searching for. */
  const MIN_SEARCH_LEN: nat := 3
  /** Lines kept above and below a hit by the context fallback. */
  const CONTEXT_LINES_UP: nat := 4
  const CONTEXT_LINES_DOWN: nat := 6
  /** The literal glossary marker. */
  const VOCAB_SENTINEL: String := ":::VOCAB:::"

  datatype CharClass = Ws | Hws | Digit | Glyph | Bullet | SpaceTab

  predicate IsDigit(c: char)
  {
    '0' <= c <= '9'
  }

  /** `[^\S\r\n]`: white space other than CR and LF. */
  predicate IsHws(c: char)
  {
    IsWs(c) && c != '\r' && c != '\n'
  }

  /** The divider glyphs ─ ━ ┄ ┅ _ - = – —. */
  predicate IsDividerGlyph(c: char)
  {
    c == '\U{2500}' || c == '\U{2501}' || c == '\U{2504}' || c == '\U{2505}'
    || c == '_' || c == '-' || c == '=' || c == '\U{2013}' || c == '\U{2014}'
  }

  /** The bullet class `[+\-•*o●◦·‣▪▫]` under the case-insensitive flag. */
  predicate IsBullet(c: char)
  {
    c == '+' || c == '-' || c == '\U{2022}' || c == '*' || c == 'o' || c == 'O'
    || c == '\U{25CF}' || c == '\U{25E6}' || c == '\U{00B7}' || c == '\U{2023}'
    || c == '\U{25AA}' || c == '\U{25AB}'
  }

  /** The separator `(?:-|:|：|–|—)` after the glossary keyword. */
  predicate IsHeaderSep(c: char)
  {
    c == '-' || c == ':' || c == '\U{FF1A}' || c == '\U{2013}' || c == '\U{2014}'
  }

  predicate InClass(c: char, k: CharClass)
  {
    match k
    case Ws => IsWs(c)
    case Hws => IsHws(c)
    case Digit => IsDigit(c)
    case Glyph => IsDividerGlyph(c)
    case Bullet => IsBullet(c)
    case SpaceTab => c == ' ' || c == '\t'
  }

  /** Length of the longest run of class `k` starting at `p` (a greedy `[k]*`). */
  function RunFrom(s: String, p: nat, k: CharClass): (n: nat)
    requires p <= |s|
    decreases |s| - p
    ensures p + n <= |s|
  {
    if p < |s| && InClass(s[p], k) then 1 + RunFrom(s, p + 1, k) else 0
  }

  /** The run is all of class `k` and stops at the end or at a character outside it. */
  lemma {:induction false} RunFromMeans(s: String, p: nat, k: CharClass)
    requires p <= |s|
    decreases |s| - p
    ensures var n := RunFrom(s, p, k);
      && (forall i | p <= i < p + n :: InClass(s[i], k))
      && (p + n == |s| || !InClass(s[p + n], k))
  {
    if p < |s| && InClass(s[p], k) {
      RunFromMeans(s, p + 1, k);
    }
  }

  /** A run of class `k` that cannot be extended is the greedy run. */
  lemma {:induction false} RunFromExact(s: String, p: nat, n: nat, k: CharClass)
    requires p + n <= |s|
    requires forall i | p <= i < p + n :: InClass(s[i], k)
    requires p + n == |s| || !InClass(s[p + n], k)
    ensures RunFrom(s, p, k) == n
    decreases n
  {
    if n > 0 {
      RunFromExact(s, p + 1, n - 1, k);
    }
  }

  /** `/^\s*\d+\.\s*$/`: a line holding only a section number such as `46.`. */
  predicate IsSectionHeaderLine(s: String)
  {
    var w := RunFrom(s, 0, Ws);
    var d := RunFrom(s, w, Digit);
    d >= 1 && w + d < |s| && s[w + d] == '.' && AllWs(s[w + d + 1..])
  }

  /** `/^[─━┄┅_\-=–—]{6,}\s*$/`: a rule of at least six divider glyphs. */
  predicate IsSectionDividerLine(s: String)
  {
    var g := RunFrom(s, 0, Glyph);
    g >= 6 && AllWs(s[g..])
  }

  /** A section boundary line: a section number or a divider rule. */
  predicate IsBoundaryLine(s: String)
  {
    IsSectionHeaderLine(s) || IsSectionDividerLine(s)
  }

  /** The header pattern accepts every line of the form white space, digits, `.`, white space. */
  lemma SectionHeaderLineAccepts(a: String, ds: String, b: String)
    requires AllWs(a) && AllWs(b)
    requires |ds| >= 1 && forall i | 0 <= i < |ds| :: IsDigit(ds[i])
    ensures IsSectionHeaderLine(a + ds + "." + b)
  {
    var s := a + ds + "." + b;
    RunFromExact(s, 0, |a|, Ws);
    RunFromExact(s, |a|, |ds|, Digit);
    assert s[|a| + |ds| + 1..] == b;
  }

  /** The header pattern needs the `.`: `46` and `46.a` are not section headers, `46.` is. */
  lemma SectionHeaderLineExamples()
    ensures IsSectionHeaderLine("46.")
    ensures !IsSectionHeaderLine("46")
    ensures !IsSectionHeaderLine("46.a")
  {
    SectionHeaderLineAccepts("", "46", "");
    assert "" + "46" + "." + "" == "46.";
    var s := "46";
    RunFromExact(s, 0, 0, Ws);
    RunFromExact(s, 0, 2, Digit);
    var t := "46.a";
    RunFromExact(t, 0, 0, Ws);
    RunFromExact(t, 0, 2, Digit);
    assert t[3..] == "a" && !IsWs(t[3..][0]);
  }

  /** The divider pattern accepts six or more glyphs followed only by white space. */
  lemma DividerLineAccepts(g: String, b: String)
    requires |g| >= 6 && forall i | 0 <= i < |g| :: IsDividerGlyph(g[i])
    requires AllWs(b)
    ensures IsSectionDividerLine(g + b)
  {
    var s := g + b;
    RunFromExact(s, 0, |g|, Glyph);
    assert s[|g|..] == b;
  }

  /** A divider line starts with six glyphs; in particular leading white space is refused. */
  lemma DividerLineStartsWithGlyphs(s: String)
    requires IsSectionDividerLine(s)
    ensures |s| >= 6 && forall i | 0 <= i < 6 :: IsDividerGlyph(s[i])
  {
    RunFromMeans(s, 0, Glyph);
  }

  /** Case-insensitive match of the lower-case word `w` at `p`. */
  predicate MatchesCI(s: String, p: nat, w: String)
  {
    p + |w| <= |s| && Lower(s[p..p + |w|]) == w
  }

  /** `vocab(?:ulary)?|vocabulary|từ[^\S\r\n]*vựng` at `p`: the length matched, if any. */
  function KeywordLen(s: String, p: nat): (r: Option<nat>)
    requires p <= |s|
    ensures r.Some? ==> p + r.value <= |s|
  {
    if MatchesCI(s, p, "vocabulary") then Some(10)
    else if MatchesCI(s, p, "vocab") then Some(5)
    else if MatchesCI(s, p, "t\U{1EEB}") then
      var w := RunFrom(s, p + 2, Hws);
      if MatchesCI(s, p + 2 + w, "v\U{1EF1}ng") then Some(2 + w + 4) else None
    else None
  }

  /** `(?:[bullets]+[.)]?[^\S\r\n]*)?` at `p`: zero when no bullet stands there. */
  function BulletGroupLen(s: String, p: nat): (n: nat)
    requires p <= |s|
    ensures p + n <= |s|
  {
    var b := RunFrom(s, p, Bullet);
    if b == 0 then 0
    else
      var d := if p + b < |s| && (s[p + b] == '.' || s[p + b] == ')') then 1 else 0;
      b + d + RunFrom(s, p + b + d, Hws)
  }

  /** `(?:key[^\S\r\n]*)?` at `p`. */
  function KeyGroupLen(s: String, p: nat): (n: nat)
    requires p <= |s|
    ensures p + n <= |s|
  {
    if MatchesCI(s, p, "key") then 3 + RunFrom(s, p + 3, Hws) else 0
  }

  datatype Pattern = HeaderPattern | SentinelPattern

  /** What the glossary header pattern takes before its keyword: blanks, the bullet group, the `key` group. */
  function LeadLen(s: String): (n: nat)
    ensures n <= |s|
  {
    var a := RunFrom(s, 0, Hws);
    var b := BulletGroupLen(s, a);
    a + b + KeyGroupLen(s, a + b)
  }

  /**
   * What the glossary pattern matches after its `(^|\n)` anchor, at the start of `s`:
   * HeaderPattern is the rest of `VOCAB_HEADER_RE`, SentinelPattern is
   * `[^\S\r\n]*:::VOCAB:::[^\S\r\n]*`. Both end in optional parts, so the match
   * length is that of the greedy parse.
   */
  function BodyLen(s: String, pat: Pattern): (r: Option<nat>)
    ensures r.Some? ==> r.value <= |s|
  {
    var a := RunFrom(s, 0, Hws);
    match pat
    case SentinelPattern =>
      if OccursAt(s, VOCAB_SENTINEL, a) then
        var e := a + |VOCAB_SENTINEL|;
        Some(e + RunFrom(s, e, Hws))
      else None
    case HeaderPattern =>
      var q := LeadLen(s);
      match KeywordLen(s, q)
      case None => None
      case Some(k) =>
        var p := q + k;
        var e := RunFrom(s, p, Hws);
        var sep := if p + e < |s| && IsHeaderSep(s[p + e]) then 1 else 0;
        Some(p + e + sep + RunFrom(s, p + e + sep, Hws))
  }

  /** `(?:[bullets]+[.)]?[^\S\r\n]*)?` takes exactly a bullet run, its optional `.`/`)` and the blanks after it. */
  lemma {:induction false} BulletGroupAccepts(s: String, p1: nat, p2: nat, p3: nat, p4: nat)
    requires p1 <= p2 <= p3 <= p4 < |s|
    requires forall i | p1 <= i < p2 :: IsBullet(s[i])
    requires p3 == p2 || (p3 == p2 + 1 && (s[p2] == '.' || s[p2] == ')'))
    requires forall i | p3 <= i < p4 :: IsHws(s[i])
    requires p1 == p2 ==> p4 == p2
    requires !IsHws(s[p4]) && !IsBullet(s[p4]) && s[p4] != '.' && s[p4] != ')'
    ensures BulletGroupLen(s, p1) == p4 - p1
  {
    RunFromExact(s, p1, p2 - p1, Bullet);
    if p1 < p2 {
      RunFromExact(s, p3, p4 - p3, Hws);
    }
  }

  /** `(?:key[^\S\r\n]*)?` takes `key` in any case and the blanks after it, and nothing before a `v`. */
  lemma {:induction false} KeyGroupAccepts(s: String, p4: nat, p5: nat)
    requires p4 <= p5 < |s|
    requires p5 == p4 || (p4 + 3 <= p5 && Lower(s[p4..p4 + 3]) == "key" && forall i | p4 + 3 <= i < p5 :: IsHws(s[i]))
    requires LowerChar(s[p5]) == 'v'
    ensures KeyGroupLen(s, p4) == p5 - p4
  {
    if p5 > p4 {
      RunFromExact(s, p4 + 3, p5 - p4 - 3, Hws);
    } else if p4 + 3 <= |s| {
      LowerAt(s[p4..p4 + 3]);
      assert Lower(s[p4..p4 + 3])[0] == LowerChar(s[p4]);
    }
  }

  /**
   * The glossary header pattern accepts, from the start of `s`, horizontal white space, an
   * optional bullet run with an optional `.` or `)` and horizontal white space, an optional
   * `key` in any case with horizontal white space, then `vocab` (or `vocabulary`) in any case.
   * Nothing is required after the keyword: the pattern has no end anchor.
   */
  lemma HeaderBodyAccepts(s: String, p1: nat, p2: nat, p3: nat, p4: nat, p5: nat)
    requires p1 <= p2 <= p3 <= p4 <= p5 && p5 + 5 <= |s|
    requires forall i | 0 <= i < p1 :: IsHws(s[i])
    requires forall i | p1 <= i < p2 :: IsBullet(s[i])
    requires p3 == p2 || (p3 == p2 + 1 && (s[p2] == '.' || s[p2] == ')'))
    requires forall i | p3 <= i < p4 :: IsHws(s[i])
    requires p1 == p2 ==> p4 == p2
    requires p5 == p4 || (p4 + 3 <= p5 && Lower(s[p4..p4 + 3]) == "key" && forall i | p4 + 3 <= i < p5 :: IsHws(s[i]))
    requires MatchesCI(s, p5, "vocab")
    ensures BodyLen(s, HeaderPattern).Some?
  {
    LeadAccepts(s, p1, p2, p3, p4, p5);
    assert KeywordLen(s, p5).Some?;
    BodyOfLead(s, p5);
  }

  /** The three optional groups before the keyword take exactly the blanks, bullet run and `key` given. */
  lemma LeadAccepts(s: String, p1: nat, p2: nat, p3: nat, p4: nat, p5: nat)
    requires p1 <= p2 <= p3 <= p4 <= p5 && p5 + 5 <= |s|
    requires forall i | 0 <= i < p1 :: IsHws(s[i])
    requires forall i | p1 <= i < p2 :: IsBullet(s[i])
    requires p3 == p2 || (p3 == p2 + 1 && (s[p2] == '.' || s[p2] == ')'))
    requires forall i | p3 <= i < p4 :: IsHws(s[i])
    requires p1 == p2 ==> p4 == p2
    requires p5 == p4 || (p4 + 3 <= p5 && Lower(s[p4..p4 + 3]) == "key" && forall i | p4 + 3 <= i < p5 :: IsHws(s[i]))
    requires MatchesCI(s, p5, "vocab")
    ensures LeadLen(s) == p5
  {
    MatchesCIHead(s, p5, "vocab");
    var c4 := s[p4];
    if p5 > p4 {
      MatchesCIHead(s, p4, "key");
    }
    assert c4 == 'k' || c4 == 'K' || c4 == 'v' || c4 == 'V';
    RunFromExact(s, 0, p1, Hws);
    BulletGroupAccepts(s, p1, p2, p3, p4);
    KeyGroupAccepts(s, p4, p5);
    LeadOfGroups(s, p1, p4, p5);
  }

  /** A keyword right after the lead makes the header pattern match. */
  lemma BodyOfLead(s: String, q: nat)
    requires q <= |s| && LeadLen(s) == q && KeywordLen(s, q).Some?
    ensures BodyLen(s, HeaderPattern).Some?
  {
  }

  /** The lead of the header pattern is the sum of its three measured groups. */
  lemma LeadOfGroups(s: String, p1: nat, p4: nat, p5: nat)
    requires p1 <= p4 <= p5 <= |s|
    requires RunFrom(s, 0, Hws) == p1 && BulletGroupLen(s, p1) == p4 - p1 && KeyGroupLen(s, p4) == p5 - p4
    ensures LeadLen(s) == p5
  {
  }

  /** A case-insensitive match agrees with the word in its first two letters. */
  lemma MatchesCIHead(s: String, p: nat, w: String)
    ensures MatchesCI(s, p, w) && |w| > 0 ==> LowerChar(s[p]) == w[0]
    ensures MatchesCI(s, p, w) && |w| > 1 ==> LowerChar(s[p + 1]) == w[1]
  {
    if p + |w| <= |s| {
      LowerAt(s[p..p + |w|]);
    }
  }

  /**
   * The glossary header pattern refuses, at the start of `s`, a first character that is
   * neither a blank, a bullet, nor the first letter of `key`, `vocab` or `từ`.
   */
  lemma HeaderBodyRefuses(s: String)
    requires |s| > 0 && !IsHws(s[0]) && !IsBullet(s[0])
    requires LowerChar(s[0]) != 'k' && LowerChar(s[0]) != 'v'
    requires LowerChar(s[0]) == 't' ==> |s| < 2 || LowerChar(s[1]) != '\U{1EEB}'
    ensures BodyLen(s, HeaderPattern) == None
  {
    RunFromExact(s, 0, 0, Hws);
    RunFromExact(s, 0, 0, Bullet);
    MatchesCIHead(s, 0, "key");
    MatchesCIHead(s, 0, "vocabulary");
    MatchesCIHead(s, 0, "vocab");
    MatchesCIHead(s, 0, "t\U{1EEB}");
    assert KeyGroupLen(s, 0) == 0;
    LeadOfGroups(s, 0, 0, 0);
    assert KeywordLen(s, 0) == None;
  }

  /**
   * `s.match(/(^|\n)body/)` scanning from `p`: the index and the length of the first match.
   * At offset 0 the `^` alternative is tried before `\n`; elsewhere only a `\n` anchors.
   */
  function FindAtLineStart(s: String, pat: Pattern, p: nat): (r: Option<(nat, nat)>)
    requires p <= |s|
    decreases |s| - p
    ensures r.Some? ==> p <= r.value.0 && r.value.0 + r.value.1 <= |s|
    ensures r.Some? && r.value.0 > 0 ==> r.value.0 < |s| && s[r.value.0] == '\n'
  {
    if p == 0 && BodyLen(s, pat).Some? then Some((0, BodyLen(s, pat).value))
    else if p < |s| && s[p] == '\n' && BodyLen(s[p + 1..], pat).Some? then
      Some((p, 1 + BodyLen(s[p + 1..], pat).value))
    else if p < |s| then FindAtLineStart(s, pat, p + 1)
    else None
  }

  /** `VOCAB_HEADER_RE.test(s)` / `s.match(VOCAB_HEADER_RE)`. */
  function MatchVocabHeader(s: String): Option<(nat, nat)>
  {
    FindAtLineStart(s, HeaderPattern, 0)
  }

  /** The line-start sentinel pattern that splitting a section tries first. */
  function MatchSentinel(s: String): Option<(nat, nat)>
  {
    FindAtLineStart(s, SentinelPattern, 0)
  }
}
