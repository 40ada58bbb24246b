/**
 * Rendering a glossary section as HTML: divider rules are stripped, the section is split at
 * its glossary header, the head is escaped with at most one `<mark>` inside its first quoted
 * span, and the body is escaped without marks. A bounded window of lines around a hit is the
 * fallback when no section renders.
 */
module Render {
  import opened Strings
  import opened Constants
  import opened Text
  import opened Parse
  import opened Section

  /* ---------- stripDividerLines ---------- */

  /** Length of `[─━┄┅_\-=–—]{6,}[ \t]*` at `p`, or 0 when fewer than six glyphs start there. */
  function RuleLen(s: String, p: nat): (n: nat)
    requires p <= |s|
    ensures p + n <= |s|
  {
    var g := RunFrom(s, p, Glyph);
    if g < 6 then 0 else g + RunFrom(s, p + g, SpaceTab)
  }

  /** Length of one leading block `rule\r?\n` at `p`, if there is one. */
  function LeadingRuleAt(s: String, p: nat): (r: Option<nat>)
    requires p <= |s|
    ensures r.Some? ==> 0 < r.value && p + r.value <= |s|
  {
    var n := RuleLen(s, p);
    if n == 0 then None
    else if p + n < |s| && s[p + n] == '\n' then Some(n + 1)
    else if p + n + 1 < |s| && s[p + n] == '\r' && s[p + n + 1] == '\n' then Some(n + 2)
    else None
  }

  /** Where `^(?:rule[ \t]*\r?\n)+` stops matching when it starts at `p`. */
  function LeadingRulesEnd(s: String, p: nat): (q: nat)
    requires p <= |s|
    ensures p <= q <= |s|
    decreases |s| - p
  {
    match LeadingRuleAt(s, p)
    case None => p
    case Some(n) => LeadingRulesEnd(s, p + n)
  }

  /** `s[p..q]` is a sequence of whole leading rule blocks. */
  predicate LeadingRulesBetween(s: String, p: nat, q: nat)
    requires p <= q <= |s|
    decreases q - p
  {
    p == q
    || (LeadingRuleAt(s, p).Some? && p + LeadingRuleAt(s, p).value <= q
        && LeadingRulesBetween(s, p + LeadingRuleAt(s, p).value, q))
  }

  /** The blocks stripped from the front are whole rule lines and no further block follows. */
  lemma {:induction false} LeadingRulesEndMeans(s: String, p: nat)
    requires p <= |s|
    ensures var q := LeadingRulesEnd(s, p); LeadingRulesBetween(s, p, q) && LeadingRuleAt(s, q).None?
    decreases |s| - p
  {
    match LeadingRuleAt(s, p)
    case None =>
    case Some(n) =>
      LeadingRulesEndMeans(s, p + n);
  }

  /** Length of `\r?\n` at `p`: 2, 1, or 0 when no line break starts there. */
  function BreakLen(s: String, p: nat): (n: nat)
    requires p <= |s|
    ensures p + n <= |s|
  {
    if p + 1 < |s| && s[p] == '\r' && s[p + 1] == '\n' then 2
    else if p < |s| && s[p] == '\n' then 1
    else 0
  }

  /** `s[p..]` matches `(?:\r?\n rule[ \t]*)+$`: line-broken rule lines up to the very end. */
  predicate TrailingRulesAt(s: String, p: nat)
    requires p <= |s|
    decreases |s| - p
  {
    var b := BreakLen(s, p);
    b > 0 && var n := RuleLen(s, p + b);
    n > 0 && (p + b + n == |s| || TrailingRulesAt(s, p + b + n))
  }

  /** The leftmost offset at or after `p` where the trailing pattern matches. */
  function TrailingRulesFrom(s: String, p: nat): (r: Option<nat>)
    requires p <= |s|
    ensures r.Some? ==> p <= r.value < |s|
    decreases |s| - p
  {
    if p == |s| then None
    else if TrailingRulesAt(s, p) then Some(p)
    else TrailingRulesFrom(s, p + 1)
  }

  lemma {:induction false} TrailingRulesFromMeans(s: String, p: nat)
    requires p <= |s|
    ensures var r := TrailingRulesFrom(s, p);
      && (r.Some? ==> TrailingRulesAt(s, r.value))
      && forall q | p <= q <= |s| && (r.None? || q < r.value) :: !TrailingRulesAt(s, q)
    decreases |s| - p
  {
    if p < |s| && !TrailingRulesAt(s, p) {
      TrailingRulesFromMeans(s, p + 1);
    }
  }

  /** `stripDividerLines`: the leading rule lines, then the trailing ones, removed. */
  function StripDividerLines(s: String): String
  {
    var m := s[LeadingRulesEnd(s, 0)..];
    match TrailingRulesFrom(m, 0)
    case None => m
    case Some(q) => m[..q]
  }

  /**
   * Stripping removes a prefix of whole rule lines, each ending in a line feed, after which no
   * rule line starts; then the leftmost suffix of line-broken rule lines; nothing else changes.
   */
  lemma StripDividerLinesMeans(s: String)
    ensures var q := LeadingRulesEnd(s, 0);
      var m := s[q..];
      var r := StripDividerLines(s);
      && LeadingRulesBetween(s, 0, q) && LeadingRuleAt(s, q).None?
      && |r| <= |m| && r == m[..|r|]
      && (|r| < |m| ==> TrailingRulesAt(m, |r|))
      && (forall k | 0 <= k < |r| :: !TrailingRulesAt(m, k))
  {
    var q := LeadingRulesEnd(s, 0);
    LeadingRulesEndMeans(s, 0);
    TrailingRulesFromMeans(s[q..], 0);
  }

  /** Text that neither starts with a rule line nor ends with a line-broken one is unchanged. */
  lemma StripDividerLinesKeeps(s: String)
    requires LeadingRuleAt(s, 0).None?
    requires forall k | 0 <= k <= |s| :: !TrailingRulesAt(s, k)
    ensures StripDividerLines(s) == s
  {
    TrailingRulesFromMeans(s, 0);
    assert s[0..] == s;
  }

  /* ---------- splitFirstEnglishQuote ---------- */

  datatype QuoteKind = Opening | Closing

  /** `["“]` opens an English quote, `["”]` closes one. */
  predicate IsQuote(c: char, k: QuoteKind)
  {
    c == '"' || (k == Opening && c == '\U{201C}') || (k == Closing && c == '\U{201D}')
  }

  /** The first quote of kind `k` at or after `p`, or -1: `search` on the rest of the text. */
  function QuoteFrom(s: String, p: nat, k: QuoteKind): (r: int)
    requires p <= |s|
    ensures r == -1 || (p <= r < |s| && IsQuote(s[r], k))
    ensures forall i | p <= i < |s| && (r == -1 || i < r) :: !IsQuote(s[i], k)
    decreases |s| - p
  {
    if p == |s| then -1
    else if IsQuote(s[p], k) then p
    else QuoteFrom(s, p + 1, k)
  }

  datatype QuoteSplit = QuoteSplit(pre: String, open: char, en: String, close: char, post: String)

  /**
   * `splitFirstEnglishQuote`: the head cut at its first opening quote and the first closing
   * quote after it. The source searches `head.slice(openIdx + 1)` and adds the offset back;
   * searching the head from `openIdx + 1` is the same.
   */
  function SplitFirstEnglishQuote(head: String): Option<QuoteSplit>
  {
    var o := QuoteFrom(head, 0, Opening);
    if o < 0 then None
    else
      var c := QuoteFrom(head, o + 1, Closing);
      if c < 0 then None
      else Some(QuoteSplit(head[..o], head[o], head[o + 1..c], head[c], head[c + 1..]))
  }

  /** There is a split exactly when an opening quote comes before a closing one. */
  lemma SplitFirstEnglishQuoteNone(head: String)
    ensures SplitFirstEnglishQuote(head).None?
      <==> forall i, j | 0 <= i < j < |head| :: !(IsQuote(head[i], Opening) && IsQuote(head[j], Closing))
  {
    var o := QuoteFrom(head, 0, Opening);
    if o >= 0 {
      var c := QuoteFrom(head, o + 1, Closing);
      if c >= 0 {
        assert IsQuote(head[o], Opening) && IsQuote(head[c], Closing);
      }
    }
  }

  /**
   * The parts of a split put back together give the head, the opening quote is the first one,
   * and the quoted text holds no closing quote.
   */
  lemma SplitFirstEnglishQuoteSome(head: String)
    requires SplitFirstEnglishQuote(head).Some?
    ensures var q := SplitFirstEnglishQuote(head).value;
      && q.pre + [q.open] + q.en + [q.close] + q.post == head
      && IsQuote(q.open, Opening) && IsQuote(q.close, Closing)
      && (forall i | 0 <= i < |q.pre| :: !IsQuote(q.pre[i], Opening))
      && (forall i | 0 <= i < |q.en| :: !IsQuote(q.en[i], Closing))
  {
    var o := QuoteFrom(head, 0, Opening);
    var c := QuoteFrom(head, o + 1, Closing);
    assert head[..o] + [head[o]] + head[o + 1..c] + [head[c]] + head[c + 1..] == head;
  }

  /* ---------- marks ---------- */

  const MarkOpen: String := "<mark>"
  const MarkClose: String := "</mark>"

  /** How many `<mark>` tags `t` holds. */
  function Marks(t: String): nat
    decreases |t|
  {
    if t == [] then 0 else (if OccursAt(t, MarkOpen, 0) then 1 else 0) + Marks(t[1..])
  }

  /** `t` with every `<mark>` and `</mark>` tag deleted. */
  function Unmark(t: String): String
    decreases |t|
  {
    if t == [] then []
    else if OccursAt(t, MarkOpen, 0) then Unmark(t[|MarkOpen|..])
    else if OccursAt(t, MarkClose, 0) then Unmark(t[|MarkClose|..])
    else [t[0]] + Unmark(t[1..])
  }

  /** A first character other than `<` starts no tag. */
  lemma NoTagAt(t: String)
    requires t != [] && t[0] != '<'
    ensures Marks(t) == Marks(t[1..]) && Unmark(t) == [t[0]] + Unmark(t[1..])
  {
    assert !OccursAt(t, MarkOpen, 0) by {
      if |MarkOpen| <= |t| { assert t[..|MarkOpen|][0] == t[0]; }
    }
    assert !OccursAt(t, MarkClose, 0) by {
      if |MarkClose| <= |t| { assert t[..|MarkClose|][0] == t[0]; }
    }
  }

  /** Text without `<` holds no tag and is kept by `Unmark`. */
  lemma {:induction false} PlainPrefix(x: String, y: String)
    requires '<' !in x
    ensures Marks(x + y) == Marks(y) && Unmark(x + y) == x + Unmark(y)
    decreases |x|
  {
    if x != [] {
      var t := x + y;
      PlainHead(x, y);
      NoTagAt(t);
      PlainPrefix(x[1..], y);
      ConsTail(x, Unmark(y));
    } else {
      assert x + y == y;
    }
  }

  /** Splitting the first character off `x + y`, where `x` has no `<`. */
  lemma PlainHead(x: String, y: String)
    requires '<' !in x && x != []
    ensures (x + y)[0] == x[0] != '<' && (x + y)[1..] == x[1..] + y && '<' !in x[1..]
  {
    assert x[0] in x;
    assert forall k | 0 <= k < |x[1..]| :: x[1..][k] == x[k + 1];
  }

  /** Putting the first character of `x` back in front of the rest. */
  lemma ConsTail(x: String, u: String)
    requires x != []
    ensures [x[0]] + (x[1..] + u) == x + u
  {
    assert [x[0]] + x[1..] == x;
    assert [x[0]] + (x[1..] + u) == ([x[0]] + x[1..]) + u;
  }

  lemma PlainText(x: String)
    requires '<' !in x
    ensures Marks(x) == 0 && Unmark(x) == x
  {
    PlainPrefix(x, []);
    assert x + [] == x;
  }

  lemma OpenTag(y: String)
    ensures Marks(MarkOpen + y) == 1 + Marks(y) && Unmark(MarkOpen + y) == Unmark(y)
  {
    var t := MarkOpen + y;
    assert t[..|MarkOpen|] == MarkOpen && t[|MarkOpen|..] == y;
    assert t[1..] == "mark>" + y;
    PlainPrefix("mark>", y);
  }

  lemma CloseTag(y: String)
    ensures Marks(MarkClose + y) == Marks(y) && Unmark(MarkClose + y) == Unmark(y)
  {
    var t := MarkClose + y;
    assert t[..|MarkClose|] == MarkClose && t[|MarkClose|..] == y;
    assert !OccursAt(t, MarkOpen, 0) by { assert t[1] == '/'; }
    assert t[1..] == "/mark>" + y;
    PlainPrefix("/mark>", y);
  }

  /** `a`, `b` and `c` escaped, with `b` inside a mark. */
  function Marked(a: String, b: String, c: String): String
  {
    EscapeHtml(a) + (MarkOpen + (EscapeHtml(b) + (MarkClose + EscapeHtml(c))))
  }

  /** The characters `lo` to `hi` (exclusive) of a text. */
  datatype Span = Span(lo: nat, hi: nat)

  /** A span of offsets of `s`, if any. */
  predicate SpanIn(s: String, span: Option<Span>)
  {
    span.None? || span.value.lo <= span.value.hi <= |s|
  }

  /** `s` escaped, with the span, when there is one, inside a mark. */
  function WithMark(s: String, span: Option<Span>): String
    requires SpanIn(s, span)
  {
    match span
    case None => EscapeHtml(s)
    case Some(Span(i, j)) => Marked(s[..i], s[i..j], s[j..])
  }

  /** The marked pieces followed by text without `<`: one mark, and the escaped pieces without it. */
  lemma MarkedMeans(a: String, b: String, c: String, tail: String)
    requires '<' !in tail
    ensures Marks(Marked(a, b, c) + tail) == 1
    ensures Unmark(Marked(a, b, c) + tail) == EscapeHtml(a) + EscapeHtml(b) + EscapeHtml(c) + tail
  {
    var ea, eb, ec := EscapeHtml(a), EscapeHtml(b), EscapeHtml(c);
    var u := MarkClose + (ec + tail);
    SeqAssoc(MarkClose, ec, tail);
    SeqAssoc(eb, MarkClose + ec, tail);
    SeqAssoc(MarkOpen, eb + (MarkClose + ec), tail);
    SeqAssoc(ea, MarkOpen + (eb + (MarkClose + ec)), tail);
    assert Marked(a, b, c) + tail == ea + (MarkOpen + (eb + u));
    PlainPrefix(ea, MarkOpen + (eb + u));
    OpenTag(eb + u);
    PlainPrefix(eb, u);
    CloseTag(ec + tail);
    PlainText(ec + tail);
    SeqAssoc(ea, eb, ec + tail);
    SeqAssoc(ea + eb, ec, tail);
  }

  /** Cutting `s` in three and escaping the parts escapes `s`. */
  lemma EscapeThree(s: String, i: nat, j: nat)
    requires i <= j <= |s|
    ensures EscapeHtml(s[..i]) + EscapeHtml(s[i..j]) + EscapeHtml(s[j..]) == EscapeHtml(s)
  {
    var a, b, c := s[..i], s[i..j], s[j..];
    assert a + b + c == s;
    EscapeHtmlAppend(a, b);
    EscapeHtmlAppend(a + b, c);
  }

  /**
   * Whatever follows it without a `<`, a marked rendering holds one mark exactly when it has a
   * span, and deleting the tags leaves the escaped text.
   */
  lemma WithMarkMeans(s: String, span: Option<Span>, tail: String)
    requires SpanIn(s, span) && '<' !in tail
    ensures Marks(WithMark(s, span) + tail) == (if span.Some? then 1 else 0)
    ensures Unmark(WithMark(s, span) + tail) == EscapeHtml(s) + tail
  {
    match span
    case None =>
      PlainText(EscapeHtml(s) + tail);
    case Some(Span(i, j)) =>
      MarkedMeans(s[..i], s[i..j], s[j..], tail);
      EscapeThree(s, i, j);
  }

  /* ---------- markEnglishQuotePartial ---------- */

  /**
   * Where `paint` puts its mark: nowhere without a needle, when neither the needle nor the
   * container looks like an English sentence, or when the needle has no loose match; otherwise
   * from the match for the needle's length, cut at the end of the container as `slice` cuts.
   */
  function PaintSpan(container: String, needle: String): (r: Option<Span>)
    ensures SpanIn(container, r)
  {
    if needle == [] || (!IsAsciiSentence(needle) && !IsAsciiSentence(container)) then None
    else
      var idx := FindIndexNormalized(container, needle);
      if idx < 0 then None
      else Some(NeedleSpan(container, idx, |needle|))
  }

  /** `slice(idx, idx + n)` of a container as a span: it stops at the end of the container. */
  function NeedleSpan(container: String, idx: nat, n: nat): (r: Span)
    requires idx <= |container|
    ensures idx == r.lo <= r.hi <= |container|
    ensures r.hi - r.lo <= n && (idx + n <= |container| ==> r.hi == idx + n)
  {
    Span(idx, if idx + n <= |container| then idx + n else |container|)
  }

  /** `paint`: the container escaped, with the needle's match, if any, marked. */
  function Paint(container: String, needle: String): String
  {
    WithMark(container, PaintSpan(container, needle))
  }

  /** A span moved `d` characters to the right. */
  function Shift(span: Option<Span>, d: nat): Option<Span>
  {
    match span
    case None => None
    case Some(Span(i, j)) => Some(Span(i + d, j + d))
  }

  lemma ShiftSome(span: Option<Span>, d: nat, i: nat, j: nat, di: nat, dj: nat)
    requires span == Some(Span(i, j)) && di == i + d && dj == j + d
    ensures Shift(span, d) == Some(Span(di, dj))
  {
  }

  /** The text `paint` works on: the first quoted span when there is one, else the whole head. */
  function Container(head: String): String
  {
    match SplitFirstEnglishQuote(head)
    case None => head
    case Some(q) => q.en
  }

  /** Where the mark of `markEnglishQuotePartial` lies in the head, if anywhere. */
  function MarkSpan(head: String, needle: String): (r: Option<Span>)
    ensures SpanIn(head, r)
  {
    if head == [] then None
    else match SplitFirstEnglishQuote(head)
      case None => PaintSpan(head, needle)
      case Some(q) =>
        SplitFirstEnglishQuoteSome(head);
        Shift(PaintSpan(q.en, needle), |q.pre| + 1)
  }

  lemma PrefixOfAppend(u: String, v: String, i: nat)
    requires i <= |v|
    ensures (u + v)[..|u| + i] == u + v[..i]
  {
  }

  lemma PrefixWithin(u: String, v: String, i: nat)
    requires i <= |u|
    ensures (u + v)[..i] == u[..i]
  {
  }

  lemma SuffixBeyond(u: String, v: String, j: nat)
    requires j <= |v|
    ensures (u + v)[|u| + j..] == v[j..]
  {
  }

  lemma SuffixOfAppend(u: String, v: String, j: nat)
    requires j <= |u|
    ensures (u + v)[j..] == u[j..] + v
  {
  }

  lemma MiddleBeyond(u: String, v: String, i: nat, j: nat)
    requires i <= j <= |v|
    ensures (u + v)[|u| + i..|u| + j] == v[i..j]
  {
  }

  lemma MiddleWithin(u: String, v: String, i: nat, j: nat)
    requires i <= j <= |u|
    ensures (u + v)[i..j] == u[i..j]
  {
  }

  /** The escaped parts of a quote split, with a span of the quoted text marked. */
  function QuotedHtml(q: QuoteSplit, span: Option<Span>): String
    requires SpanIn(q.en, span)
  {
    EscapeHtml(q.pre) + EscapeHtml([q.open]) + WithMark(q.en, span) + EscapeHtml([q.close]) + EscapeHtml(q.post)
  }

  /** Escaping the parts of a quote split escapes the text they make up. */
  lemma QuotedHtmlPlain(q: QuoteSplit)
    ensures QuotedHtml(q, None) == EscapeHtml(q.pre + [q.open] + q.en + [q.close] + q.post)
  {
    var a, c := q.pre + [q.open], [q.close] + q.post;
    EscapeHtmlAppend(q.pre, [q.open]);
    EscapeHtmlAppend([q.close], q.post);
    var ea, ec, w := EscapeHtml(a), EscapeHtml(c), EscapeHtml(q.en);
    SeqAssoc(ea + w, EscapeHtml([q.close]), EscapeHtml(q.post));
    assert QuotedHtml(q, None) == ea + w + ec;
    EscapeHtmlAppend(a, q.en);
    EscapeHtmlAppend(a + q.en, c);
    SeqAssoc(a + q.en, [q.close], q.post);
  }

  /** A mark inside `e` is the same mark, shifted, in `a + e + c`. */
  lemma MarkBetween(a: String, e: String, c: String, i: nat, j: nat, di: nat, dj: nat)
    requires i <= j <= |e| && di == |a| + i && dj == |a| + j
    ensures SpanIn(a + e + c, Some(Span(di, dj)))
    ensures EscapeHtml(a) + WithMark(e, Some(Span(i, j))) + EscapeHtml(c) == WithMark(a + e + c, Some(Span(di, dj)))
  {
    var t := a + e + c;
    var v := e + c;
    SeqAssoc(a, e, c);
    PrefixOfAppend(a, v, i);
    PrefixWithin(e, c, i);
    MiddleBeyond(a, v, i, j);
    MiddleWithin(e, c, i, j);
    SuffixBeyond(a, v, j);
    SuffixOfAppend(e, c, j);
    var p, m, s := e[..i], e[i..j], e[j..];
    assert t[..di] == a + p;
    assert t[di..dj] == m;
    assert t[dj..] == s + c;
    EscapeHtmlAppend(a, p);
    EscapeHtmlAppend(s, c);
    var ea, ec, x, y, z := EscapeHtml(a), EscapeHtml(c), EscapeHtml(p), EscapeHtml(m), EscapeHtml(s);
    var w := x + (MarkOpen + (y + (MarkClose + z)));
    assert WithMark(e, Some(Span(i, j))) == w;
    SeqAssoc(ea, w, ec);
    SeqAssoc(x, MarkOpen + (y + (MarkClose + z)), ec);
    SeqAssoc(MarkOpen, y + (MarkClose + z), ec);
    SeqAssoc(y, MarkClose + z, ec);
    SeqAssoc(MarkClose, z, ec);
    var r := MarkOpen + (y + (MarkClose + (z + ec)));
    SeqAssoc(ea, x, r);
    assert WithMark(t, Some(Span(di, dj))) == (ea + x) + r;
  }

  /** A mark inside the quoted text is the same mark, shifted, in the whole head. */
  lemma QuotedHtmlMarked(q: QuoteSplit, i: nat, j: nat, di: nat, dj: nat)
    requires i <= j <= |q.en| && di == i + (|q.pre| + 1) && dj == j + (|q.pre| + 1)
    ensures var head := q.pre + [q.open] + q.en + [q.close] + q.post;
      && SpanIn(head, Some(Span(di, dj)))
      && QuotedHtml(q, Some(Span(i, j))) == WithMark(head, Some(Span(di, dj)))
  {
    var a, c := q.pre + [q.open], [q.close] + q.post;
    SeqAssoc(a + q.en, [q.close], q.post);
    EscapeHtmlAppend(q.pre, [q.open]);
    EscapeHtmlAppend([q.close], q.post);
    var w := WithMark(q.en, Some(Span(i, j)));
    SeqAssoc(EscapeHtml(a) + w, EscapeHtml([q.close]), EscapeHtml(q.post));
    MarkBetween(a, q.en, c, i, j, di, dj);
    var head := q.pre + [q.open] + q.en + [q.close] + q.post;
    assert head == a + q.en + c;
  }

  /**
   * `markEnglishQuotePartial`: the empty string for an empty head; otherwise the head escaped
   * with the mark, when there is one, where `MarkSpan` puts it.
   */
  function MarkEnglishQuotePartial(head: String, needle: String): (r: String)
    ensures r == WithMark(head, MarkSpan(head, needle))
  {
    if head == [] then []
    else match SplitFirstEnglishQuote(head)
      case Some(q) =>
        QuotedMarkInHead(head, needle, q);
        QuotedHtml(q, PaintSpan(q.en, needle))
      case None => Paint(head, needle)
  }

  /** Rendering the quote split with the quoted text painted marks the head where `MarkSpan` says. */
  lemma QuotedMarkInHead(head: String, needle: String, q: QuoteSplit)
    requires head != [] && SplitFirstEnglishQuote(head) == Some(q)
    ensures QuotedHtml(q, PaintSpan(q.en, needle)) == WithMark(head, MarkSpan(head, needle))
  {
    SplitFirstEnglishQuoteSome(head);
    var d := |q.pre| + 1;
    var span := PaintSpan(q.en, needle);
    assert MarkSpan(head, needle) == Shift(span, d);
    var t := q.pre + [q.open] + q.en + [q.close] + q.post;
    assert t == head;
    match span
    case None =>
      QuotedHtmlPlain(q);
      assert MarkSpan(head, needle) == None;
      assert WithMark(head, None) == EscapeHtml(t);
    case Some(Span(i, j)) =>
      var di, dj := i + d, j + d;
      ShiftSome(span, d, i, j, di, dj);
      QuotedHtmlMarked(q, i, j, di, dj);
      assert QuotedHtml(q, span) == WithMark(t, Some(Span(di, dj)));
  }

  /**
   * With a quote pair in the head the mark lies inside the quoted text, and there is no mark
   * exactly when there is no needle, neither it nor the container looks like an English
   * sentence, or the needle has no loose match in the container; a mark starts where the
   * needle's pattern matches.
   */
  lemma MarkSpanMeans(head: String, needle: String)
    requires head != []
    ensures var span := MarkSpan(head, needle);
      var c := Container(head);
      && (span.None? <==>
            (needle == [] || (!IsAsciiSentence(needle) && !IsAsciiSentence(c)) || FindIndexNormalized(c, needle) < 0))
      && (span.Some? ==> match SplitFirstEnglishQuote(head)
            case None => MatchesPrefix(PatternOf(needle), head[span.value.lo..])
            case Some(q) =>
              && |q.pre| + 1 <= span.value.lo <= span.value.hi <= |q.pre| + 1 + |q.en|
              && MatchesPrefix(PatternOf(needle), q.en[span.value.lo - |q.pre| - 1..]))
  {
    match SplitFirstEnglishQuote(head)
    case None =>
    case Some(q) =>
      var d := |q.pre| + 1;
      var span := PaintSpan(q.en, needle);
      assert MarkSpan(head, needle) == Shift(span, d);
      if span.Some? {
        var i, j := span.value.lo, span.value.hi;
        ShiftSome(span, d, i, j, i + d, j + d);
        assert i + d - |q.pre| - 1 == i;
      }
  }

  /** The mark-partial rendering holds at most one mark, and without its tags it is the escaped head. */
  lemma MarkEnglishQuotePartialMeans(head: String, needle: String)
    ensures var r := MarkEnglishQuotePartial(head, needle);
      && Marks(r) == (if MarkSpan(head, needle).Some? then 1 else 0)
      && Unmark(r) == EscapeHtml(head)
  {
    WithMarkMeans(head, MarkSpan(head, needle), []);
    assert WithMark(head, MarkSpan(head, needle)) + [] == WithMark(head, MarkSpan(head, needle));
    assert EscapeHtml(head) + [] == EscapeHtml(head);
  }

  /* ---------- splitSectionAtHeader ---------- */

  /** A section cut at its glossary header: the text before the header and the text after it. */
  datatype HeadBody = HeadBody(before: String, after: String)

  /** The text with one leading `\n` removed, when it starts with one. */
  function DropNewline(rest: String): String
  {
    if rest != [] && rest[0] == '\n' then rest[1..] else rest
  }

  /**
   * The cut at a match at `at` of length `len`: what precedes the match without trailing
   * whitespace, and what follows it without one leading newline.
   */
  function CutAt(text: String, at: nat, len: nat): HeadBody
    requires at + len <= |text|
  {
    HeadBody(TrimEnd(text[..at]), DropNewline(text[at + len..]))
  }

  /**
   * `hb` cuts `text` around the match at `at` of length `len`: `before` is a prefix that stops
   * at a non-whitespace character and is followed by whitespace only up to the match, and
   * `after` is the rest after the match, less one leading newline if the rest has one.
   */
  predicate CutBy(text: String, at: nat, len: nat, hb: HeadBody)
    requires at + len <= |text|
  {
    var rest := text[at + len..];
    && |hb.before| <= at && hb.before == text[..|hb.before|]
    && AllWs(text[|hb.before|..at])
    && (hb.before != [] ==> !IsWs(hb.before[|hb.before| - 1]))
    && rest == (if rest != [] && rest[0] == '\n' then "\n" else "") + hb.after
  }

  lemma CutAtMeans(text: String, at: nat, len: nat)
    requires at + len <= |text|
    ensures CutBy(text, at, len, CutAt(text, at, len))
  {
    var b := TrimEnd(text[..at]);
    assert text[..at][..|b|] == text[..|b|];
    assert text[..at][|b|..] == text[|b|..at];
    var rest := text[at + len..];
    if rest != [] && rest[0] == '\n' {
      assert rest == "\n" + rest[1..];
    } else {
      assert rest == "" + rest;
    }
  }

  /** `split` is the cut at the line-start match `m`, when there is one. */
  predicate CutAtLineStart(text: String, m: Option<(nat, nat)>, split: Option<HeadBody>)
  {
    m.Some? ==>
      var (at, len) := m.value;
      && at + len <= |text|
      && (at == 0 || (at < |text| && text[at] == '\n'))
      && split.Some? && CutBy(text, at, len, split.value)
  }

  /**
   * `splitSectionAtHeader`: nothing for an empty section; otherwise the cut at the first
   * line-start sentinel or, without one, at the first match of the glossary header pattern.
   */
  function SplitSectionAtHeader(text: String): Option<HeadBody>
  {
    if text == [] then None
    else match MatchSentinel(text)
      case Some((at, len)) => Some(CutAt(text, at, len))
      case None =>
        match MatchVocabHeader(text)
        case Some((at, len)) => Some(CutAt(text, at, len))
        case None => None
  }

  /**
   * There is no cut exactly for an empty section or one with neither a sentinel nor a header;
   * a sentinel wins over a header, and the cut lies at the start of a line.
   */
  lemma SplitSectionAtHeaderMeans(text: String)
    ensures var r := SplitSectionAtHeader(text);
      && (r.None? <==> text == [] || (MatchSentinel(text).None? && MatchVocabHeader(text).None?))
      && (text != [] ==>
            if MatchSentinel(text).Some? then CutAtLineStart(text, MatchSentinel(text), r)
            else CutAtLineStart(text, MatchVocabHeader(text), r))
  {
    if text != [] {
      match MatchSentinel(text)
      case Some((at, len)) =>
        CutAtMeans(text, at, len);
      case None =>
        match MatchVocabHeader(text)
        case Some((at, len)) =>
          CutAtMeans(text, at, len);
        case None =>
    }
  }

  /* ---------- buildSectionFullHtml ---------- */

  /** The rendered head: the mark-partial rendering and a newline, or nothing for an empty head. */
  function HeadHtml(head: String, needle: String): String
  {
    if head != [] then MarkEnglishQuotePartial(head, needle) + "\n" else []
  }

  /**
   * `buildSectionFullHtml`: the section without divider rules, split at its header; the
   * trimmed head rendered with its mark, then the escaped body. Empty without a header.
   */
  function BuildSectionFullHtml(raw: String, needle: String): String
  {
    match SplitSectionAtHeader(StripDividerLines(raw))
    case None => []
    case Some(hb) => HeadHtml(Trim(hb.before), needle) + EscapeHtml(hb.after)
  }

  /**
   * Without a header the rendering is empty. Otherwise it holds a mark exactly when the trimmed
   * head is non-empty and has one, so the body is never marked, and deleting the tags leaves
   * the escaped head, a newline, and the escaped body.
   */
  lemma SectionFullHtmlMeans(raw: String, needle: String)
    ensures var r := BuildSectionFullHtml(raw, needle);
      match SplitSectionAtHeader(StripDividerLines(raw))
      case None => r == []
      case Some(hb) =>
        var head := Trim(hb.before);
        && Marks(r) == (if head != [] && MarkSpan(head, needle).Some? then 1 else 0)
        && Unmark(r) == (if head != [] then EscapeHtml(head) + "\n" else []) + EscapeHtml(hb.after)
  {
    match SplitSectionAtHeader(StripDividerLines(raw))
    case None =>
    case Some(hb) =>
      var head := Trim(hb.before);
      var body := EscapeHtml(hb.after);
      if head != [] {
        var span := MarkSpan(head, needle);
        var w := WithMark(head, span);
        SeqAssoc(w, "\n", body);
        assert '<' !in "\n" + body;
        WithMarkMeans(head, span, "\n" + body);
        SeqAssoc(EscapeHtml(head), "\n", body);
      } else {
        assert [] + body == body;
        PlainText(body);
      }
  }

  /* ---------- buildSectionExplainHtmlByPos / ByLine ---------- */

  /** The rendering of a section and the offset where the section starts. */
  datatype Explained = Explained(html: String, sectionStartPos: nat)

  /** `buildSectionExplainHtmlByPos`: the section around `anchor`, rendered. */
  function ExplainByPos(content: String, ss: seq<SectionStart>, anchor: int, needle: String): Explained
  {
    var b := SectionBounds(ss, anchor, |content|);
    Explained(BuildSectionFullHtml(Slice(content, b.startPos, b.endPos), needle), b.startPos)
  }

  /** `buildSectionExplainHtmlByLine`: the section around the start of line `fromLine`, rendered. */
  function ExplainByLine(content: String, starts: seq<nat>, ss: seq<SectionStart>, fromLine: int, needle: String): Explained
  {
    var b := SectionBoundsByLine(starts, ss, fromLine, |content|);
    Explained(BuildSectionFullHtml(Slice(content, b.startPos, b.endPos), needle), b.startPos)
  }

  /**
   * With the section starts in order and inside the note, the rendering is that of exactly the
   * text of the section, which holds the anchor, and the reported start is the section's.
   */
  lemma ExplainByPosMeans(content: String, ss: seq<SectionStart>, anchor: int, needle: String)
    requires PosSorted(ss) && forall i | 0 <= i < |ss| :: ss[i].pos <= |content|
    ensures var e, b := ExplainByPos(content, ss, anchor, needle), SectionBounds(ss, anchor, |content|);
      && e.sectionStartPos == b.startPos
      && b.startPos <= b.endPos <= |content|
      && e.html == BuildSectionFullHtml(content[b.startPos..b.endPos], needle)
      && (0 <= anchor < |content| ==> b.startPos <= anchor < b.endPos)
  {
    SectionBoundsInText(ss, anchor, |content|);
    if 0 <= anchor < |content| {
      SectionBoundsContain(ss, anchor, |content|);
    }
  }

  /** Rendering by line is rendering by the position of the clamped line's start. */
  lemma ExplainByLineMeans(content: String, starts: seq<nat>, ss: seq<SectionStart>, fromLine: int, needle: String)
    ensures ExplainByLine(content, starts, ss, fromLine, needle)
         == ExplainByPos(content, ss, ClampedLineStart(starts, fromLine), needle)
  {
  }

  /* ---------- buildContextHtml ---------- */

  /** The head and body the fallback marks: the cut at the header, or the whole text as head. */
  function ManualSplit(raw: String): HeadBody
  {
    match SplitSectionAtHeader(raw)
    case Some(hb) => hb
    case None => HeadBody(raw, [])
  }

  /** Where the fallback marks the head, if the needle has a loose match in it. */
  function ManualSpan(head: String, needle: String): Option<Span>
  {
    var idx := FindIndexNormalized(head, needle);
    if idx < 0 then None else Some(NeedleSpan(head, idx, |needle|))
  }

  /**
   * What `buildContextHtml` returns for its snippet: the full section rendering when it is not
   * empty; else, with a needle that has a loose match in the head, the marked head and the
   * escaped body after a newline; else the escaped snippet.
   */
  function RenderSnippet(raw: String, needle: String): String
  {
    var full := BuildSectionFullHtml(raw, needle);
    if full != [] then full
    else if needle == [] then EscapeHtml(raw)
    else
      var hb := ManualSplit(raw);
      match ManualSpan(hb.before, needle)
      case None => EscapeHtml(raw)
      case Some(span) =>
        WithMark(hb.before, Some(span)) + (if hb.after != [] then "\n" + EscapeHtml(hb.after) else [])
  }

  /**
   * The snippet's rendering holds at most one mark. It is the full section rendering whenever
   * that is not empty; the manual mark, when used, leaves the escaped head and body once the
   * tags are deleted; otherwise it is the escaped snippet, without any mark.
   */
  lemma RenderSnippetMeans(raw: String, needle: String)
    ensures var r, full := RenderSnippet(raw, needle), BuildSectionFullHtml(raw, needle);
      var hb := ManualSplit(raw);
      var manual := full == [] && needle != [] && ManualSpan(hb.before, needle).Some?;
      && Marks(r) <= 1
      && (full != [] ==> r == full)
      && (manual ==>
            && Marks(r) == 1
            && Unmark(r) == EscapeHtml(hb.before) + (if hb.after != [] then "\n" + EscapeHtml(hb.after) else []))
      && (full == [] && !manual ==> r == EscapeHtml(raw) && Marks(r) == 0)
  {
    var full := BuildSectionFullHtml(raw, needle);
    SectionFullHtmlMeans(raw, needle);
    var hb := ManualSplit(raw);
    if full == [] && needle != [] && ManualSpan(hb.before, needle).Some? {
      var tail := if hb.after != [] then "\n" + EscapeHtml(hb.after) else [];
      assert '<' !in tail;
      WithMarkMeans(hb.before, ManualSpan(hb.before, needle), tail);
    } else if full == [] {
      PlainText(EscapeHtml(raw));
    }
  }

  /** The lines `fromLine` to `toLine` (inclusive) of a context window. */
  datatype Window = Window(fromLine: int, toLine: int)

  function Max(a: int, b: int): int { if a < b then b else a }

  function Min(a: int, b: int): int { if a < b then a else b }

  /** The first line of the glossary: the line after the header, or line 0 without one. */
  function VocabFirstLine(headerIdx: int): nat
  {
    if headerIdx >= 0 then headerIdx + 1 else 0
  }

  /**
   * The window of `buildContextHtml` around the hit's line: `up` lines above it but not above
   * the glossary, `down` lines below it but not past the last line, and, when there are section
   * starts, not outside the lines of the hit's section.
   */
  function ContextWindow(contentLen: nat, lines: seq<String>, starts: seq<nat>, headerIdx: int, hitStart: nat,
                         up: nat, down: nat, ss: seq<SectionStart>): Window
  {
    var hitLine := LineIndexFor(starts, hitStart);
    var fromLine := Max(VocabFirstLine(headerIdx), hitLine - up);
    var toLine := Min(|lines| - 1, hitLine + down);
    if |ss| == 0 then Window(fromLine, toLine)
    else
      var b := SectionBoundsByLine(starts, ss, hitLine, contentLen);
      var startLineClamp := LineIndexFor(starts, b.startPos);
      var endLineClamp := LineIndexFor(starts, Max(b.startPos, b.endPos - 1));
      Window(Max(fromLine, startLineClamp), Min(toLine, endLineClamp))
  }

  /** `starts[fromLine]`, read as 0 by `slice` when there is no such line. */
  function CharStart(starts: seq<nat>, fromLine: int): nat
  {
    if 0 <= fromLine < |starts| then starts[fromLine] else 0
  }

  /** The end of line `toLine`; a missing line makes the sum `NaN`, which `slice` reads as 0. */
  function CharEnd(lines: seq<String>, starts: seq<nat>, toLine: int): nat
  {
    if 0 <= toLine < |starts| then starts[toLine] + (if toLine < |lines| then |lines[toLine]| else 0) else 0
  }

  /** `buildContextHtml` on the layout of a note: the window's text, rendered. */
  function ContextHtml(content: String, lines: seq<String>, starts: seq<nat>, headerIdx: int, hitStart: nat,
                       up: nat, down: nat, needle: String, ss: seq<SectionStart>): String
  {
    var w := ContextWindow(|content|, lines, starts, headerIdx, hitStart, up, down, ss);
    RenderSnippet(Slice(content, CharStart(starts, w.fromLine), CharEnd(lines, starts, w.toLine)), needle)
  }

  /**
   * `buildContextHtml` as the source computes it, with the binary search for lines and the
   * section loop. Its rendering holds at most one mark, and on the layout of a note it is
   * `ContextHtml`.
   */
  method BuildContextHtml(content: String, lines: seq<String>, starts: seq<nat>, headerIdx: int, hitStart: nat,
                          up: nat, down: nat, needle: String, ss: seq<SectionStart>) returns (html: String)
    ensures Marks(html) <= 1
    ensures Spaced(lines, starts) ==> html == ContextHtml(content, lines, starts, headerIdx, hitStart, up, down, needle, ss)
  {
    var hitLine := LineIndexForPos(starts, lines, hitStart);
    var vocabFirstLine := if headerIdx >= 0 then headerIdx + 1 else 0;
    var fromLine := Max(vocabFirstLine, hitLine - up);
    var toLine := Min(|lines| - 1, hitLine + down);
    if |ss| > 0 {
      var b := GetSectionBoundsByPos(ss, ClampedLineStart(starts, hitLine), |content|);
      var startLineClamp := LineIndexForPos(starts, lines, b.startPos);
      var endLineClamp := LineIndexForPos(starts, lines, Max(b.startPos, b.endPos - 1));
      fromLine := Max(fromLine, startLineClamp);
      toLine := Min(toLine, endLineClamp);
    }
    ghost var w := ContextWindow(|content|, lines, starts, headerIdx, hitStart, up, down, ss);
    assert Spaced(lines, starts) ==> fromLine == w.fromLine && toLine == w.toLine;
    var raw := Slice(content, CharStart(starts, fromLine), CharEnd(lines, starts, toLine));
    html := RenderSnippet(raw, needle);
    RenderSnippetMeans(raw, needle);
  }

  /** On the layout of a note, a line at or after line `L` starts at or after line `L`. */
  lemma StartsOrdered(lines: seq<String>, starts: seq<nat>, l: nat, i: nat)
    requires Spaced(lines, starts) && l <= i < |starts|
    ensures starts[l] <= starts[i]
  {
    if l < i {
      SpacedIncreasing(lines, starts);
    }
  }

  /** On the layout of a note the line holding an offset starts at or before it. */
  lemma LineIndexForStartsBefore(lines: seq<String>, starts: seq<nat>, pos: nat)
    requires Spaced(lines, starts)
    ensures LineIndexFor(starts, pos) < |starts| && starts[LineIndexFor(starts, pos)] <= pos
  {
  }

  /** On the layout of a note, the line holding a line's start is that line. */
  lemma LineIndexForLineStart(lines: seq<String>, starts: seq<nat>, m: nat)
    requires Spaced(lines, starts) && m < |starts|
    ensures LineIndexFor(starts, starts[m]) == m
  {
    SpacedIncreasing(lines, starts);
    LineIndexForIs(starts, starts[m], m);
  }

  /**
   * The window lies within `up` lines above and `down` lines below the hit's line, not above
   * the first glossary line and not past the last line.
   */
  lemma ContextWindowClamps(contentLen: nat, lines: seq<String>, starts: seq<nat>, headerIdx: int, hitStart: nat,
                            up: nat, down: nat, ss: seq<SectionStart>)
    ensures var w, hitLine := ContextWindow(contentLen, lines, starts, headerIdx, hitStart, up, down, ss), LineIndexFor(starts, hitStart);
      && hitLine - up <= w.fromLine && VocabFirstLine(headerIdx) <= w.fromLine
      && w.toLine <= hitLine + down && w.toLine < |lines|
  {
  }

  /** With the section starts of the note, every line of the window starts inside the hit's section. */
  lemma ContextWindowInSection(contentLen: nat, lines: seq<String>, starts: seq<nat>, headerIdx: int, hitStart: nat,
                               up: nat, down: nat, ss: seq<SectionStart>)
    requires Spaced(lines, starts) && ss == SectionStarts(lines, starts) && ss != []
    ensures var w, hitLine := ContextWindow(contentLen, lines, starts, headerIdx, hitStart, up, down, ss), LineIndexFor(starts, hitStart);
      var b := SectionBoundsByLine(starts, ss, hitLine, contentLen);
      forall i | w.fromLine <= i <= w.toLine && 0 <= i :: b.startPos <= starts[i] && (b.startPos < b.endPos ==> starts[i] < b.endPos)
  {
    var w, hitLine := ContextWindow(contentLen, lines, starts, headerIdx, hitStart, up, down, ss), LineIndexFor(starts, hitStart);
    var b := SectionBoundsByLine(starts, ss, hitLine, contentLen);
    var l := LineIndexFor(starts, b.startPos);
    SectionStartOfLine(lines, starts, ClampedLineStart(starts, hitLine), contentLen);
    var top := Max(b.startPos, b.endPos - 1);
    LineIndexForStartsBefore(lines, starts, top);
    var e := LineIndexFor(starts, top);
    forall i | w.fromLine <= i <= w.toLine && 0 <= i
      ensures b.startPos <= starts[i] && (b.startPos < b.endPos ==> starts[i] < b.endPos)
    {
      StartsOrdered(lines, starts, l, i);
      StartsOrdered(lines, starts, i, e);
    }
  }

  /** With the section starts of the note, a section starts at the start of a line, found again by offset. */
  lemma SectionStartOfLine(lines: seq<String>, starts: seq<nat>, anchor: int, contentLen: nat)
    requires Spaced(lines, starts)
    ensures var b := SectionBounds(SectionStarts(lines, starts), anchor, contentLen);
      starts[LineIndexFor(starts, b.startPos)] == b.startPos
  {
    var ss := SectionStarts(lines, starts);
    var k := LeadingAtOrBefore(ss, anchor);
    if k == 0 {
      LineIndexForLineStart(lines, starts, 0);
    } else {
      SectionStartsExact(lines, starts);
      assert IsBoundaryAt(lines, starts, ss[k - 1]);
      LineIndexForLineStart(lines, starts, ss[k - 1].line);
    }
  }
}
