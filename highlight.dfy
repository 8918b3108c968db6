/**
 * The Markdown highlighter of the editor (`MarkdownHighlighter` in
 * src/editor.py): ten regular-expression rules, applied to one text block
 * in declaration order. Each rule's matches are found as `re.finditer`
 * finds them (leftmost first, lazy `.+?`, no overlap), and each match
 * REPLACES the format of its characters, so a later rule wins where two
 * matches overlap.
 *
 * Each regular expression is replaced by a hand-written matcher with the
 * same backtracking outcome. A block handed to `highlightBlock` never holds
 * a line break, so `^` can only match at offset 0 and `$` only at the end.
 */
module Highlight {
  import opened Text
  import opened Options

  /** The character formats the rules apply (header, header2, bold, italic, code, link and list formats). */
  datatype Style = Heading1 | Heading2 | Bold | Italic | Code | Link | ListItem

  /** The format of one character: the block's default, or one of the rule formats. */
  datatype Format = Plain | Styled(style: Style)

  /** The ten rules, named after their patterns. */
  datatype Rule =
    | HeadingOne        // ^\s*#\s+.+$
    | HeadingTwo        // ^\s*##\s+.+$
    | BoldStars         // \*\*(.+?)\*\*
    | BoldUnderscores   // __(.+?)__
    | ItalicStar        // \*(.+?)\*
    | ItalicUnderscore  // _(.+?)_
    | InlineCode        // `(.+?)`
    | InlineLink        // \[(.+?)\]\((.+?)\)
    | Bullet            // ^\s*[\*\-\+]\s+
    | Numbered          // ^\s*\d+\.\s+

  /** `highlighting_rules`, in declaration order. */
  const Rules: seq<Rule> :=
    [HeadingOne, HeadingTwo, BoldStars, BoldUnderscores, ItalicStar, ItalicUnderscore,
     InlineCode, InlineLink, Bullet, Numbered]

  function StyleOf(r: Rule): Style
  {
    match r
    case HeadingOne => Heading1
    case HeadingTwo => Heading2
    case BoldStars | BoldUnderscores => Bold
    case ItalicStar | ItalicUnderscore => Italic
    case InlineCode => Code
    case InlineLink => Link
    case Bullet | Numbered => ListItem
  }

  /** The shortest text each rule can match: markers plus at least one character of content. */
  function MinLength(r: Rule): nat
  {
    match r
    case HeadingOne => 3
    case HeadingTwo => 4
    case BoldStars | BoldUnderscores => 5
    case ItalicStar | ItalicUnderscore | InlineCode => 3
    case InlineLink => 6
    case Bullet => 2
    case Numbered => 3
  }

  /** A block as `highlightBlock` receives it: one line, without its line break. */
  predicate IsBlock(text: string) {
    '\n' !in text
  }

  /** One `setFormat(start, length, format)` call. */
  datatype Span = Span(start: nat, length: nat, style: Style)

  predicate Covers(sp: Span, i: int) {
    sp.start <= i < sp.start + sp.length
  }

  // ---------------------------------------------------------------------
  // Matchers
  // ---------------------------------------------------------------------

  /** `text[j..j + width]` is `width` copies of `d`. */
  predicate RunAt(text: string, j: int, d: char, width: nat) {
    0 <= j && j + width <= |text| && forall k :: j <= k < j + width ==> text[k] == d
  }

  /** Number of ASCII digits at the front of `s` (`\d+`, greedy). */
  function DigitRun(s: string): (n: nat)
    ensures n <= |s|
    ensures forall k :: 0 <= k < n ==> '0' <= s[k] <= '9'
    ensures n < |s| ==> !('0' <= s[n] <= '9')
  {
    if s == [] || !('0' <= s[0] <= '9') then 0 else 1 + DigitRun(s[1..])
  }

  /**
   * The lazy `(.+?)` before a closing run of `width` copies of `d`: the
   * first offset at or after `from` where the closing run starts.
   */
  function CloseFrom(text: string, d: char, width: nat, from: nat): (r: Option<nat>)
    requires width >= 1
    decreases |text| - from
    ensures r.Some? ==> from <= r.value && RunAt(text, r.value, d, width)
  {
    if from + width > |text| then None
    else if RunAt(text, from, d, width) then Some(from)
    else CloseFrom(text, d, width, from + 1)
  }

  /**
   * The lazy `(.+?)` stops at the FIRST closing run: none starts between
   * `from` and the one found, and none at all when nothing is found.
   */
  lemma {:induction false} CloseFromFirstRun(text: string, d: char, width: nat, from: nat)
    requires width >= 1
    ensures CloseFrom(text, d, width, from).Some? ==>
              forall j :: from <= j < CloseFrom(text, d, width, from).value ==> !RunAt(text, j, d, width)
    ensures CloseFrom(text, d, width, from).None? ==> forall j :: from <= j ==> !RunAt(text, j, d, width)
    decreases |text| - from
  {
    if from + width <= |text| && !RunAt(text, from, d, width) {
      CloseFromFirstRun(text, d, width, from + 1);
    }
  }

  /** `d{width}(.+?)d{width}` tried at offset `s`: the end of the match, if any. */
  function DelimitedAt(text: string, s: nat, d: char, width: nat): (r: Option<nat>)
    requires width >= 1
    ensures r.Some? ==> s + 2 * width + 1 <= r.value <= |text|
    ensures r.Some? ==> RunAt(text, s, d, width) && RunAt(text, r.value - width, d, width)
  {
    if RunAt(text, s, d, width) then
      match CloseFrom(text, d, width, s + width + 1)
      case Some(j) => Some(j + width)
      case None => None
    else None
  }

  /**
   * The rest of `\[(.+?)\]\((.+?)\)` once `[` matched: the first offset
   * `q` of `](` at or after the given one for which a `)` follows after at
   * least one more character; the end of the match is just past that `)`.
   */
  function LinkFrom(text: string, q: nat): (r: Option<nat>)
    decreases |text| - q
    ensures r.Some? ==> q + 4 <= r.value <= |text| && text[r.value - 1] == ')'
  {
    if q + 1 >= |text| then None
    else if text[q] == ']' && text[q + 1] == '(' && CloseFrom(text, ')', 1, q + 3).Some? then
      Some(CloseFrom(text, ')', 1, q + 3).value + 1)
    else LinkFrom(text, q + 1)
  }

  /** `^\s*` followed by `hashes` copies of `#`, `\s+` and `.+$`: the whole block, or nothing. */
  function HeadingEnd(text: string, hashes: nat): (r: Option<nat>)
    requires hashes >= 1
  {
    var i := LeadingSpace(text);
    if i + hashes + 2 <= |text| && RunAt(text, i, '#', hashes) && IsSpace(text[i + hashes]) then Some(|text|)
    else None
  }

  /** `^\s*[\*\-\+]\s+`: the end of the marker and the whitespace after it. */
  function BulletEnd(text: string): (r: Option<nat>)
  {
    var i := LeadingSpace(text);
    if i + 2 <= |text| && (text[i] == '*' || text[i] == '-' || text[i] == '+') && IsSpace(text[i + 1]) then
      Some(i + 1 + LeadingSpace(text[i + 1..]))
    else None
  }

  /** `^\s*\d+\.\s+`: the end of the number, its dot and the whitespace after it. */
  function NumberedEnd(text: string): (r: Option<nat>)
  {
    var i := LeadingSpace(text);
    var d := DigitRun(text[i..]);
    if d >= 1 && i + d + 2 <= |text| && text[i + d] == '.' && IsSpace(text[i + d + 1]) then
      Some(i + d + 1 + LeadingSpace(text[i + d + 1..]))
    else None
  }

  /** The match of rule `r` that the regular-expression engine finds when it starts at offset `s`. */
  function MatchAt(r: Rule, text: string, s: nat): (e: Option<nat>)
    requires IsBlock(text)
    ensures e.Some? ==> s + MinLength(r) <= e.value <= |text|
  {
    match r
    case HeadingOne => if s == 0 then HeadingEnd(text, 1) else None
    case HeadingTwo => if s == 0 then HeadingEnd(text, 2) else None
    case BoldStars => DelimitedAt(text, s, '*', 2)
    case BoldUnderscores => DelimitedAt(text, s, '_', 2)
    case ItalicStar => DelimitedAt(text, s, '*', 1)
    case ItalicUnderscore => DelimitedAt(text, s, '_', 1)
    case InlineCode => DelimitedAt(text, s, '`', 1)
    case InlineLink => if s < |text| && text[s] == '[' then LinkFrom(text, s + 2) else None
    case Bullet => if s == 0 then BulletEnd(text) else None
    case Numbered => if s == 0 then NumberedEnd(text) else None
  }

  /**
   * What the regular-expression engine reports for rule `r` at every start
   * offset of the block from `s` on, the end included: where a match tried
   * there ends. Every match ends inside the block and is at least as long
   * as the rule's shortest match.
   */
  function MatchesFrom(r: Rule, text: string, s: nat): (table: seq<Option<nat>>)
    requires IsBlock(text) && s <= |text| + 1
    decreases |text| + 1 - s
    ensures |table| == |text| + 1 - s
    ensures forall k :: 0 <= k < |table| && table[k].Some? ==> s + k + MinLength(r) <= table[k].value <= |text|
  {
    if s == |text| + 1 then [] else [MatchAt(r, text, s)] + MatchesFrom(r, text, s + 1)
  }

  /** The match table of rule `r` over the whole block. */
  function Matches(r: Rule, text: string): (table: seq<Option<nat>>)
    requires IsBlock(text)
    ensures |table| == |text| + 1
    ensures forall s :: 0 <= s < |table| && table[s].Some? ==> s + MinLength(r) <= table[s].value <= |text|
  {
    MatchesFrom(r, text, 0)
  }

  lemma {:induction false} MatchesFromAt(r: Rule, text: string, s: nat, k: nat)
    requires IsBlock(text) && s + k <= |text|
    ensures MatchesFrom(r, text, s)[k] == MatchAt(r, text, s + k)
    decreases k
  {
    var table := MatchesFrom(r, text, s);
    assert table == [MatchAt(r, text, s)] + MatchesFrom(r, text, s + 1);
    if k > 0 {
      assert table[k] == MatchesFrom(r, text, s + 1)[k - 1];
      MatchesFromAt(r, text, s + 1, k - 1);
    }
  }

  /** Entry `s` of the table is what the engine reports when it tries the rule at offset `s`. */
  lemma MatchesAt(r: Rule, text: string, s: nat)
    requires IsBlock(text) && s <= |text|
    ensures Matches(r, text)[s] == MatchAt(r, text, s)
  {
    MatchesFromAt(r, text, 0, s);
  }

  /** A match table whose matches all end after they start and inside the block. */
  predicate Forward(table: seq<Option<nat>>) {
    forall s :: 0 <= s < |table| && table[s].Some? ==> s < table[s].value < |table|
  }

  /** `re.search` from offset `pos`: the first offset from `pos` on where a match starts, and the match's end. */
  function Search(table: seq<Option<nat>>, pos: nat): (m: Option<(nat, nat)>)
    requires Forward(table) && pos < |table|
    decreases |table| - pos
    ensures m.Some? ==> pos <= m.value.0 < m.value.1 < |table| && table[m.value.0] == Some(m.value.1)
  {
    if table[pos].Some? then Some((pos, table[pos].value))
    else if pos + 1 == |table| then None
    else Search(table, pos + 1)
  }

  /**
   * The search finds the LEFTMOST match: no match starts between `pos` and
   * the one it returns, and it returns nothing exactly when no match starts
   * anywhere from `pos` to the end of the block.
   */
  lemma {:induction false} SearchLeftmost(table: seq<Option<nat>>, pos: nat)
    requires Forward(table) && pos < |table|
    ensures Search(table, pos).Some? ==>
              forall s :: pos <= s < Search(table, pos).value.0 ==> table[s].None?
    ensures Search(table, pos).None? <==> forall s :: pos <= s < |table| ==> table[s].None?
    decreases |table| - pos
  {
    if table[pos].None? && pos + 1 < |table| {
      SearchLeftmost(table, pos + 1);
    }
  }

  /** Each span ends before the next one starts. */
  predicate InOrder(spans: seq<Span>) {
    forall j, k :: 0 <= j < k < |spans| ==> spans[j].start + spans[j].length <= spans[k].start
  }

  /** `re.finditer` from offset `pos`: each match is searched for from the end of the previous one. */
  function FindAll(table: seq<Option<nat>>, style: Style, pos: nat): (spans: seq<Span>)
    requires Forward(table) && pos < |table|
    decreases |table| - pos
    ensures forall k :: 0 <= k < |spans| ==> spans[k].style == style
  {
    match Search(table, pos)
    case None => []
    case Some(m) => [Span(m.0, m.1 - m.0, style)] + FindAll(table, style, m.1)
  }

  /** The spans rule `r` contributes to the block: its matches, left to right, in the rule's format. */
  function RuleSpans(r: Rule, text: string): seq<Span>
    requires IsBlock(text)
  {
    FindAll(Matches(r, text), StyleOf(r), 0)
  }

  /**
   * The spans `re.finditer` yields lie inside the table from `pos` on, left
   * to right without overlap, each at least `minLength` long when every
   * match in the table is.
   */
  lemma {:induction false} FindAllShape(table: seq<Option<nat>>, style: Style, pos: nat, minLength: nat)
    requires Forward(table) && pos < |table|
    requires forall s :: 0 <= s < |table| && table[s].Some? ==> s + minLength <= table[s].value
    ensures var spans := FindAll(table, style, pos);
      && (forall k :: 0 <= k < |spans| ==>
            pos <= spans[k].start && spans[k].start + spans[k].length < |table|
            && spans[k].length >= minLength)
      && InOrder(spans)
    decreases |table| - pos
  {
    match Search(table, pos)
    case None =>
    case Some(m) =>
      FindAllShape(table, style, m.1, minLength);
      var spans := FindAll(table, style, pos);
      var rest := FindAll(table, style, m.1);
      assert spans == [Span(m.0, m.1 - m.0, style)] + rest;
      forall k | 0 < k < |spans|
        ensures spans[k] == rest[k - 1]
      {
      }
  }

  /**
   * The spans of one rule lie inside the block, left to right without
   * overlap, each at least as long as the rule's shortest match.
   */
  lemma RuleSpansShape(r: Rule, text: string)
    requires IsBlock(text)
    ensures var spans := RuleSpans(r, text);
      && (forall k :: 0 <= k < |spans| ==>
            spans[k].start + spans[k].length <= |text| && spans[k].length >= MinLength(r)
            && spans[k].style == StyleOf(r))
      && InOrder(spans)
  {
    FindAllShape(Matches(r, text), StyleOf(r), 0, MinLength(r));
  }

  /** `re.finditer` finds nothing once no match starts at or after `pos`. */
  lemma NoMatchFrom(table: seq<Option<nat>>, style: Style, pos: nat)
    requires Forward(table) && pos < |table|
    requires forall s :: pos <= s < |table| ==> table[s].None?
    ensures FindAll(table, style, pos) == []
  {
    SearchLeftmost(table, pos);
  }

  /** The first span of `re.finditer` is the first match, and the rest are searched for from its end. */
  lemma FindAllFirst(table: seq<Option<nat>>, style: Style, pos: nat, s: nat, e: nat)
    requires Forward(table) && pos < |table| && Search(table, pos) == Some((s, e))
    ensures e < |table|
    ensures FindAll(table, style, pos) == [Span(s, e - s, style)] + FindAll(table, style, e)
  {
  }

  /** Helper (sequence plumbing): moving the first pending span to the end of the finished ones. */
  lemma MoveFront(all: seq<Span>, done: seq<Span>, pending: seq<Span>, sp: Span, rest: seq<Span>)
    requires all == done + pending && pending == [sp] + rest
    ensures all == (done + [sp]) + rest
  {
  }

  /** The `setFormat` calls of the rules in `rules`, in order. */
  function SpansOf(rules: seq<Rule>, text: string): seq<Span>
    requires IsBlock(text)
  {
    if rules == [] then []
    else SpansOf(rules[..|rules| - 1], text) + RuleSpans(rules[|rules| - 1], text)
  }

  /** Applying one more rule paints that rule's spans over what the earlier rules left. */
  lemma PaintNextRule(f: seq<Format>, rules: seq<Rule>, r: Rule, text: string)
    requires IsBlock(text)
    ensures Paint(f, SpansOf(rules + [r], text)) == Paint(Paint(f, SpansOf(rules, text)), RuleSpans(r, text))
  {
    assert (rules + [r])[..|rules|] == rules;
    PaintAppend(f, SpansOf(rules, text), RuleSpans(r, text));
  }

  /** Every `setFormat` call `highlightBlock` makes on the block, in order. */
  function Spans(text: string): seq<Span>
    requires IsBlock(text)
  {
    SpansOf(Rules, text)
  }

  // ---------------------------------------------------------------------
  // Formats
  // ---------------------------------------------------------------------

  /**
   * `QSyntaxHighlighter.setFormat(start, count, format)` on the block's
   * formats: a start outside the block changes nothing, a range running
   * past the end is cut there, and inside the range the format is replaced.
   */
  function SetFormatOn(f: seq<Format>, start: int, count: int, fmt: Format): (g: seq<Format>)
    ensures |g| == |f|
  {
    if start < 0 || start >= |f| then f
    else seq(|f|, i requires 0 <= i < |f| => if start <= i < start + count then fmt else f[i])
  }

  /** The formats after the given `setFormat` calls, in order. */
  function Paint(f: seq<Format>, spans: seq<Span>): (g: seq<Format>)
    ensures |g| == |f|
  {
    if spans == [] then f
    else
      var sp := spans[|spans| - 1];
      SetFormatOn(Paint(f, spans[..|spans| - 1]), sp.start, sp.length, Styled(sp.style))
  }

  lemma {:induction false} PaintAppend(f: seq<Format>, a: seq<Span>, b: seq<Span>)
    ensures Paint(f, a + b) == Paint(Paint(f, a), b)
    decreases |b|
  {
    if b == [] {
      assert a + b == a;
    } else {
      assert (a + b)[..|a + b| - 1] == a + b[..|b| - 1];
      PaintAppend(f, a, b[..|b| - 1]);
    }
  }

  /** One more `setFormat` call on top of those already made. */
  lemma PaintSnoc(f: seq<Format>, done: seq<Span>, sp: Span)
    ensures Paint(f, done + [sp]) == SetFormatOn(Paint(f, done), sp.start, sp.length, Styled(sp.style))
  {
    assert (done + [sp])[..|done|] == done;
  }

  /** A `setFormat` call whose range misses offset `i` leaves the format there alone. */
  lemma SetFormatMisses(f: seq<Format>, sp: Span, i: int)
    requires 0 <= i < |f| && !Covers(sp, i)
    ensures SetFormatOn(f, sp.start, sp.length, Styled(sp.style))[i] == f[i]
  {
  }

  /** An offset no span covers keeps its old format. */
  lemma {:induction false} PaintUncovered(f: seq<Format>, spans: seq<Span>, i: int)
    requires 0 <= i < |f|
    requires forall k :: 0 <= k < |spans| ==> !Covers(spans[k], i)
    ensures Paint(f, spans)[i] == f[i]
    decreases |spans|
  {
    if spans != [] {
      var n := |spans| - 1;
      PaintUncovered(f, spans[..n], i);
      SetFormatMisses(Paint(f, spans[..n]), spans[n], i);
    }
  }

  /**
   * The format at an offset is that of the LAST span covering it:
   * `setFormat` replaces, so a later rule wins over an earlier one.
   */
  lemma {:induction false} PaintLastCover(f: seq<Format>, spans: seq<Span>, i: int, k: nat)
    requires 0 <= i < |f| && k < |spans| && Covers(spans[k], i)
    requires forall k' :: k < k' < |spans| ==> !Covers(spans[k'], i)
    ensures Paint(f, spans)[i] == Styled(spans[k].style)
    decreases |spans|
  {
    var n := |spans| - 1;
    if k < n {
      PaintLastCover(f, spans[..n], i, k);
      SetFormatMisses(Paint(f, spans[..n]), spans[n], i);
    }
  }

  // ---------------------------------------------------------------------
  // highlightBlock
  // ---------------------------------------------------------------------

  /** `setFormat`, changing the block's formats in place. */
  method SetFormat(formats: array<Format>, start: int, count: int, fmt: Format)
    modifies formats
    ensures formats[..] == SetFormatOn(old(formats[..]), start, count, fmt)
  {
    if start < 0 || start >= formats.Length || count <= 0 {
      return;
    }
    var end := if start + count < formats.Length then start + count else formats.Length;
    var i := start;
    while i < end
      invariant start <= i <= end <= formats.Length
      invariant forall k :: 0 <= k < formats.Length ==>
                  formats[k] == if start <= k < i then fmt else old(formats[k])
    {
      formats[i] := fmt;
      i := i + 1;
    }
    ghost var want := SetFormatOn(old(formats[..]), start, count, fmt);
    assert forall k :: 0 <= k < formats.Length ==> formats[..][k] == want[k];
  }

  /**
   * The inner loop of `highlightBlock`: `setFormat` over each match
   * `re.finditer` yields from the match table, left to right.
   */
  method ApplyRule(table: seq<Option<nat>>, style: Style, formats: array<Format>)
    requires Forward(table) && |table| == formats.Length + 1
    modifies formats
    ensures formats[..] == Paint(old(formats[..]), FindAll(table, style, 0))
  {
    ghost var done: seq<Span> := [];
    ghost var f0 := formats[..];
    var pos := 0;
    while Search(table, pos).Some?
      invariant pos < |table|
      invariant FindAll(table, style, 0) == done + FindAll(table, style, pos)
      invariant formats[..] == Paint(f0, done)
      decreases |table| - pos
    {
      var start := Search(table, pos).value.0;
      var end := Search(table, pos).value.1;
      FindAllFirst(table, style, pos, start, end);
      MoveFront(FindAll(table, style, 0), done, FindAll(table, style, pos),
                Span(start, end - start, style), FindAll(table, style, end));
      PaintSnoc(f0, done, Span(start, end - start, style));
      SetFormat(formats, start, end - start, Styled(style));
      done := done + [Span(start, end - start, style)];
      pos := end;
    }
    assert done + [] == done;
  }

  /** Growing a prefix by one element; the whole sequence is its own longest prefix. */
  lemma PrefixSnoc(rules: seq<Rule>, i: nat)
    requires i <= |rules|
    ensures i < |rules| ==> rules[..i + 1] == rules[..i] + [rules[i]]
    ensures rules[..|rules|] == rules
  {
  }

  /**
   * `highlightBlock`: for each rule in declaration order, for each match
   * left to right, `setFormat` over the match. The block's formats end up
   * as all of these calls leave them.
   */
  method HighlightBlock(text: string, formats: array<Format>)
    requires IsBlock(text) && formats.Length == |text|
    modifies formats
    ensures formats[..] == Paint(old(formats[..]), Spans(text))
  {
    var i := 0;
    while i < |Rules|
      invariant 0 <= i <= |Rules|
      invariant formats[..] == Paint(old(formats[..]), SpansOf(Rules[..i], text))
    {
      ApplyRule(Matches(Rules[i], text), StyleOf(Rules[i]), formats);
      PaintNextRule(old(formats[..]), Rules[..i], Rules[i], text);
      PrefixSnoc(Rules, i);
      i := i + 1;
    }
    PrefixSnoc(Rules, 0);
  }

  // ---------------------------------------------------------------------
  // What the rules promise
  // ---------------------------------------------------------------------

  /** Every span of every rule lies inside the block, so no `setFormat` call reaches past its end. */
  lemma {:induction false} SpansInBlock(rules: seq<Rule>, text: string)
    requires IsBlock(text)
    ensures forall k :: 0 <= k < |SpansOf(rules, text)| ==>
              SpansOf(rules, text)[k].start + SpansOf(rules, text)[k].length <= |text|
    decreases |rules|
  {
    if rules != [] {
      var front: seq<Span> := SpansOf(rules[..|rules| - 1], text);
      var last: seq<Span> := RuleSpans(rules[|rules| - 1], text);
      var all: seq<Span> := front + last;
      SpansInBlock(rules[..|rules| - 1], text);
      RuleSpansShape(rules[|rules| - 1], text);
      assert SpansOf(rules, text) == all;
      forall k: int | 0 <= k < |all|
        ensures all[k].start + all[k].length <= |text|
      {
        if k >= |front| { assert all[k] == last[k - |front|]; }
      }
    }
  }

  /** The rules anchored by `^`: they can only match at the start of the block. */
  predicate Anchored(r: Rule) {
    r.HeadingOne? || r.HeadingTwo? || r.Bullet? || r.Numbered?
  }

  /** An anchored rule yields at most one span, and that span starts the block. */
  lemma AnchoredAtMostOnce(r: Rule, text: string)
    requires IsBlock(text) && Anchored(r)
    ensures |RuleSpans(r, text)| <= 1
    ensures |RuleSpans(r, text)| == 1 <==> MatchAt(r, text, 0).Some?
    ensures MatchAt(r, text, 0).Some? ==>
              RuleSpans(r, text) == [Span(0, MatchAt(r, text, 0).value, StyleOf(r))]
  {
    var table := Matches(r, text);
    forall s | 0 <= s < |table|
      ensures table[s] == MatchAt(r, text, s)
    {
      MatchesAt(r, text, s);
    }
    if MatchAt(r, text, 0).Some? {
      var e := MatchAt(r, text, 0).value;
      assert Search(table, 0) == Some((0, e));
      NoMatchFrom(table, StyleOf(r), e);
      FindAllFirst(table, StyleOf(r), 0, 0, e);
    } else {
      NoMatchFrom(table, StyleOf(r), 0);
    }
  }

  /** A block that opens with `* ` is one list item: the marker and the blanks after it. */
  lemma BulletLine(t: string, rest: string)
    requires IsBlock(t) && |t| >= 2 && t[0] == '*' && t[1] == ' ' && t[2..] == rest
    ensures RuleSpans(Bullet, t) == [Span(0, 2 + LeadingSpace(rest), ListItem)]
  {
    assert LeadingSpace(t) == 0;
    assert t[1..][1..] == rest;
    assert LeadingSpace(t[1..]) == 1 + LeadingSpace(rest);
    assert MatchAt(Bullet, t, 0) == Some(2 + LeadingSpace(rest));
    AnchoredAtMostOnce(Bullet, t);
  }

  /**
   * The two heading rules never both match a block, and a heading span,
   * when there is one, covers the whole block.
   */
  lemma HeadingsExclusive(text: string)
    requires IsBlock(text)
    ensures RuleSpans(HeadingOne, text) == [] || RuleSpans(HeadingTwo, text) == []
    ensures RuleSpans(HeadingOne, text) == [] || RuleSpans(HeadingOne, text) == [Span(0, |text|, Heading1)]
    ensures RuleSpans(HeadingTwo, text) == [] || RuleSpans(HeadingTwo, text) == [Span(0, |text|, Heading2)]
  {
    AnchoredAtMostOnce(HeadingOne, text);
    AnchoredAtMostOnce(HeadingTwo, text);
  }

  /** A block that is only `#` and one blank has nothing after the blank for `.+`: no heading. */
  lemma HashBlankIsNoHeading()
    ensures RuleSpans(HeadingOne, "# ") == []
    ensures RuleSpans(HeadingTwo, "# ") == []
  {
    AnchoredAtMostOnce(HeadingOne, "# ");
    AnchoredAtMostOnce(HeadingTwo, "# ");
  }

  /** With a second blank, the blank itself is the heading text: `#` plus two blanks is a heading. */
  lemma HashTwoBlanksIsHeading()
    ensures RuleSpans(HeadingOne, "#  ") == [Span(0, 3, Heading1)]
  {
    AnchoredAtMostOnce(HeadingOne, "#  ");
    assert LeadingSpace("#  ") == 0;
    assert RunAt("#  ", 0, '#', 1);
  }

  /** The marker that opens and closes the matches of the delimited rules. */
  function Marker(r: Rule): Option<char>
  {
    match r
    case BoldStars | ItalicStar => Some('*')
    case BoldUnderscores | ItalicUnderscore => Some('_')
    case InlineCode => Some('`')
    case _ => None
  }

  /**
   * A match of a delimited rule opens and closes with its marker, with at
   * least one character in between.
   */
  lemma DelimitedMatch(r: Rule, text: string, s: nat)
    requires IsBlock(text) && Marker(r).Some? && MatchAt(r, text, s).Some?
    ensures var e := MatchAt(r, text, s).value;
      s + 2 < e && text[s] == Marker(r).value && text[e - 1] == Marker(r).value
  {
  }

  /** `c` occurs at most once in `text`. */
  predicate AtMostOnce(text: string, c: char) {
    forall i, j :: 0 <= i < j < |text| && text[i] == c ==> text[j] != c
  }

  /** An unmatched single marker yields no span of its rule: nothing is highlighted and nothing fails. */
  lemma LoneMarkerNoSpans(r: Rule, text: string)
    requires IsBlock(text) && Marker(r).Some? && AtMostOnce(text, Marker(r).value)
    ensures RuleSpans(r, text) == []
  {
    var table := Matches(r, text);
    forall s | 0 <= s < |table|
      ensures table[s].None?
    {
      MatchesAt(r, text, s);
      if MatchAt(r, text, s).Some? {
        DelimitedMatch(r, text, s);
      }
    }
    NoMatchFrom(table, StyleOf(r), 0);
  }

  /** The lazy `(.+?)` stops at the first closing run at or after `from`. */
  lemma CloseFromFirst(text: string, d: char, width: nat, from: nat, j: nat)
    requires width >= 1 && from <= j && RunAt(text, j, d, width)
    requires forall k :: from <= k < j ==> !RunAt(text, k, d, width)
    ensures CloseFrom(text, d, width, from) == Some(j)
  {
    CloseFromFirstRun(text, d, width, from);
  }

  /** The spans of a list of rules followed by one more rule. */
  lemma SpansOfSnoc(rules: seq<Rule>, r: Rule, text: string)
    requires IsBlock(text)
    ensures SpansOf(rules + [r], text) == SpansOf(rules, text) + RuleSpans(r, text)
  {
    assert (rules + [r])[..|rules|] == rules;
  }

  /** Helper: `Rules` as the heading and bold rules, then the italic and code rules, then the link and list rules. */
  lemma RulesInThreeParts()
    ensures [] + [HeadingOne] + [HeadingTwo] + [BoldStars] + [BoldUnderscores] == Rules[..4]
    ensures Rules[..4] + [ItalicStar] + [ItalicUnderscore] + [InlineCode] == Rules[..7]
    ensures Rules[..7] + [InlineLink] + [Bullet] + [Numbered] == Rules
  {
  }

  /** The spans of the heading and bold rules, rule by rule. */
  lemma SpansOfFirstFour(text: string)
    requires IsBlock(text)
    ensures SpansOf(Rules[..4], text) ==
      RuleSpans(HeadingOne, text) + RuleSpans(HeadingTwo, text) + RuleSpans(BoldStars, text)
      + RuleSpans(BoldUnderscores, text)
  {
    var rs: seq<Rule> := [];
    SpansOfSnoc(rs, HeadingOne, text);
    assert [] + RuleSpans(HeadingOne, text) == RuleSpans(HeadingOne, text);
    var acc: seq<Span> := RuleSpans(HeadingOne, text);
    rs := rs + [HeadingOne];
    SpansOfSnoc(rs, HeadingTwo, text);
    rs, acc := rs + [HeadingTwo], acc + RuleSpans(HeadingTwo, text);
    SpansOfSnoc(rs, BoldStars, text);
    rs, acc := rs + [BoldStars], acc + RuleSpans(BoldStars, text);
    SpansOfSnoc(rs, BoldUnderscores, text);
    rs, acc := rs + [BoldUnderscores], acc + RuleSpans(BoldUnderscores, text);
    RulesInThreeParts();
  }

  /** The spans of the first seven rules: those of the first four, then the italic and code rules. */
  lemma SpansOfFirstSeven(text: string)
    requires IsBlock(text)
    ensures SpansOf(Rules[..7], text) ==
      SpansOf(Rules[..4], text) + RuleSpans(ItalicStar, text) + RuleSpans(ItalicUnderscore, text)
      + RuleSpans(InlineCode, text)
  {
    var rs := Rules[..4];
    var acc := SpansOf(rs, text);
    SpansOfSnoc(rs, ItalicStar, text);
    rs, acc := rs + [ItalicStar], acc + RuleSpans(ItalicStar, text);
    SpansOfSnoc(rs, ItalicUnderscore, text);
    rs, acc := rs + [ItalicUnderscore], acc + RuleSpans(ItalicUnderscore, text);
    SpansOfSnoc(rs, InlineCode, text);
    rs, acc := rs + [InlineCode], acc + RuleSpans(InlineCode, text);
    RulesInThreeParts();
  }

  /** The spans of a block, rule by rule in declaration order. */
  lemma SpansByRule(text: string)
    requires IsBlock(text)
    ensures Spans(text) ==
      RuleSpans(HeadingOne, text) + RuleSpans(HeadingTwo, text) + RuleSpans(BoldStars, text)
      + RuleSpans(BoldUnderscores, text) + RuleSpans(ItalicStar, text) + RuleSpans(ItalicUnderscore, text)
      + RuleSpans(InlineCode, text) + RuleSpans(InlineLink, text) + RuleSpans(Bullet, text)
      + RuleSpans(Numbered, text)
  {
    SpansOfFirstFour(text);
    SpansOfFirstSeven(text);
    var rs := Rules[..7];
    var acc := SpansOf(rs, text);
    SpansOfSnoc(rs, InlineLink, text);
    rs, acc := rs + [InlineLink], acc + RuleSpans(InlineLink, text);
    SpansOfSnoc(rs, Bullet, text);
    rs, acc := rs + [Bullet], acc + RuleSpans(Bullet, text);
    SpansOfSnoc(rs, Numbered, text);
    rs, acc := rs + [Numbered], acc + RuleSpans(Numbered, text);
    RulesInThreeParts();
  }

  // The block `**bold**`, passed as a parameter so that the verifier
  // evaluates the matchers step by step rather than all at once.

  /** On `**bold**` the bold rule matches the whole block. */
  lemma BoldMarkupBoldSpan(t: string)
    requires t == "**bold**"
    ensures RuleSpans(BoldStars, t) == [Span(0, 8, Bold)]
  {
    var table := Matches(BoldStars, t);
    assert RunAt(t, 6, '*', 2);
    assert t[3] == 'o' && t[4] == 'l' && t[5] == 'd';
    CloseFromFirst(t, '*', 2, 3, 6);
    MatchesAt(BoldStars, t, 0);
    MatchesAt(BoldStars, t, 8);
    assert table[0] == Some(8) && table[8] == None;
    NoMatchFrom(table, Bold, 8);
    FindAllFirst(table, Bold, 0, 0, 8);
  }

  /** On `**bold**` the italic rule matches the first seven characters, from the first `*` to the second-last. */
  lemma BoldMarkupItalicSpan(t: string)
    requires t == "**bold**"
    ensures RuleSpans(ItalicStar, t) == [Span(0, 7, Italic)]
  {
    var table := Matches(ItalicStar, t);
    assert RunAt(t, 6, '*', 1);
    assert t[2] == 'b' && t[3] == 'o' && t[4] == 'l' && t[5] == 'd';
    CloseFromFirst(t, '*', 1, 2, 6);
    MatchesAt(ItalicStar, t, 0);
    MatchesAt(ItalicStar, t, 7);
    MatchesAt(ItalicStar, t, 8);
    assert table[0] == Some(7) && table[7] == None && table[8] == None;
    NoMatchFrom(table, Italic, 7);
    FindAllFirst(table, Italic, 0, 0, 7);
  }

  /** On `**bold**` the underscore rules find nothing. */
  lemma BoldMarkupNoUnderscore(t: string)
    requires t == "**bold**"
    ensures RuleSpans(BoldUnderscores, t) == []
    ensures RuleSpans(ItalicUnderscore, t) == []
  {
    assert AtMostOnce(t, '_');
    LoneMarkerNoSpans(BoldUnderscores, t);
    LoneMarkerNoSpans(ItalicUnderscore, t);
  }

  /** On `**bold**` the code and link rules find nothing. */
  lemma BoldMarkupNoCodeOrLink(t: string)
    requires t == "**bold**"
    ensures RuleSpans(InlineCode, t) == []
    ensures RuleSpans(InlineLink, t) == []
  {
    assert AtMostOnce(t, '`');
    LoneMarkerNoSpans(InlineCode, t);
    var table := Matches(InlineLink, t);
    forall s | 0 <= s < |table|
      ensures table[s].None?
    {
      MatchesAt(InlineLink, t, s);
      assert s < |t| ==> t[s] != '[';
    }
    NoMatchFrom(table, Link, 0);
  }

  /** `**bold**` is no heading: it does not start with `#`. */
  lemma BoldMarkupNoHeading(t: string)
    requires t == "**bold**"
    ensures RuleSpans(HeadingOne, t) == []
    ensures RuleSpans(HeadingTwo, t) == []
  {
    assert LeadingSpace(t) == 0;
    AnchoredAtMostOnce(HeadingOne, t);
    AnchoredAtMostOnce(HeadingTwo, t);
  }

  /** `**bold**` is no list item: its `*` is followed by another `*`, not a blank, and it holds no number. */
  lemma BoldMarkupNoListItem(t: string)
    requires t == "**bold**"
    ensures RuleSpans(Bullet, t) == []
    ensures RuleSpans(Numbered, t) == []
  {
    assert LeadingSpace(t) == 0;
    assert DigitRun(t) == 0;
    AnchoredAtMostOnce(Bullet, t);
    AnchoredAtMostOnce(Numbered, t);
  }

  /** Helper (sequence plumbing): ten span lists, all empty but the third and the fifth, which hold one span each. */
  lemma ThirdAndFifth(a: seq<Span>, b: seq<Span>, c: seq<Span>, d: seq<Span>, e: seq<Span>,
                      f: seq<Span>, g: seq<Span>, h: seq<Span>, i: seq<Span>, j: seq<Span>, x: Span, y: Span)
    requires a == b == d == f == g == h == i == j == [] && c == [x] && e == [y]
    ensures a + b + c + d + e + f + g + h + i + j == [x, y]
  {
  }

  /** The `setFormat` calls `highlightBlock` makes on `**bold**`: bold over all of it, then italic over the first seven characters. */
  lemma BoldMarkupSpans(t: string)
    requires t == "**bold**"
    ensures Spans(t) == [Span(0, 8, Bold), Span(0, 7, Italic)]
  {
    BoldMarkupBoldSpan(t);
    BoldMarkupItalicSpan(t);
    BoldMarkupNoUnderscore(t);
    BoldMarkupNoCodeOrLink(t);
    BoldMarkupNoHeading(t);
    BoldMarkupNoListItem(t);
    SpansByRule(t);
    ThirdAndFifth(
      RuleSpans(HeadingOne, t), RuleSpans(HeadingTwo, t), RuleSpans(BoldStars, t),
      RuleSpans(BoldUnderscores, t), RuleSpans(ItalicStar, t), RuleSpans(ItalicUnderscore, t),
      RuleSpans(InlineCode, t), RuleSpans(InlineLink, t), RuleSpans(Bullet, t),
      RuleSpans(Numbered, t), Span(0, 8, Bold), Span(0, 7, Italic));
  }

  /**
   * On `**bold**` the italic rule, which runs after the bold rule,
   * replaces the bold format on the first seven characters: only the last
   * `*` stays bold.
   */
  lemma BoldMarkupEndsItalic(t: string)
    requires t == "**bold**"
    ensures Paint(seq(8, _ => Plain), Spans(t)) == seq(7, _ => Styled(Italic)) + [Styled(Bold)]
  {
    BoldMarkupSpans(t);
    var spans := [Span(0, 8, Bold), Span(0, 7, Italic)];
    var f: seq<Format> := seq(8, _ => Plain);
    var g := Paint(f, spans);
    var want := seq(7, _ => Styled(Italic)) + [Styled(Bold)];
    forall i | 0 <= i < 8
      ensures g[i] == want[i]
    {
      if i < 7 {
        PaintLastCover(f, spans, i, 1);
      } else {
        PaintLastCover(f, spans, i, 0);
      }
    }
    assert g == want;
  }
}
