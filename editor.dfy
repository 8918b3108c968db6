/**
 * The editing side of `MarkdownEditor` (src/editor.py): the toolbar edits
 * that wrap the selection in Markdown markers or prefix the current line,
 * replacing the text, reading it back, and the line-number switch.
 *
 * The editor's text is one string; its cursor is a position and an anchor
 * (a selection when they differ). A toolbar method edits through a copy of
 * the cursor; the editor's own cursor follows the document the way Qt
 * adjusts cursors: one that sits at or after an insertion point moves past
 * the inserted text, and one inside removed text falls back to where the
 * removal starts. The text has no word wrap, so a line is the text between
 * two line breaks, and a selection lies on one line, so Qt's selected text
 * is the plain slice.
 */
module Editor {
  import opened Text
  import Options
  import Highlight

  /** The text and the cursor of the editor. */
  datatype Buffer = Buffer(text: string, position: nat, anchor: nat)
  {
    predicate Valid() {
      position <= |text| && anchor <= |text|
    }

    /** `cursor.hasSelection()` */
    predicate HasSelection() {
      position != anchor
    }

    /** `cursor.selectionStart()` */
    function Start(): nat {
      if position < anchor then position else anchor
    }

    /** `cursor.selectionEnd()` */
    function End(): nat {
      if position < anchor then anchor else position
    }

    /** `cursor.selectedText()` */
    function Selected(): string
      requires Valid()
    {
      text[Start()..End()]
    }
  }

  /** The text `insert_header` puts at the start of the line. */
  const HeaderMark: string := "# "
  /** The text `insert_list` puts at the start of the line. */
  const ListMark: string := "* "
  /** What `insert_link` inserts when nothing is selected; the `url` part ends up selected. */
  const LinkPlaceholder: string := "[链接文本](url)"

  /** `s` without the `n` characters that start at `i`. */
  function Cut(s: string, i: nat, n: nat): (r: string)
    requires i + n <= |s|
    ensures |r| == |s| - n
  {
    s[..i] + s[i + n..]
  }

  /**
   * `t` without the `open` characters at `lo` and the `close` characters
   * that follow the `inner` characters after them.
   */
  function Unwrap(t: string, lo: nat, open: nat, inner: nat, close: nat): (u: string)
    requires lo + open + inner + close <= |t|
    ensures |u| == |t| - open - close
  {
    t[..lo] + t[lo + open..lo + open + inner] + t[lo + open + inner + close..]
  }

  /**
   * The characters that end a layout line when nothing is wrapped: a block
   * break (stored as `\n`) and the U+2028 line separator, which breaks the
   * line inside its block.
   */
  predicate IsLineBreak(c: char) {
    c == '\n' || c == '\U{2028}'
  }

  /** `s` holds no line break of either kind. */
  predicate NoLineBreak(s: string) {
    forall i :: 0 <= i < |s| ==> !IsLineBreak(s[i])
  }

  /** Offset `p` lies on the first line of `s`: no line break comes before it. */
  predicate OnFirstLine(s: string, p: nat)
    requires p <= |s|
  {
    forall k :: 0 <= k < p ==> !IsLineBreak(s[k])
  }

  /**
   * `QTextCursor.StartOfLine` without word wrap: the offset just after the
   * last line break (block break or line separator) before `p`, or 0.
   */
  function LineStart(s: string, p: nat): (ls: nat)
    requires p <= |s|
    ensures ls <= p
    ensures ls == 0 || IsLineBreak(s[ls - 1])
    ensures forall k :: ls <= k < p ==> !IsLineBreak(s[k])
  {
    if p == 0 || IsLineBreak(s[p - 1]) then p else LineStart(s, p - 1)
  }

  /**
   * `insertText(s)` on a cursor with this selection: the selection is
   * replaced by `s` and the cursor ends just after it.
   */
  function Replace(b: Buffer, s: string): (r: Buffer)
    requires b.Valid()
    ensures r.Valid() && !r.HasSelection()
    ensures |r.text| == |b.text| - (b.End() - b.Start()) + |s|
  {
    var p := b.Start() + |s|;
    Buffer(b.text[..b.Start()] + s + b.text[b.End()..], p, p)
  }

  /**
   * `toggle_bold`, `toggle_italic` and `insert_code`: a selection is
   * enclosed in `marker`; with no selection two markers are inserted and
   * the cursor is put between them.
   */
  function Wrap(b: Buffer, marker: string): (r: Buffer)
    requires b.Valid()
    ensures r.Valid()
  {
    if b.HasSelection() then Replace(b, marker + b.Selected() + marker)
    else
      var p := Replace(b, marker + marker).position - |marker|;
      Buffer(Replace(b, marker + marker).text, p, p)
  }

  /**
   * `insert_link`: a selection becomes the text of a link to `url`; with no
   * selection a placeholder link is inserted and its `url` selected, the
   * cursor at its start and the anchor at its end.
   */
  function LinkEdit(b: Buffer): (r: Buffer)
    requires b.Valid()
    ensures r.Valid()
  {
    if b.HasSelection() then Replace(b, "[" + b.Selected() + "](url)")
    else
      var q := Replace(b, LinkPlaceholder).position;
      Buffer(Replace(b, LinkPlaceholder).text, q - 4, q - 1)
  }

  /**
   * `insert_header` and `insert_list`: `prefix` is inserted, through a copy
   * of the cursor, at the start of the line that holds the cursor. Qt then
   * moves the editor's own cursor as it moves every other cursor: an end
   * after the insertion point moves with the text; an end before it stays;
   * an end exactly at it moves too, except the position of a cursor whose
   * anchor lies before it, which stays.
   */
  function PrefixLine(b: Buffer, prefix: string): (r: Buffer)
    requires b.Valid()
    ensures r.Valid()
  {
    var ls := LineStart(b.text, b.position);
    Buffer(b.text[..ls] + prefix + b.text[ls..],
           if b.position == ls && b.anchor < ls then b.position else b.position + |prefix|,
           if b.anchor >= ls then b.anchor + |prefix| else b.anchor)
  }

  // ---------------------------------------------------------------------
  // What the edits do
  // ---------------------------------------------------------------------

  /** Helper (sequence plumbing): the three parts of a concatenation, sliced back out. */
  lemma SliceConcat(a: string, m: string, c: string)
    ensures (a + m + c)[..|a|] == a && (a + m + c)[|a|..|a| + |m|] == m && (a + m + c)[|a| + |m|..] == c
  {
  }

  /** Helper (sequence plumbing): cutting the middle part out of a concatenation. */
  lemma CutConcat(a: string, m: string, c: string)
    ensures Cut(a + m + c, |a|, |m|) == a + c
  {
    SliceConcat(a, m, c);
  }

  /** Unwrapping `sel` enclosed by `open` and `close` between `before` and `after`. */
  lemma UnwrapLayout(t: string, before: string, open: string, sel: string, close: string, after: string)
    requires t == before + (open + sel + close) + after
    ensures Unwrap(t, |before|, |open|, |sel|, |close|) == before + sel + after
  {
    assert t == (before + open) + sel + (close + after);
    SliceConcat(before + open, sel, close + after);
    SliceConcat(before, open + sel + close, after);
  }

  /** The three pieces a selection splits the text into. */
  lemma Pieces(b: Buffer)
    requires b.Valid()
    ensures b.text[..b.Start()] + b.Selected() + b.text[b.End()..] == b.text
  {
  }

  /**
   * Replacing the selection: the text before and after it is kept and the
   * cursor lands just after the new text.
   */
  lemma ReplaceSpec(b: Buffer, s: string)
    requires b.Valid()
    ensures var r, lo := Replace(b, s), b.Start();
      && r.position == lo + |s|
      && r.text[..lo] == b.text[..lo]
      && r.text[lo..r.position] == s
      && r.text[r.position..] == b.text[b.End()..]
  {
    SliceConcat(b.text[..b.Start()], s, b.text[b.End()..]);
  }

  /**
   * With a selection, the markers enclose exactly the selected text and the
   * cursor lands after the closing marker with nothing selected; the text
   * around is kept.
   */
  lemma WrapSelection(b: Buffer, marker: string)
    requires b.Valid() && b.HasSelection()
    ensures var r, lo, sel := Wrap(b, marker), b.Start(), b.Selected();
      && r.position == lo + |marker| + |sel| + |marker| && !r.HasSelection()
      && r.text[..lo] == b.text[..lo]
      && r.text[lo..r.position] == marker + sel + marker
      && r.text[r.position..] == b.text[b.End()..]
  {
    ReplaceSpec(b, marker + b.Selected() + marker);
  }

  /** Taking the two markers of a wrapped selection out gives back the text. */
  lemma UnwrapRestores(b: Buffer, marker: string)
    requires b.Valid() && b.HasSelection()
    ensures var r, lo, sel := Wrap(b, marker), b.Start(), b.Selected();
      Unwrap(r.text, lo, |marker|, |sel|, |marker|) == b.text
  {
    var before, sel, after := b.text[..b.Start()], b.Selected(), b.text[b.End()..];
    var t := Wrap(b, marker).text;
    assert t == before + (marker + sel + marker) + after;
    UnwrapLayout(t, before, marker, sel, marker, after);
    Pieces(b);
  }

  /**
   * With no selection, the cursor sits between the two inserted markers,
   * and cutting them out gives back the text.
   */
  lemma WrapNoSelection(b: Buffer, marker: string)
    requires b.Valid() && !b.HasSelection()
    ensures var r, p := Wrap(b, marker), b.position;
      && !r.HasSelection()
      && r.text[..r.position] == b.text[..p] + marker
      && r.text[r.position..] == marker + b.text[p..]
      && Cut(r.text, p, 2 * |marker|) == b.text
  {
    var p := b.position;
    var before, after := b.text[..p], b.text[p..];
    SliceConcat(before + marker, marker, after);
    assert before + (marker + marker) + after == (before + marker) + marker + after;
    CutConcat(before, marker + marker, after);
  }

  /**
   * With a selection, the link text is exactly the selection and the
   * cursor lands after the link; the text around is kept.
   */
  lemma LinkSelection(b: Buffer)
    requires b.Valid() && b.HasSelection()
    ensures var r, lo, sel := LinkEdit(b), b.Start(), b.Selected();
      && !r.HasSelection()
      && r.text[..lo] == b.text[..lo]
      && r.text[lo..r.position] == "[" + sel + "](url)"
      && r.text[r.position..] == b.text[b.End()..]
  {
    ReplaceSpec(b, "[" + b.Selected() + "](url)");
  }

  /** Taking the link syntax around a linked selection out gives back the text. */
  lemma UnlinkRestores(b: Buffer)
    requires b.Valid() && b.HasSelection()
    ensures var r, lo, sel := LinkEdit(b), b.Start(), b.Selected();
      Unwrap(r.text, lo, 1, |sel|, 6) == b.text
  {
    var before, sel, after := b.text[..b.Start()], b.Selected(), b.text[b.End()..];
    var t := LinkEdit(b).text;
    assert t == before + ("[" + sel + "](url)") + after;
    UnwrapLayout(t, before, "[", sel, "](url)", after);
    Pieces(b);
  }

  /**
   * With no selection, the placeholder is inserted at the cursor and its
   * `url` is what is selected afterwards; cutting it out gives back the text.
   */
  lemma LinkNoSelection(b: Buffer)
    requires b.Valid() && !b.HasSelection()
    ensures var r, p := LinkEdit(b), b.position;
      && r.HasSelection() && r.position < r.anchor
      && r.Selected() == "url"
      && r.text[p..p + |LinkPlaceholder|] == LinkPlaceholder
      && Cut(r.text, p, |LinkPlaceholder|) == b.text
  {
    var p := b.position;
    var r := LinkEdit(b);
    var before, after := b.text[..p], b.text[p..];
    assert r.text == before + LinkPlaceholder + after;
    SliceConcat(before, LinkPlaceholder, after);
    CutConcat(before, LinkPlaceholder, after);
    assert r.Selected() == LinkPlaceholder[7..10];
  }

  /**
   * A line break-free string inserted just after a line start: the line
   * start of every offset from there to the end of the insertion and
   * beyond, up to the next line break, is unchanged.
   */
  lemma LineStartAfterInsert(s: string, ls: nat, p: nat, prefix: string)
    requires ls <= p <= |s| && LineStart(s, p) == ls && NoLineBreak(prefix)
    ensures LineStart(s[..ls] + prefix + s[ls..], p + |prefix|) == ls
  {
    var t := s[..ls] + prefix + s[ls..];
    SliceConcat(s[..ls], prefix, s[ls..]);
    var k := LineStart(t, p + |prefix|);
    forall j | ls <= j < p + |prefix| ensures !IsLineBreak(t[j]) {
      if j >= ls + |prefix| {
        assert t[j] == s[j - |prefix|];
      } else {
        assert t[j] == prefix[j - ls];
      }
    }
  }

  /** Text after the insertion point is only shifted by the insertion. */
  lemma ShiftedSlice(s: string, ls: nat, prefix: string, i: nat, k: nat)
    requires ls <= i <= k <= |s|
    ensures (s[..ls] + prefix + s[ls..])[i + |prefix|..k + |prefix|] == s[i..k]
  {
    var t := s[..ls] + prefix + s[ls..];
    forall j | i <= j < k ensures t[j + |prefix|] == s[j] {
    }
  }

  /** `m` inserted between `before` and `after`: the pieces read back, and cutting `m` out undoes it. */
  lemma InsertLayout(t: string, before: string, m: string, after: string)
    requires t == before + m + after
    ensures t[..|before|] == before && t[|before|..|before| + |m|] == m
    ensures Cut(t, |before|, |m|) == before + after
  {
    SliceConcat(before, m, after);
    CutConcat(before, m, after);
  }

  /**
   * The prefix now opens the line that held the cursor, the text before it
   * is kept, and cutting the prefix out gives back the text.
   */
  lemma PrefixLineText(b: Buffer, prefix: string)
    requires b.Valid()
    ensures var r, ls := PrefixLine(b, prefix), LineStart(b.text, b.position);
      && r.text[ls..ls + |prefix|] == prefix
      && r.text[..ls] == b.text[..ls]
      && Cut(r.text, ls, |prefix|) == b.text
  {
    var ls := LineStart(b.text, b.position);
    var before, after := b.text[..ls], b.text[ls..];
    var t := PrefixLine(b, prefix).text;
    assert t == before + prefix + after;
    assert |before| == ls && before + after == b.text;
    InsertLayout(t, before, prefix, after);
  }

  /**
   * The cursor stays on the same line, now opened by the prefix, and before
   * the same character; only a cursor at the line start whose anchor lies
   * on an earlier line stays put, and so ends up before the prefix.
   */
  lemma PrefixLineCursor(b: Buffer, prefix: string)
    requires b.Valid() && NoLineBreak(prefix)
    ensures var r, ls := PrefixLine(b, prefix), LineStart(b.text, b.position);
      && LineStart(r.text, r.position) == ls
      && if b.position == ls && b.anchor < ls then r.text[r.position..] == prefix + b.text[b.position..]
         else r.text[r.position..] == b.text[b.position..]
  {
    var ls := LineStart(b.text, b.position);
    var r := PrefixLine(b, prefix);
    if b.position == ls && b.anchor < ls {
      assert r.text == b.text[..ls] + prefix + b.text[ls..] && r.position == ls;
      InsertAtLineStart(b.text, ls, prefix);
    } else {
      assert r.text == b.text[..ls] + prefix + b.text[ls..] && r.position == b.position + |prefix|;
      LineStartAfterInsert(b.text, ls, b.position, prefix);
      SuffixAfterInsert(b.text, ls, prefix, b.position);
    }
  }

  /** Helper: a cursor left at the insertion point now sits before the prefix, at the line start. */
  lemma InsertAtLineStart(s: string, ls: nat, prefix: string)
    requires ls <= |s| && (ls == 0 || IsLineBreak(s[ls - 1]))
    ensures var t := s[..ls] + prefix + s[ls..];
      LineStart(t, ls) == ls && t[ls..] == prefix + s[ls..]
  {
    var t := s[..ls] + prefix + s[ls..];
    assert ls == 0 || t[ls - 1] == s[ls - 1];
    assert t[ls..] == prefix + s[ls..];
  }

  /** Helper: everything from a point after the insertion is only shifted. */
  lemma SuffixAfterInsert(s: string, ls: nat, prefix: string, p: nat)
    requires ls <= p <= |s|
    ensures (s[..ls] + prefix + s[ls..])[p + |prefix|..] == s[p..]
  {
    var t := s[..ls] + prefix + s[ls..];
    ShiftedSlice(s, ls, prefix, p, |s|);
    assert |t| == |s| + |prefix|;
  }

  /** A selection that starts on the prefixed line keeps its text. */
  lemma PrefixLineSelection(b: Buffer, prefix: string)
    requires b.Valid() && b.anchor >= LineStart(b.text, b.position)
    ensures PrefixLine(b, prefix).Selected() == b.Selected()
  {
    var ls := LineStart(b.text, b.position);
    var r := PrefixLine(b, prefix);
    assert r.text == b.text[..ls] + prefix + b.text[ls..];
    assert r.Start() == b.Start() + |prefix| && r.End() == b.End() + |prefix|;
    ShiftedSlice(b.text, ls, prefix, b.Start(), b.End());
  }

  /**
   * A selection that runs back onto an earlier line keeps its text when it
   * ends at the line start, and takes the prefix inside when it ends
   * further on.
   */
  lemma PrefixLineBackwardSelection(b: Buffer, prefix: string)
    requires b.Valid() && b.anchor < LineStart(b.text, b.position)
    ensures var ls := LineStart(b.text, b.position);
      PrefixLine(b, prefix).Selected() ==
        if b.position == ls then b.Selected() else b.text[b.anchor..ls] + prefix + b.text[ls..b.position]
  {
    var ls := LineStart(b.text, b.position);
    var r := PrefixLine(b, prefix);
    var before, after := b.text[..ls], b.text[ls..];
    assert r.text == before + prefix + after;
    assert r.anchor == b.anchor && r.Start() == b.anchor;
    if b.position == ls {
      assert r.End() == ls;
      assert r.text[b.anchor..ls] == before[b.anchor..];
    } else {
      assert r.End() == b.position + |prefix|;
      assert r.text[b.anchor..b.position + |prefix|] == before[b.anchor..] + prefix + after[..b.position - ls];
    }
  }

  /**
   * On a one-block note with the cursor on its first line, the line starts
   * at offset 0, and a prefix without line breaks keeps the note one block.
   */
  lemma PrefixOneLine(b: Buffer, prefix: string)
    requires b.Valid() && Highlight.IsBlock(b.text) && OnFirstLine(b.text, b.position) && '\n' !in prefix
    ensures PrefixLine(b, prefix).text == prefix + b.text
    ensures Highlight.IsBlock(prefix + b.text)
  {
    assert LineStart(b.text, b.position) == 0;
    assert b.text[..0] == [] && b.text[0..] == b.text;
  }

  /**
   * A U+2028 line separator ends a line inside its block: with the cursor
   * after one, the prefix goes after the separator, not at the block start.
   */
  lemma SeparatorStartsLine()
    ensures PrefixLine(Buffer("ab\U{2028}cd", 4, 4), HeaderMark).text == "ab\U{2028}# cd"
  {
    var s := "ab\U{2028}cd";
    assert IsLineBreak(s[2]) && !IsLineBreak(s[3]);
    assert LineStart(s, 4) == 3;
    assert s[..3] + HeaderMark + s[3..] == "ab\U{2028}# cd";
  }

  /**
   * On a one-block note with some text and the cursor on its first line,
   * `insert_header` makes the block a first-level heading for the
   * highlighter, covering the whole block, and never a second-level one.
   */
  lemma HeaderLineIsHeading(b: Buffer)
    requires b.Valid() && Highlight.IsBlock(b.text) && OnFirstLine(b.text, b.position) && b.text != []
    ensures var t := PrefixLine(b, HeaderMark).text;
      && Highlight.IsBlock(t)
      && Highlight.RuleSpans(Highlight.HeadingOne, t) == [Highlight.Span(0, |t|, Highlight.Heading1)]
      && Highlight.RuleSpans(Highlight.HeadingTwo, t) == []
  {
    PrefixOneLine(b, HeaderMark);
    var t := HeaderMark + b.text;
    assert t[0] == '#' && t[1] == ' ';
    assert LeadingSpace(t) == 0;
    assert Highlight.RunAt(t, 0, '#', 1);
    Highlight.AnchoredAtMostOnce(Highlight.HeadingOne, t);
    Highlight.AnchoredAtMostOnce(Highlight.HeadingTwo, t);
  }

  /**
   * On a one-block note with the cursor on its first line, `insert_list`
   * makes the block a list item for the highlighter: the marker and the
   * blanks after it are formatted.
   */
  lemma ListLineIsListItem(b: Buffer)
    requires b.Valid() && Highlight.IsBlock(b.text) && OnFirstLine(b.text, b.position)
    ensures var t := PrefixLine(b, ListMark).text;
      && Highlight.IsBlock(t)
      && Highlight.RuleSpans(Highlight.Bullet, t) ==
           [Highlight.Span(0, 2 + LeadingSpace(b.text), Highlight.ListItem)]
  {
    var t := PrefixLine(b, ListMark).text;
    assert Highlight.IsBlock(t) && |t| >= 2 && t[0] == '*' && t[1] == ' ' && t[2..] == b.text by {
      PrefixOneLine(b, ListMark);
      assert t == ListMark + b.text;
    }
    Highlight.BulletLine(t, b.text);
  }

  // ---------------------------------------------------------------------
  // Plain text in and out of the document
  // ---------------------------------------------------------------------

  /** The characters `setPlainText` takes as a block break: `\n`, `\r`, the paragraph separator and Qt's two frame marks. */
  predicate IsBreakInput(c: char) {
    c == '\n' || c == '\r' || c == '\U{2029}' || c == '\U{FDD0}' || c == '\U{FDD1}'
  }

  /**
   * The document `setPlainText` builds from `s`, each block break written
   * `\n`: a `\r\n` pair is one break, and every other break character is
   * one break on its own.
   */
  function DocumentOf(s: string): (t: string)
    ensures |t| <= |s|
    ensures forall i :: 0 <= i < |t| && IsBreakInput(t[i]) ==> t[i] == '\n'
  {
    if s == [] then []
    else if s[0] == '\r' && |s| > 1 && s[1] == '\n' then "\n" + DocumentOf(s[2..])
    else if IsBreakInput(s[0]) then "\n" + DocumentOf(s[1..])
    else [s[0]] + DocumentOf(s[1..])
  }

  /** How `toPlainText` writes one character of the document: separators as `\n`, a no-break space as a space. */
  function PlainChar(c: char): char {
    if c == '\U{2028}' || c == '\U{2029}' || c == '\U{FDD0}' || c == '\U{FDD1}' then '\n'
    else if c == '\U{00A0}' then ' '
    else c
  }

  /** `toPlainText`: the document character by character. */
  function PlainTextOf(t: string): (s: string)
    ensures |s| == |t|
    ensures forall i :: 0 <= i < |t| ==> s[i] == PlainChar(t[i])
  {
    if t == [] then [] else [PlainChar(t[0])] + PlainTextOf(t[1..])
  }

  /** A character that goes in through `setPlainText` and comes out of `toPlainText` as it was. */
  predicate KeptAsIs(c: char) {
    c == '\n' || (!IsBreakInput(c) && c != '\U{2028}' && c != '\U{00A0}')
  }

  /** Text without `\r`, separators or no-break spaces reads back as it was written. */
  lemma {:induction false} ContentRoundTrip(s: string)
    requires forall i :: 0 <= i < |s| ==> KeptAsIs(s[i])
    ensures PlainTextOf(DocumentOf(s)) == s
  {
    if s != [] {
      assert KeptAsIs(s[0]);
      ContentRoundTrip(s[1..]);
      assert DocumentOf(s) == [s[0]] + DocumentOf(s[1..]);
      assert PlainTextOf([s[0]] + DocumentOf(s[1..])) == [PlainChar(s[0])] + PlainTextOf(DocumentOf(s[1..]));
    }
  }

  /**
   * What `get_content` gives after `set_content` has only characters that
   * are kept as they are, so writing it back and reading it again gives
   * the same text.
   */
  lemma ContentReadBackIsStable(s: string)
    ensures forall i :: 0 <= i < |PlainTextOf(DocumentOf(s))| ==> KeptAsIs(PlainTextOf(DocumentOf(s))[i])
    ensures PlainTextOf(DocumentOf(PlainTextOf(DocumentOf(s)))) == PlainTextOf(DocumentOf(s))
  {
    var t := DocumentOf(s);
    var r := PlainTextOf(t);
    forall i | 0 <= i < |r| ensures KeptAsIs(r[i]) {
      assert r[i] == PlainChar(t[i]);
    }
    ContentRoundTrip(r);
  }

  /** A Windows line break is read back as one `\n`. */
  lemma CrLfReadsAsNewline()
    ensures PlainTextOf(DocumentOf("a\r\nb")) == "a\nb"
  {
    assert DocumentOf("a\r\nb") == "a\nb" by {
      assert "a\r\nb"[1..] == "\r\nb" && "\r\nb"[2..] == "b";
      assert DocumentOf("b") == "b";
    }
  }

  /** A no-break space is read back as a plain space. */
  lemma NoBreakSpaceReadsAsSpace()
    ensures PlainTextOf(DocumentOf("a\U{00A0}b")) == "a b"
  {
    assert DocumentOf("a\U{00A0}b") == "a\U{00A0}b" by {
      assert "a\U{00A0}b"[1..] == "\U{00A0}b" && "\U{00A0}b"[1..] == "b";
      assert DocumentOf("b") == "b";
    }
  }

  // ---------------------------------------------------------------------
  // The editor
  // ---------------------------------------------------------------------

  class MarkdownEditor {
    /** The document's text, one `\n` per block break. */
    var text: string
    /** The text cursor's position. */
    var position: nat
    /** The text cursor's anchor: the other end of the selection. */
    var anchor: nat
    /** `line_numbers_visible` */
    var lineNumbersVisible: bool

    ghost predicate Valid()
      reads this
    {
      Snapshot().Valid()
    }

    function Snapshot(): Buffer
      reads this
    {
      Buffer(text, position, anchor)
    }

    /** `__init__`: an empty document, line numbers shown. */
    constructor ()
      ensures Valid() && text == [] && position == 0 && anchor == 0 && lineNumbersVisible
    {
      text, position, anchor := [], 0, 0;
      lineNumbersVisible := true;
    }

    /** `set_content`: the document `setPlainText` builds, the cursor at its start, the line-number flag kept. */
    method SetContent(content: string)
      modifies this
      ensures Valid()
      ensures text == DocumentOf(content) && position == 0 && anchor == 0
      ensures lineNumbersVisible == old(lineNumbersVisible)
    {
      var visible := lineNumbersVisible;
      text, position, anchor := DocumentOf(content), 0, 0;
      lineNumbersVisible := visible;
    }

    /** `get_content`: the document as `toPlainText` writes it. */
    method GetContent() returns (content: string)
      ensures content == PlainTextOf(text)
      ensures |content| == |text|
    {
      content := PlainTextOf(text);
    }

    /** `toggle_line_numbers`: two toggles give back the setting. */
    method ToggleLineNumbers()
      modifies this
      ensures lineNumbersVisible == !old(lineNumbersVisible)
      ensures Snapshot() == old(Snapshot())
    {
      lineNumbersVisible := !lineNumbersVisible;
    }

    /** `cursor.removeSelectedText()` */
    method RemoveSelectedText()
      requires Valid()
      modifies this
      ensures Valid() && Snapshot() == Replace(old(Snapshot()), [])
      ensures lineNumbersVisible == old(lineNumbersVisible)
    {
      var lo, hi := Snapshot().Start(), Snapshot().End();
      text := text[..lo] + text[hi..];
      position, anchor := lo, lo;
    }

    /** `cursor.insertText(s)` on a cursor without a selection. */
    method InsertText(s: string)
      requires Valid() && !Snapshot().HasSelection()
      modifies this
      ensures Valid() && Snapshot() == Replace(old(Snapshot()), s)
      ensures lineNumbersVisible == old(lineNumbersVisible)
    {
      text := text[..position] + s + text[position..];
      position := position + |s|;
      anchor := position;
    }

    /** `cursor.movePosition(Left, mode, n)`; `keepAnchor` is `KeepAnchor`. */
    method MoveLeft(n: nat, keepAnchor: bool)
      requires Valid()
      modifies this
      ensures Valid() && text == old(text) && lineNumbersVisible == old(lineNumbersVisible)
      ensures position == if n <= old(position) then old(position) - n else 0
      ensures anchor == if keepAnchor then old(anchor) else position
    {
      position := if n <= position then position - n else 0;
      if !keepAnchor {
        anchor := position;
      }
    }

    /** The body shared by `toggle_bold`, `toggle_italic` and `insert_code`. */
    method WrapSelection(marker: string)
      requires Valid()
      modifies this
      ensures Valid() && Snapshot() == Wrap(old(Snapshot()), marker)
      ensures lineNumbersVisible == old(lineNumbersVisible)
    {
      if position != anchor {
        var sel := Snapshot().Selected();
        ghost var b := Snapshot();
        RemoveSelectedText();
        InsertText(marker + sel + marker);
        assert b.text[..b.Start()] + [] + b.text[b.End()..] == b.text[..b.Start()] + b.text[b.End()..];
      } else {
        InsertText(marker + marker);
        MoveLeft(|marker|, false);
      }
    }

    /** `toggle_bold` */
    method ToggleBold()
      requires Valid()
      modifies this
      ensures Valid() && Snapshot() == Wrap(old(Snapshot()), "**")
      ensures lineNumbersVisible == old(lineNumbersVisible)
    {
      WrapSelection("**");
    }

    /** `toggle_italic` */
    method ToggleItalic()
      requires Valid()
      modifies this
      ensures Valid() && Snapshot() == Wrap(old(Snapshot()), "*")
      ensures lineNumbersVisible == old(lineNumbersVisible)
    {
      WrapSelection("*");
    }

    /** `insert_code` */
    method InsertCode()
      requires Valid()
      modifies this
      ensures Valid() && Snapshot() == Wrap(old(Snapshot()), "`")
      ensures lineNumbersVisible == old(lineNumbersVisible)
    {
      WrapSelection("`");
    }

    /** `insert_link` */
    method InsertLink()
      requires Valid()
      modifies this
      ensures Valid() && Snapshot() == LinkEdit(old(Snapshot()))
      ensures lineNumbersVisible == old(lineNumbersVisible)
    {
      if position != anchor {
        var sel := Snapshot().Selected();
        ghost var b := Snapshot();
        RemoveSelectedText();
        InsertText("[" + sel + "](url)");
        assert b.text[..b.Start()] + [] + b.text[b.End()..] == b.text[..b.Start()] + b.text[b.End()..];
      } else {
        InsertText(LinkPlaceholder);
        MoveLeft(1, false);
        MoveLeft(3, true);
      }
    }

    /**
     * The body shared by `insert_header` and `insert_list`: a cursor copy
     * goes to the start of the line and inserts `prefix` there; the
     * editor's own cursor is moved by the insertion.
     */
    method PrefixCurrentLine(prefix: string)
      requires Valid()
      modifies this
      ensures Valid() && Snapshot() == PrefixLine(old(Snapshot()), prefix)
      ensures lineNumbersVisible == old(lineNumbersVisible)
    {
      var ls := LineStart(text, position);
      text := text[..ls] + prefix + text[ls..];
      if !(position == ls && anchor < ls) {
        position := position + |prefix|;
      }
      if anchor >= ls {
        anchor := anchor + |prefix|;
      }
    }

    /** `insert_header` */
    method InsertHeader()
      requires Valid()
      modifies this
      ensures Valid() && Snapshot() == PrefixLine(old(Snapshot()), HeaderMark)
      ensures lineNumbersVisible == old(lineNumbersVisible)
    {
      PrefixCurrentLine(HeaderMark);
    }

    /** `insert_list` */
    method InsertList()
      requires Valid()
      modifies this
      ensures Valid() && Snapshot() == PrefixLine(old(Snapshot()), ListMark)
      ensures lineNumbersVisible == old(lineNumbersVisible)
    {
      PrefixCurrentLine(ListMark);
    }
  }
}
