# A verified model of a Markdown note manager's core

This project models the logic of a small desktop note manager written in
Python with Qt. It covers five parts:

- **Tags** (`TagManager`): each note path maps to a list of tags, and a
  separate vocabulary set is shown in the tag list.
- **Highlighter** (`MarkdownHighlighter.highlightBlock`): ten
  regular-expression rules format one line of Markdown.
- **Editor toolbar** (`MarkdownEditor`): buttons that wrap the selection in
  Markdown markers or prefix the current line. Also reading and replacing
  the text, and the line-number switch.
- **Search** (`SearchWidget`): a case-insensitive keyword scan over the
  notes directory.
- **Settings** (`ConfigManager`) and **file tree** (`FileManager`): settings
  with defaults, size labels, the default extension of new files, and the
  create-only-if-absent rule.

The Dafny modules follow the source files:

| module | file | source |
|---|---|---|
| `Options`, `Text` | text.dfy | the Python `str`/`list` operations the program relies on |
| `Paths` | paths.dfy | `os.path.join`, `os.path.dirname` and how the file system reads a path (POSIX) |
| `Tags` | tags.dfy | src/tag_manager.py |
| `Highlight` | highlight.dfy | src/editor.py, `MarkdownHighlighter` |
| `Editor` | editor.dfy | src/editor.py, `MarkdownEditor` |
| `Search` | search.dfy | src/search_widget.py |
| `Config` | config.dfy | src/config_manager.py |
| `Files` | files.dfy | src/file_manager.py |

Code that updates state in place is modelled as classes whose methods update
fields: `Tags.TagManager`, `Editor.MarkdownEditor`, `Search.SearchWidget`,
`Config.ConfigManager` and `Files.FileManager`. Each method is proved
against a pure function, and the lemmas are about those functions.
`Highlight.HighlightBlock` formats an array in place.

I/O becomes state or parameters:

- each persisted file is a field holding its parsed contents;
- whether a write succeeds is a constant of the object;
- `os.walk` is a sequence of directory listings;
- a read either gives text or fails;
- dialog answers are method parameters.

The code does several things a reader may not expect; the model follows
the code:

- A tag list can hold a tag twice after a rename onto a tag it already has
  (`Tags.RenameInSpec`).
- Renaming a tag and renaming it back reorders the list
  (`Tags.RenameBackReorders`).
- `delete_tag` removes one occurrence per list, so a duplicate survives
  (`Tags.DeleteAfterDuplicatingRenameLeavesCopy`).
- Tagging a file does not add the tag to the vocabulary
  (`Tags.TagManager.AddTagToFile`).
- A tag kept only in the vocabulary is lost after a save and a reload
  (`Tags.VocabularyOnlyTagIsNotPersisted`).
- A rename or delete of a tag missing from the vocabulary raises after the
  lists were rewritten, so nothing is saved (`Tags.TagManager.RenameTag`,
  `Tags.TagManager.DeleteTag`).
- A search with an empty keyword keeps the previous results rather than
  clearing them (`Search.SearchWidget.SearchFiles`).
- On `**bold**` the italic rule overrides the bold format on all but the
  last character (`Highlight.BoldMarkupEndsItalic`).

## Model

| member | source | states |
|---|---|---|
| Text.StripRemovesOnlySpace | src/tag_manager.py:97 | `strip()` keeps one contiguous part of the input and removes only whitespace on either side of it |
| Text.StripTrims | src/search_widget.py:36-38 | the stripped keyword has no whitespace at either end, and it is empty exactly when the input is all whitespace |
| Text.IsSubstringIff | src/search_widget.py:50 | the `in` test on strings holds exactly when the needle occurs at some offset of the haystack |
| Text.RemoveFirstSpec | src/tag_manager.py:115 | `list.remove` drops exactly one copy of the value, shortens the list by one and keeps every other value |
| Text.StrLessIrreflexive | src/tag_manager.py:85 | Python's string order is irreflexive |
| Text.StrLessTransitive | src/tag_manager.py:85 | Python's string order is transitive |
| Text.StrLessTotal | src/tag_manager.py:85 | any two different strings are ordered one way or the other |
| Text.Strip | src/tag_manager.py:97 | `str.strip()`: the text without the whitespace at either end (proved in `Text.StripRemovesOnlySpace`, `Text.StripTrims`) |
| Text.IsNoteName | src/search_widget.py:45 | `endswith(('.txt', '.md'))`: a name is a note exactly when it ends with `.txt` or `.md` |
| Text.RemoveFirst | src/tag_manager.py:115 | `list.remove(x)` on a list holding `x`: the list without its first `x` (proved in `Text.RemoveFirstSpec`) |
| Text.StrLess | src/tag_manager.py:85 | the order `sorted` puts strings in: by code point, a proper prefix first (proved a strict total order by the three lemmas above) |
| Paths.Sep | src/search_widget.py:46 | `join` puts no separator after an empty first part or one that ends with `/`, and one `/` otherwise |
| Paths.JoinAssoc | src/search_widget.py:46-51 | joining `a`, a relative `b` and a relative `c` in two steps either way gives the same path |
| Paths.JoinSpec | src/search_widget.py:46 | `os.path.join(a, b)` ends with `b`, starts with `a` unless `b` is absolute, and is `b` when `b` is absolute |
| Paths.DirnameOfJoin | src/file_manager.py:166-167 | `dirname` of a directory joined with a plain file name is that directory |
| Paths.Join | src/search_widget.py:46 | `os.path.join(a, b)` on POSIX: an absolute `b` replaces `a`, otherwise `b` follows `a` and the separator (proved in `Paths.JoinSpec`) |
| Paths.Dirname | src/file_manager.py:167 | `os.path.dirname`: the part before the last `/`, without trailing slashes unless it is only slashes (proved in `Paths.DirnameOfJoin`) |
| Paths.Split | src/file_manager.py:177 | the parts of a path between its slashes, in order, none holding a `/` |
| Paths.JoinParts | src/file_manager.py:177 | parts joined with `/` between them (`Paths.JoinSplit` shows it undoes `Paths.Split`) |
| Paths.IsPlainName | src/file_manager.py:175 | a name that names an item: not empty, not `.` or `..`, without `/` |
| Paths.Step | src/file_manager.py:177 | reading one part: an empty or `.` part stays, `..` goes up (never above the root of an absolute path), a name goes down |
| Paths.Walk | src/file_manager.py:177 | reading the parts left to right; on an absolute path only plain names are left (proved in `Paths.WalkAppend` for two pieces) |
| Paths.WalkAppend | src/file_manager.py:177 | reading two runs of parts one after the other is reading their concatenation |
| Paths.JoinSplit | src/file_manager.py:177 | cutting a path at every `/` and joining the parts with `/` again gives back the path, so the parts the file system reads lose nothing |
| Paths.Normalize | src/file_manager.py:177 | the item `os.path.exists` looks up: empty and `.` parts are skipped, `..` drops the part before it (never above the root of an absolute path), and an absolute path stays absolute |
| Paths.NormalizeJoinName | src/file_manager.py:175 | a plain name joined onto an absolute folder already in that form is read as the joined path itself |
| Paths.NormalizeTrailingSlash | src/file_manager.py:177 | a trailing `/` does not change the item a path reaches |
| Paths.NormalizeDotPart | src/file_manager.py:217 | a `./` part in front of a name does not change the item a path reaches |
| Tags.DictFromEntries | src/tag_manager.py:60-61 | the dict `json.load` builds has each key once, in first-occurrence order, and its keys are exactly the ordered paths |
| Tags.Decode | src/tag_manager.py:60 | `data.get("file_tags", {})`: the paths in document order with their lists, and an empty dict without the key (proved in `Tags.DecodeEncode`) |
| Tags.Vocabulary | src/tag_manager.py:63-66 | the vocabulary `load_tags` rebuilds: every tag of every list (proved in `Tags.TagsOfAll`) |
| Tags.TagsOf | src/tag_manager.py:64-66 | the loop's union of the lists of the paths visited so far (proved equal to `Tags.Vocabulary` by `Tags.TagsOfAll`) |
| Tags.RenameIn | src/tag_manager.py:150-152 | one list's rename: a list holding the old tag loses its first copy and gets the new tag at the end (proved in `Tags.RenameInSpec`) |
| Tags.DeleteIn | src/tag_manager.py:170-171 | one list's delete: a list holding the tag loses its first copy (proved in `Tags.DeleteInSpec`) |
| Tags.DecodeEncode | src/tag_manager.py:60-61 | decoding the entries written for a dict gives back its paths in order and its lists |
| Tags.SaveLoadRoundTrip | src/tag_manager.py:73-79 | loading the document `save_tags` writes gives back the same paths in the same order, each with the same list |
| Tags.VocabularyOnlyTagIsNotPersisted | src/tag_manager.py:61-66 | a tag in no file's list is not in the vocabulary rebuilt after a save and a load |
| Tags.TagsOfAll | src/tag_manager.py:64-66 | the loop over all lists rebuilds exactly the union of their tags |
| Tags.RenameInSpec | src/tag_manager.py:149-152 | a list holding the old tag keeps its length, loses one old tag and gains one new tag at the end, so an existing new tag is now there twice; other lists are unchanged |
| Tags.RenamedAllSingle | src/tag_manager.py:149-152 | on a one-path dict the rename works on that path's list alone |
| Tags.DeletedAllSingle | src/tag_manager.py:169-171 | on a one-path dict the delete works on that path's list alone |
| Tags.RenameBackReorders | src/tag_manager.py:149-152 | renaming `a` to `b` and back turns `["a","c"]` into `["c","a"]` |
| Tags.DeleteInSpec | src/tag_manager.py:169-171 | a delete removes one occurrence of the tag and keeps the count of every other tag; the tag is gone only if the list held it at most once |
| Tags.DeleteAfterDuplicatingRenameLeavesCopy | src/tag_manager.py:149-171 | renaming `a` to `b` in `["a","b"]` gives `["b","b"]`, and deleting `b` then leaves one `b` |
| Tags.InsertSortedSpec | src/tag_manager.py:85 | inserting a new string keeps a listing strictly sorted and adds exactly that string |
| Tags.FilesTagged | src/tag_manager.py:180-186 | the paths found are at most as many as the dict's paths |
| Tags.FilesTaggedMembers | src/tag_manager.py:180-186 | a path is listed exactly when it is a key whose list holds the tag |
| Tags.FilesTaggedInOrder | src/tag_manager.py:180-186 | the listed paths keep the dict's iteration order, so none is listed twice |
| Tags.RenameEverywhere | src/tag_manager.py:149-152 | the loop over `file_tags.items()` gives the dict with every list renamed |
| Tags.DeleteEverywhere | src/tag_manager.py:169-171 | the loop over `file_tags.items()` gives the dict with the tag deleted from every list |
| Tags.TagManager.constructor | src/tag_manager.py:11-54 | a new index is empty, then loaded from `.tags.json` |
| Tags.TagManager.LoadTags | src/tag_manager.py:56-71 | a document whose `file_tags` is an object of string lists replaces the dict and rebuilds the vocabulary as the union of all lists; a missing `file_tags` key gives an empty dict; a missing file, one that cannot be opened or parsed, and a top-level value that is not an object change nothing |
| Tags.TagManager.SaveTags | src/tag_manager.py:73-81 | the file then holds `{"file_tags": file_tags}` if the write succeeds, and is unchanged otherwise; memory is unchanged |
| Tags.TagManager.AddTag | src/tag_manager.py:96-102 | a non-blank input joins the vocabulary stripped, the dict is untouched, and the dict is saved; blank input changes nothing |
| Tags.TagManager.AddTagToFile | src/tag_manager.py:104-111 | a tag the list already holds changes and saves nothing; otherwise the path gets a list if needed, the tag is appended and the dict saved; the vocabulary never changes |
| Tags.TagManager.RemoveTagFromFile | src/tag_manager.py:113-117 | with the path and tag present, the first occurrence goes and the dict is saved, and the path stays a key; otherwise nothing changes |
| Tags.TagManager.RenameTag | src/tag_manager.py:144-160 | nothing happens unless the answer is accepted, non-empty and different; then every list is renamed, and the vocabulary swaps the tags and the dict is saved exactly when the old tag was in the vocabulary |
| Tags.TagManager.DeleteTag | src/tag_manager.py:162-178 | nothing happens without confirmation; then every list loses one occurrence, the tag leaves the vocabulary, and the dict is saved exactly when the tag was in the vocabulary |
| Tags.Encode | src/tag_manager.py:74-79 | the document written has one entry per path, in the dict's order: entry `i` is the `i`-th path with its list |
| Tags.TagManager.GetFilesByTag | src/tag_manager.py:180-186 | the result is the paths whose list holds the tag, in dict order (see `Tags.FilesTaggedMembers`, `Tags.FilesTaggedInOrder`) |
| Tags.TagManager.SortedTags | src/tag_manager.py:83-87 | the tag list shows the vocabulary strictly sorted, each tag once |
| Highlight.DigitRun | src/editor.py:53 | `\d+` takes the longest run of digits |
| Highlight.CloseFrom | src/editor.py:27-40 | the lazy `(.+?)` stops at a closing run at or after the given offset |
| Highlight.CloseFromFirstRun | src/editor.py:27-40 | that closing run is the first one; no run at all means no match |
| Highlight.DelimitedAt | src/editor.py:27-40 | a delimited match opens and closes with the marker run and has at least one character between |
| Highlight.LinkFrom | src/editor.py:46 | a link match ends just past a `)` at least four characters after `](` starts |
| Highlight.MatchAt | src/editor.py:16-53 | a match tried at an offset ends inside the block and is at least as long as the rule's shortest match |
| Highlight.MatchesFrom | src/editor.py:58 | each entry of the match table ends inside the block and after its start |
| Highlight.Matches | src/editor.py:58 | the match table covers every start offset of the block, its end included |
| Highlight.MatchesFromAt | src/editor.py:58 | entry `k` of a table built from `s` is the match tried at `s + k` |
| Highlight.MatchesAt | src/editor.py:58 | entry `s` of the table is the match tried at offset `s` |
| Highlight.Search | src/editor.py:58 | `re.search` from a position returns a match that starts there or later and ends after its start |
| Highlight.SearchLeftmost | src/editor.py:58 | the match returned is the leftmost, and there is none exactly when no match starts from the position on |
| Highlight.FindAll | src/editor.py:57-62 | every span of a rule carries that rule's format |
| Highlight.RuleSpans | src/editor.py:57-62 | the `setFormat` calls of one rule: one per `finditer` match, in its format (proved in `Highlight.RuleSpansShape`) |
| Highlight.Spans | src/editor.py:55-62 | all `setFormat` calls of `highlightBlock`: the ten rules' calls in declaration order (proved in `Highlight.SpansByRule`, `Highlight.SpansInBlock`) |
| Highlight.FindAllShape | src/editor.py:58-62 | `finditer` spans lie inside the block, left to right, without overlap, each at least the rule's minimum length |
| Highlight.RuleSpansShape | src/editor.py:57-62 | the spans of one rule lie inside the block, in order, without overlap, in the rule's format |
| Highlight.NoMatchFrom | src/editor.py:58 | `finditer` yields nothing when no match starts from the position on |
| Highlight.FindAllFirst | src/editor.py:58-59 | the first span is the leftmost match, and the rest are searched for from its end |
| Highlight.PaintNextRule | src/editor.py:57-62 | applying one more rule paints its spans over what the earlier rules left |
| Highlight.SetFormatOn | src/editor.py:62 | `setFormat` keeps the block's length |
| Highlight.Paint | src/editor.py:62 | a sequence of `setFormat` calls keeps the block's length |
| Highlight.PaintAppend | src/editor.py:57-62 | painting two call lists in a row is painting their concatenation |
| Highlight.PaintSnoc | src/editor.py:62 | one more `setFormat` call acts on the formats left by the earlier ones |
| Highlight.SetFormatMisses | src/editor.py:62 | a call whose range misses an offset leaves that offset's format alone |
| Highlight.PaintUncovered | src/editor.py:57-62 | an offset that no span covers keeps its format |
| Highlight.PaintLastCover | src/editor.py:57-62 | the final format of an offset is that of the last span covering it (`setFormat` replaces) |
| Highlight.SetFormat | src/editor.py:62 | the array method changes the formats exactly as `setFormat` does |
| Highlight.ApplyRule | src/editor.py:58-62 | the inner loop paints every `finditer` match of one rule, left to right |
| Highlight.HighlightBlock | src/editor.py:55-62 | the formats end up as all rules' spans, in declaration order, paint them |
| Highlight.SpansInBlock | src/editor.py:55-62 | every span passed to `setFormat` lies inside the block |
| Highlight.AnchoredAtMostOnce | src/editor.py:16-53 | a `^`-anchored rule yields at most one span, which starts the block, and it yields one exactly when the rule matches at offset 0 |
| Highlight.BulletLine | src/editor.py:52 | a block that opens with `* ` is one list item covering the marker and the blanks after it |
| Highlight.HeadingsExclusive | src/editor.py:16-22 | the two heading rules never both match a block, and a heading span covers the whole block |
| Highlight.HashBlankIsNoHeading | src/editor.py:16-22 | `# ` gets no heading span |
| Highlight.HashTwoBlanksIsHeading | src/editor.py:16 | `#` followed by two blanks is a first-level heading over all three characters |
| Highlight.DelimitedMatch | src/editor.py:27-40 | a bold, italic or code match opens and closes with its marker and has non-empty inner text |
| Highlight.LoneMarkerNoSpans | src/editor.py:27-40 | a block with at most one copy of a rule's marker gets no span from that rule |
| Highlight.CloseFromFirst | src/editor.py:27-40 | the lazy match closes at the first closing run |
| Highlight.SpansByRule | src/editor.py:57-62 | a block's spans are those of the ten rules, in declaration order |
| Highlight.BoldMarkupBoldSpan | src/editor.py:27 | on `**bold**` the bold rule matches all eight characters |
| Highlight.BoldMarkupItalicSpan | src/editor.py:33 | on `**bold**` the italic rule matches offsets 0 to 7 |
| Highlight.BoldMarkupNoUnderscore | src/editor.py:28-34 | on `**bold**` the underscore rules find nothing |
| Highlight.BoldMarkupNoCodeOrLink | src/editor.py:40-46 | on `**bold**` the code and link rules find nothing |
| Highlight.BoldMarkupNoHeading | src/editor.py:16-22 | `**bold**` is no heading |
| Highlight.BoldMarkupNoListItem | src/editor.py:52-53 | `**bold**` is no list item |
| Highlight.BoldMarkupSpans | src/editor.py:27-62 | the calls on `**bold**` are bold over all of it, then italic over the first seven characters |
| Highlight.BoldMarkupEndsItalic | src/editor.py:27-62 | on `**bold**` the first seven characters end up italic and only the last `*` bold |
| Editor.LineStart | src/editor.py:303-308 | `StartOfLine` goes just after the last line break before the cursor, a block break or a U+2028 line separator, or to 0 |
| Editor.Buffer.Selected | src/editor.py:282 | `selectedText()`: the text between the anchor and the position |
| Editor.Cut | src/editor.py:285-288 | the text without the `n` characters at `i`, which undoes inserting them there (used in `Editor.WrapNoSelection`) |
| Editor.Unwrap | src/editor.py:281-284 | the text without the two markers around an inner part, which undoes a wrap (used in `Editor.UnwrapRestores`) |
| Editor.Replace | src/editor.py:283-284 | inserting over a selection leaves no selection and changes the length by the inserted minus the removed text |
| Editor.ReplaceSpec | src/editor.py:283-284 | the text before and after the selection is kept and the cursor lands just after the new text |
| Editor.Pieces | src/editor.py:282 | the text is the part before the selection, the selected text and the part after |
| Editor.WrapSelection | src/editor.py:279-320 | with a selection, the markers enclose exactly the selected text, the text around is kept, and the cursor lands after the closing marker |
| Editor.UnwrapRestores | src/editor.py:279-320 | taking the two markers out again gives back the original text |
| Editor.WrapNoSelection | src/editor.py:285-320 | with no selection, two markers are inserted, the cursor sits between them, and cutting them out gives back the text |
| Editor.LinkSelection | src/editor.py:324-327 | with a selection, the link text is exactly the selection and the cursor lands after `(url)` |
| Editor.UnlinkRestores | src/editor.py:324-327 | taking `[` and `](url)` out again gives back the text |
| Editor.LinkNoSelection | src/editor.py:328-333 | with no selection, the placeholder is inserted at the cursor and exactly `url` ends up selected |
| Editor.PrefixLineText | src/editor.py:301-309 | the prefix now opens the cursor's line, the text before is kept, and cutting it out gives back the text |
| Editor.PrefixLineCursor | src/editor.py:301-309 | the cursor stays on the same line and before the same character, except a cursor at the line start whose anchor is on an earlier line: it stays put, now before the prefix |
| Editor.PrefixLineSelection | src/editor.py:301-309 | a selection starting on the prefixed line keeps its text |
| Editor.PrefixLineBackwardSelection | src/editor.py:301-309 | a selection running back onto an earlier line keeps its text if it ends at the line start, and takes the prefix inside if it ends further on |
| Editor.LineStartAfterInsert | src/editor.py:303-304 | a prefix without line breaks inserted at a line start keeps the line start of the shifted cursor |
| Editor.PrefixOneLine | src/editor.py:301-309 | on a one-block note with the cursor on its first line, the prefix goes in front of the whole text |
| Editor.SeparatorStartsLine | src/editor.py:301-304 | with the cursor after a U+2028 line separator, `insert_header` puts `# ` after the separator, not at the block start |
| Editor.HeaderLineIsHeading | src/editor.py:301-304 | after `insert_header` a one-block note with text and the cursor on its first line is a first-level heading over the whole block, never a second-level one |
| Editor.ListLineIsListItem | src/editor.py:306-309 | after `insert_list` a one-block note with the cursor on its first line is a list item: the marker and the blanks after it are formatted |
| Editor.Wrap | src/editor.py:279-320 | wrapping keeps the cursor and the selection inside the text (see `Editor.WrapSelection`, `Editor.WrapNoSelection`) |
| Editor.LinkEdit | src/editor.py:322-333 | the link edit keeps the cursor and the selection inside the text (see `Editor.LinkSelection`, `Editor.LinkNoSelection`) |
| Editor.PrefixLine | src/editor.py:301-309 | prefixing a line keeps the cursor and the selection inside the text; Qt's cursor rule at the insertion point is in `Editor.PrefixLineCursor` and `Editor.PrefixLineBackwardSelection` |
| Editor.DocumentOf | src/editor.py:237 | `setPlainText` never makes the document longer, and every break character it keeps is a `\n` |
| Editor.PlainTextOf | src/editor.py:246 | `toPlainText` keeps the length and writes the separators as `\n` and a no-break space as a space |
| Editor.ContentRoundTrip | src/editor.py:237-246 | text without `\r`, separators or no-break spaces reads back exactly as it was set |
| Editor.ContentReadBackIsStable | src/editor.py:237-246 | what `get_content` gives has only characters kept as they are, so setting it again and reading it back changes nothing |
| Editor.CrLfReadsAsNewline | src/editor.py:237-246 | `a\r\nb` reads back as `a\nb` |
| Editor.NoBreakSpaceReadsAsSpace | src/editor.py:237-246 | `a` no-break-space `b` reads back as `a b` |
| Editor.MarkdownEditor.constructor | src/editor.py:121 | the editor starts empty with line numbers shown |
| Editor.MarkdownEditor.SetContent | src/editor.py:230-243 | the document becomes what `setPlainText` builds from the content, the cursor goes to the start, and the line-number setting is kept |
| Editor.MarkdownEditor.GetContent | src/editor.py:245-246 | returns the document as `toPlainText` writes it, of the same length |
| Editor.MarkdownEditor.ToggleLineNumbers | src/editor.py:335-337 | the setting flips and the text and cursor stay, so two toggles restore it |
| Editor.MarkdownEditor.RemoveSelectedText | src/editor.py:283 | the selection is removed and the cursor collapses to its start |
| Editor.MarkdownEditor.InsertText | src/editor.py:284 | the text goes in at the cursor, which moves past it |
| Editor.MarkdownEditor.MoveLeft | src/editor.py:287-332 | the cursor moves left, stopping at 0, and the anchor follows unless kept |
| Editor.MarkdownEditor.WrapSelection | src/editor.py:281-288 | the shared body of the three wrap buttons: the buffer becomes `Editor.Wrap` of the old one and the line-number setting stays |
| Editor.MarkdownEditor.PrefixCurrentLine | src/editor.py:302-304 | the shared body of the two line buttons: the buffer becomes `Editor.PrefixLine` of the old one, cursor rule included |
| Editor.MarkdownEditor.ToggleBold | src/editor.py:279-288 | the buffer becomes the `**` wrap of the old one |
| Editor.MarkdownEditor.ToggleItalic | src/editor.py:290-299 | the buffer becomes the `*` wrap of the old one |
| Editor.MarkdownEditor.InsertCode | src/editor.py:311-320 | the buffer becomes the backtick wrap of the old one |
| Editor.MarkdownEditor.InsertLink | src/editor.py:322-333 | the buffer becomes the link edit of the old one |
| Editor.MarkdownEditor.InsertHeader | src/editor.py:301-304 | the cursor's line gets `# ` in front, and the cursor moves by Qt's rule (`Editor.PrefixLine`) |
| Editor.MarkdownEditor.InsertList | src/editor.py:306-309 | the cursor's line gets `* ` in front, and the cursor moves by Qt's rule (`Editor.PrefixLine`) |
| Text.Lower | src/search_widget.py:50 | lowering keeps the length and lowers each ASCII capital, character by character |
| Search.ItemFor | src/search_widget.py:46-53 | a row's stored path and its label both end with the file's name |
| Search.Found | src/search_widget.py:45-50 | a file gives a row exactly when its name is a note name, it was read, and its lowered text holds the lowered keyword |
| Search.Hits | src/search_widget.py:43-56 | the rows of a whole walk, directory by directory (proved in `Search.HitsSound`, `Search.HitsComplete`, `Search.HitsAppend`) |
| Search.TitleIsRelativePath | src/search_widget.py:46-53 | a row's label is the file's path relative to the notes directory: the walk directory joined with the name (the bare name at top level), and joined onto `data_dir` it is the stored path |
| Search.RowFor | src/search_widget.py:44-54 | a file adds at most one row |
| Search.DirHits | src/search_widget.py:44-54 | a directory adds at most one row per file |
| Search.DirHitsMembers | src/search_widget.py:44-54 | a directory's rows are exactly those of its files that are notes, readable, and hold the keyword ignoring case |
| Search.HitsSound | src/search_widget.py:43-56 | every listed row is for a note of the walk that was read and holds the keyword, ignoring case; other files and unreadable ones are skipped |
| Search.HitsComplete | src/search_widget.py:43-56 | every readable note of the walk that holds the keyword, ignoring case, is listed |
| Search.HitsAppend | src/search_widget.py:43-54 | rows come in walk order: two walks one after the other list the first one's rows, then the second's |
| Search.DirHitsIgnoreCase | src/search_widget.py:50 | keywords equal after lowering find the same rows in a directory |
| Search.HitsIgnoreCase | src/search_widget.py:50 | keywords equal after lowering find the same rows |
| Search.RowsOpenTheirFile | src/search_widget.py:53-62 | a double-click on any listed row opens its file |
| Search.FileClicked | src/search_widget.py:58-62 | a double-click emits the stored path exactly when it is non-empty |
| Search.SearchWidget.constructor | src/search_widget.py:10-13 | the results list starts empty |
| Search.SearchWidget.SearchFiles | src/search_widget.py:35-56 | a blank keyword leaves the results as they were; otherwise the results are replaced by the rows of the whole walk for the stripped keyword |
| Search.SearchWidget.ScanDirectory | src/search_widget.py:44-56 | scanning one directory appends its rows |
| Search.SearchWidget.ScanFile | src/search_widget.py:45-56 | one file gives its row or nothing |
| Search.SearchWidget.OnItemDoubleClicked | src/search_widget.py:58-62 | emits what a double-click on the row emits |
| Config.DefaultSettings | src/config_manager.py:12-14 | the default items are the one `data_dir` item |
| Config.DefaultConfig | src/config_manager.py:12-14 | the default dict is the default items put into a dict: exactly the key `data_dir`, with its item's value |
| Config.WithDefaults | src/config_manager.py:21-23 | the stored dict with each missing default key added (proved in `Config.WithDefaultsKeys`, `Config.WithDefaultsValue`, `Config.WithDefaultsIdempotent`) |
| Config.Loaded | src/config_manager.py:10-31 | what `load_config` returns for each state of `config.json` (proved in `Config.LoadedHasDataDir`, `Config.ReloadIsStable`) |
| Config.WithDefaultsKeys | src/config_manager.py:21-23 | filling in defaults keeps every stored key and value and adds exactly the default keys |
| Config.WithDefaultsValue | src/config_manager.py:21-23 | a default key missing from the file takes its default value |
| Config.WithDefaultsIdempotent | src/config_manager.py:21-23 | filling in the same defaults twice changes nothing more |
| Config.LoadedHasDataDir | src/config_manager.py:10-31 | loaded settings always have `data_dir`, the stored value if the file has one and `<app_dir>/data` otherwise; a stored file keeps all its keys; a missing or unreadable file gives exactly the defaults |
| Config.ReloadIsStable | src/config_manager.py:10-43 | saving the loaded settings and loading again gives the same settings |
| Config.ConfigManager.constructor | src/config_manager.py:5-8 | the settings are what loading the file gives, and a missing file is written when writing works |
| Config.ConfigManager.LoadConfig | src/config_manager.py:10-31 | returns the loaded settings; a missing file also makes the defaults current and saves them; otherwise nothing changes |
| Config.ConfigManager.FillDefaults | src/config_manager.py:21-23 | the loop adds each missing default key |
| Config.ConfigManager.SaveConfig | src/config_manager.py:33-43 | a given dict replaces the settings first; the result says whether the write worked, and the file then holds the settings |
| Config.ConfigManager.Get | src/config_manager.py:45-47 | the stored value of a present key, the given default otherwise |
| Config.ConfigManager.Set | src/config_manager.py:49-52 | the value is set in memory, so `get` returns it even when the save fails; the result is the save's |
| Files.NatText | src/file_manager.py:90 | the digits have no leading zero |
| Files.IntText | src/file_manager.py:90 | `str(n)` is never empty |
| Files.NatTextRoundTrip | src/file_manager.py:90 | reading back the digits of a natural number gives the number |
| Files.IntTextRoundTrip | src/file_manager.py:90 | reading back `str(n)` gives `n`, for every integer |
| Files.Divisor | src/file_manager.py:91-96 | every unit is at least 1024 bytes |
| Files.FormatSize | src/file_manager.py:87-96 | `format_size`: the exact count in bytes below 1024, otherwise the size in KB, MB or GB (proved in `Files.FormatSizeExact`, `Files.FormatSizeTier`) |
| Files.FormatSizeExact | src/file_manager.py:89-90 | the label is exact exactly below 1024, ends with ` B`, and its number reads back as the size |
| Files.FormatSizeTier | src/file_manager.py:91-96 | from 1024 on the unit is the largest that fits (up to GB): the amount is at least 1, below 1024 unless in GB, and times the unit gives the size |
| Files.DefaultExtensionSpec | src/file_manager.py:211-213 | the new name is a note name, unchanged exactly when it already was one, otherwise only extended, and the rule is idempotent |
| Files.WithDefaultExtension | src/file_manager.py:211-213 | a name that is not a note name gets `.md` appended (proved in `Files.DefaultExtensionSpec`) |
| Files.Exists | src/file_manager.py:217 | `os.path.exists`: some item sits where the file system reads the path (`Paths.Normalize`) |
| Files.IsDir | src/file_manager.py:166 | `os.path.isdir`: a folder sits where the file system reads the path |
| Files.TargetDirectory | src/file_manager.py:162-170 | new items go into the selected folder, the folder of the selected file, or `data_dir` when nothing is selected (proved in `Files.TargetOfSelectedFile`) |
| Files.CanWriteNew | src/file_manager.py:219 | `open(path, 'w')` on a new path works exactly when writing is allowed and the path leads into an existing folder |
| Files.NewFile | src/file_manager.py:194-234 | `create_new_file` from the dialog answer to the new directory and the returned path (proved in `Files.NewFileWhen`, `Files.NewFileCreates`) |
| Files.NewFolder | src/file_manager.py:159-192 | `create_new_folder` from the dialog answer to the new directory and the selected folder (proved in `Files.NewFolderWhen`, `Files.NewFolderCreates`) |
| Files.TargetOfSelectedFile | src/file_manager.py:197-205 | with a file `dir/name` selected, new items go into `dir` |
| Files.NewFileWhen | src/file_manager.py:210-234 | a file is created exactly when a name was given, `os.path.exists` finds nothing at the joined path as the file system reads it, and the path leads into an existing folder where writing is allowed; otherwise nothing changes |
| Files.NewFileCreates | src/file_manager.py:210-226 | the created file is new, empty, a note in an existing folder, named by the extension rule, and stored where the file system reads its path; no existing item changes; for a plain name in a folder already in that form, the path returned is the joined path and is stored as it is |
| Files.EndsWithNote | src/file_manager.py:212 | a path ending with a note name is a note name |
| Files.NewFolderWhen | src/file_manager.py:174-192 | a folder is made exactly when a name was given, `os.path.exists` finds nothing at the joined path as the file system reads it, and `makedirs` works; otherwise nothing changes |
| Files.NewFolderCreates | src/file_manager.py:175-187 | the new folder is stored and selected where the file system reads the joined path, was not there before, and is a folder; no existing item changes; for a plain name in a folder already in that form it is the joined path |
| Files.TrailingSlashReachesItem | src/file_manager.py:175-177 | a folder name with a trailing `/` reaches the item without it, so next to `a` the name `a/` is refused and nothing changes |
| Files.DotPartReachesItem | src/file_manager.py:215-217 | a file name starting with `./` reaches the note without it, so next to `n.md` the name `./n.md` is refused and nothing changes |
| Files.MissingFolderFailsWrite | src/file_manager.py:215-221 | a file name leading through a folder that is not there fails to open, so `x/n.md` without `x` writes nothing |
| Files.FileManager.constructor | src/file_manager.py:9-12 | the tree starts with nothing selected |
| Files.FileManager.ChooseTarget | src/file_manager.py:162-170 | the target is the selected folder, the folder of the selected file, or `data_dir` |
| Files.FileManager.CreateNewFile | src/file_manager.py:194-234 | the directory and the result are those of `Files.NewFile` (existence checked on the path as the file system reads it, the parent folder required); the selection is kept |
| Files.FileManager.CreateNewFolder | src/file_manager.py:159-192 | the directory is that of `Files.NewFolder`, and a new folder becomes the current item under the path the file system reads |

## Left out

- Qt widgets, signals, message boxes and layout are not modelled. Dialog
  answers are parameters; a warning or error box is just "nothing changes".
- Font changes (`change_font`, `change_font_size`), colours, line-number
  painting and geometry are not modelled.
- `update_current_file_tags` is not modelled: it only fills a Qt list.
- `delete_item`, `copy_item`, the click handlers and `refresh` of the file
  tree are not modelled. They are `shutil`/`os.remove` calls behind
  confirmation dialogs.
- src/main_window.py, src/main.py and the build scripts are not part of
  this model. They are menus, file open/save, HTML export and packaging.
- Real file I/O is not modelled:
  - JSON parsing and writing are abstract: a file is absent, unreadable, or
    holds a parsed value;
  - a failed write leaves the old file, and a half-written file is not
    modelled;
  - key order inside `config.json` is not modelled.
- Config.Loaded: a `config.json` whose top-level value is not an object is
  treated as unreadable. Python would sometimes return such a value as it
  is.
- Config.Json: JSON numbers are integers only; floating point is out of
  scope.
- Files.FormatSize: the two-decimal rendering `:.2f` is not modelled,
  because it is floating point. The label keeps the exact scaled amount
  and its unit.
- Files.FileManager.CreateNewFolder: `os.makedirs` also creates missing
  intermediate folders. The model adds only the target folder. Why
  `makedirs` fails (permissions, a file where a folder should be) is
  folded into one `writable` flag.
- Files.NewFile: `..` is resolved on the text of the path. The operating
  system follows symbolic links first and refuses `..` after a file, so a
  path through a link or a file can reach another item than the model's.
- Files.NewFolder: the same lexical reading of `..`; and a folder the new
  path leads through that is a file makes `makedirs` fail, which the model
  does not distinguish from other failures.
- Highlight.HighlightBlock: Python's match offsets count code points and
  Qt's `setFormat` counts UTF-16 units, so in the program a block with a
  character outside the Basic Multilingual Plane (an emoji, say) before a
  match gets its format on shifted characters. The model indexes the
  formats by code point and takes the two offsets as equal.
- Highlight.ApplyRule: the same offset mismatch; its spans are code-point
  offsets applied as they are.
- Tags.TagManager.LoadTags: a document whose `file_tags` is not an object
  of string lists is not modelled. The program then keeps that value in
  `file_tags` and an empty or partial vocabulary before the error box;
  the model's dict cannot hold such a value.
- Editor.MarkdownEditor.InsertText: the text goes in as it is. Qt would
  also turn its line breaks into block breaks, but the toolbar only
  inserts markers without them.
- Text.Lower: only ASCII letters are lowered. Python's full Unicode
  case mapping is out of scope.
- Highlight.DigitRun: `\d` matches only ASCII digits. Python also
  matches other Unicode decimal digits.
- Editor.LineStart: `StartOfLine` is modelled without word wrap: lines end
  only at block breaks and U+2028 line separators.
- Editor.Buffer.Selected: the selected text is the plain slice. Qt turns a
  line break in a selection into U+2029, so selections are taken to lie on
  one line.
- Search.ItemFor: the label is the walk's relative directory joined with
  the file name. The model does not compute `os.path.relpath`'s
  normalisation.
- Search.SearchWidget.ScanFile: the message printed for an unreadable file
  is not modelled. The file is skipped.
- The order in which `os.walk` lists directories and files is an input.
