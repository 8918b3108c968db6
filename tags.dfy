/**
 * The tag index of the note manager (`TagManager` in src/tag_manager.py).
 *
 * The index maps each note path to a LIST of tags (`file_tags`) and keeps
 * a separate vocabulary SET (`all_tags`). Both live in memory and the map,
 * and only the map, is written to `.tags.json` after every change. The
 * model follows the code as written: lists can hold a tag twice after a
 * rename, tagging a file does not extend the vocabulary, and a tag that
 * exists only in the vocabulary is lost across a save and a reload.
 */
module Tags {
  import opened Text
  import opened Options

  /** One `"path": [tags…]` member of the `file_tags` JSON object, in document order. */
  datatype Entry = Entry(path: string, tags: seq<string>)

  /** The JSON document of `.tags.json`; `fileTags` is `None` when the key `"file_tags"` is absent. */
  datatype TagsDocument = TagsDocument(fileTags: Option<seq<Entry>>)

  /**
   * What `.tags.json` holds: nothing; something `load_tags` fails on before
   * it assigns anything (the file cannot be opened, `json.load` rejects it,
   * or its top-level value is not an object, so `data.get` raises); or a
   * document whose `file_tags`, when present, is an object of string lists.
   */
  datatype TagsFile = Absent | Unreadable | Stored(doc: TagsDocument)

  /** The paths of a dict in iteration order match its keys, each once. */
  ghost predicate DictShape(order: seq<string>, m: map<string, seq<string>>) {
    Distinct(order) && forall p :: p in m <==> p in order
  }

  /**
   * The dict that `json.load` builds from the members of an object, read in
   * order: a repeated key keeps its first position and takes its last value.
   */
  function DictFromEntries(entries: seq<Entry>): (d: (seq<string>, map<string, seq<string>>))
    ensures DictShape(d.0, d.1)
  {
    if entries == [] then ([], map[])
    else
      var (order, m) := DictFromEntries(entries[..|entries| - 1]);
      var e := entries[|entries| - 1];
      (if e.path in m then order else order + [e.path], m[e.path := e.tags])
  }

  /** `json.dump` of the `file_tags` dict: one member per path, in iteration order. */
  function Encode(order: seq<string>, m: map<string, seq<string>>): (entries: seq<Entry>)
    requires forall p :: p in order ==> p in m
    ensures |entries| == |order|
    ensures forall i :: 0 <= i < |order| ==> entries[i] == Entry(order[i], m[order[i]])
  {
    if order == [] then []
    else
      var n := |order| - 1;
      assert forall i :: 0 <= i < n ==> order[..n][i] == order[i];
      Encode(order[..n], m) + [Entry(order[n], m[order[n]])]
  }

  /** The document `save_tags` writes: `{"file_tags": file_tags}` and nothing else. */
  function Document(order: seq<string>, m: map<string, seq<string>>): TagsDocument
    requires forall p :: p in order ==> p in m
  {
    TagsDocument(Some(Encode(order, m)))
  }

  /** The dict `load_tags` takes from a document: `data.get("file_tags", {})`. */
  function Decode(doc: TagsDocument): (seq<string>, map<string, seq<string>>)
  {
    match doc.fileTags
    case None => ([], map[])
    case Some(entries) => DictFromEntries(entries)
  }

  /** Every tag that occurs in some file's list. */
  function Vocabulary(m: map<string, seq<string>>): set<string>
  {
    set p, t | p in m && t in m[p] :: t
  }

  /** The tags of the paths in `order`. */
  function TagsOf(order: seq<string>, m: map<string, seq<string>>): set<string>
  {
    set p, t | p in order && p in m && t in m[p] :: t
  }

  /** Over all the keys of a dict, the tags of its paths are its whole vocabulary. */
  lemma TagsOfAll(order: seq<string>, m: map<string, seq<string>>)
    requires DictShape(order, m)
    ensures TagsOf(order, m) == Vocabulary(m)
  {
    forall t | t in Vocabulary(m) ensures t in TagsOf(order, m) {
      var p :| p in m && t in m[p];
      assert p in order;
    }
  }

  /** One list after `rename_tag`: drop the first `oldTag` and append `newTag`, when `oldTag` is there. */
  function RenameIn(tags: seq<string>, oldTag: string, newTag: string): seq<string>
  {
    if oldTag in tags then RemoveFirst(tags, oldTag) + [newTag] else tags
  }

  /** One list after `delete_tag`: drop the first `tag`, when it is there. */
  function DeleteIn(tags: seq<string>, tag: string): seq<string>
  {
    if tag in tags then RemoveFirst(tags, tag) else tags
  }

  function RenamedAll(m: map<string, seq<string>>, oldTag: string, newTag: string): map<string, seq<string>>
  {
    map p | p in m :: RenameIn(m[p], oldTag, newTag)
  }

  function DeletedAll(m: map<string, seq<string>>, tag: string): map<string, seq<string>>
  {
    map p | p in m :: DeleteIn(m[p], tag)
  }

  /**
   * The loop of `rename_tag` over `file_tags.items()`: each list that holds
   * `oldTag` loses its first occurrence and gets `newTag` appended.
   */
  method RenameEverywhere(order: seq<string>, m: map<string, seq<string>>, oldTag: string, newTag: string)
    returns (r: map<string, seq<string>>)
    requires DictShape(order, m)
    ensures r == RenamedAll(m, oldTag, newTag)
  {
    r := m;
    var i := 0;
    while i < |order|
      invariant 0 <= i <= |order|
      invariant r.Keys == m.Keys
      invariant forall k :: 0 <= k < i ==> r[order[k]] == RenameIn(m[order[k]], oldTag, newTag)
      invariant forall k :: i <= k < |order| ==> r[order[k]] == m[order[k]]
    {
      var p := order[i];
      assert forall k :: 0 <= k < |order| && k != i ==> order[k] != p;
      if oldTag in r[p] {
        r := r[p := RemoveFirst(r[p], oldTag) + [newTag]];
      }
      i := i + 1;
    }
    forall p | p in m ensures r[p] == RenameIn(m[p], oldTag, newTag) {
      var k :| 0 <= k < |order| && order[k] == p;
    }
  }

  /** The loop of `delete_tag` over `file_tags.items()`: each list that holds `tag` loses its first occurrence. */
  method DeleteEverywhere(order: seq<string>, m: map<string, seq<string>>, tag: string)
    returns (r: map<string, seq<string>>)
    requires DictShape(order, m)
    ensures r == DeletedAll(m, tag)
  {
    r := m;
    var i := 0;
    while i < |order|
      invariant 0 <= i <= |order|
      invariant r.Keys == m.Keys
      invariant forall k :: 0 <= k < i ==> r[order[k]] == DeleteIn(m[order[k]], tag)
      invariant forall k :: i <= k < |order| ==> r[order[k]] == m[order[k]]
    {
      var p := order[i];
      assert forall k :: 0 <= k < |order| && k != i ==> order[k] != p;
      if tag in r[p] {
        r := r[p := RemoveFirst(r[p], tag)];
      }
      i := i + 1;
    }
    forall p | p in m ensures r[p] == DeleteIn(m[p], tag) {
      var k :| 0 <= k < |order| && order[k] == p;
    }
  }

  /** The dict restricted to the paths in `order`. */
  function Restrict(order: seq<string>, m: map<string, seq<string>>): map<string, seq<string>>
    requires forall p :: p in order ==> p in m
  {
    map p | p in order :: m[p]
  }

  lemma {:induction false} DecodeEncode(order: seq<string>, m: map<string, seq<string>>)
    requires Distinct(order) && forall p :: p in order ==> p in m
    ensures DictFromEntries(Encode(order, m)) == (order, Restrict(order, m))
    decreases |order|
  {
    if order != [] {
      var n := |order| - 1;
      var front := order[..n];
      assert front + [order[n]] == order;
      DistinctFront(order, n);
      DecodeEncode(front, m);
      DecodeEncodeSnoc(front, order[n], m);
    }
  }

  /** Helper: one more path, not written before, is decoded as one more key with its list. */
  lemma DecodeEncodeSnoc(front: seq<string>, p: string, m: map<string, seq<string>>)
    requires (forall q :: q in front ==> q in m) && p in m && p !in front
    requires DictFromEntries(Encode(front, m)) == (front, Restrict(front, m))
    ensures DictFromEntries(Encode(front + [p], m)) == (front + [p], Restrict(front + [p], m))
  {
    var order := front + [p];
    var entries := Encode(order, m);
    assert order[..|front|] == front;
    assert entries[..|front|] == Encode(front, m);
    assert entries[|front|] == Entry(p, m[p]);
    assert p !in Restrict(front, m);
    RestrictSnoc(front, p, m);
  }

  /** Helper: restricting to one more path adds that path's entry. */
  lemma RestrictSnoc(front: seq<string>, p: string, m: map<string, seq<string>>)
    requires (forall q :: q in front ==> q in m) && p in m
    ensures Restrict(front, m)[p := m[p]] == Restrict(front + [p], m)
  {
    assert forall q :: q in front + [p] <==> q in front || q == p;
  }

  /**
   * Saving and then loading gives back the same dict: the same paths in the
   * same order, each with the same list.
   */
  lemma SaveLoadRoundTrip(order: seq<string>, m: map<string, seq<string>>)
    requires DictShape(order, m)
    ensures Decode(Document(order, m)) == (order, m)
  {
    DecodeEncode(order, m);
    assert Restrict(order, m) == m;
  }

  /**
   * A tag that only `add_tag` put in the vocabulary, and that no file's list
   * holds, is gone from the vocabulary rebuilt by a load after a save.
   */
  lemma VocabularyOnlyTagIsNotPersisted(order: seq<string>, m: map<string, seq<string>>, tag: string)
    requires DictShape(order, m)
    requires forall p :: p in m ==> tag !in m[p]
    ensures tag !in Vocabulary(Decode(Document(order, m)).1)
  {
    SaveLoadRoundTrip(order, m);
  }

  /**
   * One list after a rename: when it held `oldTag` it has the same length,
   * one `oldTag` fewer, one more `newTag`, and `newTag` last — so a list that
   * already held `newTag` now holds it twice; otherwise it is unchanged.
   */
  lemma RenameInSpec(tags: seq<string>, oldTag: string, newTag: string)
    requires oldTag != newTag
    ensures var r := RenameIn(tags, oldTag, newTag);
      oldTag in tags ==>
        && |r| == |tags| && r[|r| - 1] == newTag
        && multiset(r) == multiset(tags) - multiset{oldTag} + multiset{newTag}
        && multiset(r)[newTag] == multiset(tags)[newTag] + 1
    ensures oldTag !in tags ==> RenameIn(tags, oldTag, newTag) == tags
  {
    if oldTag in tags {
      RemoveFirstSpec(tags, oldTag);
    }
  }

  /** On a dict with one path, renaming works on that path's list alone. */
  lemma RenamedAllSingle(p: string, tags: seq<string>, oldTag: string, newTag: string)
    ensures RenamedAll(map[p := tags], oldTag, newTag) == map[p := RenameIn(tags, oldTag, newTag)]
  {
  }

  /** On a dict with one path, deleting works on that path's list alone. */
  lemma DeletedAllSingle(p: string, tags: seq<string>, tag: string)
    ensures DeletedAll(map[p := tags], tag) == map[p := DeleteIn(tags, tag)]
  {
  }

  /**
   * Renaming `a` to `b` and back does not restore the map: a list keeps the
   * tags but not their order, because the renamed tag is appended at the end.
   */
  lemma RenameBackReorders()
    ensures var m := map["note.md" := ["a", "c"]];
      RenamedAll(RenamedAll(m, "a", "b"), "b", "a") == map["note.md" := ["c", "a"]]
  {
    assert IndexOf(["a", "c"], "a") == 0;
    assert RenameIn(["a", "c"], "a", "b") == ["c", "b"];
    assert IndexOf(["c", "b"], "b") == 1;
    assert RenameIn(["c", "b"], "b", "a") == ["c", "a"];
    RenamedAllSingle("note.md", ["a", "c"], "a", "b");
    RenamedAllSingle("note.md", ["c", "b"], "b", "a");
  }

  /**
   * After a delete no list holds the tag, provided no list held it twice;
   * every other tag keeps its count.
   */
  lemma DeleteInSpec(tags: seq<string>, tag: string)
    ensures var r := DeleteIn(tags, tag);
      && multiset(r)[tag] == (if tag in tags then multiset(tags)[tag] - 1 else 0)
      && (forall u :: u != tag ==> multiset(r)[u] == multiset(tags)[u])
      && (multiset(tags)[tag] <= 1 ==> tag !in r)
  {
    if tag in tags {
      RemoveFirstSpec(tags, tag);
    }
  }

  /**
   * A rename onto a tag the list already holds, followed by a delete of that
   * tag, leaves one copy behind: delete removes one occurrence per list.
   */
  lemma DeleteAfterDuplicatingRenameLeavesCopy()
    ensures var m := RenamedAll(map["note.md" := ["a", "b"]], "a", "b");
      m == map["note.md" := ["b", "b"]] && "b" in DeletedAll(m, "b")["note.md"]
  {
    assert IndexOf(["a", "b"], "a") == 0;
    assert RenameIn(["a", "b"], "a", "b") == ["b", "b"];
    assert IndexOf(["b", "b"], "b") == 0;
    assert DeleteIn(["b", "b"], "b") == ["b"];
    RenamedAllSingle("note.md", ["a", "b"], "a", "b");
    DeletedAllSingle("note.md", ["b", "b"], "b");
  }

  /** `sorted(...)` as one insertion into an already sorted list of distinct strings. */
  function InsertSorted(s: seq<string>, t: string): seq<string>
  {
    if s == [] then [t]
    else if StrLess(t, s[0]) then [t] + s
    else [s[0]] + InsertSorted(s[1..], t)
  }

  /** Inserting a new string into a sorted listing keeps it sorted and adds exactly that string. */
  lemma {:induction false} InsertSortedSpec(s: seq<string>, t: string)
    requires StrictlySorted(s) && t !in s
    ensures StrictlySorted(InsertSorted(s, t))
    ensures forall u :: u in InsertSorted(s, t) <==> u in s || u == t
    ensures |InsertSorted(s, t)| == |s| + 1
  {
    if s != [] && !StrLess(t, s[0]) {
      assert StrictlySorted(s[1..]);
      InsertSortedSpec(s[1..], t);
      StrLessTotal(t, s[0]);
      var r := InsertSorted(s, t);
      forall i, j | 0 <= i < j < |r| ensures StrLess(r[i], r[j]) {
        if i == 0 {
          assert r[j] in s[1..] || r[j] == t;
          if r[j] in s[1..] {
            var k :| 0 <= k < |s[1..]| && s[1..][k] == r[j];
            assert s[1..][k] == s[k + 1];
          }
        }
      }
    } else if s != [] {
      var r := InsertSorted(s, t);
      forall i, j | 0 <= i < j < |r| ensures StrLess(r[i], r[j]) {
        if i == 0 && j > 1 {
          assert r[j] == s[j - 1];
          StrLessTransitive(t, s[0], s[j - 1]);
        }
      }
    }
  }

  /** The contents of `.tags.json` after `save_tags`, given whether the write succeeds. */
  function AfterSave(file: TagsFile, writable: bool, order: seq<string>, m: map<string, seq<string>>): TagsFile
    requires forall p :: p in order ==> p in m
  {
    if writable then Stored(Document(order, m)) else file
  }

  /**
   * `get_files_by_tag`: the paths, in dict order, whose list holds `tag`.
   */
  function FilesTagged(order: seq<string>, m: map<string, seq<string>>, tag: string): (files: seq<string>)
    requires forall p :: p in order ==> p in m
    ensures |files| <= |order|
  {
    if order == [] then []
    else
      var last := order[|order| - 1];
      FilesTagged(order[..|order| - 1], m, tag) + (if tag in m[last] then [last] else [])
  }

  /** The paths listed are exactly those whose list holds `tag`. */
  lemma {:induction false} FilesTaggedMembers(order: seq<string>, m: map<string, seq<string>>, tag: string)
    requires forall p :: p in order ==> p in m
    ensures forall p :: p in FilesTagged(order, m, tag) <==> p in order && tag in m[p]
  {
    if order != [] {
      var n := |order| - 1;
      assert order == order[..n] + [order[n]];
      FilesTaggedMembers(order[..n], m, tag);
    }
  }

  /** Every path of `files` is in `order`, and `files` lists them in the order of `order`. */
  predicate FollowsOrder(files: seq<string>, order: seq<string>) {
    forall i, j :: 0 <= i < j < |files| ==>
      files[i] in order && files[j] in order && IndexOf(order, files[i]) < IndexOf(order, files[j])
  }

  /**
   * Helper: appending at most the new last element `x` to a listing that follows the
   * order of `front` gives a listing that follows the order of `front + [x]`.
   */
  lemma {:induction false} SnocKeepsOrder(front: seq<string>, x: string, before: seq<string>, extra: seq<string>)
    requires Distinct(front + [x])
    requires forall p :: p in before ==> p in front
    requires extra == [] || extra == [x]
    requires FollowsOrder(before, front)
    ensures FollowsOrder(before + extra, front + [x])
  {
    var r := before + extra;
    IndexOfDistinct(front + [x], |front|);
    forall i, j | 0 <= i < j < |r|
      ensures r[i] in front + [x] && r[j] in front + [x] && IndexOf(front + [x], r[i]) < IndexOf(front + [x], r[j])
    {
      assert r[i] == before[i] && r[i] in front;
      IndexOfSnoc(front, x, r[i]);
      if j < |before| {
        assert r[j] == before[j] && r[j] in front;
        IndexOfSnoc(front, x, r[j]);
      } else {
        assert r[j] == x;
      }
    }
  }

  /** Helper: the front of a sequence without repeats has none either. */
  lemma DistinctFront(s: seq<string>, n: nat)
    requires Distinct(s) && n <= |s|
    ensures Distinct(s[..n])
  {
    forall i, j | 0 <= i < j < n ensures s[..n][i] != s[..n][j] {
      assert s[..n][i] == s[i] && s[..n][j] == s[j];
    }
  }

  /** The paths listed keep the order of the dict. */
  lemma {:induction false} FilesTaggedInOrder(order: seq<string>, m: map<string, seq<string>>, tag: string)
    requires Distinct(order) && forall p :: p in order ==> p in m
    ensures FollowsOrder(FilesTagged(order, m, tag), order)
  {
    if order != [] {
      var n := |order| - 1;
      var front := order[..n];
      assert order == front + [order[n]];
      var before := FilesTagged(front, m, tag);
      var extra := if tag in m[order[n]] then [order[n]] else [];
      assert FilesTagged(order, m, tag) == before + extra;
      FilesTaggedMembers(front, m, tag);
      DistinctFront(order, n);
      FilesTaggedInOrder(front, m, tag);
      SnocKeepsOrder(front, order[n], before, extra);
    }
  }

  class TagManager {
    /** The notes directory; `.tags.json` lives at its root. */
    const dataDir: string
    /** Whether writing `.tags.json` succeeds (a failed write only shows a warning). */
    const writable: bool
    /** The keys of `file_tags` in dict iteration (insertion) order. */
    var paths: seq<string>
    /** `file_tags`: each note path and its list of tags. */
    var fileTags: map<string, seq<string>>
    /** `all_tags`: the vocabulary shown in the tag list. */
    var allTags: set<string>
    /** The contents of `.tags.json`. */
    var tagsFile: TagsFile

    ghost predicate Valid()
      reads this
    {
      DictShape(paths, fileTags)
    }

    /** `__init__`: an empty index, then `load_tags`. */
    constructor (dataDir: string, file: TagsFile, writable: bool)
      ensures Valid()
      ensures this.dataDir == dataDir && this.writable == writable && tagsFile == file
      ensures file.Stored? ==> (paths, fileTags) == Decode(file.doc) && allTags == Vocabulary(fileTags)
      ensures !file.Stored? ==> paths == [] && fileTags == map[] && allTags == {}
    {
      this.dataDir := dataDir;
      this.writable := writable;
      paths, fileTags, allTags := [], map[], {};
      tagsFile := file;
      new;
      LoadTags();
    }

    /**
     * `load_tags`: a readable document replaces `file_tags` and rebuilds the
     * vocabulary as the union of all lists; a missing or unreadable file
     * leaves everything as it was.
     */
    method LoadTags()
      requires Valid()
      modifies this
      ensures Valid() && tagsFile == old(tagsFile)
      ensures tagsFile.Stored? ==> (paths, fileTags) == Decode(tagsFile.doc) && allTags == Vocabulary(fileTags)
      ensures !tagsFile.Stored? ==> paths == old(paths) && fileTags == old(fileTags) && allTags == old(allTags)
    {
      if tagsFile.Stored? {
        var (order, m) := Decode(tagsFile.doc);
        var vocabulary := {};
        var i := 0;
        while i < |order|
          invariant 0 <= i <= |order|
          invariant vocabulary == TagsOf(order[..i], m)
        {
          assert order[..i + 1] == order[..i] + [order[i]];
          vocabulary := vocabulary + set t | t in m[order[i]];
          i := i + 1;
        }
        assert order[..i] == order;
        TagsOfAll(order, m);
        paths, fileTags, allTags := order, m, vocabulary;
      }
    }

    /** `save_tags`: write `{"file_tags": file_tags}`; the vocabulary is not written. */
    method SaveTags()
      requires Valid()
      modifies this
      ensures Valid() && paths == old(paths) && fileTags == old(fileTags) && allTags == old(allTags)
      ensures tagsFile == AfterSave(old(tagsFile), writable, paths, fileTags)
    {
      if writable {
        tagsFile := Stored(Document(paths, fileTags));
      }
    }

    /** `add_tag`: the stripped input, when non-empty, joins the vocabulary only, and the map is saved. */
    method AddTag(input: string)
      requires Valid()
      modifies this
      ensures Valid() && paths == old(paths) && fileTags == old(fileTags)
      ensures Strip(input) == [] ==> allTags == old(allTags) && tagsFile == old(tagsFile)
      ensures Strip(input) != [] ==>
                allTags == old(allTags) + {Strip(input)} && tagsFile == AfterSave(old(tagsFile), writable, paths, fileTags)
    {
      var tag := Strip(input);
      if tag != [] {
        allTags := allTags + {tag};
        SaveTags();
      }
    }

    /**
     * `add_tag_to_file`: make sure the path has a list (appending the path to
     * the dict order when new), then append the tag unless the list already
     * has it; only an append is saved. The vocabulary is never touched.
     */
    method AddTagToFile(path: string, tag: string)
      requires Valid()
      modifies this
      ensures Valid() && allTags == old(allTags)
      ensures path in old(fileTags) && tag in old(fileTags)[path] ==>
                paths == old(paths) && fileTags == old(fileTags) && tagsFile == old(tagsFile)
      ensures !(path in old(fileTags) && tag in old(fileTags)[path]) ==>
                && paths == (if path in old(fileTags) then old(paths) else old(paths) + [path])
                && fileTags == old(fileTags)[path := (if path in old(fileTags) then old(fileTags)[path] else []) + [tag]]
                && tagsFile == AfterSave(old(tagsFile), writable, paths, fileTags)
    {
      if path !in fileTags {
        paths := paths + [path];
        fileTags := fileTags[path := []];
      }
      if tag !in fileTags[path] {
        fileTags := fileTags[path := fileTags[path] + [tag]];
        SaveTags();
      }
    }

    /**
     * `remove_tag_from_file`: when the path has the tag, drop its first
     * occurrence and save; the path stays a key even if its list empties.
     */
    method RemoveTagFromFile(path: string, tag: string)
      requires Valid()
      modifies this
      ensures Valid() && paths == old(paths) && allTags == old(allTags)
      ensures !(path in old(fileTags) && tag in old(fileTags)[path]) ==>
                fileTags == old(fileTags) && tagsFile == old(tagsFile)
      ensures path in old(fileTags) && tag in old(fileTags)[path] ==>
                && fileTags == old(fileTags)[path := RemoveFirst(old(fileTags)[path], tag)]
                && tagsFile == AfterSave(old(tagsFile), writable, paths, fileTags)
    {
      if path in fileTags && tag in fileTags[path] {
        fileTags := fileTags[path := RemoveFirst(fileTags[path], tag)];
        SaveTags();
      }
    }

    /**
     * `rename_tag`, with the dialog's answer as `newTag` and `ok`. Unless the
     * answer is accepted, non-empty and different, nothing happens. Otherwise
     * every list is rewritten by `RenameIn`; then `all_tags.remove(oldTag)`
     * either succeeds (the vocabulary swaps the two tags and the map is
     * saved) or raises `KeyError` (`completed` is false: the lists stay
     * rewritten, the vocabulary is unchanged and nothing is saved).
     */
    method RenameTag(oldTag: string, newTag: string, ok: bool) returns (completed: bool)
      requires Valid()
      modifies this
      ensures Valid() && paths == old(paths)
      ensures !(ok && newTag != [] && newTag != oldTag) ==>
                completed && fileTags == old(fileTags) && allTags == old(allTags) && tagsFile == old(tagsFile)
      ensures ok && newTag != [] && newTag != oldTag ==>
                && fileTags == RenamedAll(old(fileTags), oldTag, newTag)
                && completed == (oldTag in old(allTags))
                && allTags == (if completed then old(allTags) - {oldTag} + {newTag} else old(allTags))
                && tagsFile == (if completed then AfterSave(old(tagsFile), writable, paths, fileTags) else old(tagsFile))
    {
      completed := true;
      if ok && newTag != [] && newTag != oldTag {
        fileTags := RenameEverywhere(paths, fileTags, oldTag, newTag);
        if oldTag !in allTags {
          completed := false;
          return;
        }
        allTags := allTags - {oldTag};
        allTags := allTags + {newTag};
        SaveTags();
      }
    }

    /**
     * `delete_tag`, with the confirmation answer as `confirmed`. When
     * confirmed, every list loses its first occurrence of the tag; then
     * `all_tags.remove(tag)` either succeeds (and the map is saved) or raises
     * `KeyError` (`completed` is false, nothing saved).
     */
    method DeleteTag(tag: string, confirmed: bool) returns (completed: bool)
      requires Valid()
      modifies this
      ensures Valid() && paths == old(paths)
      ensures !confirmed ==>
                completed && fileTags == old(fileTags) && allTags == old(allTags) && tagsFile == old(tagsFile)
      ensures confirmed ==>
                && fileTags == DeletedAll(old(fileTags), tag)
                && completed == (tag in old(allTags))
                && allTags == old(allTags) - {tag}
                && tagsFile == (if completed then AfterSave(old(tagsFile), writable, paths, fileTags) else old(tagsFile))
    {
      completed := true;
      if confirmed {
        fileTags := DeleteEverywhere(paths, fileTags, tag);
        if tag !in allTags {
          completed := false;
          return;
        }
        allTags := allTags - {tag};
        SaveTags();
      }
    }

    /**
     * `get_files_by_tag`: exactly the paths whose list holds the tag, each
     * once, in dict iteration order.
     */
    method GetFilesByTag(tag: string) returns (files: seq<string>)
      requires Valid()
      ensures files == FilesTagged(paths, fileTags, tag)
    {
      files := [];
      var i := 0;
      while i < |paths|
        invariant 0 <= i <= |paths|
        invariant files == FilesTagged(paths[..i], fileTags, tag)
      {
        var p := paths[i];
        assert paths[..i + 1][..i] == paths[..i];
        if tag in fileTags[p] {
          files := files + [p];
        }
        i := i + 1;
      }
      assert paths[..i] == paths;
    }

    /** `update_tags_list`: the vocabulary as the tag list shows it, `sorted(all_tags)`. */
    method SortedTags() returns (listing: seq<string>)
      ensures StrictlySorted(listing)
      ensures forall t :: t in listing <==> t in allTags
      ensures |listing| == |allTags|
    {
      listing := [];
      var rest := allTags;
      while rest != {}
        invariant rest <= allTags
        invariant StrictlySorted(listing)
        invariant forall t :: t in listing <==> t in allTags - rest
        invariant |listing| + |rest| == |allTags|
        decreases rest
      {
        var t :| t in rest;
        InsertSortedSpec(listing, t);
        listing := InsertSorted(listing, t);
        rest := rest - {t};
      }
    }
  }
}
