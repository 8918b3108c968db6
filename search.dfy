/**
 * The keyword search of the side panel (`SearchWidget` in
 * src/search_widget.py): a linear scan of every note under the notes
 * directory, listing the notes whose text holds the keyword, ignoring case.
 *
 * The directory walk and the file reads are inputs: the walk is the
 * sequence of directories `os.walk` visits, each with its files in the
 * order the walk lists them, and each file comes with what reading it as
 * UTF-8 gives, its text or a failure.
 */
module Search {
  import opened Text
  import opened Options
  import opened Paths

  /** What `open(...).read()` gives: the text, or an error (cannot open, not UTF-8). */
  datatype ReadResult = Content(text: string) | Unreadable

  /** A file as the walk lists it. */
  datatype FileEntry = FileEntry(name: string, read: ReadResult)

  /**
   * One directory of the walk: its path relative to the notes directory
   * (empty for the notes directory itself) and its files.
   */
  datatype Listing = Listing(dir: string, files: seq<FileEntry>)

  /** A row of the results list: the title shown and the full path stored with it. */
  datatype Item = Item(title: string, path: string)

  /** The `root` the walk reports for a directory. */
  function Root(dataDir: string, dir: string): string
  {
    if dir == [] then dataDir else Join(dataDir, dir)
  }

  /** The row for file `name` in directory `dir`: `relpath(file_path, data_dir)` and `file_path`. */
  function ItemFor(dataDir: string, dir: string, name: string): (it: Item)
    ensures EndsWith(it.path, name) && EndsWith(it.title, name)
  {
    JoinSpec(Root(dataDir, dir), name);
    JoinSpec(dir, name);
    Item(if dir == [] then name else Join(dir, name), Join(Root(dataDir, dir), name))
  }

  /**
   * The title of a row is the file's path relative to the notes directory:
   * joined onto `data_dir` it gives the path stored with the row (for a
   * walk directory and a file name that are not absolute, as `os.walk`
   * gives them).
   */
  lemma TitleIsRelativePath(dataDir: string, dir: string, name: string)
    requires !IsAbsolute(dir) && !IsAbsolute(name)
    ensures var it := ItemFor(dataDir, dir, name);
      && Join(dataDir, it.title) == it.path
      && it.title == (if dir == [] then name else Join(dir, name))
  {
    if dir != [] {
      JoinAssoc(dataDir, dir, name);
    }
  }

  /** The file is a note (`.txt` or `.md`), it can be read, and its text holds the keyword, ignoring case. */
  predicate Found(keyword: string, f: FileEntry)
  {
    IsNoteName(f.name) && f.read.Content? && IsSubstring(Lower(keyword), Lower(f.read.text))
  }

  /** The row the scan adds for file `f` of directory `dir`: one when it is found, none otherwise. */
  function RowFor(dataDir: string, dir: string, f: FileEntry, keyword: string): (row: seq<Item>)
    ensures |row| <= 1
  {
    if Found(keyword, f) then [ItemFor(dataDir, dir, f.name)] else []
  }

  /** The rows the scan adds for `files` of directory `dir`, in order. */
  function DirHits(dataDir: string, dir: string, files: seq<FileEntry>, keyword: string): (items: seq<Item>)
    ensures |items| <= |files|
  {
    if files == [] then []
    else
      var f := files[|files| - 1];
      DirHits(dataDir, dir, files[..|files| - 1], keyword) + RowFor(dataDir, dir, f, keyword)
  }

  /** The rows the scan adds for the whole walk, in walk order. */
  function Hits(dataDir: string, walk: seq<Listing>, keyword: string): (items: seq<Item>)
  {
    if walk == [] then []
    else
      var d := walk[|walk| - 1];
      Hits(dataDir, walk[..|walk| - 1], keyword) + DirHits(dataDir, d.dir, d.files, keyword)
  }

  /** `on_item_double_clicked`: the path handed to the main window, when there is one. */
  function FileClicked(item: Item): (emitted: Option<string>)
    ensures emitted.Some? <==> item.path != []
    ensures emitted.Some? ==> emitted.value == item.path
  {
    if item.path != [] then Some(item.path) else None
  }

  /** Helper (sequence plumbing): regrouping a concatenation of three parts. */
  lemma ConcatAssoc<T>(a: seq<T>, b: seq<T>, c: seq<T>)
    ensures (a + b) + c == a + (b + c)
  {
  }

  /** Scanning one more file of a directory. */
  lemma DirHitsSnoc(dataDir: string, dir: string, files: seq<FileEntry>, j: nat, keyword: string)
    requires j < |files|
    ensures DirHits(dataDir, dir, files[..j + 1], keyword)
            == DirHits(dataDir, dir, files[..j], keyword) + RowFor(dataDir, dir, files[j], keyword)
  {
    assert files[..j + 1][..j] == files[..j];
  }

  /** Scanning one more directory of the walk. */
  lemma HitsSnoc(dataDir: string, walk: seq<Listing>, i: nat, keyword: string)
    requires i < |walk|
    ensures Hits(dataDir, walk[..i + 1], keyword)
            == Hits(dataDir, walk[..i], keyword) + DirHits(dataDir, walk[i].dir, walk[i].files, keyword)
  {
    assert walk[..i + 1][..i] == walk[..i];
  }

  // ---------------------------------------------------------------------
  // What a search lists
  // ---------------------------------------------------------------------

  /** A row for a directory's files is there exactly when one of them is found. */
  lemma {:induction false} DirHitsMembers(dataDir: string, dir: string, files: seq<FileEntry>, keyword: string)
    ensures forall it :: it in DirHits(dataDir, dir, files, keyword) <==>
              exists j :: 0 <= j < |files| && Found(keyword, files[j]) && it == ItemFor(dataDir, dir, files[j].name)
  {
    if files != [] {
      var n := |files| - 1;
      var front, row := DirHits(dataDir, dir, files[..n], keyword), RowFor(dataDir, dir, files[n], keyword);
      DirHitsMembers(dataDir, dir, files[..n], keyword);
      assert DirHits(dataDir, dir, files, keyword) == front + row;
      forall it
        ensures it in DirHits(dataDir, dir, files, keyword) <==>
                exists j :: 0 <= j < |files| && Found(keyword, files[j]) && it == ItemFor(dataDir, dir, files[j].name)
      {
        if it in front {
          var j :| 0 <= j < n && Found(keyword, files[..n][j]) && it == ItemFor(dataDir, dir, files[..n][j].name);
          assert files[..n][j] == files[j];
        } else if it in row {
          assert Found(keyword, files[n]) && it == ItemFor(dataDir, dir, files[n].name);
        }
        if exists j :: 0 <= j < |files| && Found(keyword, files[j]) && it == ItemFor(dataDir, dir, files[j].name) {
          var j :| 0 <= j < |files| && Found(keyword, files[j]) && it == ItemFor(dataDir, dir, files[j].name);
          if j < n {
            assert files[..n][j] == files[j];
            assert it in front;
          } else {
            assert j == n;
            assert RowFor(dataDir, dir, files[j], keyword) == [it];
          }
        }
      }
    }
  }

  /**
   * Every row a search lists is for a note of the walk that can be read and
   * whose text holds the keyword, ignoring case: unreadable files and files
   * of other types are skipped.
   */
  lemma {:induction false} HitsSound(dataDir: string, walk: seq<Listing>, keyword: string)
    ensures forall it :: it in Hits(dataDir, walk, keyword) ==>
              exists i, j :: 0 <= i < |walk| && 0 <= j < |walk[i].files| && Found(keyword, walk[i].files[j])
                             && it == ItemFor(dataDir, walk[i].dir, walk[i].files[j].name)
  {
    if walk != [] {
      var n := |walk| - 1;
      var d := walk[n];
      var front, last := Hits(dataDir, walk[..n], keyword), DirHits(dataDir, d.dir, d.files, keyword);
      HitsSound(dataDir, walk[..n], keyword);
      DirHitsMembers(dataDir, d.dir, d.files, keyword);
      assert Hits(dataDir, walk, keyword) == front + last;
      forall it | it in Hits(dataDir, walk, keyword)
        ensures exists i, j :: 0 <= i < |walk| && 0 <= j < |walk[i].files| && Found(keyword, walk[i].files[j])
                               && it == ItemFor(dataDir, walk[i].dir, walk[i].files[j].name)
      {
        if it in front {
          var i, j :| 0 <= i < n && 0 <= j < |walk[..n][i].files| && Found(keyword, walk[..n][i].files[j])
                      && it == ItemFor(dataDir, walk[..n][i].dir, walk[..n][i].files[j].name);
          assert walk[..n][i] == walk[i];
        } else {
          var j :| 0 <= j < |d.files| && Found(keyword, d.files[j]) && it == ItemFor(dataDir, d.dir, d.files[j].name);
          assert walk[n].files[j] == d.files[j];
        }
      }
    }
  }

  /** Every note of the walk that can be read and whose text holds the keyword, ignoring case, is listed. */
  lemma {:induction false} HitsComplete(dataDir: string, walk: seq<Listing>, keyword: string)
    ensures forall i, j :: 0 <= i < |walk| && 0 <= j < |walk[i].files| && Found(keyword, walk[i].files[j]) ==>
              ItemFor(dataDir, walk[i].dir, walk[i].files[j].name) in Hits(dataDir, walk, keyword)
  {
    if walk != [] {
      var n := |walk| - 1;
      var d := walk[n];
      var front, last := Hits(dataDir, walk[..n], keyword), DirHits(dataDir, d.dir, d.files, keyword);
      HitsComplete(dataDir, walk[..n], keyword);
      DirHitsMembers(dataDir, d.dir, d.files, keyword);
      assert Hits(dataDir, walk, keyword) == front + last;
      forall i, j | 0 <= i < |walk| && 0 <= j < |walk[i].files| && Found(keyword, walk[i].files[j])
        ensures ItemFor(dataDir, walk[i].dir, walk[i].files[j].name) in Hits(dataDir, walk, keyword)
      {
        var it := ItemFor(dataDir, walk[i].dir, walk[i].files[j].name);
        if i < n {
          assert walk[..n][i] == walk[i];
          assert it in front;
        } else {
          assert i == n && walk[i] == d;
          assert it in last;
        }
      }
    }
  }

  /** Rows come in walk order: scanning two walks one after the other lists the rows of the first, then those of the second. */
  lemma {:induction false} HitsAppend(dataDir: string, first: seq<Listing>, second: seq<Listing>, keyword: string)
    ensures Hits(dataDir, first + second, keyword) == Hits(dataDir, first, keyword) + Hits(dataDir, second, keyword)
    decreases |second|
  {
    if second == [] {
      assert first + second == first;
      assert Hits(dataDir, second, keyword) == [];
      assert Hits(dataDir, first, keyword) + [] == Hits(dataDir, first, keyword);
    } else {
      var n := |second| - 1;
      var all := first + second;
      var m := |first| + n;
      var a, b, c := Hits(dataDir, first, keyword), Hits(dataDir, second[..n], keyword),
                     DirHits(dataDir, second[n].dir, second[n].files, keyword);
      assert Hits(dataDir, all, keyword) == Hits(dataDir, all[..m], keyword) + c by {
        HitsSnoc(dataDir, all, m, keyword);
        assert all[..m + 1] == all;
        assert all[m] == second[n];
      }
      assert Hits(dataDir, all[..m], keyword) == a + b by {
        assert all[..m] == first + second[..n];
        HitsAppend(dataDir, first, second[..n], keyword);
      }
      assert Hits(dataDir, second, keyword) == b + c by {
        assert second[..n + 1] == second;
        HitsSnoc(dataDir, second, n, keyword);
      }
      calc {
        Hits(dataDir, all, keyword);
        Hits(dataDir, all[..m], keyword) + c;
        (a + b) + c;
        { ConcatAssoc(a, b, c); }
        a + (b + c);
        a + Hits(dataDir, second, keyword);
      }
    }
  }

  /** Only the lower-cased keyword counts: keywords that differ only in case find the same rows. */
  lemma {:induction false} DirHitsIgnoreCase(dataDir: string, dir: string, files: seq<FileEntry>, k1: string, k2: string)
    requires Lower(k1) == Lower(k2)
    ensures DirHits(dataDir, dir, files, k1) == DirHits(dataDir, dir, files, k2)
  {
    if files != [] {
      DirHitsIgnoreCase(dataDir, dir, files[..|files| - 1], k1, k2);
    }
  }

  /** Keywords that differ only in case find the same rows over the whole walk. */
  lemma {:induction false} HitsIgnoreCase(dataDir: string, walk: seq<Listing>, k1: string, k2: string)
    requires Lower(k1) == Lower(k2)
    ensures Hits(dataDir, walk, k1) == Hits(dataDir, walk, k2)
  {
    if walk != [] {
      var d := walk[|walk| - 1];
      HitsIgnoreCase(dataDir, walk[..|walk| - 1], k1, k2);
      DirHitsIgnoreCase(dataDir, d.dir, d.files, k1, k2);
    }
  }

  /** Every listed row stores a path, so a double-click always opens the file it shows. */
  lemma RowsOpenTheirFile(dataDir: string, walk: seq<Listing>, keyword: string)
    ensures forall it :: it in Hits(dataDir, walk, keyword) ==> FileClicked(it) == Some(it.path)
  {
    HitsSound(dataDir, walk, keyword);
    forall it | it in Hits(dataDir, walk, keyword) ensures it.path != [] {
      var i, j :| 0 <= i < |walk| && 0 <= j < |walk[i].files| && Found(keyword, walk[i].files[j])
                  && it == ItemFor(dataDir, walk[i].dir, walk[i].files[j].name);
      assert |walk[i].files[j].name| >= 3;
    }
  }

  // ---------------------------------------------------------------------
  // The widget
  // ---------------------------------------------------------------------

  class SearchWidget {
    /** `data_dir` */
    const dataDir: string
    /** The rows of `results_list`, top to bottom. */
    var results: seq<Item>

    constructor (dataDir: string)
      ensures this.dataDir == dataDir && results == []
    {
      this.dataDir := dataDir;
      results := [];
    }

    /**
     * `search_files` with `query` in the search box: a keyword that is
     * blank once stripped leaves the list as it was; any other keyword
     * replaces the list with the rows the walk finds.
     */
    method SearchFiles(query: string, walk: seq<Listing>)
      modifies this
      ensures Strip(query) == [] ==> results == old(results)
      ensures Strip(query) != [] ==> results == Hits(dataDir, walk, Strip(query))
    {
      var keyword := Strip(query);
      if keyword == [] {
        return;
      }
      results := [];
      var i := 0;
      while i < |walk|
        invariant 0 <= i <= |walk|
        invariant results == Hits(dataDir, walk[..i], keyword)
      {
        ScanDirectory(walk[i], keyword);
        HitsSnoc(dataDir, walk, i, keyword);
        i := i + 1;
      }
      assert walk[..i] == walk;
    }

    /** The inner loop of `search_files`: the files of one directory of the walk. */
    method ScanDirectory(listing: Listing, keyword: string)
      modifies this
      ensures results == old(results) + DirHits(dataDir, listing.dir, listing.files, keyword)
    {
      var j := 0;
      while j < |listing.files|
        invariant 0 <= j <= |listing.files|
        invariant results == old(results) + DirHits(dataDir, listing.dir, listing.files[..j], keyword)
      {
        var added := ScanFile(listing.dir, listing.files[j], keyword);
        DirHitsSnoc(dataDir, listing.dir, listing.files, j, keyword);
        results := results + added;
        j := j + 1;
      }
      assert listing.files[..j] == listing.files;
    }

    /**
     * The body of the inner loop for one file: the row it adds, if any. A
     * file that cannot be read adds nothing (the error is only printed).
     */
    method ScanFile(dir: string, f: FileEntry, keyword: string) returns (added: seq<Item>)
      ensures added == RowFor(dataDir, dir, f, keyword)
    {
      added := [];
      if IsNoteName(f.name) {
        match f.read
        case Content(text) =>
          if IsSubstring(Lower(keyword), Lower(text)) {
            var path := Join(Root(dataDir, dir), f.name);
            var title := if dir == [] then f.name else Join(dir, f.name);
            added := [Item(title, path)];
          }
        case Unreadable =>
      }
    }

    /** `on_item_double_clicked`: the path to open, if the row stores one. */
    method OnItemDoubleClicked(item: Item) returns (emitted: Option<string>)
      ensures emitted == FileClicked(item)
    {
      var path := item.path;
      if path != [] {
        emitted := Some(path);
      } else {
        emitted := None;
      }
    }
  }
}
