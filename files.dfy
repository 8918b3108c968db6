/**
 * The file tree of the note manager (`FileManager` in src/file_manager.py):
 * how a size is labelled, how a new file gets its extension, which folder
 * a new item goes into, and the create-only-if-absent rule for new files
 * and folders. The notes directory is a map from path to entry; the name
 * dialog is a parameter (`None` when it is cancelled).
 */
module Files {
  import opened Text
  import opened Options
  import opened Paths

  // ---------------------------------------------------------------------
  // Decimal integers, as `str(n)` writes them
  // ---------------------------------------------------------------------

  predicate IsDigit(c: char) {
    '0' <= c <= '9'
  }

  predicate AllDigits(s: string) {
    forall k :: 0 <= k < |s| ==> IsDigit(s[k])
  }

  /** The decimal digits of `n`, most significant first, with no leading zero. */
  function NatText(n: nat): (s: string)
    ensures |s| >= 1 && AllDigits(s)
    ensures |s| > 1 ==> s[0] != '0'
    decreases n
  {
    if n < 10 then [('0' as int + n) as char]
    else NatText(n / 10) + [('0' as int + n % 10) as char]
  }

  /** `str(n)`: a minus sign before the digits of a negative number. */
  function IntText(n: int): (s: string)
    ensures |s| >= 1
  {
    if n < 0 then "-" + NatText(-n) else NatText(n)
  }

  /** The value of a string of decimal digits, read left to right. */
  function DigitsValue(s: string): (v: nat)
    requires AllDigits(s)
  {
    if s == [] then 0
    else DigitsValue(s[..|s| - 1]) * 10 + (s[|s| - 1] as int - '0' as int)
  }

  /** `int(s)` for what `str` writes: an optional minus sign, then digits. */
  function ParseInt(s: string): (n: Option<int>)
  {
    if s != [] && s[0] == '-' && AllDigits(s[1..]) then Some(-(DigitsValue(s[1..]) as int))
    else if AllDigits(s) then Some(DigitsValue(s))
    else None
  }

  /** Reading back the digits of `n` gives `n`. */
  lemma {:induction false} NatTextRoundTrip(n: nat)
    ensures DigitsValue(NatText(n)) == n
    decreases n
  {
    if n >= 10 {
      var s := NatText(n);
      NatTextRoundTrip(n / 10);
      assert s[..|s| - 1] == NatText(n / 10);
    }
  }

  /** Reading back `str(n)` gives `n`, for every integer. */
  lemma IntTextRoundTrip(n: int)
    ensures ParseInt(IntText(n)) == Some(n)
  {
    var s := IntText(n);
    if n < 0 {
      var digits := NatText(-n);
      assert s == "-" + digits && s[0] == '-';
      assert s[1..] == digits;
      NatTextRoundTrip(-n);
    } else {
      assert IsDigit(s[0]);
      NatTextRoundTrip(n);
    }
  }

  // ---------------------------------------------------------------------
  // `format_size`
  // ---------------------------------------------------------------------

  datatype Unit = KB | MB | GB

  /** The number of bytes in one unit. */
  function Divisor(u: Unit): (d: nat)
    ensures d >= 1024
  {
    match u
    case KB => 1024
    case MB => 1024 * 1024
    case GB => 1024 * 1024 * 1024
  }

  /**
   * A size label: the exact count for small sizes, otherwise the size in
   * a larger unit (`f"{amount:.2f} {unit}"`, whose rounding to two places
   * is not part of this model).
   */
  datatype SizeText = Exact(text: string) | Scaled(amount: real, unit: Unit)

  /** `format_size`. */
  function FormatSize(size: int): (shown: SizeText)
  {
    if size < 1024 then Exact(IntText(size) + " B")
    else if size < 1024 * 1024 then Scaled(size as real / 1024.0, KB)
    else if size < 1024 * 1024 * 1024 then Scaled(size as real / (1024 * 1024) as real, MB)
    else Scaled(size as real / (1024 * 1024 * 1024) as real, GB)
  }

  /** Below 1024 the label is the exact byte count followed by ` B`, and it reads back as the size. */
  lemma FormatSizeExact(size: int)
    ensures FormatSize(size).Exact? <==> size < 1024
    ensures FormatSize(size).Exact? ==>
              var t := FormatSize(size).text;
              EndsWith(t, " B") && ParseInt(t[..|t| - 2]) == Some(size)
  {
    if size < 1024 {
      var t := FormatSize(size).text;
      assert t[..|t| - 2] == IntText(size);
      IntTextRoundTrip(size);
    }
  }

  /**
   * From 1024 bytes on, the unit is the largest one that fits (up to GB):
   * the amount shown is at least 1, below 1024 unless the unit is GB, and
   * times the unit it is the size.
   */
  lemma FormatSizeTier(size: int)
    requires size >= 1024
    ensures FormatSize(size).Scaled?
    ensures var u := FormatSize(size).unit;
            Divisor(u) <= size && (u != GB ==> size < Divisor(u) * 1024)
    ensures var shown := FormatSize(size);
            1.0 <= shown.amount && (shown.unit != GB ==> shown.amount < 1024.0)
            && shown.amount * Divisor(shown.unit) as real == size as real
  {
  }

  // ---------------------------------------------------------------------
  // New files and folders
  // ---------------------------------------------------------------------

  /** The extension rule of `create_new_file`: a name that is not a note name gets `.md`. */
  function WithDefaultExtension(name: string): (fileName: string)
  {
    if IsNoteName(name) then name else name + ".md"
  }

  /**
   * The new name is always a note name; a note name is kept as it is, and
   * any other name is only extended by `.md`, so applying the rule twice
   * is applying it once.
   */
  lemma DefaultExtensionSpec(name: string)
    ensures IsNoteName(WithDefaultExtension(name))
    ensures WithDefaultExtension(name) == name <==> IsNoteName(name)
    ensures StartsWith(WithDefaultExtension(name), name)
    ensures WithDefaultExtension(WithDefaultExtension(name)) == WithDefaultExtension(name)
  {
    var r := WithDefaultExtension(name);
    assert r[..|name|] == name;
    if !IsNoteName(name) {
      assert r[|r| - 3..] == ".md";
    }
  }

  /** An item of the notes directory. */
  datatype Kind = Folder | Document(text: string)

  /** `os.path.exists(path)`: the file system finds an item through `path`. */
  predicate Exists(entries: map<string, Kind>, path: string) {
    Normalize(path) in entries
  }

  /** `os.path.isdir(path)`. */
  predicate IsDir(entries: map<string, Kind>, path: string) {
    Normalize(path) in entries && entries[Normalize(path)].Folder?
  }

  /**
   * Where a new item goes: the selected folder, the folder of the selected
   * file, or the notes directory when nothing is selected.
   */
  function TargetDirectory(entries: map<string, Kind>, current: Option<string>, dataDir: string): (dir: string)
  {
    match current
    case None => dataDir
    case Some(path) => if IsDir(entries, path) then path else Dirname(path)
  }

  /** A selected file `dir/name` sends new items to `dir`. */
  lemma TargetOfSelectedFile(entries: map<string, Kind>, dir: string, name: string, dataDir: string)
    requires dir != [] && dir[|dir| - 1] != '/'
    requires name != [] && '/' !in name
    requires !IsDir(entries, Join(dir, name))
    ensures TargetDirectory(entries, Some(Join(dir, name)), dataDir) == dir
  {
    DirnameOfJoin(dir, name);
  }

  /** The name the dialog returned, when it was accepted with some text (`ok and name`). */
  predicate Answered(answer: Option<string>) {
    answer.Some? && answer.value != []
  }

  /** The directory after a create, and the path created if any. */
  datatype Outcome = Outcome(entries: map<string, Kind>, created: Option<string>)

  /**
   * `open(path, 'w')` on a path that does not exist yet: it works when the
   * folder the path leads into exists and writing there is allowed.
   */
  predicate CanWriteNew(entries: map<string, Kind>, writable: bool, path: string) {
    writable && IsDir(entries, Dirname(Normalize(path)))
  }

  /**
   * `create_new_file`: nothing happens when the dialog gives no name, when
   * the path reaches an existing item (a warning) or when the write fails,
   * as it does in a missing folder (an error message); otherwise an empty
   * file is written and the joined path returned.
   */
  function NewFile(entries: map<string, Kind>, current: Option<string>, dataDir: string,
                   writable: bool, answer: Option<string>): (r: Outcome)
  {
    if !Answered(answer) then Outcome(entries, None)
    else
      var path := Join(TargetDirectory(entries, current, dataDir), WithDefaultExtension(answer.value));
      if Exists(entries, path) || !CanWriteNew(entries, writable, path) then Outcome(entries, None)
      else Outcome(entries[Normalize(path) := Document("")], Some(path))
  }

  /**
   * A file is created exactly when a name was given, its path reaches no
   * existing item, and it leads into an existing folder where the write
   * works; otherwise nothing changes.
   */
  lemma NewFileWhen(entries: map<string, Kind>, current: Option<string>, dataDir: string,
                    writable: bool, answer: Option<string>)
    ensures var r := NewFile(entries, current, dataDir, writable, answer);
            r.created.Some? <==>
              Answered(answer)
              && var path := Join(TargetDirectory(entries, current, dataDir), WithDefaultExtension(answer.value));
                 !Exists(entries, path) && writable && IsDir(entries, Dirname(Normalize(path)))
    ensures var r := NewFile(entries, current, dataDir, writable, answer);
            r.created.None? ==> r.entries == entries
  {
  }

  /**
   * A created file is a new, empty note in an existing folder, named by
   * the extension rule and found under the path the file system reads,
   * and no existing item changes.
   */
  lemma NewFileCreates(entries: map<string, Kind>, current: Option<string>, dataDir: string,
                       writable: bool, answer: Option<string>)
    requires NewFile(entries, current, dataDir, writable, answer).created.Some?
    ensures var r := NewFile(entries, current, dataDir, writable, answer);
            var path := r.created.value;
            !Exists(entries, path) && IsDir(entries, Dirname(Normalize(path)))
            && IsNoteName(path) && EndsWith(path, WithDefaultExtension(answer.value))
            && r.entries == entries[Normalize(path) := Document("")]
            && (forall p :: p in entries ==> p in r.entries && r.entries[p] == entries[p])
    ensures var dir := TargetDirectory(entries, current, dataDir);
            IsAbsolute(dir) && Normalize(dir) == dir && IsPlainName(answer.value) ==>
              var path := NewFile(entries, current, dataDir, writable, answer).created.value;
              path == Join(dir, WithDefaultExtension(answer.value)) && Normalize(path) == path
  {
    var name := WithDefaultExtension(answer.value);
    var path := Join(TargetDirectory(entries, current, dataDir), name);
    assert NewFile(entries, current, dataDir, writable, answer) == Outcome(entries[Normalize(path) := Document("")], Some(path));
    assert IsNoteName(path) && EndsWith(path, name) by {
      DefaultExtensionSpec(answer.value);
      JoinSpec(TargetDirectory(entries, current, dataDir), name);
      EndsWithNote(path, name);
    }
    var dir := TargetDirectory(entries, current, dataDir);
    if IsAbsolute(dir) && Normalize(dir) == dir && IsPlainName(answer.value) {
      DefaultExtensionPlain(answer.value);
      NormalizeJoinName(dir, name);
    }
  }

  /** Helper: the extension rule keeps a plain name plain. */
  lemma DefaultExtensionPlain(name: string)
    requires IsPlainName(name)
    ensures IsPlainName(WithDefaultExtension(name))
  {
    var r := WithDefaultExtension(name);
    if r != name {
      assert r == name + ".md" && r[|r| - 1] == 'd';
      forall k | 0 <= k < |r| ensures r[k] != '/' {
        if k < |name| {
          assert r[k] == name[k];
        }
      }
    }
  }

  /** A path that ends with a note name is a note name. */
  lemma EndsWithNote(path: string, name: string)
    requires EndsWith(path, name) && IsNoteName(name)
    ensures IsNoteName(path)
  {
    if EndsWith(name, ".md") {
      assert path[|path| - 3..] == name[|name| - 3..];
    } else {
      assert path[|path| - 4..] == name[|name| - 4..];
    }
  }

  /**
   * `create_new_folder`: the folder is made only when a name was given, its
   * path reaches no existing item and `os.makedirs` works; the tree then
   * selects the new folder, under the path the file system reads.
   */
  function NewFolder(entries: map<string, Kind>, current: Option<string>, dataDir: string,
                     writable: bool, answer: Option<string>): (r: Outcome)
  {
    if !Answered(answer) then Outcome(entries, None)
    else
      var path := Join(TargetDirectory(entries, current, dataDir), answer.value);
      if Exists(entries, path) || !writable then Outcome(entries, None)
      else Outcome(entries[Normalize(path) := Folder], Some(Normalize(path)))
  }

  /**
   * A folder is made exactly when a name was given, its path reaches no
   * existing item and `os.makedirs` works; otherwise nothing changes.
   */
  lemma NewFolderWhen(entries: map<string, Kind>, current: Option<string>, dataDir: string,
                      writable: bool, answer: Option<string>)
    ensures var r := NewFolder(entries, current, dataDir, writable, answer);
            r.created.Some? <==>
              Answered(answer) && writable
              && !Exists(entries, Join(TargetDirectory(entries, current, dataDir), answer.value))
    ensures var r := NewFolder(entries, current, dataDir, writable, answer);
            r.created.None? ==> r.entries == entries
  {
  }

  /**
   * A made folder is new, is what the joined path now reaches, and no
   * existing item changes; for a plain name in a folder already in the
   * file system's form it is the joined path itself.
   */
  lemma NewFolderCreates(entries: map<string, Kind>, current: Option<string>, dataDir: string,
                         writable: bool, answer: Option<string>)
    requires NewFolder(entries, current, dataDir, writable, answer).created.Some?
    ensures var r := NewFolder(entries, current, dataDir, writable, answer);
            var joined := Join(TargetDirectory(entries, current, dataDir), answer.value);
            var path := r.created.value;
            path == Normalize(joined) && path !in entries && IsDir(r.entries, joined)
            && r.entries == entries[path := Folder]
            && (forall p :: p in entries ==> p in r.entries && r.entries[p] == entries[p])
    ensures var dir := TargetDirectory(entries, current, dataDir);
            IsAbsolute(dir) && Normalize(dir) == dir && IsPlainName(answer.value) ==>
              NewFolder(entries, current, dataDir, writable, answer).created == Some(Join(dir, answer.value))
  {
    var dir := TargetDirectory(entries, current, dataDir);
    var joined := Join(dir, answer.value);
    assert NewFolder(entries, current, dataDir, writable, answer) == Outcome(entries[Normalize(joined) := Folder], Some(Normalize(joined)));
    if IsAbsolute(dir) && Normalize(dir) == dir && IsPlainName(answer.value) {
      NormalizeJoinName(dir, answer.value);
    }
  }

  /**
   * A folder name with a trailing '/' reaches the item without it: next to
   * an existing `a`, the name `a/` gets a warning and nothing is made.
   */
  lemma TrailingSlashReachesItem(entries: map<string, Kind>, current: Option<string>, dataDir: string,
                                 writable: bool, name: string)
    requires name != [] && !IsAbsolute(name)
    requires Exists(entries, Join(TargetDirectory(entries, current, dataDir), name))
    ensures NewFolder(entries, current, dataDir, writable, Some(name + "/")) == Outcome(entries, None)
  {
    var dir := TargetDirectory(entries, current, dataDir);
    assert Join(dir, name + "/") == Join(dir, name) + "/" by {
      assert (name + "/")[0] == name[0];
    }
    NormalizeTrailingSlash(Join(dir, name));
  }

  /**
   * A file name that starts with `./` reaches the note without it: next to
   * an existing `n.md`, the name `./n.md` gets a warning and nothing is
   * written.
   */
  lemma DotPartReachesItem(entries: map<string, Kind>, current: Option<string>, dataDir: string,
                           writable: bool, name: string)
    requires IsNoteName(name)
    requires var dir := TargetDirectory(entries, current, dataDir);
             dir != [] && dir[|dir| - 1] != '/' && !IsAbsolute(name) && Exists(entries, Join(dir, name))
    ensures NewFile(entries, current, dataDir, writable, Some("./" + name)) == Outcome(entries, None)
  {
    var dir := TargetDirectory(entries, current, dataDir);
    assert WithDefaultExtension("./" + name) == "./" + name by {
      assert EndsWith("./" + name, name);
      EndsWithNote("./" + name, name);
    }
    assert Sep(dir) == "/";
    assert Join(dir, "./" + name) == dir + "/" + ("./" + name);
    assert Join(dir, name) == dir + "/" + name;
    NormalizeDotPart(dir, name);
  }

  /**
   * A file name that leads through a folder that is not there cannot be
   * opened for writing: `x/n.md` with no folder `x` gets an error message
   * and nothing is written.
   */
  lemma MissingFolderFailsWrite(entries: map<string, Kind>, current: Option<string>, dataDir: string,
                                writable: bool, folder: string, name: string)
    requires IsPlainName(folder) && IsPlainName(name) && IsNoteName(name)
    requires var dir := TargetDirectory(entries, current, dataDir);
             IsAbsolute(dir) && Normalize(dir) == dir && !IsDir(entries, Join(dir, folder))
    ensures NewFile(entries, current, dataDir, writable, Some(folder + "/" + name)) == Outcome(entries, None)
  {
    var dir := TargetDirectory(entries, current, dataDir);
    var sub := Join(dir, folder);
    assert !IsAbsolute(folder) && !IsAbsolute(name) by {
      assert folder[0] in folder && name[0] in name;
    }
    assert Join(folder, name) == folder + "/" + name by {
      assert folder[|folder| - 1] in folder;
    }
    assert WithDefaultExtension(folder + "/" + name) == folder + "/" + name by {
      assert EndsWith(folder + "/" + name, name);
      EndsWithNote(folder + "/" + name, name);
    }
    JoinAssoc(dir, folder, name);
    NormalizeJoinName(dir, folder);
    assert IsAbsolute(sub) && sub != [] && sub[|sub| - 1] != '/' by {
      JoinSpec(dir, folder);
      assert sub[..|dir|] == dir;
      assert sub[|sub| - |folder|..] == folder;
      assert folder[|folder| - 1] in folder;
    }
    NormalizeJoinName(sub, name);
    DirnameOfJoin(sub, name);
  }

  class FileManager {
    /** `data_dir`: the root of the tree. */
    const dataDir: string
    /** Whether writing into the notes directory succeeds. */
    const writable: bool
    /** The notes directory below `data_dir`, by path. */
    var entries: map<string, Kind>
    /** The path of the tree's current item, if any. */
    var current: Option<string>

    constructor (dataDir: string, entries: map<string, Kind>, writable: bool)
      ensures this.dataDir == dataDir && this.writable == writable
      ensures this.entries == entries && current == None
    {
      this.dataDir := dataDir;
      this.writable := writable;
      this.entries := entries;
      current := None;
    }

    /** The folder a new item goes into, chosen as `create_new_file` and `create_new_folder` do. */
    method ChooseTarget() returns (path: string)
      ensures path == TargetDirectory(entries, current, dataDir)
    {
      if current.Some? {
        path := current.value;
        if !IsDir(entries, path) {
          path := Dirname(path);
        }
      } else {
        path := dataDir;
      }
    }

    /** `create_new_file`, given what the name dialog returned. */
    method CreateNewFile(answer: Option<string>) returns (created: Option<string>)
      modifies this
      ensures var r := NewFile(old(entries), current, dataDir, writable, answer);
              entries == r.entries && created == r.created
      ensures current == old(current)
    {
      var target := ChooseTarget();
      created := None;
      if answer.Some? && answer.value != [] {
        var fileName := answer.value;
        if !IsNoteName(fileName) {
          fileName := fileName + ".md";
        }
        var filePath := Join(target, fileName);
        if !Exists(entries, filePath) {
          if writable && IsDir(entries, Dirname(Normalize(filePath))) {
            entries := entries[Normalize(filePath) := Document("")];
            created := Some(filePath);
          }
        }
      }
    }

    /** `create_new_folder`, given what the name dialog returned; the new folder becomes the current item. */
    method CreateNewFolder(answer: Option<string>)
      modifies this
      ensures var r := NewFolder(old(entries), old(current), dataDir, writable, answer);
              entries == r.entries && current == (if r.created.Some? then r.created else old(current))
    {
      var target := ChooseTarget();
      if answer.Some? && answer.value != [] {
        var folderPath := Join(target, answer.value);
        if !Exists(entries, folderPath) {
          if writable {
            folderPath := Normalize(folderPath);
            entries := entries[folderPath := Folder];
            current := Some(folderPath);
          }
        }
      }
    }
  }
}
