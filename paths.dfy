/**
 * POSIX path arithmetic as Python's `os.path.join` (two arguments) and
 * `os.path.dirname` perform it, and the way the file system reads a path
 * (empty and `.` parts skipped, `..` going up one folder).
 */
module Paths {
  import opened Text

  /** Index just past the last '/' in `p` (0 when there is none): `p.rfind('/') + 1`. */
  function AfterLastSlash(p: string): (i: nat)
    ensures i <= |p|
    ensures i > 0 ==> p[i - 1] == '/'
    ensures forall k :: i <= k < |p| ==> p[k] != '/'
  {
    if p == [] then 0
    else if p[|p| - 1] == '/' then |p|
    else AfterLastSlash(p[..|p| - 1])
  }

  /** `head.rstrip('/')`. */
  function StripTrailingSlashes(head: string): (r: string)
    ensures |r| <= |head| && r == head[..|r|]
    ensures r != [] ==> r[|r| - 1] != '/'
    ensures forall k :: |r| <= k < |head| ==> head[k] == '/'
  {
    if head != [] && head[|head| - 1] == '/' then StripTrailingSlashes(head[..|head| - 1]) else head
  }

  predicate AllSlashes(s: string) {
    forall k :: 0 <= k < |s| ==> s[k] == '/'
  }

  /** `p.startswith('/')`: an absolute path. */
  predicate IsAbsolute(p: string) {
    p != [] && p[0] == '/'
  }

  /** The separator `join` puts between `a` and a relative part: none when `a` is empty or `a.endswith('/')`. */
  function Sep(a: string): (sep: string)
    ensures sep == [] <==> a == [] || EndsWith(a, "/")
  {
    assert a != [] ==> (EndsWith(a, "/") <==> a[|a| - 1] == '/') by {
      if a != [] {
        assert a[|a| - 1..] == [a[|a| - 1]];
      }
    }
    if a == [] || a[|a| - 1] == '/' then [] else "/"
  }

  /** `os.path.join(a, b)`: an absolute `b` replaces `a`; otherwise `b` is appended after the separator. */
  function Join(a: string, b: string): (r: string)
  {
    if IsAbsolute(b) then b else a + Sep(a) + b
  }

  /** `os.path.dirname(p)`. */
  function Dirname(p: string): (r: string)
  {
    var head := p[..AfterLastSlash(p)];
    if head != [] && !AllSlashes(head) then StripTrailingSlashes(head) else head
  }

  /** Joining keeps the second part at the end, and keeps the first part in front unless the second is absolute. */
  lemma JoinSpec(a: string, b: string)
    ensures EndsWith(Join(a, b), b)
    ensures !StartsWith(b, "/") ==> StartsWith(Join(a, b), a)
    ensures StartsWith(b, "/") ==> Join(a, b) == b
  {
    assert StartsWith(b, "/") <==> IsAbsolute(b) by {
      if b != [] {
        assert b[..1] == [b[0]];
      }
    }
    var r := Join(a, b);
    assert r[|r| - |b|..] == b;
    if !StartsWith(b, "/") {
      assert r[..|a|] == a;
    }
  }

  /**
   * Joining in two steps through a relative middle part is joining once
   * with the joined tail: `join(join(a, b), c) == join(a, join(b, c))`.
   */
  lemma JoinAssoc(a: string, b: string, c: string)
    requires b != [] && !IsAbsolute(b) && !IsAbsolute(c)
    ensures Join(Join(a, b), c) == Join(a, Join(b, c))
  {
    var ab, bc := a + Sep(a) + b, b + Sep(b) + c;
    assert Sep(ab) == Sep(b) by {
      assert ab[|ab| - 1] == b[|b| - 1];
    }
    assert !IsAbsolute(bc) by {
      assert bc[0] == b[0];
    }
    Regroup(a, Sep(a), b, Sep(b), c);
  }

  /** Helper: regrouping a concatenation of five parts. */
  lemma Regroup<T>(p: seq<T>, q: seq<T>, r: seq<T>, s: seq<T>, u: seq<T>)
    ensures p + q + r + s + u == p + q + (r + s + u)
  {
  }

  /**
   * Taking the directory part undoes a join with a plain name: the
   * directory of `Join(dir, name)` is `dir` again when `dir` is non-empty
   * with no trailing '/' and `name` holds no '/'.
   */
  lemma DirnameOfJoin(dir: string, name: string)
    requires dir != [] && dir[|dir| - 1] != '/'
    requires name != [] && '/' !in name
    ensures Dirname(Join(dir, name)) == dir
  {
    var p := dir + "/" + name;
    assert Join(dir, name) == p by {
      assert name[0] != '/';
      assert Sep(dir) == "/";
    }
    assert AfterLastSlash(p) == |dir| + 1 by {
      assert p[|dir|] == '/';
      forall k | |dir| + 1 <= k < |p| ensures p[k] != '/' {
        assert p[k] == name[k - |dir| - 1];
      }
    }
    var head := p[..|dir| + 1];
    assert head == dir + "/";
    assert !AllSlashes(head) by {
      assert head[|dir| - 1] != '/';
    }
    assert StripTrailingSlashes(head) == dir by {
      assert head[..|head| - 1] == dir;
    }
  }

  // ---------------------------------------------------------------------
  // How the file system reads a path
  // ---------------------------------------------------------------------

  /** `p.split('/')`: the parts between the slashes, in order. */
  function Split(p: string): (parts: seq<string>)
    ensures |parts| >= 1
    ensures forall i :: 0 <= i < |parts| ==> '/' !in parts[i]
  {
    if p == [] then [[]]
    else
      var rest := Split(p[1..]);
      if p[0] == '/' then [[]] + rest
      else [[p[0]] + rest[0]] + rest[1..]
  }

  /** `'/'.join(parts)`. */
  function JoinParts(parts: seq<string>): (p: string)
  {
    if parts == [] then []
    else if |parts| == 1 then parts[0]
    else parts[0] + "/" + JoinParts(parts[1..])
  }

  /** Splitting at the slashes and joining with slashes gives the path back. */
  lemma {:induction false} JoinSplit(p: string)
    ensures JoinParts(Split(p)) == p
  {
    if p != [] {
      var rest := Split(p[1..]);
      JoinSplit(p[1..]);
      if p[0] == '/' {
        assert Split(p)[1..] == rest;
      } else if |rest| > 1 {
        var parts := Split(p);
        assert parts[1..] == rest[1..];
        assert JoinParts(parts) == [p[0]] + rest[0] + "/" + JoinParts(rest[1..]);
      }
    }
  }

  /** A part that names an item: not empty, not `.` or `..`, and without '/'. */
  predicate IsPlainName(c: string) {
    c != [] && c != "." && c != ".." && '/' !in c
  }

  /**
   * The folders walked so far, after reading one more part: an empty or `.`
   * part stays, `..` goes up (not above the root of an absolute path; a
   * relative path keeps a leading `..`), and a name goes down into it.
   */
  function Step(stack: seq<string>, c: string, absolute: bool): (r: seq<string>)
  {
    if c == [] || c == "." then stack
    else if c == ".." then
      if stack != [] && stack[|stack| - 1] != ".." then stack[..|stack| - 1]
      else if absolute then stack
      else stack + [".."]
    else stack + [c]
  }

  /** The folders walked after reading all of `parts`, left to right. */
  function Walk(stack: seq<string>, parts: seq<string>, absolute: bool): (r: seq<string>)
    requires forall i :: 0 <= i < |parts| ==> '/' !in parts[i]
    requires absolute ==> forall i :: 0 <= i < |stack| ==> IsPlainName(stack[i])
    ensures absolute ==> forall i :: 0 <= i < |r| ==> IsPlainName(r[i])
    decreases |parts|
  {
    if parts == [] then stack
    else Walk(Step(stack, parts[0], absolute), parts[1..], absolute)
  }

  /** Reading `a + b` is reading `a`, then `b` from where `a` ended. */
  lemma {:induction false} WalkAppend(stack: seq<string>, a: seq<string>, b: seq<string>, absolute: bool)
    requires forall i :: 0 <= i < |a| ==> '/' !in a[i]
    requires forall i :: 0 <= i < |b| ==> '/' !in b[i]
    requires absolute ==> forall i :: 0 <= i < |stack| ==> IsPlainName(stack[i])
    ensures Walk(stack, a + b, absolute) == Walk(Walk(stack, a, absolute), b, absolute)
    decreases |a|
  {
    if a == [] {
      assert a + b == b;
    } else {
      assert (a + b)[0] == a[0] && (a + b)[1..] == a[1..] + b;
      WalkAppend(Step(stack, a[0], absolute), a[1..], b, absolute);
    }
  }

  /**
   * The path the file system reaches through `p`, written without empty
   * or `.` parts and without `..` after a name: the key under which the
   * item it names is found (`posixpath.normpath`, reading a leading `//`
   * as `/`).
   */
  function Normalize(p: string): (r: string)
    ensures IsAbsolute(p) ==> IsAbsolute(r)
  {
    var parts := Walk([], Split(p), IsAbsolute(p));
    if IsAbsolute(p) then "/" + JoinParts(parts)
    else if parts == [] then "."
    else JoinParts(parts)
  }

  /** Helper: `'/'.join` of a non-empty list ends with its last part. */
  lemma {:induction false} JoinPartsSnoc(parts: seq<string>, c: string)
    requires parts != []
    ensures JoinParts(parts + [c]) == JoinParts(parts) + "/" + c
    decreases |parts|
  {
    if |parts| > 1 {
      assert (parts + [c])[1..] == parts[1..] + [c];
      JoinPartsSnoc(parts[1..], c);
    }
  }

  /** Helper: `'/'.join` of plain names does not end with '/'. */
  lemma {:induction false} JoinPartsLast(parts: seq<string>)
    requires parts != [] && forall i :: 0 <= i < |parts| ==> IsPlainName(parts[i])
    ensures var p := JoinParts(parts); p != [] && p[|p| - 1] != '/'
    decreases |parts|
  {
    if |parts| > 1 {
      JoinPartsLast(parts[1..]);
    } else {
      var c := parts[0];
      assert c[|c| - 1] in c;
    }
  }

  /** Helper: the parts of `a + "/" + b` are the parts of `a`, then those of `b`. */
  lemma {:induction false} SplitAppend(a: string, b: string)
    ensures Split(a + "/" + b) == Split(a) + Split(b)
    decreases |a|
  {
    if a == [] {
      assert a + "/" + b == "/" + b;
      assert ("/" + b)[1..] == b;
    } else {
      assert (a + "/" + b)[1..] == a[1..] + "/" + b;
      SplitAppend(a[1..], b);
    }
  }

  /** Helper: a part without '/' is read as itself. */
  lemma {:induction false} SplitName(name: string)
    requires '/' !in name
    ensures Split(name) == [name]
    decreases |name|
  {
    if name != [] {
      SplitName(name[1..]);
      assert [name[0]] + name[1..] == name;
    }
  }

  /** Helper: reading the parts of `dir`, then a plain name, goes down into it. */
  lemma WalkJoinName(dir: string, name: string)
    requires IsPlainName(name)
    ensures Walk([], Split(dir + "/" + name), true) == Walk([], Split(dir), true) + [name]
  {
    SplitAppend(dir, name);
    SplitName(name);
    WalkAppend([], Split(dir), [name], true);
    var parts := Walk([], Split(dir), true);
    assert Walk(parts, [name], true) == Walk(parts + [name], [], true);
  }

  /** Helper: an absolute path is read as '/' and the folders walked, joined with '/'. */
  lemma NormalizeAbsolute(p: string)
    requires IsAbsolute(p)
    ensures Normalize(p) == "/" + JoinParts(Walk([], Split(p), true))
  {
  }

  /** Helper: the separator `join` puts after a non-empty path that does not end with '/'. */
  lemma JoinAfterName(dir: string, name: string)
    requires dir != [] && dir[|dir| - 1] != '/' && IsPlainName(name)
    ensures Join(dir, name) == dir + "/" + name
  {
    assert !IsAbsolute(name) by {
      assert name[0] in name;
    }
  }

  /** Helper: a plain name under the root is read as itself. */
  lemma NormalizeRootName(name: string)
    requires IsPlainName(name)
    ensures Normalize(Join("/", name)) == Join("/", name)
  {
    var j := "" + "/" + name;
    assert Join("/", name) == j by {
      assert !IsAbsolute(name) by {
        assert name[0] in name;
      }
    }
    assert Walk([], Split(j), true) == [name] by {
      WalkJoinName("", name);
      assert Walk([], Split(""), true) == [];
    }
    NormalizeAbsolute(j);
  }

  /**
   * A plain name joined onto a path already in the file system's own form
   * is in that form too: the key of `join(dir, name)` is the joined path.
   */
  lemma NormalizeJoinName(dir: string, name: string)
    requires IsAbsolute(dir) && Normalize(dir) == dir && IsPlainName(name)
    ensures Normalize(Join(dir, name)) == Join(dir, name)
  {
    var parts := Walk([], Split(dir), true);
    assert dir == "/" + JoinParts(parts) by {
      NormalizeAbsolute(dir);
    }
    if parts == [] {
      assert dir == "/";
      NormalizeRootName(name);
    } else {
      var j := dir + "/" + name;
      assert Join(dir, name) == j by {
        JoinPartsLast(parts);
        assert dir[|dir| - 1] == JoinParts(parts)[|JoinParts(parts)| - 1];
        JoinAfterName(dir, name);
      }
      assert JoinParts(Walk([], Split(j), true)) == JoinParts(parts) + "/" + name by {
        WalkJoinName(dir, name);
        JoinPartsSnoc(parts, name);
      }
      assert IsAbsolute(j) by {
        assert j[0] == dir[0];
      }
      NormalizeAbsolute(j);
    }
  }

  /** A trailing '/' reaches the same item: `p/` is read as `p`. */
  lemma NormalizeTrailingSlash(p: string)
    requires p != []
    ensures Normalize(p + "/") == Normalize(p)
  {
    assert p + "/" == p + "/" + "";
    SplitAppend(p, "");
    assert IsAbsolute(p + "/") == IsAbsolute(p) by {
      assert (p + "/")[0] == p[0];
    }
    WalkAppend([], Split(p), Split(""), IsAbsolute(p));
  }

  /** A `.` part is skipped: `a/./b` is read as `a/b`. */
  lemma NormalizeDotPart(a: string, b: string)
    requires a != []
    ensures Normalize(a + "/" + ("./" + b)) == Normalize(a + "/" + b)
  {
    var abs := IsAbsolute(a);
    assert IsAbsolute(a + "/" + ("./" + b)) == abs && IsAbsolute(a + "/" + b) == abs by {
      assert (a + "/" + ("./" + b))[0] == a[0] && (a + "/" + b)[0] == a[0];
    }
    SplitAppend(a, "./" + b);
    assert "./" + b == "." + "/" + b;
    SplitAppend(".", b);
    SplitName(".");
    SplitAppend(a, b);
    WalkAppend([], Split(a), ["."] + Split(b), abs);
    WalkAppend(Walk([], Split(a), abs), ["."], Split(b), abs);
    WalkAppend([], Split(a), Split(b), abs);
  }
}
