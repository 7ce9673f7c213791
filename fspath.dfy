/**
 * Path utilities of lib/fspath.js: pure functions over path strings built
 * from JavaScript's `indexOf`, `lastIndexOf`, `substring` and `replace`.
 */
module FsPath {
  import opened Wrappers

  /** `s.lastIndexOf(c)`: the index of the last occurrence of `c` in `s`, or -1. */
  function LastIndexOf(s: string, c: char): (r: int)
    ensures -1 <= r < |s|
    ensures r >= 0 ==> s[r] == c
    ensures forall k :: r < k < |s| ==> s[k] != c
  {
    if |s| == 0 then -1
    else if s[|s| - 1] == c then |s| - 1
    else LastIndexOf(s[..|s| - 1], c)
  }

  /** `sub` occurs in `s` starting at index `k`. */
  predicate OccursAt(s: string, sub: string, k: int)
  {
    0 <= k && k + |sub| <= |s| && s[k..k + |sub|] == sub
  }

  /** `k` is the first index at which `sub` occurs in `s`. */
  predicate FirstOccurrence(s: string, sub: string, k: int)
  {
    OccursAt(s, sub, k) && forall k' :: 0 <= k' < k ==> !OccursAt(s, sub, k')
  }

  /**
   * `s.indexOf(sub, from)` for a start within the string: the first occurrence
   * of `sub` at or after `from`, or -1. (JavaScript clamps a larger start to
   * the length; the only caller starts at 0.)
   */
  function IndexOfFrom(s: string, sub: string, from: nat): (r: int)
    requires from <= |s|
    ensures r == -1 || (from <= r && OccursAt(s, sub, r))
    ensures forall k :: from <= k && (r == -1 || k < r) ==> !OccursAt(s, sub, k)
    decreases |s| - from
  {
    if from + |sub| > |s| then -1
    else if s[from..from + |sub|] == sub then from
    else IndexOfFrom(s, sub, from + 1)
  }

  /** `s.indexOf(sub)`: the first occurrence of `sub` in `s`, or -1. */
  function IndexOf(s: string, sub: string): (r: int)
    ensures r == -1 || OccursAt(s, sub, r)
    ensures forall k :: 0 <= k && (r == -1 || k < r) ==> !OccursAt(s, sub, k)
  {
    IndexOfFrom(s, sub, 0)
  }

  /** `path.indexOf('/') === 0`, stated directly: the path starts with a slash (see `IsAbsoluteIsIndexOfCheck`). */
  predicate IsAbsolute(path: string)
  {
    |path| > 0 && path[0] == '/'
  }

  /** The direct statement of `IsAbsolute` is the source's check: the first slash is at index 0. */
  lemma {:induction false} IsAbsoluteIsIndexOfCheck(path: string)
    ensures IsAbsolute(path) <==> IndexOf(path, "/") == 0
  {
    if IsAbsolute(path) {
      assert path[0..1] == "/";
      assert FirstOccurrence(path, "/", 0);
    }
  }

  /**
   * `getDirectory(path)`: rejects a path that does not start with `/` and the
   * root itself; otherwise everything before the last slash. For a path of one
   * segment the result is the empty string.
   */
  function GetDirectory(path: string): (r: Result<string>)
    ensures !IsAbsolute(path) ==> r == Err(path + " is not an absolute path")
    ensures path == "/" ==> r == Err("/ is the top-level directory")
    ensures r.Ok? <==> IsAbsolute(path) && path != "/"
    ensures r.Ok? ==>
      && |r.value| < |path|
      && r.value == path[..|r.value|]
      && path[|r.value|] == '/'
      && forall k :: |r.value| < k < |path| ==> path[k] != '/'
  {
    if !IsAbsolute(path) then Err(path + " is not an absolute path")
    else if path == "/" then Err("/ is the top-level directory")
    else Ok(path[..LastIndexOf(path, '/')])
  }

  /** `getFilename(path)`: everything after the last slash (the whole string when there is none). */
  function GetFilename(path: string): (r: string)
    ensures |r| <= |path| && r == path[|path| - |r|..]
    ensures forall k :: 0 <= k < |r| ==> r[k] != '/'
    ensures |r| < |path| ==> path[|path| - |r| - 1] == '/'
  {
    path[LastIndexOf(path, '/') + 1..]
  }

  /**
   * `newChildPath(child, oldParent, newParent)`: `child.replace(oldParent, newParent)`,
   * which replaces the first occurrence of `oldParent` anywhere in `child`,
   * not only a leading one (the replacement is taken literally).
   */
  function NewChildPath(oldChildPath: string, oldParentPath: string, newParentPath: string): (r: string)
    ensures (forall k :: !OccursAt(oldChildPath, oldParentPath, k)) ==> r == oldChildPath
    ensures forall k :: FirstOccurrence(oldChildPath, oldParentPath, k) ==>
                        r == oldChildPath[..k] + newParentPath + oldChildPath[k + |oldParentPath|..]
  {
    var i := IndexOf(oldChildPath, oldParentPath);
    if i < 0 then oldChildPath
    else
      assert forall k :: FirstOccurrence(oldChildPath, oldParentPath, k) ==> k == i;
      oldChildPath[..i] + newParentPath + oldChildPath[i + |oldParentPath|..]
  }

  /**
   * `contains(ancestor, candidate)`: NOT IN SOURCE. lib/fswatcher.js calls
   * `fspath.contains`, but lib/fspath.js does not define it. The body is the
   * reading the unit test (test/unit/fspath_test.js:5-8) exercises: the
   * candidate is the ancestor itself or starts with `ancestor + "/"`.
   */
  predicate Contains(ancestorPath: string, candidatePath: string): (r: bool)
    ensures r ==> ancestorPath <= candidatePath
    ensures r && candidatePath != ancestorPath ==> candidatePath[|ancestorPath|] == '/'
  {
    candidatePath == ancestorPath ||
    (|ancestorPath| + 1 <= |candidatePath| && candidatePath[..|ancestorPath| + 1] == ancestorPath + "/")
  }

  /** Every absolute path other than the root is its directory, a slash and its filename. */
  lemma {:induction false} DirectoryFilenameRoundTrip(path: string)
    requires IsAbsolute(path) && path != "/"
    ensures GetDirectory(path).Ok?
    ensures GetDirectory(path).value + "/" + GetFilename(path) == path
  {
    var i := LastIndexOf(path, '/');
    assert path[..i] + [path[i]] + path[i + 1..] == path;
  }

  /**
   * A path with one segment (`/path.md`) has the empty string as its
   * directory, not `/`.
   */
  lemma {:induction false} OneSegmentDirectoryIsEmpty(path: string)
    requires IsAbsolute(path)
    requires forall k :: 1 <= k < |path| ==> path[k] != '/'
    ensures path != "/" ==> GetDirectory(path) == Ok("")
  {
  }

  /** When the child starts with the old parent, the rewrite is the new parent plus the unchanged rest. */
  lemma {:induction false} NewChildPathOfPrefix(oldChildPath: string, oldParentPath: string, newParentPath: string)
    requires oldParentPath <= oldChildPath
    ensures NewChildPath(oldChildPath, oldParentPath, newParentPath) ==
            newParentPath + oldChildPath[|oldParentPath|..]
  {
    assert FirstOccurrence(oldChildPath, oldParentPath, 0);
    assert oldChildPath[..0] == [];
  }

  /** The rewrite is not anchored: an occurrence in the middle of the child is replaced too. */
  lemma {:induction false} NewChildPathIsNotAnchored()
    ensures NewChildPath("/a/foo", "/foo", "/bar") == "/a/bar"
  {
    var c, o := "/a/foo", "/foo";
    assert !OccursAt(c, o, 0) by { assert c[1] != o[1]; }
    assert !OccursAt(c, o, 1) by { assert c[1] != o[0]; }
    assert OccursAt(c, o, 2) by { assert c[2..6] == o; }
  }

  /** A path is contained in its own directory (for a one-segment path, in `""`). */
  lemma {:induction false} ContainsOwnDirectory(path: string)
    requires IsAbsolute(path) && path != "/"
    ensures Contains(GetDirectory(path).value, path)
  {
    var d := GetDirectory(path).value;
    DirectoryFilenameRoundTrip(path);
    assert path[..|d| + 1] == d + "/";
  }

  /** Renaming an ancestor keeps each contained path contained in the renamed ancestor. */
  lemma {:induction false} NewChildPathKeepsContainment(child: string, oldParent: string, newParent: string)
    requires Contains(oldParent, child)
    ensures Contains(newParent, NewChildPath(child, oldParent, newParent))
  {
    if child == oldParent {
      NewChildPathOfPrefix(child, oldParent, newParent);
      assert child[|oldParent|..] == [];
    } else {
      var n := |oldParent|;
      assert child[..n] == (oldParent + "/")[..n];
      assert oldParent <= child;
      NewChildPathOfPrefix(child, oldParent, newParent);
      var rest := child[n..];
      assert rest[0] == '/' by { assert child[n] == (oldParent + "/")[n]; }
      var r := newParent + rest;
      assert r[..|newParent| + 1] == newParent + [rest[0]];
    }
  }
}
