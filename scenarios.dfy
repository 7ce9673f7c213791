/**
 * Properties of the modelled operations on concrete stores and watchers,
 * following the integration tests of the repository. Each method's
 * postcondition states what the model does in that case.
 */
module Scenarios {
  import opened Wrappers
  import FsPath
  import opened NodeStore
  import Fs
  import opened FsWatcher

  /**
   * `writeFile(file, data)` on a fresh store, `rename(file, target)`, then read
   * both paths (the test uses `/file.txt`, `yo` and `/yo.txt`).
   */
  method WriteThenRenameFile(file: string, data: string, target: string) returns (moved: Result<string>, gone: Result<string>)
    requires FsPath.IsAbsolute(file) && file != "/"
    requires FsPath.IsAbsolute(target) && target != "/" && target != file
    ensures moved == Ok(data)
    ensures gone == Err(file + ": No such file or directory")
  {
    var db := new Store();
    Fs.InitialStoreIsConsistent();
    var written := Fs.WriteFile(db, file, data);
    assert db.nodes.Keys == {"/", file};
    assert db.nodes[file].nodeType == File && db.nodes[file].data == Some(data);
    var renamed := Fs.Rename(db, file, target, 1);
    assert target in db.nodes && db.nodes[target].nodeType == File && db.nodes[target].data == Some(data);
    assert file !in db.nodes;
    moved := Fs.ReadFile(db, target);
    gone := Fs.ReadFile(db, file);
  }

  /**
   * `mkdir('/foo')` then `rename('/foo', '/bar')`: however deep the recursion
   * is allowed to go, the rename never fulfils.
   */
  method DirectoryRenameNeverFulfils(fuel: nat) returns (r: Fs.Settlement)
    ensures r != Fs.Fulfilled
  {
    var db := new Store();
    Fs.InitialStoreIsConsistent();
    var made := Fs.Mkdir(db, "/foo");
    r := Fs.Rename(db, "/foo", "/bar", fuel);
  }

  /** `mkdir('/foo')` then `readdir('/foo')`: the new directory lists itself. */
  method ReaddirOfNewDirectoryListsItself() returns (r: Result<seq<string>>)
    ensures r == Ok(["foo"])
  {
    var db := new Store();
    Fs.InitialStoreIsConsistent();
    assert FsPath.IsAbsolute("/foo") && "/foo" != "/";
    var made := Fs.Mkdir(db, "/foo");
    assert db.nodes.Keys == {"/", "/foo"} && db.nodes["/"] == RootNode && db.nodes["/foo"].directory.Some?;
    r := Fs.Readdir(db, "/foo");
    ghost var files: seq<Node> :| IsIndexListing(db.nodes, files) && r.value == Fs.Filenames(files);
    OnlyIndexedRecord(db.nodes, files, "/foo");
    FooFilename();
    FilenamesOfOne(files);
  }

  /** The name listing of a single record. */
  lemma FilenamesOfOne(files: seq<Node>)
    requires |files| == 1
    ensures Fs.Filenames(files) == [FsPath.GetFilename(files[0].path)]
  {
  }

  /** The final segment of `/foo`. */
  lemma FooFilename()
    ensures FsPath.GetFilename("/foo") == "foo"
  {
    OnlyLeadingSlash("/foo");
    assert "/foo"[1..] == "foo";
  }

  /** A path whose only slash is its first character has the rest as its final segment. */
  lemma OnlyLeadingSlash(path: string)
    requires |path| > 0 && path[0] == '/'
    requires forall k :: 0 < k < |path| ==> path[k] != '/'
    ensures FsPath.GetFilename(path) == path[1..]
  {
    assert FsPath.LastIndexOf(path, '/') == 0;
  }

  /** A store holding the root and one other record lists exactly that record. */
  lemma OnlyIndexedRecord(nodes: map<string, Node>, files: seq<Node>, p: string)
    requires IsIndexListing(nodes, files)
    requires nodes.Keys == {"/", p} && nodes["/"].directory.None? && nodes[p].directory.Some?
    ensures |files| == 1 && files[0].path == p
  {
    assert IndexedKeys(nodes) == {p};
    IndexListingSize(nodes, files);
    assert files[0].path in nodes.Keys;
  }

  /**
   * A recursive watcher on `/foo` and a watcher on `/foo/bar`: renaming
   * `/foo/bar` to `/foo/qux` reaches both with the same details.
   */
  method RenameReachesFileAndRecursiveWatchers() returns (ghost fooEvents: seq<Event>, ghost barEvents: seq<Event>)
    ensures fooEvents == barEvents == [Rename("/foo/bar", "/foo/qux")]
  {
    var fs := new EventSource();
    var foo := new Watcher(fs, "/foo", Bool(true), false);
    var bar := new Watcher(fs, "/foo/bar", Undefined, false);
    assert FsPath.Contains("/foo", "/foo/bar") by { assert "/foo/bar"[..5] == "/foo" + "/"; }
    fs.EmitRename("/foo/bar", "/foo/qux");
    fooEvents, barEvents := foo.emitted, bar.emitted;
  }

  /** After `close()`, a watcher emits nothing for later changes, while other watchers still do. */
  method CloseStopsWatcher() returns (ghost fooEvents: seq<Event>, ghost barEvents: seq<Event>)
    ensures fooEvents == [Change("/foo/bar")]
    ensures barEvents == []
  {
    var fs := new EventSource();
    var foo := new Watcher(fs, "/foo", Bool(true), true);
    var bar := new Watcher(fs, "/foo/bar", Undefined, true);
    bar.Close();
    assert FsPath.Contains("/foo", "/foo/bar") by { assert "/foo/bar"[..5] == "/foo" + "/"; }
    fs.EmitChange("/foo/bar");
    fooEvents, barEvents := foo.emitted, bar.emitted;
  }
}
