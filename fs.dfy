/**
 * The filesystem operations of lib/fs.js over the node store. Every
 * operation is a short sequence of separate store steps (get, then add, put
 * or delete); the model runs them one after another and models no
 * interleaving with other calls.
 */
module Fs {
  import opened Wrappers
  import FsPath
  import opened NodeStore

  /**
   * What the operations below keep true of the store: only the root may have
   * a null `directory`, and every file carries `data`.
   */
  ghost predicate Consistent(nodes: map<string, Node>)
  {
    forall k :: k in nodes ==>
      (nodes[k].directory.None? ==> k == "/") && (nodes[k].nodeType == File ==> nodes[k].data.Some?)
  }

  /** The settled result of an operation together with the store it leaves behind. */
  datatype Outcome<T> = Outcome(result: Result<T>, nodes: map<string, Node>)

  /**
   * How a `rename` promise stands: fulfilled, rejected with a reason, or still
   * pending when the recursion bound of the model runs out.
   */
  datatype Settlement = Fulfilled | Rejected(reason: string) | Pending

  // ---------------------------------------------------------------------------
  // Specifications of the single-node operations, as functions of the store.
  // ---------------------------------------------------------------------------

  /** `readFile(filename)` on the given store. */
  function ReadFileResult(nodes: map<string, Node>, filename: string): (r: Result<string>)
    requires Consistent(nodes)
  {
    if filename !in nodes then Err(filename + ": No such file or directory")
    else if nodes[filename].nodeType == Directory then Err(filename + ": Is a directory")
    else Ok(nodes[filename].data.value)
  }

  /** `writeFile(filename, data)` on the given store. */
  function WriteFileOutcome(nodes: map<string, Node>, filename: string, data: string): (o: Outcome<()>)
  {
    if filename in nodes then
      if nodes[filename].nodeType == Directory then Outcome(Err(filename + ": Is a directory"), nodes)
      else Outcome(Ok(()), nodes[filename := nodes[filename].(data := Some(data))])
    else
      match FsPath.GetDirectory(filename)
      case Err(m) => Outcome(Err(m), nodes)
      case Ok(d) => Outcome(Ok(()), nodes[filename := Node(filename, Some(d), File, Some(data))])
  }

  /** `mkdir(path)` on the given store. */
  function MkdirOutcome(nodes: map<string, Node>, path: string): (o: Outcome<()>)
  {
    if path in nodes then Outcome(Err("Cannot create directory " + path + ": File exists"), nodes)
    else
      match FsPath.GetDirectory(path)
      case Err(m) => Outcome(Err(m), nodes)
      case Ok(d) => Outcome(Ok(()), nodes[path := Node(path, Some(d), Directory, None)])
  }

  /** `files.map(file => getFilename(file.path))`: one slash-free name per file, in the same order. */
  function Filenames(files: seq<Node>): (names: seq<string>)
    ensures |names| == |files|
    ensures forall i :: 0 <= i < |names| ==>
      && |names[i]| <= |files[i].path|
      && names[i] == files[i].path[|files[i].path| - |names[i]|..]
      && '/' !in names[i]
      && (|names[i]| < |files[i].path| ==> files[i].path[|files[i].path| - |names[i]| - 1] == '/')
  {
    seq(|files|, i requires 0 <= i < |files| => FsPath.GetFilename(files[i].path))
  }

  // ---------------------------------------------------------------------------
  // The operations, step by step on the store.
  // ---------------------------------------------------------------------------

  /** `readFile(filename)`: one `get`; the store is only read. */
  method ReadFile(db: Store, filename: string) returns (r: Result<string>)
    requires db.Valid() && Consistent(db.nodes)
    ensures r == ReadFileResult(db.nodes, filename)
  {
    var node := db.Get(filename);
    if node.None? {
      return Err(filename + ": No such file or directory");
    }
    if node.value.nodeType == Directory {
      return Err(filename + ": Is a directory");
    }
    r := Ok(node.value.data.value);
  }

  /** `writeFile(filename, data)`: a `get`, then a `put` of the updated record or an `add` of a new one. */
  method WriteFile(db: Store, filename: string, data: string) returns (r: Result<()>)
    requires db.Valid() && Consistent(db.nodes)
    modifies db
    ensures db.Valid() && Consistent(db.nodes)
    ensures Outcome(r, db.nodes) == WriteFileOutcome(old(db.nodes), filename, data)
  {
    var node := db.Get(filename);
    if node.Some? {
      if node.value.nodeType == Directory {
        return Err(filename + ": Is a directory");
      }
      var updated := node.value.(data := Some(data));
      db.Put(updated);
      return Ok(());
    }
    var directory := FsPath.GetDirectory(filename);
    if directory.Err? {
      return Err(directory.message);
    }
    var file := Node(filename, Some(directory.value), File, Some(data));
    r := db.Add(file);
  }

  /** `mkdir(path)`: a `get`, then an `add` of the new directory record. */
  method Mkdir(db: Store, path: string) returns (r: Result<()>)
    requires db.Valid() && Consistent(db.nodes)
    modifies db
    ensures db.Valid() && Consistent(db.nodes)
    ensures Outcome(r, db.nodes) == MkdirOutcome(old(db.nodes), path)
  {
    var node := db.Get(path);
    if node.Some? {
      return Err("Cannot create directory " + path + ": File exists");
    }
    var directory := FsPath.GetDirectory(path);
    if directory.Err? {
      return Err(directory.message);
    }
    var dir := Node(path, Some(directory.value), Directory, None);
    r := db.Add(dir);
  }

  /**
   * `readdir(path)`: a `get`, then the index query, whose key range is
   * ignored, so the names of all indexed records come back, not only the
   * children of `path`. The store is only read.
   */
  method Readdir(db: Store, path: string) returns (r: Result<seq<string>>)
    requires db.Valid()
    ensures path !in db.nodes ==> r == Err(path + ": No such file or directory")
    ensures path in db.nodes && db.nodes[path].nodeType != Directory ==> r == Err(path + ": Not a directory")
    ensures path in db.nodes && db.nodes[path].nodeType == Directory ==>
      r.Ok? && exists files :: IsIndexListing(db.nodes, files) && r.value == Filenames(files)
  {
    var dir := db.Get(path);
    if dir.None? {
      return Err(path + ": No such file or directory");
    }
    if dir.value.nodeType != Directory {
      return Err(path + ": Not a directory");
    }
    var files := db.IndexGetAll();
    r := Ok(Filenames(files));
  }

  /**
   * `rename(oldPath, newPath)`: a `get`, a `delete` of the old record, then an
   * `add` of it under `newPath`; a directory then renames, one after another,
   * every record the index query returns. `fuel` bounds the depth of that
   * recursion; a run that exceeds it is `Pending`.
   */
  method Rename(db: Store, oldPath: string, newPath: string, fuel: nat) returns (r: Settlement)
    requires db.Valid() && Consistent(db.nodes)
    modifies db
    decreases fuel
    ensures db.Valid() && Consistent(db.nodes)
    ensures fuel == 0 ==> r == Pending && db.nodes == old(db.nodes)
    // A missing old path rejects and changes nothing.
    ensures fuel > 0 && oldPath !in old(db.nodes) ==>
      r == Rejected(oldPath + ": No such file or directory") && db.nodes == old(db.nodes)
    // The delete comes first: an invalid new path loses the record.
    ensures fuel > 0 && oldPath in old(db.nodes) && FsPath.GetDirectory(newPath).Err? ==>
      r == Rejected(FsPath.GetDirectory(newPath).message) && db.nodes == old(db.nodes) - {oldPath}
    // ... and so does an occupied one.
    ensures fuel > 0 && oldPath in old(db.nodes) && FsPath.GetDirectory(newPath).Ok? &&
            newPath in old(db.nodes) - {oldPath} ==>
      r == Rejected(ConstraintError) && db.nodes == old(db.nodes) - {oldPath}
    // A file moves: gone from the old path, same type and data at the new one.
    ensures fuel > 0 && oldPath in old(db.nodes) && old(db.nodes)[oldPath].nodeType == File &&
            FsPath.GetDirectory(newPath).Ok? && newPath !in old(db.nodes) - {oldPath} ==>
      r == Fulfilled &&
      db.nodes == (old(db.nodes) - {oldPath})[newPath := old(db.nodes)[oldPath].(path := newPath, directory := Some(FsPath.GetDirectory(newPath).value))]
    // Only a file rename can fulfil: a directory's own new record is among its listed "children".
    ensures r == Fulfilled ==> oldPath in old(db.nodes) && old(db.nodes)[oldPath].nodeType == File
  {
    if fuel == 0 {
      return Pending;
    }
    var found := db.Get(oldPath);
    if found.None? {
      return Rejected(oldPath + ": No such file or directory");
    }
    var node := found.value;
    db.Delete(node.path);
    var directory := FsPath.GetDirectory(newPath);
    if directory.Err? {
      return Rejected(directory.message);
    }
    node := node.(directory := Some(directory.value), path := newPath);
    var added := db.Add(node);
    if added.Err? {
      return Rejected(added.message);
    }
    if node.nodeType != Directory {
      return Fulfilled;
    }

    var children := db.IndexGetAll();
    assert newPath in IndexedKeys(db.nodes);
    ghost var self :| 0 <= self < |children| && children[self].path == newPath;
    var i := 0;
    while i < |children|
      invariant 0 <= i <= self
      invariant db.Valid() && Consistent(db.nodes)
      invariant newPath in db.nodes && db.nodes[newPath].nodeType == Directory
    {
      var child := children[i];
      var settled := Rename(db, child.path, FsPath.NewChildPath(child.path, oldPath, newPath), fuel - 1);
      if settled != Fulfilled {
        return settled;
      }
      i := i + 1;
    }
    // The entry for newPath itself is a directory rename, which never fulfils.
    assert false;
    r := Fulfilled;
  }

  // ---------------------------------------------------------------------------
  // Properties of the specifications.
  // ---------------------------------------------------------------------------

  /** The initial store, holding only the root, is consistent. */
  lemma InitialStoreIsConsistent()
    ensures Consistent(map["/" := RootNode])
  {
  }

  /**
   * `readFile` after a successful `writeFile` of the same path returns the
   * new data, and reads of every other path are as before.
   */
  lemma {:induction false} ReadFileAfterWriteFile(nodes: map<string, Node>, filename: string, data: string, other: string)
    requires Consistent(nodes)
    ensures Consistent(WriteFileOutcome(nodes, filename, data).nodes)
    ensures WriteFileOutcome(nodes, filename, data).result.Ok? ==>
      ReadFileResult(WriteFileOutcome(nodes, filename, data).nodes, filename) == Ok(data)
    ensures other != filename ==>
      ReadFileResult(WriteFileOutcome(nodes, filename, data).nodes, other) == ReadFileResult(nodes, other)
  {
    var o := WriteFileOutcome(nodes, filename, data);
    assert forall k :: k in o.nodes && k != filename ==> k in nodes && o.nodes[k] == nodes[k];
  }

  /** `writeFile` on a directory rejects and leaves the store as it was. */
  lemma WriteFileOnDirectoryRejects(nodes: map<string, Node>, filename: string, data: string)
    requires filename in nodes && nodes[filename].nodeType == Directory
    ensures WriteFileOutcome(nodes, filename, data) == Outcome(Err(filename + ": Is a directory"), nodes)
  {
  }

  /**
   * `writeFile` on an existing file replaces that record's data and nothing
   * else: its path, directory and type stay, and every other record stays.
   */
  lemma {:induction false} WriteFileOverwritesOnlyData(nodes: map<string, Node>, filename: string, data: string)
    requires filename in nodes && nodes[filename].nodeType == File
    ensures var o := WriteFileOutcome(nodes, filename, data);
      && o.result == Ok(())
      && o.nodes.Keys == nodes.Keys
      && o.nodes[filename].data == Some(data)
      && o.nodes[filename].path == nodes[filename].path
      && o.nodes[filename].directory == nodes[filename].directory
      && o.nodes[filename].nodeType == File
      && forall k :: k in nodes && k != filename ==> o.nodes[k] == nodes[k]
  {
    var o := WriteFileOutcome(nodes, filename, data);
    assert o.nodes == nodes[filename := nodes[filename].(data := Some(data))];
  }

  /**
   * `writeFile` on an absent path succeeds exactly when the path is absolute
   * and not the root, whatever the store holds at its parent (no parent check),
   * and adds exactly one file record.
   */
  lemma {:induction false} WriteFileCreatesOneFile(nodes: map<string, Node>, filename: string, data: string)
    requires filename !in nodes
    ensures var o := WriteFileOutcome(nodes, filename, data);
      && (o.result.Ok? <==> FsPath.IsAbsolute(filename) && filename != "/")
      && (o.result.Err? ==> o.result == Err(FsPath.GetDirectory(filename).message) && o.nodes == nodes)
      && (o.result.Ok? ==>
            && o.nodes.Keys == nodes.Keys + {filename}
            && o.nodes[filename] == Node(filename, Some(FsPath.GetDirectory(filename).value), File, Some(data))
            && forall k :: k in nodes ==> o.nodes[k] == nodes[k])
  {
  }

  /**
   * `mkdir` rejects a taken path, file or directory, with "File exists" and
   * changes nothing.
   */
  lemma MkdirOnExistingRejects(nodes: map<string, Node>, path: string)
    requires path in nodes
    ensures MkdirOutcome(nodes, path) == Outcome(Err("Cannot create directory " + path + ": File exists"), nodes)
  {
  }

  /**
   * `mkdir` succeeds exactly on an absent, absolute, non-root path, with no
   * check of the parent, and then adds exactly one directory record.
   */
  lemma {:induction false} MkdirCreatesOneDirectory(nodes: map<string, Node>, path: string)
    requires Consistent(nodes)
    ensures var o := MkdirOutcome(nodes, path);
      && Consistent(o.nodes)
      && (o.result.Ok? <==> path !in nodes && FsPath.IsAbsolute(path) && path != "/")
      && (o.result.Err? ==> o.nodes == nodes)
      && (o.result.Ok? ==>
            && o.nodes.Keys == nodes.Keys + {path}
            && o.nodes[path] == Node(path, Some(FsPath.GetDirectory(path).value), Directory, None)
            && forall k :: k in nodes ==> o.nodes[k] == nodes[k])
  {
  }

  /** `mkdir` of `/foo/bar.txt` on the initial store succeeds although `/foo` does not exist. */
  lemma MkdirWithoutParentSucceeds()
    ensures MkdirOutcome(map["/" := RootNode], "/foo/bar.txt").result == Ok(())
  {
  }

  /**
   * A successful `readdir` returns one name per indexed record, which under
   * consistency is every record but the root, whatever directory was asked for.
   */
  lemma {:induction false} ReaddirListsEveryNonRootRecord(nodes: map<string, Node>, files: seq<Node>)
    requires Consistent(nodes)
    requires IsIndexListing(nodes, files)
    ensures |Filenames(files)| == |IndexedKeys(nodes)|
    ensures forall k :: k in nodes && k != "/" ==> FsPath.GetFilename(k) in Filenames(files)
  {
    IndexListingSize(nodes, files);
    forall k | k in nodes && k != "/"
      ensures FsPath.GetFilename(k) in Filenames(files)
    {
      assert k in IndexedKeys(nodes);
      var i :| 0 <= i < |files| && files[i].path == k;
      assert Filenames(files)[i] == FsPath.GetFilename(k);
    }
  }
}
