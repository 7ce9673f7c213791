# wbfs core in Dafny

A model of the core of wbfs, a filesystem kept in an IndexedDB object store
named `nodes`. Each record is a node `{path, directory, nodeType, data}`.
`path` is the key. A second index is kept on `directory`. The model has three
parts:

- **Path utilities** (`fspath.dfy`, module `FsPath`): pure functions for
  `getDirectory`, `getFilename` and `newChildPath`, written with JavaScript's
  `indexOf`, `lastIndexOf`, `substring` and `replace`. It also has the
  predicate `contains`, which the watcher calls but `lib/fspath.js` does not
  define. Its body is the reading that the unit test
  test/unit/fspath_test.js:5-8 exercises, and it is marked as not in the
  source.
- **Node store** (`nodestore.dfy`, module `NodeStore`): the object store is a
  class holding `nodes: map<string, Node>`. Each `get`, `add`, `put` and
  `delete` is one atomic step. `add` rejects with `ConstraintError` when the
  key is taken. `put` inserts or replaces. A new store holds only the root
  record `{path: "/", directory: null, nodeType: "directory"}`. The index query is
  `IndexGetAll`. It never reads its options and drains an unranged cursor, so
  it returns every record whose `directory` is not null, each exactly once.
  The order is left unspecified: the loop picks the next key with `:|`.
- **Tree engine** (`fs.dfy`, module `Fs`): `mkdir`, `readdir`, `readFile`,
  `writeFile` and the recursive `rename`. Each one is a method that calls the
  store step by step, with the source's exact message strings. The methods
  for `readFile`, `writeFile` and `mkdir` are proved equal to functions of
  the store (`ReadFileResult`, `WriteFileOutcome`, `MkdirOutcome`). Lemmas
  then prove what those functions promise.
- **Watcher** (`fswatcher.dfy`, module `FsWatcher`): the `FSWatcher` class. It
  has the fields `fs`, `filename` and `recursive`. The listener callback is
  foreign code, so only whether there is one is kept, in `hasListener`. It registers its
  `change` and `rename` handlers on an event source and removes them on
  `close`. It filters what it hears with `_includes`. The EventEmitter2
  source is a small `EventSource` class that holds the sets of subscribed
  watchers and has a dispatch loop. Each watcher records what it emits in a
  ghost `emitted: seq<Event>`, and what it passes to its listener in `heard`.
- `scenarios.dfy` (module `Scenarios`) states, for concrete stores and
  watchers, the outcomes the model gives to the integration tests' sequences
  of calls.

Where the code and its tests disagree, the model follows the code:

- `getDirectory("/path.md")` is `""`, not `/` as the unit test expects.
  A one-segment path is cut before its only slash.
- `newChildPath` replaces the first occurrence of the old parent anywhere in
  the child path. It is not an anchored prefix rewrite.
- `readdir` lists the names of all indexed records (every record but the
  root), not only the children of the directory asked for. A new directory
  lists itself.
- `mkdir` and `writeFile` never check that the parent exists or is a
  directory.
- Renaming a directory never fulfils. After the `add`, the record now at
  `newPath` is a directory and is itself among the "children" the unfiltered
  index query returns. So the recursion either rejects or goes on without end.
  The model proves that only a file rename can fulfil.
- `rename` deletes the old record before it computes the new parent and adds
  the new record. So an invalid or occupied `newPath` loses the node.

## Model

| member | source | states |
|---|---|---|
| `FsPath.LastIndexOf` | lib/fspath.js:11 | the index of the last occurrence of the character, or -1; no occurrence after it |
| `FsPath.IndexOfFrom` | lib/fspath.js:19 | for a start index within the string: the first index at or after it at which the substring occurs, or -1; no occurrence before it |
| `FsPath.IndexOf` | lib/fspath.js:19 | the first index at which the substring occurs, or -1 when it occurs nowhere |
| `FsPath.IsAbsoluteIsIndexOfCheck` | lib/fspath.js:3 | the absolute-path test `path.indexOf('/') === 0` holds exactly when the path starts with a slash |
| `FsPath.GetDirectory` | lib/fspath.js:2-12 | rejects "`<path>` is not an absolute path" unless the path starts with `/`; rejects "/ is the top-level directory" for `/`; succeeds exactly otherwise, with the prefix before the last slash, strictly shorter than the path |
| `FsPath.GetFilename` | lib/fspath.js:14-16 | a suffix of the path that contains no slash and is preceded by a slash when shorter than the path |
| `FsPath.NewChildPath` | lib/fspath.js:18-20 | the child path unchanged when the old parent occurs nowhere in it; otherwise its first occurrence replaced by the new parent |
| `FsPath.Contains` | test/unit/fspath_test.js:5-8 | a path contains itself and the paths below it: a contained path starts with the ancestor, followed by a slash unless it is the ancestor |
| `FsPath.DirectoryFilenameRoundTrip` | lib/fspath.js:11-15 | for every absolute path other than `/`: directory + "/" + filename is the path |
| `FsPath.OneSegmentDirectoryIsEmpty` | lib/fspath.js:11 | a one-segment path such as `/path.md` has `""` as directory (the unit test at test/unit/fspath_test.js:14-16 expects `/`) |
| `FsPath.NewChildPathOfPrefix` | lib/fspath.js:19 | when the child starts with the old parent, the result is the new parent followed by the unchanged remainder |
| `FsPath.NewChildPathIsNotAnchored` | lib/fspath.js:19 | an occurrence in the middle is rewritten: `/a/foo` with `/foo` → `/bar` gives `/a/bar` |
| `FsPath.ContainsOwnDirectory` | lib/fspath.js:11 | a non-root absolute path lies within its directory in the sense of `contains` (a one-segment path lies within `""`) |
| `FsPath.NewChildPathKeepsContainment` | lib/fspath.js:19 | a path within the old parent is rewritten to a path within the new parent |
| `NodeStore.Store.constructor` | lib/idb.js:16-20 | a new store holds only the root record, with null `directory` and type directory |
| `NodeStore.Store.Get` | lib/fs.js:213-217 | finds a record exactly when its key is present, and returns that record |
| `NodeStore.Store.Add` | lib/fs.js:213-217 | rejects `ConstraintError` with no change on a taken key; otherwise inserts the record under its path |
| `NodeStore.Store.Put` | lib/fs.js:213-217 | inserts or replaces the record under its path |
| `NodeStore.Store.Delete` | lib/fs.js:213-217 | removes the key and nothing else |
| `NodeStore.Store.IndexGetAll` | lib/index_get_all.js:2-18 | returns every indexed record exactly once, as stored, whatever the requested range |
| `NodeStore.IndexListingSize` | lib/index_get_all.js:2-18 | a listing has exactly as many entries as the index has keys |
| `Fs.Filenames` | lib/fs.js:132 | one name per record, in order: the segment after the last slash of that record's path (a slash-free suffix preceded by a slash) |
| `Fs.ReadFile` | lib/fs.js:159-173 | equals `ReadFileResult`: "`<p>`: No such file or directory" when absent, "`<p>`: Is a directory" on a directory, else the file's data; the store is not modified |
| `Fs.WriteFile` | lib/fs.js:175-201 | the result and new store are those of `WriteFileOutcome` on the old store; consistency is kept |
| `Fs.Mkdir` | lib/fs.js:96-113 | the result and new store are those of `MkdirOutcome` on the old store; consistency is kept |
| `Fs.Readdir` | lib/fs.js:115-134 | "No such file or directory" when absent; "Not a directory" on a file; otherwise the filenames of an index listing, in the listing's order and of its length; the store is not modified |
| `Fs.Rename` | lib/fs.js:10-47 | an absent old path rejects "`<old>`: No such file or directory" with no change; the old record is deleted first, so an invalid or occupied new path rejects and loses it; a file moves to the new path with the same type and data and `directory = getDirectory(newPath)`; only a file rename can fulfil |
| `Fs.InitialStoreIsConsistent` | lib/idb.js:16-20 | the seeded store keeps the invariant the operations preserve |
| `Fs.ReadFileAfterWriteFile` | lib/fs.js:159-198 | after a successful `writeFile`, `readFile` of that path returns the new data; reads of other paths are unchanged; consistency is kept |
| `Fs.WriteFileOnDirectoryRejects` | lib/fs.js:178-182 | `writeFile` on a directory rejects "`<p>`: Is a directory" and leaves the store as it was |
| `Fs.WriteFileOverwritesOnlyData` | lib/fs.js:183-188 | `writeFile` on a file changes only that record's data; its other fields and every other record are unchanged |
| `Fs.WriteFileCreatesOneFile` | lib/fs.js:191-198 | `writeFile` on an absent path succeeds exactly for absolute non-root paths, with no parent check, inserting exactly one file record with `directory = getDirectory(path)` |
| `Fs.MkdirOnExistingRejects` | lib/fs.js:99-102 | `mkdir` on any taken key rejects "Cannot create directory `<p>`: File exists" with no change |
| `Fs.MkdirCreatesOneDirectory` | lib/fs.js:104-110 | `mkdir` succeeds exactly on absent, absolute, non-root paths and adds exactly one directory record with `directory = getDirectory(path)`; failures change nothing |
| `Fs.MkdirWithoutParentSucceeds` | lib/fs.js:96-113 | `mkdir('/foo/bar.txt')` on a fresh store succeeds (test/integration/wbfs_test.js:133-139 expects a rejection) |
| `Fs.ReaddirListsEveryNonRootRecord` | lib/fs.js:127-132 | a successful `readdir` returns one name per indexed record, including the name of every record but the root, whichever directory was asked for |
| `FsWatcher.Truthy` | lib/fswatcher.js:15 | `!!v` is false exactly for `undefined`, `null`, `false`, `0` and `""` |
| `FsWatcher.Watcher.constructor` | lib/fswatcher.js:11-21 | `recursive` is the truthiness of `options.recursive`; exactly this watcher is added to the `change` and `rename` subscribers of `fs` |
| `FsWatcher.Watcher.Includes` | lib/fswatcher.js:48-51 | a path the watcher includes is one `contains` places under the watched path |
| `FsWatcher.Watcher.Close` | lib/fswatcher.js:27-30 | removes this watcher's two subscriptions and no others |
| `FsWatcher.Watcher.OnChange` | lib/fswatcher.js:32-38 | when `_includes(f)` holds, emits `change` with `{filename: f}` and passes the same details to the listener if there is one; otherwise nothing |
| `FsWatcher.Watcher.OnRename` | lib/fswatcher.js:40-46 | filters on the old name only and passes `{oldName, newName}` to the emitter and to the listener alike |
| `FsWatcher.EventSource.constructor` | lib/fswatcher.js:18-20 | a new event source has no `change` or `rename` subscribers |
| `FsWatcher.EventSource.EmitChange` | lib/fswatcher.js:18 | every subscribed watcher's `change` handler runs once; unsubscribed watchers are untouched |
| `FsWatcher.EventSource.EmitRename` | lib/fswatcher.js:20 | every subscribed watcher's `rename` handler runs once; unsubscribed watchers are untouched |
| `FsWatcher.IncludesWatchedPath` | lib/fswatcher.js:48-51 | `_includes` holds for the watched path itself, recursive or not |
| `FsWatcher.NonRecursiveMatchesExactly` | lib/fswatcher.js:48-51 | a non-recursive watcher includes a path exactly when it equals the watched path |
| `FsWatcher.RecursiveMatchesContained` | lib/fswatcher.js:48-51 | a recursive watcher includes exactly the paths that `contains` places under the watched path |
| `Scenarios.WriteThenRenameFile` | test/integration/wbfs_test.js:23-34 | `writeFile` then `rename` of a file: the new path reads the data, the old one rejects "No such file or directory" |
| `Scenarios.DirectoryRenameNeverFulfils` | test/integration/wbfs_test.js:36-46 | after `mkdir('/foo')`, `rename('/foo', '/bar')` never fulfils, in contrast to what the test expects |
| `Scenarios.ReaddirOfNewDirectoryListsItself` | lib/fs.js:127-132 | after `mkdir('/foo')` on a fresh store, `readdir('/foo')` returns `["foo"]` |
| `Scenarios.RenameReachesFileAndRecursiveWatchers` | test/integration/wbfs_test.js:300-314 | a rename event for `/foo/bar` reaches the recursive `/foo` watcher and the `/foo/bar` watcher with the same details |
| `Scenarios.CloseStopsWatcher` | test/integration/wbfs_test.js:376-386 | after `close`, a watcher emits nothing for a later change, and the other watcher still does |

## Left out

- Non-string arguments to `getDirectory` (lib/fspath.js:3): the model is typed, so every path is a string. Only the "does not start with `/`" half of that check is modelled.
- FsPath.NewChildPath: `$` patterns in the replacement string (`$&`, `$$`, …) are not interpreted. The new parent path is inserted literally.
- Fs.Rename: the children are renamed one after another, and the loop stops at the first child that does not fulfil. The source starts them all at once with `Promise.all`, and interleavings are not modelled.
- Fs.Rename: the recursion takes a `fuel` bound. When it runs out, the result is `Pending`. For a directory whose new record was added, the contract states only that the rename does not fulfil. It does not state which rejection or which partial move results.
- Connection handling in lib/idb.js (open, close, schema creation, `shutdown`): this is IndexedDB I/O. Only the root seed is modelled, as the initial store.
- lib/create_dom_promise.js, index.js and the `co` generators: promise and proxy plumbing. Each store call is a synchronous atomic step instead.
- Store failures other than a key collision (lost connection, exceeded quota): these come from the foreign store.
- Concurrent top-level calls that interleave at store steps are not modelled.
- The unimplemented `ftruncate`, `truncate`, `stat`, `lstat`, `fstat`, `link`, `symlink`, `readlink`, `realpath`, `unlink`, `rmdir`, `open`, `utimes`, `futimes`, `fsync`, `write` and `appendFile` (lib/fs.js:49-91, 139-157, 203-205) have no behaviour. The tests for `unlink`, `rmdir`, `appendFile` and `watch`, and for parent checks, describe behaviour the code lacks.
- lib/fs.js has no `watch` export and emits no events. So the event source is driven only by its own `EmitChange`/`EmitRename`, never by a filesystem operation.
- `Stats` (lib/stats is not part of this model) and `debug` logging: they have no semantics here.
- EventEmitter2 internals: the model keeps a set of subscribed watchers per event, not an ordered listener array. It has no wildcard or `newListener` behaviour.
- The listener callback is foreign code. A call to it is recorded in `heard` and has no other modelled effect.
- Truthiness of `options.recursive` covers `undefined`, `null`, booleans, integers, strings and objects. Floating-point numbers and `NaN` are left out.
- FsWatcher.Watcher.Includes: the recursive branch calls `fspath.contains`, which lib/fspath.js does not export, so in the code as written it throws a TypeError. The model uses the declared `FsPath.Contains` instead, and `Scenarios.RenameReachesFileAndRecursiveWatchers` and `Scenarios.CloseStopsWatcher` depend on that body.
- FsWatcher.Watcher.constructor: it takes the value of `options.recursive` directly. The TypeError the source throws when `options` itself is `undefined` or `null` (lib/fswatcher.js:15) is not modelled.
- FsPath.IndexOfFrom: requires the start index to lie within the string. JavaScript's clamping of a larger start to the length is not modelled, because lib/fspath.js only ever starts at 0 (through `replace`).
- NodeStore.Store.IndexGetAll: IndexedDB walks the `directory` index in (index key, primary key) order, and the `readdir` test at test/integration/wbfs_test.js:174-184 relies on that order. The model does not fix the order: the loop picks the next key with `:|`, so every statement about a listing holds whatever order it has.
