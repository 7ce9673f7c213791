/**
 * The watcher of lib/fswatcher.js. A watcher subscribes its `change` and
 * `rename` handlers to an event source (`fs`), filters what it hears by
 * path, and re-emits matching events to its own subscribers and to an
 * optional listener callback. The event source, an EventEmitter2 in the
 * source, is modelled by `EventSource`: a registry of subscribed watchers
 * with a dispatch loop.
 */
module FsWatcher {
  import FsPath

  /** A JavaScript value, as far as truthiness goes. */
  datatype JsValue = Undefined | Null | Bool(b: bool) | Number(n: int) | Str(s: string) | Object

  /** `!!v`: false for `undefined`, `null`, `false`, `0` and `""`; true otherwise. */
  predicate Truthy(v: JsValue): (r: bool)
    ensures !r <==> v in {Undefined, Null, Bool(false), Number(0), Str("")}
  {
    match v
    case Undefined => false
    case Null => false
    case Bool(b) => b
    case Number(n) => n != 0
    case Str(s) => s != ""
    case Object => true
  }

  /** The payload of a `change` event (`{filename}`) or of a `rename` event (`{oldName, newName}`). */
  datatype Event = Change(filename: string) | Rename(oldName: string, newName: string)

  class Watcher {
    const fs: EventSource
    const filename: string
    const recursive: bool
    /** Whether a `listener` callback was passed (and is truthy). */
    const hasListener: bool

    /** Every event this watcher has emitted to its own subscribers, in order. */
    ghost var emitted: seq<Event>
    /** Every event passed to the listener callback, in order. */
    ghost var heard: seq<Event>

    /**
     * `new FSWatcher(fs, filename, options, listener)`: records its settings
     * and registers one `change` and one `rename` handler on `fs`.
     */
    constructor (fs: EventSource, filename: string, recursiveOption: JsValue, hasListener: bool)
      modifies fs
      ensures this.fs == fs && this.filename == filename && this.hasListener == hasListener
      ensures recursive == Truthy(recursiveOption)
      ensures emitted == [] && heard == []
      ensures fs.changeSubscribers == old(fs.changeSubscribers) + {this}
      ensures fs.renameSubscribers == old(fs.renameSubscribers) + {this}
    {
      this.fs := fs;
      this.filename := filename;
      this.recursive := Truthy(recursiveOption);
      this.hasListener := hasListener;
      emitted := [];
      heard := [];
      new;
      fs.changeSubscribers := fs.changeSubscribers + {this};
      fs.renameSubscribers := fs.renameSubscribers + {this};
    }

    /** `_includes(filename)`: the watched path itself, or, when recursive, any path it contains. */
    predicate Includes(f: string): (r: bool)
      ensures r ==> FsPath.Contains(filename, f)
    {
      f == filename || (recursive && FsPath.Contains(filename, f))
    }

    /** The events one handler call passes on: `e` when its path matches, nothing otherwise. */
    function Passes(path: string, e: Event): seq<Event>
    {
      if Includes(path) then [e] else []
    }

    /** `close()`: removes this watcher's two handlers from `fs`, and no others. */
    method Close()
      modifies fs
      ensures fs.changeSubscribers == old(fs.changeSubscribers) - {this}
      ensures fs.renameSubscribers == old(fs.renameSubscribers) - {this}
    {
      fs.changeSubscribers := fs.changeSubscribers - {this};
      fs.renameSubscribers := fs.renameSubscribers - {this};
    }

    /** `_onchange(filename)`: on a match, emits `change` with `{filename}` and calls the listener with it. */
    method OnChange(f: string)
      modifies this
      ensures emitted == old(emitted) + Passes(f, Change(f))
      ensures heard == old(heard) + (if hasListener then Passes(f, Change(f)) else [])
    {
      if Includes(f) {
        var details := Change(f);
        emitted := emitted + [details];
        if hasListener {
          heard := heard + [details];
        }
      }
    }

    /** `_onrename(oldName, newName)`: filters on `oldName` only and passes `{oldName, newName}` on. */
    method OnRename(oldName: string, newName: string)
      modifies this
      ensures emitted == old(emitted) + Passes(oldName, Rename(oldName, newName))
      ensures heard == old(heard) + (if hasListener then Passes(oldName, Rename(oldName, newName)) else [])
    {
      if Includes(oldName) {
        var details := Rename(oldName, newName);
        emitted := emitted + [details];
        if hasListener {
          heard := heard + [details];
        }
      }
    }
  }

  /** The `fs` event source: which watchers' handlers are subscribed to each event. */
  class EventSource {
    var changeSubscribers: set<Watcher>
    var renameSubscribers: set<Watcher>

    constructor ()
      ensures changeSubscribers == {} && renameSubscribers == {}
    {
      changeSubscribers := {};
      renameSubscribers := {};
    }

    /** `emit('change', f)`: calls every subscribed `change` handler once. */
    method EmitChange(f: string)
      modifies changeSubscribers
      ensures forall w :: w in changeSubscribers ==>
        && w.emitted == old(w.emitted) + w.Passes(f, Change(f))
        && w.heard == old(w.heard) + (if w.hasListener then w.Passes(f, Change(f)) else [])
    {
      var pending := changeSubscribers;
      while pending != {}
        invariant pending <= changeSubscribers
        invariant forall w :: w in changeSubscribers && w !in pending ==>
          && w.emitted == old(w.emitted) + w.Passes(f, Change(f))
          && w.heard == old(w.heard) + (if w.hasListener then w.Passes(f, Change(f)) else [])
        invariant forall w :: w in pending ==> w.emitted == old(w.emitted) && w.heard == old(w.heard)
        decreases pending
      {
        var w :| w in pending;
        w.OnChange(f);
        pending := pending - {w};
      }
    }

    /** `emit('rename', oldName, newName)`: calls every subscribed `rename` handler once. */
    method EmitRename(oldName: string, newName: string)
      modifies renameSubscribers
      ensures forall w :: w in renameSubscribers ==>
        && w.emitted == old(w.emitted) + w.Passes(oldName, Rename(oldName, newName))
        && w.heard == old(w.heard) + (if w.hasListener then w.Passes(oldName, Rename(oldName, newName)) else [])
    {
      var pending := renameSubscribers;
      while pending != {}
        invariant pending <= renameSubscribers
        invariant forall w :: w in renameSubscribers && w !in pending ==>
          && w.emitted == old(w.emitted) + w.Passes(oldName, Rename(oldName, newName))
          && w.heard == old(w.heard) + (if w.hasListener then w.Passes(oldName, Rename(oldName, newName)) else [])
        invariant forall w :: w in pending ==> w.emitted == old(w.emitted) && w.heard == old(w.heard)
        decreases pending
      {
        var w :| w in pending;
        w.OnRename(oldName, newName);
        pending := pending - {w};
      }
    }
  }

  /** A watcher always matches its own path, recursive or not. */
  lemma IncludesWatchedPath(w: Watcher)
    ensures w.Includes(w.filename)
  {
  }

  /** A non-recursive watcher matches its own path and nothing else. */
  lemma NonRecursiveMatchesExactly(w: Watcher, f: string)
    requires !w.recursive
    ensures w.Includes(f) <==> f == w.filename
  {
  }

  /** A recursive watcher matches exactly its own path and the paths below `filename + "/"`. */
  lemma RecursiveMatchesContained(w: Watcher, f: string)
    requires w.recursive
    ensures w.Includes(f) <==> FsPath.Contains(w.filename, f)
  {
  }
}
