/**
 * The IndexedDB object store `nodes` (keyPath `path`, non-unique index
 * `directory`) as the filesystem sees it. Each `store()` call in lib/fs.js
 * opens its own transaction, so each get, add, put and delete below is one
 * atomic step on the map, and nothing makes a sequence of them atomic.
 */
module NodeStore {
  import opened Wrappers

  datatype NodeType = File | Directory

  /** A stored record: `{path, directory, nodeType, data}`. Directories carry no `data`. */
  datatype Node = Node(path: string, directory: Option<string>, nodeType: NodeType, data: Option<string>)

  /** The record seeded when the database is created: the root directory, whose `directory` is null. */
  const RootNode := Node("/", None, Directory, None)

  /** The rejection of an `add` whose key is already taken (IndexedDB's `ConstraintError`). */
  const ConstraintError := "ConstraintError"

  /** The keys the `directory` index holds: every record whose `directory` is a valid key (not null). */
  function IndexedKeys(nodes: map<string, Node>): set<string>
  {
    set k | k in nodes && nodes[k].directory.Some?
  }

  /**
   * `all` is what draining an unranged cursor over the `directory` index can
   * yield: each indexed record exactly once, in an order left unspecified.
   */
  ghost predicate IsIndexListing(nodes: map<string, Node>, all: seq<Node>)
  {
    && (forall i :: 0 <= i < |all| ==> all[i].path in nodes && nodes[all[i].path] == all[i] && all[i].directory.Some?)
    && (forall i, j :: 0 <= i < j < |all| ==> all[i].path != all[j].path)
    && (forall k :: k in IndexedKeys(nodes) ==> exists i :: 0 <= i < |all| && all[i].path == k)
  }

  class Store {
    var nodes: map<string, Node>

    /** The keyPath is `path`: every record is filed under its own path. */
    ghost predicate Valid()
      reads this
    {
      forall k :: k in nodes ==> nodes[k].path == k
    }

    /** A freshly created database holds only the root directory. */
    constructor ()
      ensures Valid()
      ensures nodes == map["/" := RootNode]
    {
      nodes := map["/" := RootNode];
    }

    /** `get(key)`: the record filed under `key`, if any. */
    method Get(key: string) returns (n: Option<Node>)
      ensures n.Some? <==> key in nodes
      ensures n.Some? ==> n.value == nodes[key]
    {
      n := if key in nodes then Some(nodes[key]) else None;
    }

    /** `add(node)`: inserts `node` under its path; rejects when that key is taken. */
    method Add(node: Node) returns (r: Result<()>)
      requires Valid()
      modifies this
      ensures Valid()
      ensures old(node.path in nodes) ==> r == Err(ConstraintError) && nodes == old(nodes)
      ensures old(node.path !in nodes) ==> r == Ok(()) && nodes == old(nodes)[node.path := node]
    {
      if node.path in nodes {
        r := Err(ConstraintError);
      } else {
        nodes := nodes[node.path := node];
        r := Ok(());
      }
    }

    /** `put(node)`: inserts or replaces the record under the node's path. */
    method Put(node: Node)
      requires Valid()
      modifies this
      ensures Valid()
      ensures nodes == old(nodes)[node.path := node]
    {
      nodes := nodes[node.path := node];
    }

    /** `delete(key)`: removes the record under `key`, if any. */
    method Delete(key: string)
      requires Valid()
      modifies this
      ensures Valid()
      ensures nodes == old(nodes) - {key}
    {
      nodes := nodes - {key};
    }

    /**
     * `indexGetAll(index, options)`: opens a cursor over the whole
     * `directory` index (the `options` and their key range are never read)
     * and collects every record it visits.
     */
    method IndexGetAll() returns (all: seq<Node>)
      requires Valid()
      ensures IsIndexListing(nodes, all)
    {
      all := [];
      var pending := IndexedKeys(nodes);
      while pending != {}
        invariant pending <= IndexedKeys(nodes)
        invariant forall i :: 0 <= i < |all| ==>
          all[i].path in nodes && nodes[all[i].path] == all[i] && all[i].directory.Some? && all[i].path !in pending
        invariant forall i, j :: 0 <= i < j < |all| ==> all[i].path != all[j].path
        invariant forall k :: k in IndexedKeys(nodes) ==> k in pending || exists i :: 0 <= i < |all| && all[i].path == k
        decreases pending
      {
        var k :| k in pending;
        ghost var before := all;
        all := all + [nodes[k]];
        pending := pending - {k};
        forall k' | k' in IndexedKeys(nodes) && k' !in pending
          ensures exists i :: 0 <= i < |all| && all[i].path == k'
        {
          if k' == k {
            assert all[|before|].path == k';
          } else {
            var i :| 0 <= i < |before| && before[i].path == k';
            assert all[i].path == k';
          }
        }
      }
    }
  }

  /** Every indexed record appears in the listing, exactly once, and nothing else does. */
  lemma {:induction false} IndexListingSize(nodes: map<string, Node>, all: seq<Node>)
    requires IsIndexListing(nodes, all)
    ensures |all| == |IndexedKeys(nodes)|
    decreases |all|
  {
    if |all| > 0 {
      var last := all[|all| - 1];
      var front := all[..|all| - 1];
      var rest := nodes - {last.path};
      assert IsIndexListing(rest, front) by {
        forall k | k in IndexedKeys(rest)
          ensures exists i :: 0 <= i < |front| && front[i].path == k
        {
          assert k in IndexedKeys(nodes);
          var i :| 0 <= i < |all| && all[i].path == k;
          assert i != |all| - 1;
          assert front[i].path == k;
        }
      }
      IndexListingSize(rest, front);
      assert IndexedKeys(rest) == IndexedKeys(nodes) - {last.path};
    } else {
      assert forall k :: k !in IndexedKeys(nodes);
      assert IndexedKeys(nodes) == {};
    }
  }
}
