/** The executor's reconstruction of a room's tree: `buildTree` links nodes on the heap in any map
    order, `printTree` and `walkTree` traverse what hangs below the roots. */
module TreeBuilder {
  import opened Wrappers
  import opened Forest
  import opened ForestCover
  import opened FilesTable

  datatype File = File(id: FileId, row: Row)

  /** The rows by id; a later file replaces an earlier one with the same id. */
  function FileRows(files: seq<File>): Rows {
    if files == [] then map[]
    else
      var last := files[|files| - 1];
      FileRows(files[..|files| - 1])[last.id := last.row]
  }

  lemma {:induction false} IdsOfRows(files: seq<File>)
    ensures forall x :: x in FileRows(files) <==> exists i :: 0 <= i < |files| && files[i].id == x
    decreases |files|
  {
    if files != [] {
      var front := files[..|files| - 1];
      IdsOfRows(front);
      forall x | x in FileRows(front) ensures exists i :: 0 <= i < |files| && files[i].id == x {
        var i :| 0 <= i < |front| && front[i].id == x;
        assert files[i].id == x;
      }
      forall i | 0 <= i < |files| ensures files[i].id in FileRows(files) {
        if i < |front| { assert front[i].id in FileRows(front); }
      }
    }
  }

  /** The row of an id is that of the last file with it. */
  lemma {:induction false} LastFileWins(files: seq<File>, i: nat)
    requires i < |files| && forall j :: i < j < |files| ==> files[j].id != files[i].id
    ensures files[i].id in FileRows(files) && FileRows(files)[files[i].id] == files[i].row
    decreases |files|
  {
    if i < |files| - 1 {
      var front := files[..|files| - 1];
      LastFileWins(front, i);
    }
  }

  class TreeNode {
    const file: File
    var children: seq<TreeNode>

    constructor (file: File)
      ensures this.file == file && children == []
    {
      this.file := file;
      children := [];
    }
  }

  function IdSet(nodes: seq<TreeNode>): set<FileId> {
    set i | 0 <= i < |nodes| :: nodes[i].file.id
  }

  /** The list holds the nodes of `all` with these ids, each once, in some order. */
  ghost predicate Lists(all: map<FileId, TreeNode>, nodes: seq<TreeNode>, ids: set<FileId>) {
    && (forall i :: 0 <= i < |nodes| ==> nodes[i].file.id in all && all[nodes[i].file.id] == nodes[i])
    && (forall i, j :: 0 <= i < j < |nodes| ==> nodes[i].file.id != nodes[j].file.id)
    && IdSet(nodes) == ids
  }

  ghost predicate HoldsRows(rows: Rows, all: map<FileId, TreeNode>) {
    all.Keys == rows.Keys && forall x :: x in all ==> all[x].file == File(x, rows[x])
  }

  /** Every node carries exactly the rows that name it as their parent. */
  ghost predicate Linked(rows: Rows, all: map<FileId, TreeNode>)
    reads all.Values
  {
    HoldsRows(rows, all) && forall x :: x in all ==> Lists(all, all[x].children, Children(LinksOf(rows), x))
  }

  lemma ListsAppend(all: map<FileId, TreeNode>, nodes: seq<TreeNode>, ids: set<FileId>, id: FileId)
    requires Lists(all, nodes, ids) && id in all && id !in ids && all[id].file.id == id
    ensures Lists(all, nodes + [all[id]], ids + {id})
  {
    var more := nodes + [all[id]];
    forall i | 0 <= i < |nodes| ensures nodes[i].file.id != id { assert nodes[i].file.id in IdSet(nodes); }
    assert IdSet(more) == ids + {id} by {
      assert forall i :: 0 <= i < |nodes| ==> more[i] == nodes[i];
      assert more[|nodes|].file.id == id;
    }
  }

  /** All nodes outside `todo` have been placed: under their parent, or among the roots. */
  ghost predicate Placed(rows: Rows, all: map<FileId, TreeNode>, roots: seq<TreeNode>, todo: set<FileId>)
    reads all.Values
  {
    && HoldsRows(rows, all)
    && (forall x :: x in all ==> Lists(all, all[x].children, Children(LinksOf(rows), x) - todo))
    && Lists(all, roots, Roots(LinksOf(rows)) - todo)
  }

  /** The body of the second loop: puts one node under its parent, or among the roots. */
  method PlaceNode(nodeMap: map<FileId, TreeNode>, roots: seq<TreeNode>, id: FileId, ghost rows: Rows, ghost todo: set<FileId>)
    returns (roots': seq<TreeNode>)
    requires id in todo && id in nodeMap && Placed(rows, nodeMap, roots, todo)
    modifies nodeMap.Values
    ensures Placed(rows, nodeMap, roots', todo - {id})
  {
    ghost var l := LinksOf(rows);
    ghost var rest := todo - {id};
    var node := nodeMap[id];
    var p := node.file.row.parent;
    if p == None || p.value !in nodeMap {
      ListsAppend(nodeMap, roots, Roots(l) - todo, id);
      roots' := roots + [node];
      assert Roots(l) - rest == (Roots(l) - todo) + {id};
      assert forall x :: x in nodeMap ==> Children(l, x) - rest == Children(l, x) - todo;
    } else {
      roots' := roots;
      var parent := nodeMap[p.value];
      ListsAppend(nodeMap, parent.children, Children(l, p.value) - todo, id);
      parent.children := parent.children + [node];
      assert Roots(l) - rest == Roots(l) - todo;
      forall x | x in nodeMap ensures Lists(nodeMap, nodeMap[x].children, Children(l, x) - rest) {
        if x == p.value {
          assert Children(l, x) - rest == (Children(l, x) - todo) + {id};
        } else {
          assert nodeMap[x].file.id == x && nodeMap[x] != parent;
          assert Children(l, x) - rest == Children(l, x) - todo;
        }
      }
    }
  }

  method MakeNodes(files: seq<File>) returns (nodeMap: map<FileId, TreeNode>)
    ensures HoldsRows(FileRows(files), nodeMap)
    ensures forall x :: x in nodeMap ==> fresh(nodeMap[x]) && nodeMap[x].children == []
  {
    nodeMap := map[];
    for i := 0 to |files|
      invariant HoldsRows(FileRows(files[..i]), nodeMap)
      invariant forall x :: x in nodeMap ==> fresh(nodeMap[x]) && nodeMap[x].children == []
    {
      assert files[..i + 1][..i] == files[..i];
      var node := new TreeNode(files[i]);
      nodeMap := nodeMap[files[i].id := node];
    }
    assert files[..|files|] == files;
  }

  /** Builds the forest, for every order in which the map may be ranged over. */
  method BuildTree(files: seq<File>) returns (roots: seq<TreeNode>, ghost all: map<FileId, TreeNode>)
    ensures Linked(FileRows(files), all)
    ensures Lists(all, roots, Roots(LinksOf(FileRows(files))))
    ensures forall x :: x in all ==> fresh(all[x])
  {
    var nodeMap := MakeNodes(files);
    all := nodeMap;
    ghost var rows := FileRows(files);
    ghost var l := LinksOf(rows);
    roots := [];
    var todo := nodeMap.Keys;
    assert Placed(rows, nodeMap, roots, todo) by {
      assert forall x :: x in all ==> Children(l, x) - todo == {};
      assert Roots(l) - todo == {};
    }
    hide LinksOf, FileRows;
    while todo != {}
      invariant todo <= nodeMap.Keys
      invariant forall x :: x in nodeMap ==> fresh(nodeMap[x])
      invariant Placed(rows, nodeMap, roots, todo)
    {
      var id :| id in todo;
      roots := PlaceNode(nodeMap, roots, id, rows, todo);
      todo := todo - {id};
    }
    assert Roots(l) - {} == Roots(l);
    assert forall x :: x in all ==> Children(l, x) - {} == Children(l, x);
  }

  // ---- what a traversal meets --------------------------------------------------

  lemma PrefixIds(nodes: seq<TreeNode>, i: nat)
    requires i < |nodes|
    ensures IdSet(nodes[..i + 1]) == IdSet(nodes[..i]) + {nodes[i].file.id}
    ensures (forall a, b :: 0 <= a < b < |nodes| ==> nodes[a].file.id != nodes[b].file.id) ==> nodes[i].file.id !in IdSet(nodes[..i])
    ensures IdSet(nodes[..i + 1]) <= IdSet(nodes)
  {
  }

  /** Meeting the next start adds the node itself and what hangs below its children, all of it new. */
  lemma NextStart(l: Links, keep: set<FileId>, starts: set<FileId>, n: FileId, all: set<FileId>)
    requires n in l && Grounded(l, n) && n in keep && n !in starts && starts + {n} <= all && Antichain(l, all)
    ensures Cover(l, keep, Children(l, n)) < Cover(l, keep, all)
    ensures Antichain(l, Children(l, n)) && forall c :: c in Children(l, n) ==> Grounded(l, c)
    ensures multiset(Cover(l, keep, starts + {n})) ==
            multiset(Cover(l, keep, starts)) + multiset{n} + multiset(Cover(l, keep, Children(l, n)))
  {
    CoverSplit(l, keep, starts, n);
    CoverNode(l, keep, n);
    ChildrenAntichain(l, n);
    assert Cover(l, keep, {n}) <= Cover(l, keep, all);
    ReachesSelf(l, n);
    assert n in Cover(l, keep, all);
    var below := Cover(l, keep, Children(l, n));
    assert multiset({n} + below) == multiset{n} + multiset(below);
    assert multiset(Cover(l, keep, starts) + ({n} + below)) == multiset(Cover(l, keep, starts)) + multiset({n} + below);
  }

  /** Logs the whole forest below the nodes, files with children included. */
  method PrintTree(nodes: seq<TreeNode>, ghost rows: Rows, ghost all: map<FileId, TreeNode>) returns (printed: seq<FileId>)
    requires Linked(rows, all) && Lists(all, nodes, IdSet(nodes))
    requires Antichain(LinksOf(rows), IdSet(nodes))
    requires forall x :: x in IdSet(nodes) ==> Grounded(LinksOf(rows), x)
    ensures multiset(printed) == multiset(Cover(LinksOf(rows), rows.Keys, IdSet(nodes)))
    decreases Cover(LinksOf(rows), rows.Keys, IdSet(nodes))
  {
    ghost var l := LinksOf(rows);
    printed := [];
    assert Cover(l, rows.Keys, IdSet(nodes[..0])) == {};
    for i := 0 to |nodes|
      invariant multiset(printed) == multiset(Cover(l, rows.Keys, IdSet(nodes[..i])))
    {
      var node := nodes[i];
      ghost var n := node.file.id;
      PrefixIds(nodes, i);
      assert n in IdSet(nodes);
      NextStart(l, rows.Keys, IdSet(nodes[..i]), n, IdSet(nodes));
      assert Lists(all, node.children, Children(l, n));
      var below := PrintTree(node.children, rows, all);
      printed := printed + [node.file.id] + below;
    }
    assert nodes[..|nodes|] == nodes;
  }
}
