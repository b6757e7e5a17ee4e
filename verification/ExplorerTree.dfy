/** The browser's tree: `createTree` groups files by parent and `collect` turns the groups reachable
    from null into sorted nodes. */
module ExplorerTree {
  import opened Wrappers
  import opened Forest
  import opened ForestCover
  import opened FilesTable
  import opened TreeBuilder

  datatype FileNode = FileNode(file: File, children: seq<FileNode>)

  type Groups = map<Option<FileId>, seq<File>>

  predicate UniqueIds(files: seq<File>) {
    forall i, j :: 0 <= i < j < |files| ==> files[i].id != files[j].id
  }

  /** The ids whose parent field is the key. */
  function Under(rows: Rows, key: Option<FileId>): set<FileId> {
    set x | x in rows && rows[x].parent == key
  }

  // ---- sibling order ---------------------------------------------------------

  /** localeCompare(a, b) <= 0, which depends on the browser's locale. */
  type NameOrder = (string, string) -> bool

  ghost predicate TotalOrder(leq: NameOrder) {
    && (forall a, b :: leq(a, b) || leq(b, a))
    && (forall a, b, c :: leq(a, b) && leq(b, c) ==> leq(a, c))
  }

  /** For one, comparing lengths is such an order. */
  lemma LengthsAreAnOrder()
    ensures TotalOrder((a: string, b: string) => |a| <= |b|)
  {
  }

  /** Folders first, then by name. */
  predicate Before(leq: NameOrder, a: File, b: File) {
    if a.row.isFolder != b.row.isFolder then a.row.isFolder else leq(a.row.name, b.row.name)
  }

  ghost predicate Sorted(leq: NameOrder, s: seq<File>) {
    forall i, j :: 0 <= i < j < |s| ==> Before(leq, s[i], s[j])
  }

  /** Folders come before files, and within each kind names are in order. */
  ghost predicate FoldersFirst(leq: NameOrder, s: seq<File>) {
    forall i, j :: 0 <= i < j < |s| ==>
      && (s[j].row.isFolder ==> s[i].row.isFolder)
      && (s[i].row.isFolder == s[j].row.isFolder ==> leq(s[i].row.name, s[j].row.name))
  }

  function Insert(leq: NameOrder, f: File, s: seq<File>): (r: seq<File>)
    ensures multiset(r) == multiset(s) + multiset{f}
  {
    if s == [] then [f]
    else if Before(leq, f, s[0]) then [f] + s
    else
      assert s == [s[0]] + s[1..];
      [s[0]] + Insert(leq, f, s[1..])
  }

  /** Array.prototype.sort, which is stable: f comes before its equals that followed it. */
  function Sort(leq: NameOrder, s: seq<File>): (r: seq<File>)
    ensures multiset(r) == multiset(s)
  {
    if s == [] then []
    else
      assert s == [s[0]] + s[1..];
      Insert(leq, s[0], Sort(leq, s[1..]))
  }

  lemma {:induction false} InsertSorted(leq: NameOrder, f: File, s: seq<File>)
    requires TotalOrder(leq) && Sorted(leq, s)
    ensures Sorted(leq, Insert(leq, f, s))
  {
    if s != [] && !Before(leq, f, s[0]) {
      InsertSorted(leq, f, s[1..]);
      var r := Insert(leq, f, s[1..]);
      forall i | 0 <= i < |r| ensures Before(leq, s[0], r[i]) {
        assert r[i] in multiset(r);
        assert r[i] == f || r[i] in s[1..];
      }
    }
  }

  lemma {:induction false} SortSorts(leq: NameOrder, s: seq<File>)
    requires TotalOrder(leq)
    ensures Sorted(leq, Sort(leq, s)) && FoldersFirst(leq, Sort(leq, s))
  {
    if s != [] {
      SortSorts(leq, s[1..]);
      InsertSorted(leq, s[0], Sort(leq, s[1..]));
    }
  }

  /** Two files of one kind whose names compare equal. */
  predicate Tied(leq: NameOrder, f: File, g: File) {
    g.row.isFolder == f.row.isFolder && leq(g.row.name, f.row.name) && leq(f.row.name, g.row.name)
  }

  /** The files that tie with f, in the order in which they are listed. */
  function Ties(leq: NameOrder, f: File, s: seq<File>): seq<File> {
    if s == [] then [] else (if Tied(leq, f, s[0]) then [s[0]] else []) + Ties(leq, f, s[1..])
  }

  lemma TiesOfOneMore(leq: NameOrder, f: File, x: File, s: seq<File>)
    ensures Ties(leq, f, [x] + s) == (if Tied(leq, f, x) then [x] else []) + Ties(leq, f, s)
  {
    assert ([x] + s)[1..] == s;
  }

  lemma {:induction false} InsertKeepsTies(leq: NameOrder, f: File, x: File, s: seq<File>)
    requires TotalOrder(leq)
    ensures Ties(leq, f, Insert(leq, x, s)) == Ties(leq, f, [x] + s)
  {
    if s != [] && !Before(leq, x, s[0]) {
      var first, rest := s[0], s[1..];
      assert s == [first] + rest && Insert(leq, x, s) == [first] + Insert(leq, x, rest);
      assert !(Tied(leq, f, x) && Tied(leq, f, first));
      InsertKeepsTies(leq, f, x, rest);
      hide Ties, Insert, Tied, TotalOrder, Before;
      TiesOfOneMore(leq, f, first, Insert(leq, x, rest));
      TiesOfOneMore(leq, f, x, rest);
      TiesOfOneMore(leq, f, first, rest);
      TiesOfOneMore(leq, f, x, s);
    } else if s == [] {
      assert [x] + s == [x];
    }
  }

  /** The sort is stable: files that compare equal stay in the order in which they were listed. */
  lemma {:induction false} SortKeepsTies(leq: NameOrder, f: File, s: seq<File>)
    requires TotalOrder(leq)
    ensures Ties(leq, f, Sort(leq, s)) == Ties(leq, f, s)
  {
    if s != [] {
      SortKeepsTies(leq, f, s[1..]);
      InsertKeepsTies(leq, f, s[0], Sort(leq, s[1..]));
      assert ([s[0]] + Sort(leq, s[1..]))[1..] == Sort(leq, s[1..]);
    }
  }

  // ---- grouping ------------------------------------------------------------------

  /** The files of a group: each row with that parent once. */
  ghost predicate IsGroup(rows: Rows, key: Option<FileId>, s: seq<File>) {
    && (forall f :: f in multiset(s) <==> f.id in Under(rows, key) && f.row == rows[f.id])
    && (forall f :: multiset(s)[f] <= 1)
  }

  function GroupOf(groups: Groups, key: Option<FileId>): seq<File> {
    if key in groups then groups[key] else []
  }

  ghost predicate Grouped(rows: Rows, groups: Groups) {
    forall key :: IsGroup(rows, key, GroupOf(groups, key))
  }

  /** The chains of all files in the group end. */
  ghost predicate KeyOk(rows: Rows, key: Option<FileId>) {
    key.Some? ==> key.value in rows && Grounded(LinksOf(rows), key.value)
  }

  lemma UnderIsAntichain(rows: Rows, key: Option<FileId>)
    requires KeyOk(rows, key)
    ensures Antichain(LinksOf(rows), Under(rows, key))
    ensures forall x :: x in Under(rows, key) ==> Grounded(LinksOf(rows), x)
  {
    var l := LinksOf(rows);
    if key == None {
      RootsAntichain(l);
    } else {
      ChildrenAntichain(l, key.value);
      assert Under(rows, key) == Children(l, key.value);
    }
  }

  ghost function ShownFrom(rows: Rows, starts: set<FileId>): set<FileId> {
    Cover(LinksOf(rows), rows.Keys, starts)
  }

  /** What a file's children show is strictly less than what the file's siblings show with it; this is
      why collect ends. */
  lemma GroupShrinks(rows: Rows, key: Option<FileId>, x: FileId)
    requires KeyOk(rows, key) && x in Under(rows, key)
    ensures KeyOk(rows, Some(x))
    ensures ShownFrom(rows, Under(rows, Some(x))) < ShownFrom(rows, Under(rows, key))
  {
    var l := LinksOf(rows);
    UnderIsAntichain(rows, key);
    CoverNode(l, rows.Keys, x);
    assert Under(rows, Some(x)) == Children(l, x);
    assert x in ShownFrom(rows, {x}) && ShownFrom(rows, {x}) <= ShownFrom(rows, Under(rows, key)) by { ReachesSelf(l, x); }
  }

  /** No cycle is reachable from null, so the recursion ends on every parent map. */
  function Collect(leq: NameOrder, groups: Groups, key: Option<FileId>, ghost rows: Rows): seq<FileNode>
    requires Grouped(rows, groups) && KeyOk(rows, key)
    decreases ShownFrom(rows, Under(rows, key)), 1, 0
  {
    var sorted := Sort(leq, GroupOf(groups, key));
    assert forall f :: f in sorted ==> f in multiset(sorted);
    CollectAll(leq, groups, key, sorted, rows)
  }

  function CollectAll(leq: NameOrder, groups: Groups, key: Option<FileId>, fs: seq<File>, ghost rows: Rows): seq<FileNode>
    requires Grouped(rows, groups) && KeyOk(rows, key)
    requires forall f :: f in fs ==> f.id in Under(rows, key)
    decreases ShownFrom(rows, Under(rows, key)), 0, |fs|
  {
    if fs == [] then []
    else
      GroupShrinks(rows, key, fs[0].id);
      [FileNode(fs[0], Collect(leq, groups, Some(fs[0].id), rows))] + CollectAll(leq, groups, key, fs[1..], rows)
  }

  // ---- what the tree contains ---------------------------------------------------------

  /** The ids of a tree in preorder. */
  function Flatten(nodes: seq<FileNode>): seq<FileId> {
    if nodes == [] then [] else [nodes[0].file.id] + Flatten(nodes[0].children) + Flatten(nodes[1..])
  }

  /** In every sibling list folders come before files and names are in order within each kind, and every
      node sits under its own parent. */
  ghost predicate InOrder(leq: NameOrder, key: Option<FileId>, nodes: seq<FileNode>)
    decreases nodes
  {
    && (forall i, j :: 0 <= i < j < |nodes| ==>
          && (nodes[j].file.row.isFolder ==> nodes[i].file.row.isFolder)
          && (nodes[i].file.row.isFolder == nodes[j].file.row.isFolder ==> leq(nodes[i].file.row.name, nodes[j].file.row.name)))
    && (forall i :: 0 <= i < |nodes| ==> nodes[i].file.row.parent == key && InOrder(leq, Some(nodes[i].file.id), nodes[i].children))
  }

  function FileIds(fs: seq<File>): set<FileId> {
    set i | 0 <= i < |fs| :: fs[i].id
  }

  lemma {:induction false} CollectContains(leq: NameOrder, groups: Groups, key: Option<FileId>, rows: Rows)
    requires Grouped(rows, groups) && KeyOk(rows, key)
    ensures multiset(Flatten(Collect(leq, groups, key, rows))) == multiset(ShownFrom(rows, Under(rows, key)))
    decreases ShownFrom(rows, Under(rows, key)), 1, 0
  {
    var sorted := Sort(leq, GroupOf(groups, key));
    assert IsGroup(rows, key, sorted);
    forall f ensures f in sorted <==> f in multiset(sorted) {}
    OnceEach(sorted);
    OneFileEach(rows, key, sorted);
    CollectAllContains(leq, groups, key, sorted, rows);
  }

  lemma {:induction false} OnceEach(s: seq<File>)
    requires forall f :: multiset(s)[f] <= 1
    ensures forall i, j :: 0 <= i < j < |s| ==> s[i] != s[j]
  {
    forall i, j | 0 <= i < j < |s| ensures s[i] != s[j] {
      var parts := s[..i] + [s[i]] + s[i + 1..j] + [s[j]] + s[j + 1..];
      assert s == parts;
      assert multiset(parts)[s[i]] >= 1 + multiset([s[j]])[s[i]];
    }
  }

  lemma OneFileEach(rows: Rows, key: Option<FileId>, s: seq<File>)
    requires IsGroup(rows, key, s)
    requires forall i, j :: 0 <= i < j < |s| ==> s[i] != s[j]
    ensures UniqueIds(s) && FileIds(s) == Under(rows, key)
  {
    forall i | 0 <= i < |s| ensures s[i].id in Under(rows, key) && s[i] == File(s[i].id, rows[s[i].id]) {
      assert s[i] in multiset(s);
    }
    forall x | x in Under(rows, key) ensures x in FileIds(s) {
      assert File(x, rows[x]) in multiset(s);
    }
  }

  /** What the first file shows and what the others show add up. */
  lemma FirstAndRest(rows: Rows, key: Option<FileId>, fs: seq<File>)
    requires KeyOk(rows, key) && fs != [] && UniqueIds(fs)
    requires forall f :: f in fs ==> f.id in Under(rows, key)
    ensures multiset(ShownFrom(rows, FileIds(fs))) ==
            multiset{fs[0].id} + multiset(ShownFrom(rows, Under(rows, Some(fs[0].id)))) + multiset(ShownFrom(rows, FileIds(fs[1..])))
  {
    var x, rest := fs[0].id, fs[1..];
    assert FileIds(fs) == FileIds(rest) + {x} && x !in FileIds(rest) by {
      assert forall i :: 0 <= i < |rest| ==> rest[i] == fs[i + 1];
      assert forall i :: 0 < i < |fs| ==> fs[i] == rest[i - 1];
    }
    UnderIsAntichain(rows, key);
    assert FileIds(fs) <= Under(rows, key);
    assert Under(rows, Some(x)) == Children(LinksOf(rows), x);
    NextStart(LinksOf(rows), rows.Keys, FileIds(rest), x, Under(rows, key));
  }

  lemma {:induction false} CollectAllContains(leq: NameOrder, groups: Groups, key: Option<FileId>, fs: seq<File>, rows: Rows)
    requires Grouped(rows, groups) && KeyOk(rows, key)
    requires forall f :: f in fs ==> f.id in Under(rows, key)
    requires UniqueIds(fs)
    ensures multiset(Flatten(CollectAll(leq, groups, key, fs, rows))) == multiset(ShownFrom(rows, FileIds(fs)))
    decreases ShownFrom(rows, Under(rows, key)), 0, |fs|
  {
    if fs != [] {
      var x, rest := fs[0].id, fs[1..];
      GroupShrinks(rows, key, x);
      CollectContains(leq, groups, Some(x), rows);
      CollectAllContains(leq, groups, key, rest, rows);
      FirstAndRest(rows, key, fs);
    } else {
      assert ShownFrom(rows, FileIds(fs)) == {};
    }
  }

  lemma {:induction false} CollectAllNodes(leq: NameOrder, groups: Groups, key: Option<FileId>, fs: seq<File>, rows: Rows)
    requires Grouped(rows, groups) && KeyOk(rows, key)
    requires forall f :: f in fs ==> f.id in Under(rows, key)
    ensures var nodes := CollectAll(leq, groups, key, fs, rows);
            && |nodes| == |fs|
            && forall i :: 0 <= i < |fs| ==> KeyOk(rows, Some(fs[i].id)) && nodes[i] == FileNode(fs[i], Collect(leq, groups, Some(fs[i].id), rows))
    decreases |fs|
  {
    if fs != [] {
      GroupShrinks(rows, key, fs[0].id);
      hide Collect, Grouped, KeyOk, Under;
      CollectAllNodes(leq, groups, key, fs[1..], rows);
    }
  }

  lemma {:induction false} CollectInOrder(leq: NameOrder, groups: Groups, key: Option<FileId>, rows: Rows)
    requires TotalOrder(leq) && Grouped(rows, groups) && KeyOk(rows, key)
    ensures InOrder(leq, key, Collect(leq, groups, key, rows))
    decreases ShownFrom(rows, Under(rows, key)), 1
  {
    var sorted := Sort(leq, GroupOf(groups, key));
    SortSorts(leq, GroupOf(groups, key));
    forall f | f in sorted ensures f.id in Under(rows, key) && f.row.parent == key {
      assert f in multiset(sorted);
    }
    var nodes := CollectAll(leq, groups, key, sorted, rows);
    assert Collect(leq, groups, key, rows) == nodes;
    NodesInOrder(leq, groups, key, sorted, rows);
  }

  lemma NodesInOrder(leq: NameOrder, groups: Groups, key: Option<FileId>, fs: seq<File>, rows: Rows)
    requires TotalOrder(leq) && Grouped(rows, groups) && KeyOk(rows, key) && FoldersFirst(leq, fs)
    requires forall f :: f in fs ==> f.id in Under(rows, key) && f.row.parent == key
    ensures InOrder(leq, key, CollectAll(leq, groups, key, fs, rows))
    decreases ShownFrom(rows, Under(rows, key)), 0
  {
    CollectAllNodes(leq, groups, key, fs, rows);
    var nodes := CollectAll(leq, groups, key, fs, rows);
    hide Collect, CollectAll, Sort, Before, Grouped, KeyOk, TotalOrder, ShownFrom, Under;
    forall i | 0 <= i < |nodes| ensures nodes[i].file.row.parent == key && InOrder(leq, Some(nodes[i].file.id), nodes[i].children) {
      assert fs[i] in fs;
      GroupShrinks(rows, key, fs[i].id);
      CollectInOrder(leq, groups, Some(fs[i].id), rows);
    }
  }

  // ---- createTree ---------------------------------------------------------------------

  /** How often a file of the group has been placed after i files. */
  ghost predicate GroupedSoFar(files: seq<File>, i: nat, groups: Groups)
    requires i <= |files|
  {
    && (forall j :: 0 <= j < |files| ==> Some(files[j].id) in groups)
    && (forall key, f :: multiset(GroupOf(groups, key))[f] == if f.row.parent == key then multiset(files[..i])[f] else 0)
  }

  method RegisterAll(files: seq<File>) returns (groups: Groups)
    ensures GroupedSoFar(files, 0, groups)
  {
    groups := map[];
    for i := 0 to |files|
      invariant forall j :: 0 <= j < i ==> Some(files[j].id) in groups
      invariant forall key :: key in groups ==> groups[key] == []
    {
      groups := groups[Some(files[i].id) := []];
    }
  }

  lemma UniqueFilesGrouped(files: seq<File>, groups: Groups)
    requires UniqueIds(files) && GroupedSoFar(files, |files|, groups)
    ensures Grouped(FileRows(files), groups)
  {
    forall key ensures IsGroup(FileRows(files), key, GroupOf(groups, key)) {
      GroupIsUnique(files, groups, key);
    }
  }

  lemma GroupIsUnique(files: seq<File>, groups: Groups, key: Option<FileId>)
    requires UniqueIds(files) && GroupedSoFar(files, |files|, groups)
    ensures IsGroup(FileRows(files), key, GroupOf(groups, key))
  {
    assert files[..|files|] == files;
    var rows, group := FileRows(files), GroupOf(groups, key);
    forall f: File ensures multiset(group)[f] == if f.id in rows && rows[f.id] == f.row && f.row.parent == key then 1 else 0 {
      assert multiset(group)[f] == if f.row.parent == key then multiset(files)[f] else 0;
      CountOfUnique(files, f);
    }
    hide GroupOf, FileRows, GroupedSoFar, UniqueIds;
  }

  /** Each file of the list occurs once, and the rows are those of its files. */
  lemma {:induction false} CountOfUnique(files: seq<File>, f: File)
    requires UniqueIds(files)
    ensures multiset(files)[f] == if f.id in FileRows(files) && FileRows(files)[f.id] == f.row then 1 else 0
    decreases |files|
  {
    if files != [] {
      var front, last := files[..|files| - 1], files[|files| - 1];
      CountOfUnique(front, f);
      IdsOfRows(front);
      assert files == front + [last];
      assert forall i :: 0 <= i < |front| ==> front[i].id != last.id;
    }
  }

  /** Placing one more file under its parent, whose group is made if it is not there. */
  lemma PlacedNext(files: seq<File>, i: nat, groups: Groups)
    requires i < |files| && GroupedSoFar(files, i, groups)
    ensures var key := files[i].row.parent; var ready := if key in groups then groups else groups[key := []];
            GroupedSoFar(files, i + 1, ready[key := ready[key] + [files[i]]])
  {
    var key := files[i].row.parent;
    var ready := if key in groups then groups else groups[key := []];
    var placed := ready[key := ready[key] + [files[i]]];
    assert files[..i + 1] == files[..i] + [files[i]];
    assert forall k :: GroupOf(ready, k) == GroupOf(groups, k);
    forall k, f ensures multiset(GroupOf(placed, k))[f] == if f.row.parent == k then multiset(files[..i + 1])[f] else 0 {
      assert multiset(GroupOf(groups, k))[f] == if f.row.parent == k then multiset(files[..i])[f] else 0;
    }
  }

  /** Builds the tree of a flat list with any parent links, cyclic ones included. */
  method CreateTree(leq: NameOrder, files: seq<File>) returns (nodes: seq<FileNode>)
    requires UniqueIds(files)
    ensures multiset(Flatten(nodes)) == multiset(ShownFrom(FileRows(files), Under(FileRows(files), None)))
    ensures TotalOrder(leq) ==> InOrder(leq, None, nodes)
  {
    var groups := RegisterAll(files);
    for i := 0 to |files|
      invariant GroupedSoFar(files, i, groups)
    {
      hide GroupedSoFar;
      var key := files[i].row.parent;
      PlacedNext(files, i, groups);
      if key !in groups { groups := groups[key := []]; }
      groups := groups[key := groups[key] + [files[i]]];
    }
    hide GroupedSoFar, UniqueIds;
    UniqueFilesGrouped(files, groups);
    nodes := Collect(leq, groups, None, FileRows(files));
    CollectContains(leq, groups, None, FileRows(files));
    if TotalOrder(leq) { CollectInOrder(leq, groups, None, FileRows(files)); }
  }

  /** The chain of x reaches a file whose parent is null, within the list. */
  ghost predicate ReachesNull(rows: Rows, x: FileId) {
    x in rows && exists k: nat, y :: Up(LinksOf(rows), x, k) == Some(y) && y in rows && rows[y].parent == None
  }

  lemma ShownIffReachesNull(rows: Rows, x: FileId)
    ensures x in ShownFrom(rows, Under(rows, None)) <==> ReachesNull(rows, x)
  {
    var l := LinksOf(rows);
    if x in ShownFrom(rows, Under(rows, None)) {
      var r :| r in Under(rows, None) && Reaches(l, x, r);
      var k: nat :| Up(l, x, k) == Some(r);
    }
    if ReachesNull(rows, x) {
      var k: nat, y :| Up(l, x, k) == Some(y) && y in rows && rows[y].parent == None;
      UpAdd(l, x, k, y, 0);
      assert Reaches(l, x, y) && y in Under(rows, None);
    }
  }

  /** The browser and the executor show the same nodes exactly when no listed file has a missing
      parent: the executor promotes such a file to the top, the browser drops it. */
  lemma SameNodesIffNoOrphans(rows: Rows)
    ensures ShownFrom(rows, Under(rows, None)) == ShownFrom(rows, Roots(LinksOf(rows))) <==> ParentsExist(rows)
  {
    var l := LinksOf(rows);
    if ParentsExist(rows) {
      assert Under(rows, None) == Roots(l);
    } else {
      var x :| x in rows && rows[x].parent.Some? && rows[x].parent.value !in rows;
      ReachesSelf(l, x);
      assert x in ShownFrom(rows, Roots(l));
      if x in ShownFrom(rows, Under(rows, None)) {
        var r :| r in Under(rows, None) && Reaches(l, x, r);
        ReachesStep(l, x, r);
      }
    }
  }
}
