/** `walkTree`: writes the folders and files below the roots to disk and notes the entry path. */
module TreeWalk {
  import opened Wrappers
  import opened Forest
  import opened ForestCover
  import opened FilesTable
  import opened Disk
  import opened TreeBuilder

  /** What one walk works with: the rows, the decoded texts, the temp directory, the disk before
      the walk and the file that was asked to run. */
  datatype Job = Job(rows: Rows, texts: map<FileId, string>, base: Path, disk: Disk, entry: FileId)

  datatype Visit = Visit(id: FileId, path: Path)

  /** The chain of x ends and everything above x is a folder. */
  ghost predicate Shown(rows: Rows, x: FileId) {
    && x in rows && Grounded(LinksOf(rows), x)
    && forall y :: y in rows && y != x && Reaches(LinksOf(rows), x, y) ==> rows[y].isFolder
  }

  ghost function ShownIds(rows: Rows): set<FileId> {
    set x | x in rows && Shown(rows, x)
  }

  lemma ShownStep(rows: Rows, x: FileId)
    requires x in rows
    ensures Shown(rows, x) <==>
            IsRoot(LinksOf(rows), x) || (rows[x].parent.value in rows && rows[rows[x].parent.value].isFolder && Shown(rows, rows[x].parent.value))
  {
    var l := LinksOf(rows);
    GroundedStep(l, x);
    if Grounded(l, x) { GroundedNotOnCycle(l, x); }
    OnCycleViaParent(l, x);
    forall y | y in rows { ReachesStep(l, x, y); }
    if !IsRoot(l, x) {
      ReachesSelf(l, l[x].value);
    }
  }

  // ---- where a node belongs on disk ----------------------------------------------

  ghost function PathUpTo(rows: Rows, base: Path, x: FileId, k: nat): Path
    requires x in rows && Up(LinksOf(rows), x, k) == None
    decreases k
  {
    Join(if IsRoot(LinksOf(rows), x) then base else PathUpTo(rows, base, rows[x].parent.value, k - 1), rows[x].name)
  }

  lemma {:induction false} PathUpToAny(rows: Rows, base: Path, x: FileId, j: nat, k: nat)
    requires x in rows && Up(LinksOf(rows), x, j) == None && Up(LinksOf(rows), x, k) == None
    ensures PathUpTo(rows, base, x, j) == PathUpTo(rows, base, x, k)
    decreases j
  {
    if !IsRoot(LinksOf(rows), x) { PathUpToAny(rows, base, rows[x].parent.value, j - 1, k - 1); }
  }

  /** The names from the root down to x, joined below the base directory. */
  ghost function PathOf(rows: Rows, base: Path, x: FileId): Path
    requires Grounded(LinksOf(rows), x)
  {
    var k: nat :| Up(LinksOf(rows), x, k) == None;
    PathUpTo(rows, base, x, k)
  }

  lemma PathStep(rows: Rows, base: Path, x: FileId)
    requires Grounded(LinksOf(rows), x)
    ensures IsRoot(LinksOf(rows), x) ==> PathOf(rows, base, x) == Join(base, rows[x].name)
    ensures !IsRoot(LinksOf(rows), x) ==> Grounded(LinksOf(rows), rows[x].parent.value)
    ensures !IsRoot(LinksOf(rows), x) ==> PathOf(rows, base, x) == Join(PathOf(rows, base, rows[x].parent.value), rows[x].name)
  {
    var l := LinksOf(rows);
    GroundedStep(l, x);
    var k: nat :| Up(l, x, k) == None && PathOf(rows, base, x) == PathUpTo(rows, base, x, k);
    if !IsRoot(l, x) {
      var p := rows[x].parent.value;
      var j: nat :| Up(l, p, j) == None && PathOf(rows, base, p) == PathUpTo(rows, base, p, j);
      PathUpToAny(rows, base, p, j, k - 1);
      assert PathUpTo(rows, base, x, k) == Join(PathUpTo(rows, base, p, k - 1), rows[x].name);
    }
  }

  // ---- the record of a walk ----------------------------------------------------------

  /** The ids of the visits, with repetitions. */
  ghost function Met(vs: seq<Visit>): multiset<FileId> {
    if vs == [] then multiset{} else Met(vs[..|vs| - 1]) + multiset{vs[|vs| - 1].id}
  }

  function TextOf(texts: map<FileId, string>, id: FileId): string {
    if id in texts then texts[id] else ""
  }

  /** The disk after making and writing what was visited, or None once a call fails. */
  ghost function DiskAfter(job: Job, vs: seq<Visit>): Option<Disk> {
    if vs == [] then Some(job.disk)
    else
      var v := vs[|vs| - 1];
      match DiskAfter(job, vs[..|vs| - 1])
      case None => None
      case Some(d) =>
        if v.id !in job.rows then None
        else if job.rows[v.id].isFolder then MkdirAll(d, v.path)
        else WriteFile(d, v.path, TextOf(job.texts, v.id))
  }

  ghost predicate ParentVisited(job: Job, x: FileId, met: multiset<FileId>)
    requires x in job.rows
  {
    IsRoot(LinksOf(job.rows), x) || job.rows[x].parent.value in met
  }

  /** Each visit is of a shown node, at the node's own path, after its parent. */
  ghost predicate VisitsOk(job: Job, vs: seq<Visit>) {
    vs != [] ==>
      var front, v := vs[..|vs| - 1], vs[|vs| - 1];
      && VisitsOk(job, front)
      && Shown(job.rows, v.id)
      && v.path == PathOf(job.rows, job.base, v.id)
      && ParentVisited(job, v.id, Met(front))
  }

  /** The entry path is that of the requested node, once it has been visited. */
  ghost predicate EntryOk(job: Job, entryPath: Option<Path>, met: multiset<FileId>) {
    if job.entry in met
    then Shown(job.rows, job.entry) && entryPath == Some(PathOf(job.rows, job.base, job.entry))
    else entryPath == None
  }

  class Workspace {
    var disk: Disk
    var entryPath: Option<Path>
    ghost var visits: seq<Visit>

    constructor (disk: Disk)
      ensures this.disk == disk && entryPath == None && visits == []
    {
      this.disk := disk;
      entryPath := None;
      visits := [];
    }
  }

  /** The workspace agrees with what has been visited, and a call that failed shows and changed nothing. */
  ghost predicate WalkState(job: Job, ws: Workspace, ok: bool)
    reads ws
  {
    && VisitsOk(job, ws.visits) && EntryOk(job, ws.entryPath, Met(ws.visits))
    && DiskAfter(job, ws.visits) == (if ok then Some(ws.disk) else None)
    && (!ok ==> ws.visits != [] && DiskAfter(job, ws.visits[..|ws.visits| - 1]) == Some(ws.disk))
  }

  /** What has been met since `before` is `part`, each once; after a failure, no more than that. */
  ghost predicate Progress(now: multiset<FileId>, before: multiset<FileId>, part: multiset<FileId>, ok: bool) {
    now <= before + part && (ok ==> now == before + part)
  }

  /** The body of the walk for one node, before its children: notes the entry path and writes. */
  method VisitNode(node: TreeNode, currentPath: Path, ws: Workspace, job: Job) returns (ok: bool)
    requires Shown(job.rows, node.file.id) && node.file.row == job.rows[node.file.id]
    requires Join(currentPath, node.file.row.name) == PathOf(job.rows, job.base, node.file.id)
    requires ParentVisited(job, node.file.id, Met(ws.visits))
    requires WalkState(job, ws, true)
    modifies ws
    ensures Met(ws.visits) == old(Met(ws.visits)) + multiset{node.file.id}
    ensures WalkState(job, ws, ok)
  {
    assert node.file.id in job.rows;
    hide Shown, PathOf, Join, MkdirAll, WriteFile;
    var fullPath := Join(currentPath, node.file.row.name);
    ghost var more := ws.visits + [Visit(node.file.id, fullPath)];
    assert more[..|more| - 1] == ws.visits;
    if node.file.id == job.entry {
      ws.entryPath := Some(fullPath);
    }
    ws.visits := more;
    assert VisitsOk(job, more) && Met(more) == old(Met(ws.visits)) + multiset{node.file.id};
    assert EntryOk(job, ws.entryPath, Met(more));
    var written: Option<Disk>;
    if node.file.row.isFolder {
      written := MkdirAll(ws.disk, fullPath);
    } else {
      var text := "";
      if node.file.id in job.texts { text := job.texts[node.file.id]; }
      written := WriteFile(ws.disk, fullPath, text);
    }
    ok := written.Some?;
    if ok { ws.disk := written.value; }
  }

  /** Below a file that is no folder nothing is shown; below a shown folder every child is. */
  lemma ShownChildren(rows: Rows, n: FileId)
    requires Shown(rows, n)
    ensures rows[n].isFolder ==> forall c :: c in Children(LinksOf(rows), n) ==> Shown(rows, c)
    ensures !rows[n].isFolder ==> Cover(LinksOf(rows), ShownIds(rows), Children(LinksOf(rows), n)) == {}
  {
    var l := LinksOf(rows);
    forall c | c in Children(l, n) { ShownStep(rows, c); }
    if !rows[n].isFolder {
      CoverNode(l, rows.Keys, n);
      forall x | x in Cover(l, ShownIds(rows), Children(l, n)) ensures false {
        assert x in Cover(l, rows.Keys, Children(l, n));
        var c :| c in Children(l, n) && Reaches(l, x, c);
        ReachesSelf(l, n);
        ReachesStep(l, c, n);
        ReachesTrans(l, x, c, n);
      }
    }
  }

  ghost function Below(job: Job, starts: set<FileId>): set<FileId> {
    Cover(LinksOf(job.rows), ShownIds(job.rows), starts)
  }

  /** The starts of a walk: none below another, all shown, their parents visited, and joining their
      names to the current directory gives their own paths. */
  ghost predicate StartsOk(job: Job, starts: set<FileId>, currentPath: Path, met: multiset<FileId>) {
    && Antichain(LinksOf(job.rows), starts)
    && forall x :: x in starts ==> StartOk(job, x, currentPath, met)
  }

  ghost predicate StartOk(job: Job, x: FileId, currentPath: Path, met: multiset<FileId>) {
    Shown(job.rows, x) && ParentVisited(job, x, met) && Join(currentPath, job.rows[x].name) == PathOf(job.rows, job.base, x)
  }

  lemma ChildrenStart(job: Job, n: FileId, met: multiset<FileId>)
    requires Shown(job.rows, n) && job.rows[n].isFolder && n in met
    ensures StartsOk(job, Children(LinksOf(job.rows), n), PathOf(job.rows, job.base, n), met)
    ensures Below(job, Children(LinksOf(job.rows), n)) < Below(job, {n})
  {
    var l := LinksOf(job.rows);
    ShownChildren(job.rows, n);
    CoverNode(l, ShownIds(job.rows), n);
    ChildrenAntichain(l, n);
    forall c | c in Children(l, n) { PathStep(job.rows, job.base, c); }
  }

  lemma CoverGrows(l: Links, keep: set<FileId>, starts: set<FileId>, more: set<FileId>)
    requires starts <= more
    ensures Cover(l, keep, starts) <= Cover(l, keep, more)
    ensures multiset(Cover(l, keep, starts)) <= multiset(Cover(l, keep, more))
  {
  }

  /** What the loop over the nodes knows when it comes to the next one. */
  lemma NextNode(job: Job, nodes: seq<TreeNode>, i: nat, all: map<FileId, TreeNode>, currentPath: Path, met: multiset<FileId>)
    requires i < |nodes| && Lists(all, nodes, IdSet(nodes))
    requires StartsOk(job, IdSet(nodes), currentPath, met)
    ensures var n := nodes[i].file.id;
      && StartOk(job, n, currentPath, met)
      && Below(job, {n}) <= Below(job, IdSet(nodes))
      && multiset(Below(job, IdSet(nodes[..i + 1]))) <= multiset(Below(job, IdSet(nodes)))
      && multiset(Below(job, IdSet(nodes[..i + 1]))) ==
         multiset(Below(job, IdSet(nodes[..i]))) + (multiset{n} + multiset(Below(job, Children(LinksOf(job.rows), n))))
  {
    PrefixIds(nodes, i);
    var n := nodes[i].file.id;
    assert n in IdSet(nodes);
    var l, keep := LinksOf(job.rows), ShownIds(job.rows);
    NextStart(l, keep, IdSet(nodes[..i]), n, IdSet(nodes));
    CoverGrows(l, keep, IdSet(nodes[..i + 1]), IdSet(nodes));
    CoverGrows(l, keep, {n}, IdSet(nodes));
  }

  lemma EmptyStart(job: Job, nodes: seq<TreeNode>)
    ensures Below(job, IdSet(nodes[..0])) == {}
  {
  }

  lemma StartsKept(job: Job, starts: set<FileId>, currentPath: Path, met: multiset<FileId>, more: multiset<FileId>)
    requires StartsOk(job, starts, currentPath, met) && met <= more
    ensures StartsOk(job, starts, currentPath, more)
  {
  }

  /** One node of the walk: the node itself and, if it is a folder, what is shown below it. */
  method WalkNode(node: TreeNode, currentPath: Path, ws: Workspace, job: Job, ghost all: map<FileId, TreeNode>) returns (ok: bool)
    requires Linked(job.rows, all) && node.file.id in all && all[node.file.id] == node
    requires StartOk(job, node.file.id, currentPath, Met(ws.visits))
    requires WalkState(job, ws, true)
    modifies ws
    ensures WalkState(job, ws, ok)
    ensures Progress(Met(ws.visits), old(Met(ws.visits)),
                     multiset{node.file.id} + multiset(Below(job, Children(LinksOf(job.rows), node.file.id))), ok)
    decreases Below(job, {node.file.id}), 0
  {
    hide Shown, PathOf, VisitsOk, EntryOk, DiskAfter, Met, Join, ParentVisited, StartsOk;
    ghost var n := node.file.id;
    ShownChildren(job.rows, n);
    ok := VisitNode(node, currentPath, ws, job);
    if ok && node.file.row.isFolder {
      ChildrenStart(job, n, Met(ws.visits));
      assert Lists(all, node.children, Children(LinksOf(job.rows), n));
      ok := WalkTree(node.children, Join(currentPath, node.file.row.name), ws, job, all);
    }
  }

  /** Walks the nodes and, below folders, their children. A complete walk visits exactly the shown
      nodes below its starts, each once; a walk that fails has visited a part of them. */
  method WalkTree(nodes: seq<TreeNode>, currentPath: Path, ws: Workspace, job: Job, ghost all: map<FileId, TreeNode>) returns (ok: bool)
    requires Linked(job.rows, all) && Lists(all, nodes, IdSet(nodes))
    requires StartsOk(job, IdSet(nodes), currentPath, Met(ws.visits))
    requires WalkState(job, ws, true)
    modifies ws
    ensures WalkState(job, ws, ok)
    ensures Progress(Met(ws.visits), old(Met(ws.visits)), multiset(Below(job, IdSet(nodes))), ok)
    decreases Below(job, IdSet(nodes)), 1
  {
    EmptyStart(job, nodes);
    hide Shown, PathOf, VisitsOk, EntryOk, DiskAfter, Met, Join, ParentVisited, StartsOk, StartOk, Below;
    ok := true;
    ghost var met := Met(ws.visits);
    for i := 0 to |nodes|
      invariant WalkState(job, ws, true) && ok
      invariant Met(ws.visits) == met + multiset(Below(job, IdSet(nodes[..i])))
    {
      StartsKept(job, IdSet(nodes), currentPath, met, Met(ws.visits));
      NextNode(job, nodes, i, all, currentPath, Met(ws.visits));
      ok := WalkNode(nodes[i], currentPath, ws, job, all);
      if !ok { return; }
    }
    assert nodes[..|nodes|] == nodes;
  }
}
