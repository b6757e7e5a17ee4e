/** Faithful materialisation: with distinct, ordinary sibling names the walk writes every shown file
    at its own path, overwrites nothing, and the entry path is the chain of names. */
module Materialise {
  import opened Wrappers
  import opened Forest
  import opened FilesTable
  import opened Disk
  import opened TreeWalk

  /** x and y end up in the same directory: under one parent, or both at the top. */
  predicate SameDirectory(rows: Rows, x: FileId, y: FileId)
    requires x in rows && y in rows
  {
    var l := LinksOf(rows);
    (IsRoot(l, x) && IsRoot(l, y)) || (!IsRoot(l, x) && !IsRoot(l, y) && rows[x].parent == rows[y].parent)
  }

  ghost predicate NamesOk(rows: Rows) {
    && (forall x :: Shown(rows, x) ==> NormalName(rows[x].name))
    && (forall x, y :: Shown(rows, x) && Shown(rows, y) && x != y && SameDirectory(rows, x, y) ==> rows[x].name != rows[y].name)
  }

  /** The base directory exists and is empty. */
  predicate EmptyBase(d: Disk, base: Path) {
    WellFormed(d) && base in d && d[base] == Dir && forall p :: p in d ==> !(base < p)
  }

  /** The names from the root down to x. */
  ghost function NamesUpTo(rows: Rows, x: FileId, k: nat): seq<string>
    requires x in rows && Up(LinksOf(rows), x, k) == None
    decreases k
  {
    (if IsRoot(LinksOf(rows), x) then [] else NamesUpTo(rows, rows[x].parent.value, k - 1)) + [rows[x].name]
  }

  /** With ordinary names, joining never climbs: the path is the base followed by the names. */
  lemma {:induction false} PathIsNames(rows: Rows, base: Path, x: FileId, k: nat)
    requires NamesOk(rows) && Shown(rows, x) && Up(LinksOf(rows), x, k) == None
    ensures PathOf(rows, base, x) == base + NamesUpTo(rows, x, k)
    decreases k
  {
    hide Join;
    PathStep(rows, base, x);
    ShownStep(rows, x);
    if IsRoot(LinksOf(rows), x) {
      JoinNormal(base, rows[x].name);
    } else {
      var p := rows[x].parent.value;
      PathIsNames(rows, base, p, k - 1);
      JoinNormal(base + NamesUpTo(rows, p, k - 1), rows[x].name);
    }
  }

  lemma {:induction false} NamesDetermineNode(rows: Rows, x: FileId, j: nat, y: FileId, k: nat)
    requires NamesOk(rows) && Shown(rows, x) && Shown(rows, y)
    requires Up(LinksOf(rows), x, j) == None && Up(LinksOf(rows), y, k) == None
    requires NamesUpTo(rows, x, j) == NamesUpTo(rows, y, k)
    ensures x == y
    decreases j
  {
    var l := LinksOf(rows);
    ShownStep(rows, x);
    ShownStep(rows, y);
    var xs, ys := NamesUpTo(rows, x, j), NamesUpTo(rows, y, k);
    assert xs[|xs| - 1] == rows[x].name && ys[|ys| - 1] == rows[y].name;
    if !IsRoot(l, x) && !IsRoot(l, y) {
      var p, q := rows[x].parent.value, rows[y].parent.value;
      assert xs[..|xs| - 1] == NamesUpTo(rows, p, j - 1);
      assert ys[..|ys| - 1] == NamesUpTo(rows, q, k - 1);
      NamesDetermineNode(rows, p, j - 1, q, k - 1);
    } else {
      assert IsRoot(l, x) ==> |xs| == 1;
      assert IsRoot(l, y) ==> |ys| == 1;
    }
    assert SameDirectory(rows, x, y);
  }

  /** All shown nodes have distinct paths. */
  lemma PathsDistinct(rows: Rows, base: Path, x: FileId, y: FileId)
    requires NamesOk(rows) && Shown(rows, x) && Shown(rows, y) && x != y
    ensures PathOf(rows, base, x) != PathOf(rows, base, y)
  {
    var l := LinksOf(rows);
    var j: nat :| Up(l, x, j) == None;
    var k: nat :| Up(l, y, k) == None;
    PathIsNames(rows, base, x, j);
    PathIsNames(rows, base, y, k);
    if PathOf(rows, base, x) == PathOf(rows, base, y) {
      var xs, ys := NamesUpTo(rows, x, j), NamesUpTo(rows, y, k);
      assert (base + xs)[|base|..] == xs && (base + ys)[|base|..] == ys;
      NamesDetermineNode(rows, x, j, y, k);
    }
  }

  /** The directory of a shown node and its place in it. */
  lemma PathInDirectory(rows: Rows, base: Path, x: FileId)
    requires NamesOk(rows) && Shown(rows, x)
    ensures base < PathOf(rows, base, x)
    ensures IsRoot(LinksOf(rows), x) ==> PathOf(rows, base, x) == base + [rows[x].name]
    ensures !IsRoot(LinksOf(rows), x) ==> Shown(rows, rows[x].parent.value) && rows[rows[x].parent.value].isFolder
    ensures !IsRoot(LinksOf(rows), x) ==> PathOf(rows, base, x) == PathOf(rows, base, rows[x].parent.value) + [rows[x].name]
  {
    PathStep(rows, base, x);
    ShownStep(rows, x);
    var k: nat :| Up(LinksOf(rows), x, k) == None;
    PathIsNames(rows, base, x, k);
    JoinNormal(base, rows[x].name);
    if !IsRoot(LinksOf(rows), x) {
      JoinNormal(PathOf(rows, base, rows[x].parent.value), rows[x].name);
    }
  }

  /** p is the path of a shown node that has been met. */
  ghost predicate IsMetPath(rows: Rows, base: Path, met: multiset<FileId>, p: Path) {
    exists x :: x in met && Shown(rows, x) && PathOf(rows, base, x) == p
  }

  /** The disk holds what was there before, what was visited, and nothing else. */
  ghost predicate Materialised(job: Job, met: multiset<FileId>, d: Disk) {
    && WellFormed(d)
    && (forall p :: p in d <==> p in job.disk || IsMetPath(job.rows, job.base, met, p))
    && (forall p :: p in job.disk ==> d[p] == job.disk[p])
    && (forall x :: x in met && Shown(job.rows, x) ==> HasEntry(job.rows, job.texts, job.base, x, d))
  }

  /** Reading the node's path back gives a directory for a folder, and for a file the text that was
      decoded for it, or nothing if none was. */
  ghost predicate HasEntry(rows: Rows, texts: map<FileId, string>, base: Path, x: FileId, d: Disk)
    requires Shown(rows, x)
  {
    var p := PathOf(rows, base, x);
    p in d && d[p] == if rows[x].isFolder then Dir else if x in texts then Regular(texts[x]) else Regular("")
  }

  /** The directory that a new visit writes into is there, and the new path is not. */
  lemma NewVisitFits(job: Job, met: multiset<FileId>, x: FileId, d: Disk) returns (dir: Path)
    requires NamesOk(job.rows) && EmptyBase(job.disk, job.base)
    requires Materialised(job, met, d) && x !in met
    requires Shown(job.rows, x) && ParentVisited(job, x, met)
    ensures PathOf(job.rows, job.base, x) == dir + [job.rows[x].name]
    ensures dir in d && d[dir] == Dir && PathOf(job.rows, job.base, x) !in d
  {
    PathInDirectory(job.rows, job.base, x);
    if IsRoot(LinksOf(job.rows), x) {
      dir := job.base;
    } else {
      var p := job.rows[x].parent.value;
      dir := PathOf(job.rows, job.base, p);
      assert HasEntry(job.rows, job.texts, job.base, p, d);
    }
    if IsMetPath(job.rows, job.base, met, PathOf(job.rows, job.base, x)) {
      var y :| y in met && Shown(job.rows, y) && PathOf(job.rows, job.base, y) == PathOf(job.rows, job.base, x);
      PathsDistinct(job.rows, job.base, x, y);
    }
  }

  lemma EntryStays(job: Job, y: FileId, d: Disk, p: Path, e: Entry)
    requires Shown(job.rows, y) && HasEntry(job.rows, job.texts, job.base, y, d) && p !in d
    ensures HasEntry(job.rows, job.texts, job.base, y, d[p := e])
  {
    hide PathOf;
  }

  lemma MetPathAfter(rows: Rows, base: Path, met: multiset<FileId>, x: FileId, p: Path)
    requires Shown(rows, x)
    ensures IsMetPath(rows, base, met + multiset{x}, p) <==> IsMetPath(rows, base, met, p) || p == PathOf(rows, base, x)
  {
    hide Shown, PathOf;
    assert x in met + multiset{x};
    assert forall y :: y in met ==> y in met + multiset{x};
  }

  lemma AddEntry(job: Job, met: multiset<FileId>, x: FileId, d: Disk, e: Entry)
    requires Materialised(job, met, d) && Shown(job.rows, x) && PathOf(job.rows, job.base, x) !in d
    requires WellFormed(d[PathOf(job.rows, job.base, x) := e])
    requires e == if job.rows[x].isFolder then Dir else Regular(TextOf(job.texts, x))
    ensures Materialised(job, met + multiset{x}, d[PathOf(job.rows, job.base, x) := e])
  {
    var p := PathOf(job.rows, job.base, x);
    assert HasEntry(job.rows, job.texts, job.base, x, d[p := e]);
    hide PathOf, WellFormed, Shown, HasEntry, IsMetPath;
    forall q { MetPathAfter(job.rows, job.base, met, x, q); }
    forall y | y in met && Shown(job.rows, y) ensures HasEntry(job.rows, job.texts, job.base, y, d[p := e]) {
      EntryStays(job, y, d, p, e);
    }
  }

  /** No call of a walk over ordinary names fails, and what it wrote can be read back. */
  lemma {:induction false} WalkMaterialises(job: Job, vs: seq<Visit>)
    requires NamesOk(job.rows) && EmptyBase(job.disk, job.base)
    requires VisitsOk(job, vs) && forall x :: Met(vs)[x] <= 1
    ensures DiskAfter(job, vs).Some? && Materialised(job, Met(vs), DiskAfter(job, vs).value)
    decreases |vs|
  {
    if vs != [] {
      var front, v := vs[..|vs| - 1], vs[|vs| - 1];
      forall x ensures Met(front)[x] <= 1 { assert Met(front)[x] <= Met(vs)[x]; }
      WalkMaterialises(job, front);
      var d := DiskAfter(job, front).value;
      assert Met(vs)[v.id] == Met(front)[v.id] + 1;
      var dir := NewVisitFits(job, Met(front), v.id, d);
      FreshEntry(d, dir, job.rows[v.id].name, TextOf(job.texts, v.id));
      var e := if job.rows[v.id].isFolder then Dir else Regular(TextOf(job.texts, v.id));
      assert DiskAfter(job, vs) == Some(d[v.path := e]);
      AddEntry(job, Met(front), v.id, d, e);
    }
  }

  // ---- exactly when paths are sound ----------------------------------------------

  ghost predicate SlashFree(rows: Rows) {
    forall x :: Shown(rows, x) ==> '/' !in rows[x].name
  }

  /** Every shown node has a path of its own, strictly inside the base directory. */
  ghost predicate PathsSound(rows: Rows, base: Path) {
    && (forall x :: Shown(rows, x) ==> base < PathOf(rows, base, x))
    && (forall x, y :: Shown(rows, x) && Shown(rows, y) && x != y ==> PathOf(rows, base, x) != PathOf(rows, base, y))
  }

  lemma JoinSpecial(dir: Path)
    ensures Join(dir, "") == dir && Join(dir, ".") == dir
    ensures Join(dir, "..") == if dir == [] then [] else dir[..|dir| - 1]
  {
    var none: seq<string> := [];
    assert Split("") == [""] && Split(".") == ["."] && Split("..") == [".."];
    assert [""][1..] == none && ["."][1..] == none && [".."][1..] == none;
    assert Clean(dir, none) == dir;
    assert dir != [] ==> Clean(dir[..|dir| - 1], none) == dir[..|dir| - 1];
  }

  lemma ParentIsOther(rows: Rows, x: FileId)
    requires Shown(rows, x) && !IsRoot(LinksOf(rows), x)
    ensures Shown(rows, rows[x].parent.value) && rows[x].parent.value != x
    ensures var p := rows[x].parent.value; !IsRoot(LinksOf(rows), p) ==> Shown(rows, rows[p].parent.value) && rows[p].parent.value != x
  {
    var l, p := LinksOf(rows), rows[x].parent.value;
    ShownStep(rows, x);
    ShownStep(rows, p);
    GroundedNotOnCycle(l, x);
    OnCycleViaParent(l, x);
    ReachesSelf(l, x);
    ReachesStep(l, p, x);
  }

  lemma {:induction false} SoundPathsNeedNormalNames(rows: Rows, base: Path, x: FileId, k: nat)
    requires SlashFree(rows) && PathsSound(rows, base)
    requires Shown(rows, x) && Up(LinksOf(rows), x, k) == None
    ensures NormalName(rows[x].name)
    decreases k
  {
    var l := LinksOf(rows);
    PathStep(rows, base, x);
    if IsRoot(l, x) {
      JoinSpecial(base);
    } else {
      var p := rows[x].parent.value;
      ParentIsOther(rows, x);
      SoundPathsNeedNormalNames(rows, base, p, k - 1);
      PathStep(rows, base, p);
      var dir := if IsRoot(l, p) then base else PathOf(rows, base, rows[p].parent.value);
      JoinNormal(dir, rows[p].name);
      assert PathOf(rows, base, p) == dir + [rows[p].name];
      JoinSpecial(dir + [rows[p].name]);
      assert (dir + [rows[p].name])[..|dir|] == dir;
    }
  }

  /** The shown names are ordinary and differ among siblings exactly when they hold no slash and every
      shown node has its own path inside the temp directory. */
  lemma PathsSoundIffNamesOk(rows: Rows, base: Path)
    ensures NamesOk(rows) <==> SlashFree(rows) && PathsSound(rows, base)
  {
    if NamesOk(rows) {
      forall x | Shown(rows, x) ensures base < PathOf(rows, base, x) { PathInDirectory(rows, base, x); }
      forall x, y | Shown(rows, x) && Shown(rows, y) && x != y ensures PathOf(rows, base, x) != PathOf(rows, base, y) {
        PathsDistinct(rows, base, x, y);
      }
    }
    if SlashFree(rows) && PathsSound(rows, base) {
      forall x | Shown(rows, x) ensures NormalName(rows[x].name) {
        var k: nat :| Up(LinksOf(rows), x, k) == None;
        SoundPathsNeedNormalNames(rows, base, x, k);
      }
      forall x, y | Shown(rows, x) && Shown(rows, y) && x != y && SameDirectory(rows, x, y)
        ensures rows[x].name != rows[y].name
      {
        PathStep(rows, base, x);
        PathStep(rows, base, y);
      }
    }
  }
}
