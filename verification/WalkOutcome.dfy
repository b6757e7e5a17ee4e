/** Exactly when a walk succeeds, whatever the names: no call of it fails unless some file's path is a
    directory's or some folder's path is a file's. */
module WalkOutcome {
  import opened Wrappers
  import opened Forest
  import opened FilesTable
  import opened Disk
  import opened TreeWalk
  import opened Materialise

  predicate IsDir(d: Disk, p: Path) {
    p in d && d[p] == Dir
  }

  predicate IsFile(d: Disk, p: Path) {
    p in d && d[p].Regular?
  }

  /** The base directory exists; it need not be empty. */
  predicate BaseReady(job: Job) {
    WellFormed(job.disk) && IsDir(job.disk, job.base)
  }

  // ---- single calls ------------------------------------------------------------------------

  lemma MkdirKeeps(d: Disk, p: Path)
    requires WellFormed(d) && MkdirAll(d, p).Some?
    ensures var d' := MkdirAll(d, p).value;
            WellFormed(d') && IsDir(d', p) && forall q :: IsDir(d, q) ==> IsDir(d', q)
  {
    var d' := MkdirAll(d, p).value;
    assert p[..|p|] == p && p[..|p|] in Prefixes(p);
    forall q, i | q in d' && 0 <= i < |q| ensures q[..i] in d' && d'[q[..i]] == Dir {
      if q in Prefixes(p) {
        var j :| 0 <= j <= |p| && q == p[..j];
        assert q[..i] == p[..i] && p[..i] in Prefixes(p);
      } else {
        assert q[..i] in d && d[q[..i]] == Dir;
      }
    }
  }

  lemma WriteKeeps(d: Disk, p: Path, text: string)
    requires WellFormed(d) && WriteFile(d, p, text).Some?
    ensures var d' := WriteFile(d, p, text).value;
            WellFormed(d') && forall q :: IsDir(d, q) ==> IsDir(d', q)
  {
    var d' := WriteFile(d, p, text).value;
    var dir := p[..|p| - 1];
    forall q, i | q in d' && 0 <= i < |q| ensures q[..i] in d' && d'[q[..i]] == Dir {
      if q == p {
        assert q[..i] == if i < |dir| then dir[..i] else dir;
      } else {
        assert q[..i] in d && d[q[..i]] == Dir;
      }
    }
  }

  /** Below a directory, MkdirAll makes one entry unless a file is there. */
  lemma MkdirOne(d: Disk, p: Path)
    requires WellFormed(d) && forall i :: 0 <= i < |p| ==> IsDir(d, p[..i])
    ensures MkdirAll(d, p).Some? <==> !IsFile(d, p)
    ensures MkdirAll(d, p).Some? ==> var d' := MkdirAll(d, p).value;
            WellFormed(d') && forall q :: (IsDir(d', q) <==> IsDir(d, q) || q == p) && (IsFile(d', q) <==> IsFile(d, q))
  {
    assert p[..|p|] == p && p[..|p|] in Prefixes(p);
    var made := map q | q in Prefixes(p) :: Dir;
    forall q | q in made ensures q == p || IsDir(d, q) {
      var i :| 0 <= i <= |p| && q == p[..i];
    }
    assert !IsFile(d, p) ==> d + made == d[p := Dir];
    if MkdirAll(d, p).Some? { MkdirKeeps(d, p); }
  }

  /** In a directory, WriteFile makes or replaces one file unless a directory is there. */
  lemma WriteOne(d: Disk, p: Path, text: string)
    requires WellFormed(d) && (IsDir(d, p) || (p != [] && IsDir(d, p[..|p| - 1])))
    ensures WriteFile(d, p, text).Some? <==> !IsDir(d, p)
    ensures WriteFile(d, p, text).Some? ==> var d' := WriteFile(d, p, text).value;
            WellFormed(d') && forall q :: (IsFile(d', q) <==> IsFile(d, q) || q == p) && (IsDir(d', q) <==> IsDir(d, q))
  {
    if WriteFile(d, p, text).Some? { WriteKeeps(d, p, text); }
  }

  // ---- paths below a directory ------------------------------------------------------------------

  /** The directory that a visited node is joined to. */
  ghost function DirOf(job: Job, x: FileId): Path
    requires Shown(job.rows, x)
  {
    ShownStep(job.rows, x);
    if IsRoot(LinksOf(job.rows), x) then job.base else PathOf(job.rows, job.base, job.rows[x].parent.value)
  }

  predicate SpecialName(name: string) {
    name == "" || name == "." || name == ".."
  }

  /** A special name leads to the directory itself or to the one above it. */
  lemma SpecialIsAbove(job: Job, x: FileId)
    requires Shown(job.rows, x) && SpecialName(job.rows[x].name)
    ensures PathOf(job.rows, job.base, x) <= DirOf(job, x)
  {
    PathStep(job.rows, job.base, x);
    JoinSpecial(DirOf(job, x));
  }

  lemma AboveIsDir(d: Disk, p: Path, q: Path)
    requires WellFormed(d) && IsDir(d, q) && p <= q
    ensures IsDir(d, p) && forall i :: 0 <= i < |p| ==> IsDir(d, p[..i])
  {
    assert p == q[..|p|] && q[..|q|] == q;
    forall i | 0 <= i < |p| ensures IsDir(d, p[..i]) { assert p[..i] == q[..i]; }
  }

  // ---- what a walk leaves alone ---------------------------------------------------------------------

  /** Everything on the disk stays there, and directories stay directories. */
  ghost predicate Persists(d: Disk, d': Disk) {
    forall p :: p in d ==> p in d' && (d[p] == Dir ==> d'[p] == Dir)
  }

  lemma CallPersists(d: Disk, p: Path, text: string)
    ensures MkdirAll(d, p).Some? ==> Persists(d, MkdirAll(d, p).value)
    ensures WriteFile(d, p, text).Some? ==> Persists(d, WriteFile(d, p, text).value)
  {
    forall q | q in Prefixes(p) && q in d && MkdirAll(d, p).Some? ensures d[q] == Dir {
      var i :| 0 <= i <= |p| && q == p[..i];
    }
  }

  lemma {:induction false} WalkPersists(job: Job, vs: seq<Visit>)
    requires BaseReady(job) && VisitsOk(job, vs) && DiskAfter(job, vs).Some?
    ensures Persists(job.disk, DiskAfter(job, vs).value)
    decreases |vs|
  {
    if vs != [] {
      var front, v := vs[..|vs| - 1], vs[|vs| - 1];
      WalkPersists(job, front);
      WalkKeepsDirs(job, front);
      var d := DiskAfter(job, front).value;
      CallPersists(d, v.path, TextOf(job.texts, v.id));
      hide PathOf, Shown, MkdirAll, WriteFile, WellFormed, VisitsOk;
    }
  }

  /** The disks agree on everything that is not inside the base directory. */
  ghost predicate AgreeOutside(base: Path, d: Disk, d': Disk) {
    forall p :: !(base <= p) ==> (p in d <==> p in d') && (p in d ==> d'[p] == d[p])
  }

  lemma CallStaysInside(d: Disk, base: Path, p: Path, text: string)
    requires WellFormed(d) && IsDir(d, base) && base <= p
    ensures MkdirAll(d, p).Some? ==> AgreeOutside(base, d, MkdirAll(d, p).value)
    ensures WriteFile(d, p, text).Some? ==> AgreeOutside(base, d, WriteFile(d, p, text).value)
  {
    assert base == p[..|base|];
    forall i | 0 <= i < |base| ensures IsDir(d, p[..i]) { assert p[..i] == base[..i]; }
    forall i | |base| <= i <= |p| ensures base <= p[..i] { assert p[..i][..|base|] == base; }
    forall q | q in Prefixes(p) && !(base <= q) ensures IsDir(d, q) {
      var i :| 0 <= i <= |p| && q == p[..i];
    }
  }

  /** If every shown path lies inside the base directory, a walk touches nothing else. */
  lemma {:induction false} WalkStaysInside(job: Job, vs: seq<Visit>)
    requires BaseReady(job) && VisitsOk(job, vs) && DiskAfter(job, vs).Some?
    requires forall x :: Shown(job.rows, x) ==> job.base <= PathOf(job.rows, job.base, x)
    ensures AgreeOutside(job.base, job.disk, DiskAfter(job, vs).value)
    decreases |vs|
  {
    if vs != [] {
      var front, v := vs[..|vs| - 1], vs[|vs| - 1];
      WalkStaysInside(job, front);
      WalkKeepsDirs(job, front);
      var d := DiskAfter(job, front).value;
      CallStaysInside(d, job.base, v.path, TextOf(job.texts, v.id));
      hide Shown, PathOf, MkdirAll, WriteFile, WellFormed, VisitsOk, ParentVisited, TextOf;
    }
  }

  // ---- a file with a special name ------------------------------------------------------------------

  /** Directories, once made, stay, and every visited folder is one. */
  ghost predicate DirsStay(job: Job, met: multiset<FileId>, d: Disk) {
    && WellFormed(d)
    && (forall p :: IsDir(job.disk, p) ==> IsDir(d, p))
    && forall x :: x in met && Shown(job.rows, x) && job.rows[x].isFolder ==> IsDir(d, PathOf(job.rows, job.base, x))
  }

  lemma VisitDirIsThere(job: Job, met: multiset<FileId>, x: FileId, d: Disk)
    requires BaseReady(job) && DirsStay(job, met, d)
    requires Shown(job.rows, x) && ParentVisited(job, x, met)
    ensures IsDir(d, DirOf(job, x))
  {
    ShownStep(job.rows, x);
  }

  lemma {:induction false} WalkKeepsDirs(job: Job, vs: seq<Visit>)
    requires BaseReady(job) && VisitsOk(job, vs) && DiskAfter(job, vs).Some?
    ensures DirsStay(job, Met(vs), DiskAfter(job, vs).value)
    decreases |vs|
  {
    if vs != [] {
      var front, v := vs[..|vs| - 1], vs[|vs| - 1];
      WalkKeepsDirs(job, front);
      var d := DiskAfter(job, front).value;
      hide PathOf, MkdirAll, WriteFile, WellFormed, Shown;
      if job.rows[v.id].isFolder { MkdirKeeps(d, v.path); } else { WriteKeeps(d, v.path, TextOf(job.texts, v.id)); }
    }
  }

  /** A walk fails on every file named "", "." or "..", wherever it is and whatever else is visited: its
      path is a directory. */
  lemma {:induction false} SpecialNameFails(job: Job, vs: seq<Visit>, x: FileId)
    requires BaseReady(job) && VisitsOk(job, vs) && x in Met(vs)
    requires x in job.rows && !job.rows[x].isFolder && SpecialName(job.rows[x].name)
    ensures DiskAfter(job, vs) == None
    decreases |vs|
  {
    var front, v := vs[..|vs| - 1], vs[|vs| - 1];
    if x in Met(front) {
      SpecialNameFails(job, front, x);
    } else if DiskAfter(job, front).Some? {
      assert v.id == x;
      WalkKeepsDirs(job, front);
      var d := DiskAfter(job, front).value;
      VisitDirIsThere(job, Met(front), x, d);
      SpecialIsAbove(job, x);
      AboveIsDir(d, v.path, DirOf(job, x));
    }
  }

  /** Moving a file without repeating its name clears the name, so every walk that comes to it fails. */
  lemma MoveWithoutNameFails(job: Job, vs: seq<Visit>, rows: Rows, id: FileId, language: string, parent: FileId)
    requires TakesEffect(rows, Statement.UpdateFile(id, "", language, Some(parent)))
    requires job.rows == Apply(rows, Statement.UpdateFile(id, "", language, Some(parent)))
    requires BaseReady(job) && VisitsOk(job, vs) && id in Met(vs)
    ensures DiskAfter(job, vs) == None
  {
    SpecialNameFails(job, vs, id);
  }

  // ---- exactly when a walk over slash-free names succeeds ------------------------------------------

  ghost predicate FolderAt(job: Job, met: multiset<FileId>, p: Path) {
    exists x :: x in met && Shown(job.rows, x) && job.rows[x].isFolder && PathOf(job.rows, job.base, x) == p
  }

  ghost predicate FileAt(job: Job, met: multiset<FileId>, p: Path) {
    exists x :: x in met && Shown(job.rows, x) && !job.rows[x].isFolder && PathOf(job.rows, job.base, x) == p
  }

  /** A file whose path is a directory's, or a folder whose path is that of a file on the disk. */
  ghost predicate ClashAt(job: Job, met: multiset<FileId>, x: FileId) {
    && Shown(job.rows, x)
    && var p := PathOf(job.rows, job.base, x);
       if job.rows[x].isFolder then IsFile(job.disk, p) else IsDir(job.disk, p) || FolderAt(job, met, p)
  }

  ghost predicate Clash(job: Job, met: multiset<FileId>) {
    exists x :: x in met && ClashAt(job, met, x)
  }

  /** The directories and the files on the disk are those that were there and those that were met. */
  ghost predicate WrittenSoFar(job: Job, met: multiset<FileId>, d: Disk) {
    && WellFormed(d)
    && (forall p :: IsDir(d, p) <==> IsDir(job.disk, p) || FolderAt(job, met, p))
    && (forall p :: IsFile(d, p) <==> IsFile(job.disk, p) || FileAt(job, met, p))
  }

  /** Where a slash-free name leads: to an entry of the directory, or to a directory. */
  lemma PathBelow(job: Job, met: multiset<FileId>, x: FileId, d: Disk)
    requires BaseReady(job) && SlashFree(job.rows) && WrittenSoFar(job, met, d)
    requires Shown(job.rows, x) && ParentVisited(job, x, met)
    ensures var p := PathOf(job.rows, job.base, x);
            && (forall i :: 0 <= i < |p| ==> IsDir(d, p[..i]))
            && (IsDir(d, p) || (p != [] && IsDir(d, p[..|p| - 1])))
  {
    var dir, p := DirOf(job, x), PathOf(job.rows, job.base, x);
    PathStep(job.rows, job.base, x);
    ShownStep(job.rows, x);
    assert IsDir(d, dir);
    if SpecialName(job.rows[x].name) {
      SpecialIsAbove(job, x);
      AboveIsDir(d, p, dir);
    } else {
      JoinNormal(dir, job.rows[x].name);
      assert p[..|p| - 1] == dir;
      forall i | 0 <= i < |p| ensures IsDir(d, p[..i]) {
        assert p[..i] == if i < |dir| then dir[..i] else dir;
      }
    }
  }

  lemma AtAfter(job: Job, met: multiset<FileId>, x: FileId, p: Path)
    requires Shown(job.rows, x)
    ensures FolderAt(job, met + multiset{x}, p) <==>
            FolderAt(job, met, p) || (job.rows[x].isFolder && p == PathOf(job.rows, job.base, x))
    ensures FileAt(job, met + multiset{x}, p) <==>
            FileAt(job, met, p) || (!job.rows[x].isFolder && p == PathOf(job.rows, job.base, x))
  {
    hide Shown, PathOf;
    assert x in met + multiset{x};
    assert forall y :: y in met ==> y in met + multiset{x};
  }

  /** A visit adds a clash iff its path is taken by the other kind. */
  lemma ClashAfter(job: Job, met: multiset<FileId>, x: FileId)
    requires Shown(job.rows, x) && !Clash(job, met)
    ensures var p := PathOf(job.rows, job.base, x);
            Clash(job, met + multiset{x}) <==>
            if job.rows[x].isFolder then IsFile(job.disk, p) || FileAt(job, met, p) else IsDir(job.disk, p) || FolderAt(job, met, p)
  {
    var p, met' := PathOf(job.rows, job.base, x), met + multiset{x};
    forall q { AtAfter(job, met, x, q); }
    hide Shown, PathOf;
    assert x in met';
    if job.rows[x].isFolder && FileAt(job, met, p) {
      var y :| y in met && Shown(job.rows, y) && !job.rows[y].isFolder && PathOf(job.rows, job.base, y) == p;
      assert y in met' && ClashAt(job, met', y);
    }
    if ClashAt(job, met', x) { assert Clash(job, met'); }
    if Clash(job, met') {
      var y :| y in met' && ClashAt(job, met', y);
      assert y in met || y == x;
      assert y in met ==> !ClashAt(job, met, y);
    }
  }

  lemma ClashGrows(job: Job, met: multiset<FileId>, more: multiset<FileId>)
    requires Clash(job, met) && met <= more
    ensures Clash(job, more)
  {
    var x :| x in met && ClashAt(job, met, x);
    assert FolderAt(job, met, PathOf(job.rows, job.base, x)) ==> FolderAt(job, more, PathOf(job.rows, job.base, x));
    assert x in more && ClashAt(job, more, x);
  }

  /** One visit succeeds unless it adds a clash, and what it leaves is again what was met. */
  lemma VisitOutcome(job: Job, met: multiset<FileId>, x: FileId, d: Disk)
    requires BaseReady(job) && SlashFree(job.rows) && WrittenSoFar(job, met, d) && !Clash(job, met)
    requires Shown(job.rows, x) && ParentVisited(job, x, met)
    ensures var p := PathOf(job.rows, job.base, x);
            var after := if job.rows[x].isFolder then MkdirAll(d, p) else WriteFile(d, p, TextOf(job.texts, x));
            && (after.Some? <==> !Clash(job, met + multiset{x}))
            && (after.Some? ==> WrittenSoFar(job, met + multiset{x}, after.value))
  {
    var p := PathOf(job.rows, job.base, x);
    PathBelow(job, met, x, d);
    ClashAfter(job, met, x);
    forall q { AtAfter(job, met, x, q); }
    hide Shown, PathOf, FolderAt, FileAt, Clash, IsDir, IsFile, MkdirAll, WriteFile, WellFormed;
    if job.rows[x].isFolder { MkdirOne(d, p); } else { WriteOne(d, p, TextOf(job.texts, x)); }
  }

  /** Every walk over slash-free names, special ones included, on every disk: it succeeds iff no file it
      visits has the path of a directory and no folder that of a file. The map order does not matter. */
  lemma {:induction false} WalkSucceedsIff(job: Job, vs: seq<Visit>)
    requires BaseReady(job) && SlashFree(job.rows) && VisitsOk(job, vs)
    ensures DiskAfter(job, vs).Some? <==> !Clash(job, Met(vs))
    ensures DiskAfter(job, vs).Some? ==> WrittenSoFar(job, Met(vs), DiskAfter(job, vs).value)
    decreases |vs|
  {
    if vs != [] {
      var front, v := vs[..|vs| - 1], vs[|vs| - 1];
      WalkSucceedsIff(job, front);
      hide PathOf, Clash, WrittenSoFar, MkdirAll, WriteFile, SlashFree;
      assert Met(vs) == Met(front) + multiset{v.id};
      if Clash(job, Met(front)) {
        ClashGrows(job, Met(front), Met(vs));
      } else {
        VisitOutcome(job, Met(front), v.id, DiskAfter(job, front).value);
      }
    }
  }

  /** On any disk and with any names: where several files are written to one path, the text that a walk
      leaves there is that of the last of them. */
  lemma {:induction false} LastWriteWins(job: Job, vs: seq<Visit>, i: nat)
    requires VisitsOk(job, vs) && DiskAfter(job, vs).Some?
    requires i < |vs| && vs[i].id in job.rows && !job.rows[vs[i].id].isFolder
    requires forall j :: i < j < |vs| ==> vs[j].path != vs[i].path
    ensures var d := DiskAfter(job, vs).value;
            vs[i].path in d && d[vs[i].path] == Regular(if vs[i].id in job.texts then job.texts[vs[i].id] else "")
    decreases |vs|
  {
    var front, v := vs[..|vs| - 1], vs[|vs| - 1];
    var d := DiskAfter(job, front).value;
    WriteReplaces(d, v.path, TextOf(job.texts, v.id));
    if i < |front| {
      LastWriteWins(job, front, i);
      MkdirMakes(d, v.path);
    }
    hide Shown, PathOf, MkdirAll, WriteFile;
  }

  // ---- names with slashes ---------------------------------------------------------------------------

  /** A folder "a" and, beside it, a file "a/b". */
  function Slashed(room: RoomId, a: FileId, f: FileId): Rows {
    map[a := Row(room, "a", "", None, true, true), f := Row(room, "a/b", "python", None, false, true)]
  }

  lemma SlashedPaths(job: Job, room: RoomId, a: FileId, f: FileId)
    requires a != f && job.rows == Slashed(room, a, f)
    ensures Shown(job.rows, a) && PathOf(job.rows, job.base, a) == job.base + ["a"]
    ensures Shown(job.rows, f) && PathOf(job.rows, job.base, f) == job.base + ["a"] + ["b"]
  {
    ShownStep(job.rows, a);
    ShownStep(job.rows, f);
    PathStep(job.rows, job.base, a);
    PathStep(job.rows, job.base, f);
    JoinNormal(job.base, "a");
    var s, none: seq<string> := "a/b", [];
    assert s[1..] == "/b" && "/b"[1..] == "b" && s[0] == 'a';
    assert Split("b") == ["b"];
    assert Split("/b") == ["", "b"];
    assert Split(s) == [['a'] + ""] + ["b"] == ["a", "b"];
    assert ["a", "b"][1..] == ["b"] && ["b"][1..] == none;
    var dir := job.base + ["a"];
    assert Clean(dir + ["b"], none) == dir + ["b"];
    assert Clean(dir, ["b"]) == dir + ["b"];
    assert Clean(job.base, ["a", "b"]) == dir + ["b"];
  }

  /** Visiting a root as one more node. */
  lemma VisitRoot(job: Job, vs: seq<Visit>, x: FileId)
    requires VisitsOk(job, vs) && Shown(job.rows, x) && IsRoot(LinksOf(job.rows), x)
    ensures var v := Visit(x, PathOf(job.rows, job.base, x));
            && VisitsOk(job, vs + [v])
            && (DiskAfter(job, vs) == None ==> DiskAfter(job, vs + [v]) == None)
            && (DiskAfter(job, vs).Some? ==> var d := DiskAfter(job, vs).value;
                  DiskAfter(job, vs + [v]) == if job.rows[x].isFolder then MkdirAll(d, v.path) else WriteFile(d, v.path, TextOf(job.texts, x)))
  {
    var v := Visit(x, PathOf(job.rows, job.base, x));
    assert (vs + [v])[..|vs|] == vs && (vs + [v])[|vs|] == v;
    hide Shown, PathOf, MkdirAll, WriteFile;
  }

  lemma SlashedStart(job: Job, room: RoomId, a: FileId, f: FileId)
    requires a != f && job.rows == Slashed(room, a, f)
    ensures IsRoot(LinksOf(job.rows), a) && IsRoot(LinksOf(job.rows), f)
    ensures a in job.rows && f in job.rows && job.rows[a].isFolder && !job.rows[f].isFolder
    ensures VisitsOk(job, []) && DiskAfter(job, []) == Some(job.disk)
  {
  }

  lemma SlashedWrites(d: Disk, base: Path, text: string)
    requires EmptyBase(d, base)
    ensures var dir := base + ["a"];
            && MkdirAll(d, dir).Some? && WriteFile(MkdirAll(d, dir).value, dir + ["b"], text).Some?
            && WriteFile(d, dir + ["b"], text) == None
  {
    var dir := base + ["a"];
    assert (dir + ["b"])[..|dir|] == dir && base < dir && base < dir + ["b"];
    FreshEntry(d, base, "a", "");
    hide MkdirAll, WellFormed;
  }

  /** With slashes in names the map order decides: the same two nodes are written if the folder comes
      first, and fail if the file does. */
  lemma OrderMatters(job: Job, room: RoomId, a: FileId, f: FileId)
    requires a != f && job.rows == Slashed(room, a, f) && EmptyBase(job.disk, job.base)
    ensures Shown(job.rows, a) && Shown(job.rows, f)
    ensures var va, vf := Visit(a, PathOf(job.rows, job.base, a)), Visit(f, PathOf(job.rows, job.base, f));
            && VisitsOk(job, [va, vf]) && DiskAfter(job, [va, vf]).Some?
            && VisitsOk(job, [vf, va]) && DiskAfter(job, [vf, va]) == None
  {
    hide *;
    SlashedPaths(job, room, a, f);
    SlashedWrites(job.disk, job.base, TextOf(job.texts, f));
    SlashedStart(job, room, a, f);
    var va, vf := Visit(a, PathOf(job.rows, job.base, a)), Visit(f, PathOf(job.rows, job.base, f));
    assert [] + [va] == [va] && [] + [vf] == [vf] && [va] + [vf] == [va, vf] && [vf] + [va] == [vf, va];
    VisitRoot(job, [], a);
    VisitRoot(job, [va], f);
    VisitRoot(job, [], f);
    VisitRoot(job, [vf], a);
  }
}
