/** `ReconstructFileTree`: filter, build, walk, and strip the temp directory from the entry path. */
module Reconstruct {
  import opened Wrappers
  import opened Forest
  import opened ForestCover
  import opened FilesTable
  import opened Disk
  import opened TreeBuilder
  import opened TreeWalk
  import opened Materialise
  import opened WalkOutcome

  function Active(files: seq<File>): seq<File> {
    if files == [] then []
    else
      var last := files[|files| - 1];
      Active(files[..|files| - 1]) + if last.row.isActive then [last] else []
  }

  /** The language of the requested file, active or not. */
  function LanguageOf(files: seq<File>, id: FileId): string {
    if files == [] then ""
    else
      var last := files[|files| - 1];
      if last.id == id then last.row.language else LanguageOf(files[..|files| - 1], id)
  }

  /** The files that are built: the active ones, each as often as it is listed, in order. */
  lemma {:induction false} ActiveAreListed(files: seq<File>) returns (places: seq<nat>)
    ensures |places| == |Active(files)| && (forall i, j :: 0 <= i < j < |places| ==> places[i] < places[j])
    ensures forall i :: 0 <= i < |places| ==> places[i] < |files| && Active(files)[i] == files[places[i]] && files[places[i]].row.isActive
    ensures forall k :: 0 <= k < |files| && files[k].row.isActive ==> k in places
    decreases |files|
  {
    if files == [] {
      places := [];
    } else {
      var front, last := files[..|files| - 1], files[|files| - 1];
      assert forall k :: 0 <= k < |front| ==> front[k] == files[k];
      places := ActiveAreListed(front);
      var before, active := places, Active(front);
      assert Active(files) == active + if last.row.isActive then [last] else [];
      hide Active;
      if last.row.isActive {
        places := places + [|front|];
        assert forall k :: k in before ==> k in places;
        assert places[|before|] == |front|;
      }
    }
  }

  /** The language is that of the last listed file with the id, active or not. */
  lemma {:induction false} LanguageIsListed(files: seq<File>, i: nat)
    requires i < |files| && forall j :: i < j < |files| ==> files[j].id != files[i].id
    ensures LanguageOf(files, files[i].id) == files[i].row.language
    decreases |files|
  {
    if i < |files| - 1 {
      LanguageIsListed(files[..|files| - 1], i);
    }
  }

  /** A file that is not listed has no language. */
  lemma {:induction false} UnlistedHasNoLanguage(files: seq<File>, id: FileId)
    requires forall i :: 0 <= i < |files| ==> files[i].id != id
    ensures LanguageOf(files, id) == ""
    decreases |files|
  {
    if files != [] { UnlistedHasNoLanguage(files[..|files| - 1], id); }
  }

  function TempDir(executionId: string): string {
    "/tmp/exec-" + executionId
  }

  function BaseOf(executionId: string): Path {
    Clean([], Split(TempDir(executionId)))
  }

  lemma {:induction false} SplitFirst(name: string, rest: string)
    requires '/' !in name
    ensures Split(name + "/" + rest) == [name] + Split(rest)
  {
    var whole := name + "/" + rest;
    if name == "" {
      assert whole == "/" + rest;
      assert whole[1..] == rest;
    } else {
      SplitFirst(name[1..], rest);
      var tail := [name[1..]] + Split(rest);
      assert whole[1..] == name[1..] + "/" + rest;
      assert whole[0] == name[0];
      assert Split(whole) == [[name[0]] + tail[0]] + tail[1..];
      assert [name[0]] + name[1..] == name && tail[1..] == Split(rest);
    }
  }

  lemma CleanTwo(a: string, b: string)
    requires NormalName(a) && NormalName(b)
    ensures Clean([], ["", a, b]) == [a, b]
  {
    var parts := ["", a, b];
    var none: seq<string> := [];
    assert parts[1..] == [a, b] && [a, b][1..] == [b] && [b][1..] == none && [a] + [b] == [a, b];
    assert Clean([a, b], none) == [a, b];
    assert Clean([a], [b]) == [a, b];
    assert none + [a] == [a];
    assert Clean(none, [a, b]) == [a, b];
  }

  lemma BasePath(executionId: string)
    requires '/' !in executionId
    ensures BaseOf(executionId) == ["tmp", "exec-" + executionId]
    ensures Render(BaseOf(executionId)) == TempDir(executionId)
  {
    hide Split, Clean;
    var dir := "exec-" + executionId;
    assert TempDir(executionId) == "" + "/" + ("tmp" + "/" + dir);
    SplitFirst("", "tmp" + "/" + dir);
    SplitFirst("tmp", dir);
    assert dir[0] == 'e' && Split(dir) == [dir];
    assert Split(TempDir(executionId)) == ["", "tmp", dir];
    CleanTwo("tmp", dir);
    assert ["tmp", dir][..1] == ["tmp"];
    RenderAppend([], ["tmp", dir]);
    assert [] + ["tmp", dir] == ["tmp", dir];
    assert SlashJoin(["tmp"]) == "tmp";
    assert SlashJoin(["tmp", dir]) == "tmp" + "/" + dir;
  }

  /** The temp directory can be made and nothing is in it yet. */
  predicate Unused(d: Disk, base: Path) {
    WellFormed(d) && MkdirAll(d, base).Some? && forall p :: p in d ==> !(base < p)
  }

  /** The temp directory of a new execution can be made wherever /tmp is a directory. */
  lemma NewTempDirIsUnused(d: Disk, executionId: string)
    requires WellFormed(d) && '/' !in executionId && ["tmp"] in d && d[["tmp"]] == Dir
    requires forall p :: p in d ==> !(BaseOf(executionId) <= p)
    ensures Unused(d, BaseOf(executionId))
  {
    var base := BaseOf(executionId);
    BasePath(executionId);
    assert ["tmp"][..0] == [] && base[..0] == [] && base[..1] == ["tmp"] && base[..2] == base;
    hide Split, Clean, BaseOf;
  }

  lemma MadeEmpty(d: Disk, base: Path)
    requires Unused(d, base)
    ensures EmptyBase(MkdirAll(d, base).value, base)
    ensures forall p :: p in d ==> p in MkdirAll(d, base).value && MkdirAll(d, base).value[p] == d[p]
    ensures forall p :: p in MkdirAll(d, base).value ==> p in d || p <= base
  {
    var d' := MkdirAll(d, base).value;
    assert base[..|base|] == base;
    assert base in Prefixes(base);
    forall p | p in Prefixes(base) ensures p <= base && (p in d ==> d[p] == Dir) {
      var i :| 0 <= i <= |base| && p == base[..i];
    }
    forall p, i | p in d' && 0 <= i < |p| ensures p[..i] in d' && d'[p[..i]] == Dir {
      if p in Prefixes(base) {
        var j :| 0 <= j <= |base| && p == base[..j];
        assert p[..i] == base[..i];
        assert p[..i] in Prefixes(base);
      } else {
        assert p[..i] in d && d[p[..i]] == Dir;
      }
    }
  }

  /** os.RemoveAll */
  function RemoveAll(d: Disk, base: Path): Disk {
    map p | p in d && !(base <= p) :: d[p]
  }

  ghost predicate IsShownPath(rows: Rows, base: Path, p: Path) {
    exists x :: Shown(rows, x) && PathOf(rows, base, x) == p
  }

  /** What a complete walk from the roots leaves behind. */
  ghost predicate TreeWritten(rows: Rows, texts: map<FileId, string>, base: Path, before: Disk, after: Disk) {
    && (forall x :: Shown(rows, x) ==> HasEntry(rows, texts, base, x, after))
    && (forall p :: p in before ==> p in after && after[p] == before[p])
    && (forall p :: p in after ==> p in before || p <= base || IsShownPath(rows, base, p))
  }

  lemma WalkWrites(job: Job, vs: seq<Visit>, before: Disk)
    requires NamesOk(job.rows) && Unused(before, job.base) && MkdirAll(before, job.base) == Some(job.disk)
    requires VisitsOk(job, vs)
    requires forall x :: Met(vs)[x] <= 1
    ensures DiskAfter(job, vs).Some?
    ensures (forall x :: x in Met(vs) <==> Shown(job.rows, x)) ==> TreeWritten(job.rows, job.texts, job.base, before, DiskAfter(job, vs).value)
  {
    hide DiskAfter, Met, VisitsOk, NamesOk, WellFormed, MkdirAll, PathOf, EmptyBase, HasEntry, Grounded, Reaches;
    MadeEmpty(before, job.base);
    WalkMaterialises(job, vs);
    if forall x :: x in Met(vs) <==> Shown(job.rows, x) {
      var after := DiskAfter(job, vs).value;
      forall p | p in after && p !in job.disk ensures IsShownPath(job.rows, job.base, p) {
        assert IsMetPath(job.rows, job.base, Met(vs), p);
      }
    }
  }

  /** The roots of the built forest are a sound start of the walk. */
  lemma RootsStart(job: Job, met: multiset<FileId>)
    ensures StartsOk(job, Roots(LinksOf(job.rows)), job.base, met)
  {
    var l := LinksOf(job.rows);
    RootsAntichain(l);
    forall r | r in Roots(l) ensures StartOk(job, r, job.base, met) {
      ShownStep(job.rows, r);
      PathStep(job.rows, job.base, r);
    }
  }

  /** The entry path is the slash-joined chain of names of the requested file. */
  ghost predicate EntryNamed(rows: Rows, id: FileId, entry: string) {
    && (!Shown(rows, id) ==> entry == "")
    && (Shown(rows, id) ==> forall k: nat :: Up(LinksOf(rows), id, k) == None ==> entry == SlashJoin(NamesUpTo(rows, id, k)))
  }

  lemma EntryIsNames(rows: Rows, executionId: string, id: FileId)
    requires NamesOk(rows) && '/' !in executionId && Shown(rows, id)
    ensures EntryNamed(rows, id, TrimPrefix(Render(PathOf(rows, BaseOf(executionId), id)), TempDir(executionId) + "/"))
  {
    var base := BaseOf(executionId);
    BasePath(executionId);
    forall k: nat | Up(LinksOf(rows), id, k) == None
      ensures TrimPrefix(Render(PathOf(rows, base, id)), TempDir(executionId) + "/") == SlashJoin(NamesUpTo(rows, id, k))
    {
      PathIsNames(rows, base, id, k);
      TrimRendered(base, NamesUpTo(rows, id, k));
    }
  }

  // ---- when a whole walk succeeds --------------------------------------------------------------

  /** Some shown file is named "", "." or "..". */
  ghost predicate HasSpecialFile(rows: Rows) {
    exists x :: Shown(rows, x) && !rows[x].isFolder && SpecialName(rows[x].name)
  }

  /** The paths of the shown nodes clash with one another or with the disk. */
  ghost predicate TreeClashes(job: Job) {
    Clash(job, multiset(ShownIds(job.rows)))
  }

  lemma BaseIsMade(job: Job, before: Disk)
    requires WellFormed(before) && MkdirAll(before, job.base) == Some(job.disk)
    ensures BaseReady(job)
  {
    MkdirKeeps(before, job.base);
  }

  /** A walk that stops short has a clash among the shown nodes, and a complete one has none. */
  lemma OutcomeOfWalk(job: Job, vs: seq<Visit>, ok: bool)
    requires BaseReady(job) && VisitsOk(job, vs) && (ok <==> DiskAfter(job, vs).Some?)
    requires Met(vs) <= multiset(ShownIds(job.rows)) && (ok ==> Met(vs) == multiset(ShownIds(job.rows)))
    ensures SlashFree(job.rows) ==> (ok <==> !TreeClashes(job))
    ensures HasSpecialFile(job.rows) ==> !ok
  {
    hide DiskAfter, VisitsOk, Met, Clash, BaseReady;
    if SlashFree(job.rows) {
      WalkSucceedsIff(job, vs);
      if !ok { ClashGrows(job, Met(vs), multiset(ShownIds(job.rows))); }
    }
    if ok && HasSpecialFile(job.rows) {
      var x :| Shown(job.rows, x) && !job.rows[x].isFolder && SpecialName(job.rows[x].name);
      assert x in Met(vs);
      SpecialNameFails(job, vs, x);
    }
  }

  /** Every shown path lies inside the temp directory. */
  ghost predicate StaysBelow(rows: Rows, base: Path) {
    forall x :: Shown(rows, x) ==> base <= PathOf(rows, base, x)
  }

  /** What a walk, complete or not, leaves of the disk. */
  lemma WalkLeaves(job: Job, vs: seq<Visit>, ok: bool, d: Disk)
    requires BaseReady(job) && VisitsOk(job, vs)
    requires if ok then DiskAfter(job, vs) == Some(d) else vs != [] && DiskAfter(job, vs[..|vs| - 1]) == Some(d)
    ensures Persists(job.disk, d)
    ensures StaysBelow(job.rows, job.base) ==> AgreeOutside(job.base, job.disk, d)
  {
    hide DiskAfter, BaseReady, Persists, AgreeOutside, Shown, PathOf;
    var done := if ok then vs else vs[..|vs| - 1];
    WalkPersists(job, done);
    if StaysBelow(job.rows, job.base) { WalkStaysInside(job, done); }
  }

  /** The nodes below the roots that the walk shows are all the shown ones. */
  lemma BelowRootsIsShown(rows: Rows)
    ensures Cover(LinksOf(rows), ShownIds(rows), Roots(LinksOf(rows))) == ShownIds(rows)
  {
    RootsCoverGrounded(LinksOf(rows), ShownIds(rows));
  }

  /** The first loop: the active files, and the language of the requested one. */
  method SelectActive(allFiles: seq<File>, fileId: FileId) returns (files: seq<File>, language: string)
    ensures files == Active(allFiles) && language == LanguageOf(allFiles, fileId)
  {
    files, language := [], "";
    for i := 0 to |allFiles|
      invariant files == Active(allFiles[..i]) && language == LanguageOf(allFiles[..i], fileId)
    {
      assert allFiles[..i + 1][..i] == allFiles[..i];
      if allFiles[i].id == fileId { language := allFiles[i].row.language; }
      if allFiles[i].row.isActive { files := files + [allFiles[i]]; }
    }
    assert allFiles[..|allFiles|] == allFiles;
  }

  lemma NothingWalked(job: Job)
    ensures VisitsOk(job, []) && EntryOk(job, None, Met([])) && DiskAfter(job, []) == Some(job.disk) && Met([]) == multiset{}
  {
  }

  /** Builds the tree of the given files, logs it and walks it from the base directory. */
  method WalkRoots(files: seq<File>, job: Job)
    returns (ok: bool, disk': Disk, entryPath: Option<Path>, ghost visits: seq<Visit>)
    requires job.rows == FileRows(files)
    ensures VisitsOk(job, visits) && EntryOk(job, entryPath, Met(visits))
    ensures if ok then DiskAfter(job, visits) == Some(disk')
            else DiskAfter(job, visits) == None && visits != [] && DiskAfter(job, visits[..|visits| - 1]) == Some(disk')
    ensures Progress(Met(visits), multiset{}, multiset(ShownIds(job.rows)), ok)
  {
    var roots, all := BuildTree(files);
    RootsAntichain(LinksOf(job.rows));
    RootsStart(job, Met([]));
    BelowRootsIsShown(job.rows);
    NothingWalked(job);
    hide Shown, ShownIds, VisitsOk, EntryOk, DiskAfter, Met, StartsOk, Antichain, Roots, Cover, LinksOf, Grounded;
    var printed := PrintTree(roots, job.rows, all);
    var ws := new Workspace(job.disk);
    ok := WalkTree(roots, job.base, ws, job, all);
    disk', entryPath, visits := ws.disk, ws.entryPath, ws.visits;
  }

  /** The tree of the given files, written below the base directory. */
  method WriteTree(files: seq<File>, job: Job, ghost before: Disk) returns (ok: bool, disk': Disk, entryPath: Option<Path>)
    requires job.rows == FileRows(files) && MkdirAll(before, job.base) == Some(job.disk)
    ensures NamesOk(job.rows) && Unused(before, job.base) ==> ok
    ensures ok && NamesOk(job.rows) && Unused(before, job.base) ==> TreeWritten(job.rows, job.texts, job.base, before, disk')
    ensures ok ==> entryPath == if Shown(job.rows, job.entry) then Some(PathOf(job.rows, job.base, job.entry)) else None
    ensures WellFormed(before) && SlashFree(job.rows) ==> (ok <==> !TreeClashes(job))
    ensures WellFormed(before) && HasSpecialFile(job.rows) ==> !ok
    ensures WellFormed(before) ==> Persists(job.disk, disk')
    ensures WellFormed(before) && StaysBelow(job.rows, job.base) ==> AgreeOutside(job.base, job.disk, disk')
  {
    ghost var visits: seq<Visit>;
    ok, disk', entryPath, visits := WalkRoots(files, job);
    MetOnce(job.rows, Met(visits), ok);
    hide *;
    if WellFormed(before) {
      BaseIsMade(job, before);
      WalkLeaves(job, visits, ok, disk');
      OutcomeOfWalk(job, visits, ok);
    }
    if ok { EntryOfWalk(job, entryPath, Met(visits)); }
    if NamesOk(job.rows) && Unused(before, job.base) { WalkWrites(job, visits, before); }
  }

  /** A walk meets each shown node once at most, and a complete one meets them all. */
  lemma MetOnce(rows: Rows, met: multiset<FileId>, ok: bool)
    requires Progress(met, multiset{}, multiset(ShownIds(rows)), ok)
    ensures forall x :: met[x] <= 1
    ensures met <= multiset(ShownIds(rows)) && (ok ==> met == multiset(ShownIds(rows)))
    ensures ok ==> forall x :: x in met <==> Shown(rows, x)
  {
  }

  lemma EntryOfWalk(job: Job, entryPath: Option<Path>, met: multiset<FileId>)
    requires EntryOk(job, entryPath, met) && forall x :: x in met <==> Shown(job.rows, x)
    ensures entryPath == if Shown(job.rows, job.entry) then Some(PathOf(job.rows, job.base, job.entry)) else None
  {
  }

  /** After a failure nothing is left in the temp directory, and what was on the disk outside it is still
      there; if every shown path lies inside, it is just as it was. */
  ghost predicate Cleaned(rows: Rows, base: Path, disk: Disk, disk': Disk) {
    var made := MkdirAll(disk, base);
    if made == None then disk' == disk
    else
      && (forall p :: p in disk' ==> !(base <= p))
      && (WellFormed(disk) ==> forall p :: p in disk && !(base <= p) ==> p in disk' && (disk[p] == Dir ==> disk'[p] == Dir))
      && (WellFormed(disk) && StaysBelow(rows, base) ==>
            forall p :: !(base <= p) ==> (p in disk' <==> p in disk || p < base) && (p in disk ==> disk'[p] == disk[p]))
  }

  lemma FailureCleans(job: Job, disk: Disk, written: Disk)
    requires MkdirAll(disk, job.base) == Some(job.disk)
    requires WellFormed(disk) ==> Persists(job.disk, written)
    requires WellFormed(disk) && StaysBelow(job.rows, job.base) ==> AgreeOutside(job.base, job.disk, written)
    ensures Cleaned(job.rows, job.base, disk, RemoveAll(written, job.base))
  {
    hide WellFormed, StaysBelow;
    forall p ensures p in job.disk <==> p in disk || p <= job.base {
      if p <= job.base { assert p == job.base[..|p|] && p in Prefixes(job.base); }
      if p in Prefixes(job.base) { var i :| 0 <= i <= |job.base| && p == job.base[..i]; }
    }
    forall p | p in disk ensures p in job.disk && job.disk[p] == disk[p] {
      if p in Prefixes(job.base) { var i :| 0 <= i <= |job.base| && p == job.base[..i]; }
    }
  }

  /** Builds a room's tree in a temp directory. `decoded` holds the texts of the documents, or None if
      one of them could not be loaded or decoded. */
  method ReconstructFileTree(allFiles: seq<File>, decoded: Option<map<FileId, string>>, fileId: FileId, executionId: string, disk: Disk)
    returns (r: Result<(string, string, string), ()>, disk': Disk)
    ensures decoded == None ==> r.Err? && disk' == disk
    ensures r.Ok? ==> r.value.0 == TempDir(executionId) && r.value.2 == LanguageOf(allFiles, fileId)
    ensures r.Err? && decoded.Some? ==> Cleaned(FileRows(Active(allFiles)), BaseOf(executionId), disk, disk')
    ensures decoded.Some? && NamesOk(FileRows(Active(allFiles))) && '/' !in executionId && Unused(disk, BaseOf(executionId)) ==>
      && r.Ok?
      && TreeWritten(FileRows(Active(allFiles)), decoded.value, BaseOf(executionId), disk, disk')
      && EntryNamed(FileRows(Active(allFiles)), fileId, r.value.1)
    ensures var rows, made := FileRows(Active(allFiles)), MkdirAll(disk, BaseOf(executionId));
            decoded.Some? && made.Some? && WellFormed(disk) ==>
              && (SlashFree(rows) ==> (r.Ok? <==> !TreeClashes(Job(rows, decoded.value, BaseOf(executionId), made.value, fileId))))
              && (HasSpecialFile(rows) ==> r.Err?)
  {
    hide TreeClashes, HasSpecialFile, SlashFree, PathOf, NamesOk, WellFormed, TreeWritten, Split, Clean, Grounded, Reaches;
    hide Persists, AgreeOutside, StaysBelow;
    var files, language := SelectActive(allFiles, fileId);
    if decoded == None { return Err(()), disk; }
    var base := BaseOf(executionId);
    var made := MkdirAll(disk, base);
    if made == None { return Err(()), disk; }
    var job := Job(FileRows(files), decoded.value, base, made.value, fileId);
    var ok, written, entryPath := WriteTree(files, job, disk);
    if !ok {
      FailureCleans(job, disk, written);
      return Err(()), RemoveAll(written, base);
    }
    var entry := if entryPath.Some? then Render(entryPath.value) else "";
    if NamesOk(job.rows) && '/' !in executionId && Shown(job.rows, fileId) { EntryIsNames(job.rows, executionId, fileId); }
    r, disk' := Ok((TempDir(executionId), TrimPrefix(entry, TempDir(executionId) + "/"), language)), written;
  }

  /** On a forest the logged tree is a permutation of the uniquely identified files. */
  lemma PrintedIsPermutation(files: seq<File>, printed: seq<FileId>)
    requires forall i, j :: 0 <= i < j < |files| ==> files[i].id != files[j].id
    requires Acyclic(LinksOf(FileRows(files)))
    requires multiset(printed) == multiset(Cover(LinksOf(FileRows(files)), FileRows(files).Keys, Roots(LinksOf(FileRows(files)))))
    ensures multiset(printed) == multiset(seq(|files|, i requires 0 <= i < |files| => files[i].id))
  {
    var l := LinksOf(FileRows(files));
    AcyclicIffGrounded(l);
    RootsCoverGrounded(l, FileRows(files).Keys);
    UniqueIdsCount(files);
  }

  lemma {:induction false} UniqueIdsCount(files: seq<File>)
    requires forall i, j :: 0 <= i < j < |files| ==> files[i].id != files[j].id
    ensures multiset(FileRows(files).Keys) == multiset(seq(|files|, i requires 0 <= i < |files| => files[i].id))
    decreases |files|
  {
    if files != [] {
      var front, last := files[..|files| - 1], files[|files| - 1];
      UniqueIdsCount(front);
      IdsOfRows(front);
      var ids := seq(|files|, i requires 0 <= i < |files| => files[i].id);
      assert ids == seq(|front|, i requires 0 <= i < |front| => front[i].id) + [last.id];
      assert forall i :: 0 <= i < |front| ==> front[i].id != last.id;
      assert FileRows(files).Keys == FileRows(front).Keys + {last.id};
    }
  }
}
