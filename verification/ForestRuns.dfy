/** What every run of table statements keeps: parents exist, and links stay acyclic exactly as long
    as no folder or file is moved into its own subtree. */
module ForestRuns {
  import opened Wrappers
  import opened Forest
  import opened FilesTable

  ghost predicate IsForest(rows: Rows) {
    Acyclic(LinksOf(rows))
  }

  /** The row a statement puts under another row, with its new parent. */
  ghost function Moves(rows: Rows, s: Statement): Option<(FileId, FileId)> {
    if !TakesEffect(rows, s) then None
    else
      match s
      case UpdateFile(id, _, _, Some(p)) => Some((id, p))
      case UpdateFolder(id, _, Some(p)) => Some((id, p))
      case MoveFolder(id, Some(p)) => Some((id, p))
      case _ => None
  }

  /** The check the code does not make: the new parent lies outside the moved subtree. */
  ghost predicate SafeMove(rows: Rows, s: Statement) {
    var m := Moves(rows, s);
    m.Some? ==> m.value.1 !in Subtree(LinksOf(rows), m.value.0)
  }

  lemma ParentsKeepExisting(rows: Rows, s: Statement)
    requires ParentsExist(rows)
    ensures ParentsExist(Apply(rows, s))
  {
  }

  lemma MoveRelinks(rows: Rows, s: Statement)
    requires Moves(rows, s).Some?
    ensures var m := Moves(rows, s).value;
            m.0 in rows && LinksOf(Apply(rows, s)) == LinksOf(rows)[m.0 := Some(m.1)]
  {
  }

  lemma OthersShrinkLinks(rows: Rows, s: Statement)
    requires Moves(rows, s) == None && !s.Create?
    ensures LinksShrink(LinksOf(rows), LinksOf(Apply(rows, s)))
  {
  }

  lemma CreateAddsLink(rows: Rows, s: Statement)
    requires s.Create?
    ensures Apply(rows, s) == rows ||
            (s.id !in rows && ParentOk(rows, s.row.parent) && LinksOf(Apply(rows, s)) == LinksOf(rows)[s.id := s.row.parent])
  {
  }

  /** One statement: create, toggle and delete always keep a forest; a move does iff it is safe. */
  lemma StepKeepsForest(rows: Rows, s: Statement)
    requires ParentsExist(rows) && IsForest(rows)
    ensures IsForest(Apply(rows, s)) <==> SafeMove(rows, s)
  {
    var l := LinksOf(rows);
    var m := Moves(rows, s);
    hide Apply, Acyclic, LinksShrink;
    if m.Some? {
      MoveRelinks(rows, s);
      RelinkAcyclic(l, m.value.0, m.value.1);
    } else if s.Create? {
      CreateAddsLink(rows, s);
      if Apply(rows, s) != rows { FreshKeepsAcyclic(l, s.id, s.row.parent); }
    } else {
      OthersShrinkLinks(rows, s);
      ShrinkKeepsAcyclic(l, LinksOf(Apply(rows, s)));
    }
  }

  ghost function Run(rows: Rows, ss: seq<Statement>): Rows
    decreases |ss|
  {
    if ss == [] then rows else Run(Apply(rows, ss[0]), ss[1..])
  }

  ghost predicate SafeThroughout(rows: Rows, ss: seq<Statement>)
    decreases |ss|
  {
    ss != [] ==> SafeMove(rows, ss[0]) && SafeThroughout(Apply(rows, ss[0]), ss[1..])
  }

  ghost predicate ForestThroughout(rows: Rows, ss: seq<Statement>)
    decreases |ss|
  {
    IsForest(rows) && (ss != [] ==> ForestThroughout(Apply(rows, ss[0]), ss[1..]))
  }

  /** Every run of statements: a forest in every state iff every move was safe when it was made. */
  lemma {:induction false} RunKeepsForest(rows: Rows, ss: seq<Statement>)
    requires ParentsExist(rows) && IsForest(rows)
    ensures ParentsExist(Run(rows, ss))
    ensures ForestThroughout(rows, ss) <==> SafeThroughout(rows, ss)
    ensures SafeThroughout(rows, ss) ==> IsForest(Run(rows, ss)) && forall r :: !OnCycle(LinksOf(Run(rows, ss)), r)
    decreases |ss|
  {
    if ss == [] {
      OffTableNoCycle(rows);
    } else {
      var next := Apply(rows, ss[0]);
      ParentsKeepExisting(rows, ss[0]);
      StepKeepsForest(rows, ss[0]);
      if IsForest(next) {
        RunKeepsForest(next, ss[1..]);
      } else {
        ParentsExistAfter(next, ss[1..]);
      }
    }
  }

  lemma OffTableNoCycle(rows: Rows)
    requires IsForest(rows)
    ensures forall r :: !OnCycle(LinksOf(rows), r)
  {
  }

  lemma {:induction false} ParentsExistAfter(rows: Rows, ss: seq<Statement>)
    requires ParentsExist(rows)
    ensures ParentsExist(Run(rows, ss))
    decreases |ss|
  {
    if ss != [] {
      ParentsKeepExisting(rows, ss[0]);
      ParentsExistAfter(Apply(rows, ss[0]), ss[1..]);
    }
  }

  // ---- parents that are folders ------------------------------------------------

  predicate ParentsAreFolders(rows: Rows) {
    forall x :: x in rows && rows[x].parent.Some? ==> rows[x].parent.value in rows && rows[rows[x].parent.value].isFolder
  }

  /** The parent a statement asks for, if any. */
  function Asked(s: Statement): Option<FileId> {
    match s
    case Create(_, row) => row.parent
    case UpdateFile(_, _, _, p) => p
    case UpdateFolder(_, _, p) => p
    case MoveFolder(_, p) => p
    case _ => None
  }

  /** As long as clients only name folders as parents, parents stay folders and moving a file is always safe. */
  lemma FilesMoveSafely(rows: Rows, s: Statement)
    requires ParentsAreFolders(rows)
    requires Asked(s).Some? && Asked(s).value in rows ==> rows[Asked(s).value].isFolder
    ensures ParentsAreFolders(Apply(rows, s))
    ensures s.UpdateFile? ==> SafeMove(rows, s)
  {
    if s.UpdateFile? && Moves(rows, s).Some? {
      var l := LinksOf(rows);
      forall k: nat ensures Up(l, s.parent.value, k) != Some(s.id) {
        FileHasNoChildren(rows, s.id, s.parent.value, k);
      }
    }
  }

  lemma {:induction false} FileHasNoChildren(rows: Rows, file: FileId, y: FileId, k: nat)
    requires ParentsAreFolders(rows) && file in rows && !rows[file].isFolder && y != file
    ensures Up(LinksOf(rows), y, k) != Some(file)
    decreases k
  {
    if k > 0 && y in rows && rows[y].parent.Some? {
      FileHasNoChildren(rows, file, rows[y].parent.value, k - 1);
    }
  }

  // ---- toggling and deleting a subtree -------------------------------------------

  /** After a toggle the subtree carries one flag, the negation of its root's; nothing else changed. */
  lemma ToggleIsUniform(rows: Rows, id: FileId)
    requires id in rows && !OnCycle(LinksOf(rows), id)
    ensures var rows' := Apply(rows, ToggleFolder(id));
            && LinksOf(rows') == LinksOf(rows)
            && (forall x :: x in Subtree(LinksOf(rows), id) ==> rows'[x] == rows[x].(isActive := !rows[id].isActive))
            && (forall x :: x in rows && x !in Subtree(LinksOf(rows), id) ==> rows'[x] == rows[x])
  {
  }

  /** Toggling twice restores the table exactly when the subtree carried one flag to begin with, or the
      toggle never took effect. */
  lemma ToggleTwiceRestoresIffUniform(rows: Rows, id: FileId)
    requires id in rows
    ensures Apply(Apply(rows, ToggleFolder(id)), ToggleFolder(id)) == rows <==>
            OnCycle(LinksOf(rows), id) || forall x :: x in Subtree(LinksOf(rows), id) ==> rows[x].isActive == rows[id].isActive
  {
    if !OnCycle(LinksOf(rows), id) {
      var once := Apply(rows, ToggleFolder(id));
      var twice := Apply(once, ToggleFolder(id));
      ToggleIsUniform(rows, id);
      ToggleIsUniform(once, id);
      ReachesSelf(LinksOf(rows), id);
      assert id in Subtree(LinksOf(rows), id);
      forall x | x in Subtree(LinksOf(rows), id) ensures twice[x] == rows[x].(isActive := rows[id].isActive) {}
      if forall x :: x in Subtree(LinksOf(rows), id) ==> rows[x].isActive == rows[id].isActive {
        assert forall x :: x in rows ==> twice[x] == rows[x];
      }
    }
  }

  /** A permanent delete that ends removes the subtree and touches no other row: ON DELETE SET NULL
      never fires. */
  lemma DeleteRemovesSubtree(rows: Rows, id: FileId)
    ensures var rows' := Apply(rows, PermanentDelete(id));
            && rows'.Keys == rows.Keys - (if OnCycle(LinksOf(rows), id) then {} else Subtree(LinksOf(rows), id))
            && forall x :: x in rows' ==> rows'[x] == rows[x]
  {
    var l := LinksOf(rows);
    forall x | x in rows && x !in Subtree(l, id) && rows[x].parent.Some?
      ensures rows[x].parent.value !in Subtree(l, id)
    {
      ReachesStep(l, x, id);
    }
  }
}
