/** Names of any form, slashes included: when the files of a room stay inside the temp directory, and
    when their paths are sound whatever that directory is called. */
module Containment {
  import opened Wrappers
  import opened Forest
  import opened FilesTable
  import opened Disk
  import opened TreeWalk
  import opened Materialise

  /** The components of the names from the root down to x. */
  ghost function PartsUpTo(rows: Rows, x: FileId, k: nat): seq<string>
    requires x in rows && Up(LinksOf(rows), x, k) == None
    decreases k
  {
    (if IsRoot(LinksOf(rows), x) then [] else PartsUpTo(rows, rows[x].parent.value, k - 1)) + Split(rows[x].name)
  }

  /** Following the components from `depth` levels down never climbs above the start. */
  predicate StaysInside(parts: seq<string>, depth: nat)
    decreases |parts|
  {
    parts == [] ||
    (if parts[0] == "" || parts[0] == "." then StaysInside(parts[1..], depth)
     else if parts[0] == ".." then depth > 0 && StaysInside(parts[1..], depth - 1)
     else StaysInside(parts[1..], depth + 1))
  }

  /** x's chain of names never climbs above the directory it starts in. */
  ghost predicate NeverClimbs(rows: Rows, x: FileId) {
    x in rows && forall k: nat :: Up(LinksOf(rows), x, k) == None ==> StaysInside(PartsUpTo(rows, x, k), 0)
  }

  lemma {:induction false} CleanAppend(dir: Path, a: seq<string>, b: seq<string>)
    ensures Clean(dir, a + b) == Clean(Clean(dir, a), b)
    decreases |a|
  {
    if a == [] {
      assert a + b == b;
    } else {
      assert (a + b)[1..] == a[1..] + b;
      CleanAppend(Follow(dir, a[0]), a[1..], b);
    }
  }

  /** Joining name by name is cleaning the whole chain of components at once. */
  lemma {:induction false} PathIsCleaned(rows: Rows, base: Path, x: FileId, k: nat)
    requires Grounded(LinksOf(rows), x) && Up(LinksOf(rows), x, k) == None
    ensures PathOf(rows, base, x) == Clean(base, PartsUpTo(rows, x, k))
    decreases k
  {
    PathStep(rows, base, x);
    GroundedStep(LinksOf(rows), x);
    if IsRoot(LinksOf(rows), x) {
      assert [] + Split(rows[x].name) == Split(rows[x].name);
    } else {
      var p := rows[x].parent.value;
      PathIsCleaned(rows, base, p, k - 1);
      CleanAppend(base, PartsUpTo(rows, p, k - 1), Split(rows[x].name));
    }
  }

  lemma {:induction false} InsideKeepsBase(base: Path, rel: Path, parts: seq<string>)
    requires StaysInside(parts, |rel|)
    ensures Clean(base + rel, parts) == base + Clean(rel, parts)
    decreases |parts|
  {
    if parts != [] {
      var c := parts[0];
      if c == "" || c == "." {
        InsideKeepsBase(base, rel, parts[1..]);
      } else if c == ".." {
        assert (base + rel)[..|base + rel| - 1] == base + rel[..|rel| - 1];
        InsideKeepsBase(base, rel[..|rel| - 1], parts[1..]);
      } else {
        assert (base + rel) + [c] == base + (rel + [c]);
        InsideKeepsBase(base, rel + [c], parts[1..]);
      }
    }
  }

  /** A name longer than every component. */
  function Fresh(parts: seq<string>): (s: string)
    ensures forall c :: c in parts ==> |c| < |s|
    ensures s != ""
  {
    if parts == [] then "x" else parts[0] + Fresh(parts[1..])
  }

  lemma {:induction false} CleanInventsNothing(dir: Path, parts: seq<string>, c: string)
    requires c !in dir && c !in parts
    ensures c !in Clean(dir, parts)
    decreases |parts|
  {
    if parts != [] {
      CleanInventsNothing(Follow(dir, parts[0]), parts[1..], c);
    }
  }

  /** Components that climb leave a base directory of another name behind for good. */
  lemma {:induction false} ClimbingLosesBase(name: string, rel: Path, parts: seq<string>)
    requires !StaysInside(parts, |rel|) && name !in rel && name !in parts
    ensures name !in Clean([name] + rel, parts)
    decreases |parts|
  {
    var c := parts[0];
    var dir := [name] + rel;
    if c == "" || c == "." {
      ClimbingLosesBase(name, rel, parts[1..]);
    } else if c == ".." {
      if rel == [] {
        assert dir[..|dir| - 1] == [];
        CleanInventsNothing([], parts[1..], name);
      } else {
        assert dir[..|dir| - 1] == [name] + rel[..|rel| - 1];
        ClimbingLosesBase(name, rel[..|rel| - 1], parts[1..]);
      }
    } else {
      assert dir + [c] == [name] + (rel + [c]);
      ClimbingLosesBase(name, rel + [c], parts[1..]);
    }
  }

  /** A file stays inside the temp directory, whatever that is called, iff its chain of names never
      climbs above it. */
  lemma ContainedIffNeverClimbs(rows: Rows, x: FileId)
    requires Grounded(LinksOf(rows), x)
    ensures (forall base: Path :: base <= PathOf(rows, base, x)) <==> NeverClimbs(rows, x)
  {
    if NeverClimbs(rows, x) {
      forall base: Path ensures base <= PathOf(rows, base, x) { InsidePath(rows, base, x); }
    } else {
      var k: nat :| Up(LinksOf(rows), x, k) == None && !StaysInside(PartsUpTo(rows, x, k), 0);
      var parts := PartsUpTo(rows, x, k);
      var base := [Fresh(parts)];
      PathIsCleaned(rows, base, x, k);
      assert base + [] == base;
      ClimbingLosesBase(Fresh(parts), [], parts);
      assert base[0] in base;
    }
  }

  /** A path that never climbs is the base followed by the path it would have from nothing. */
  lemma InsidePath(rows: Rows, base: Path, x: FileId)
    requires Grounded(LinksOf(rows), x) && NeverClimbs(rows, x)
    ensures PathOf(rows, base, x) == base + PathOf(rows, [], x)
  {
    var k: nat :| Up(LinksOf(rows), x, k) == None;
    var parts := PartsUpTo(rows, x, k);
    PathIsCleaned(rows, base, x, k);
    PathIsCleaned(rows, [], x, k);
    InsideKeepsBase(base, [], parts);
    assert base + [] == base;
  }

  /** Names of any form: every shown node has a path of its own strictly inside the temp directory,
      whatever that is called, iff no shown name chain climbs and the cleaned relative paths are
      non-empty and all different. */
  lemma SoundEverywhereIff(rows: Rows)
    ensures (forall base: Path :: PathsSound(rows, base)) <==>
            PathsSound(rows, []) && forall x :: Shown(rows, x) ==> NeverClimbs(rows, x)
  {
    if forall base: Path :: PathsSound(rows, base) {
      forall x | Shown(rows, x) ensures NeverClimbs(rows, x) {
        forall base: Path ensures base <= PathOf(rows, base, x) { assert PathsSound(rows, base); }
        ContainedIffNeverClimbs(rows, x);
      }
    }
    if PathsSound(rows, []) && forall x :: Shown(rows, x) ==> NeverClimbs(rows, x) {
      forall base: Path ensures PathsSound(rows, base) {
        forall x | Shown(rows, x) ensures PathOf(rows, base, x) == base + PathOf(rows, [], x) { InsidePath(rows, base, x); }
        forall x, y | Shown(rows, x) && Shown(rows, y) && x != y ensures PathOf(rows, base, x) != PathOf(rows, base, y) {
          var p, q := PathOf(rows, [], x), PathOf(rows, [], y);
          assert (base + p)[|base|..] == p && (base + q)[|base|..] == q;
        }
      }
    }
  }

  /** A top-level file named "../x" climbs: it belongs beside the temp directory. */
  lemma ClimbingName(rows: Rows, base: Path, dir: string, x: FileId)
    requires x in rows && IsRoot(LinksOf(rows), x) && rows[x].name == "../x"
    ensures Shown(rows, x) && !NeverClimbs(rows, x)
    ensures PathOf(rows, base + [dir], x) == base + ["x"]
  {
    ShownStep(rows, x);
    PathStep(rows, base + [dir], x);
    var name, none: seq<string> := "../x", [];
    assert name[1..] == "./x" && "./x"[1..] == "/x" && "/x"[1..] == "x";
    assert Split("x") == ["x"];
    assert Split("/x") == ["", "x"];
    assert Split("./x") == [".", "x"];
    assert Split(name) == ["..", "x"];
    assert ["..", "x"][1..] == ["x"] && ["x"][1..] == none;
    var down := base + [dir];
    assert down[..|down| - 1] == base;
    assert Clean(base + ["x"], none) == base + ["x"];
    assert Clean(base, ["x"]) == base + ["x"];
    assert Up(LinksOf(rows), x, 1) == None;
    assert PartsUpTo(rows, x, 1) == none + Split(name) == ["..", "x"];
  }
}
