/** The part of a POSIX file system that the executor uses: cleaned absolute paths as component
    lists, MkdirAll and WriteFile. */
module Disk {
  import opened Wrappers

  type Path = seq<string>

  datatype Entry = Dir | Regular(text: string)

  type Disk = map<Path, Entry>

  predicate NormalName(name: string) {
    name != "" && name != "." && name != ".." && '/' !in name
  }

  // ---- filepath.Join -------------------------------------------------------

  /** Cuts a string at its slashes. */
  function Split(s: string): (parts: seq<string>)
    ensures |parts| > 0
    ensures '/' !in s ==> parts == [s]
  {
    if s == "" then [""]
    else
      var rest := Split(s[1..]);
      assert s == [s[0]] + s[1..];
      if s[0] == '/' then [""] + rest else [[s[0]] + rest[0]] + rest[1..]
  }

  /** Follows one component: "" and "." stay, ".." goes up, and at the top it stays too. */
  function Follow(dir: Path, c: string): Path {
    if c == "" || c == "." then dir
    else if c == ".." then (if dir == [] then [] else dir[..|dir| - 1])
    else dir + [c]
  }

  function Clean(dir: Path, parts: seq<string>): Path
    decreases |parts|
  {
    if parts == [] then dir else Clean(Follow(dir, parts[0]), parts[1..])
  }

  function Join(dir: Path, name: string): Path {
    Clean(dir, Split(name))
  }

  lemma JoinNormal(dir: Path, name: string)
    requires NormalName(name)
    ensures Join(dir, name) == dir + [name]
  {
    assert Split(name) == [name] && [name][1..] == [];
    assert Clean(dir + [name], []) == dir + [name];
  }

  // ---- strings -------------------------------------------------------------

  /** The absolute path as a string. */
  function Render(p: Path): string {
    if p == [] then "" else Render(p[..|p| - 1]) + "/" + p[|p| - 1]
  }

  function SlashJoin(names: seq<string>): string {
    if |names| == 0 then ""
    else if |names| == 1 then names[0]
    else SlashJoin(names[..|names| - 1]) + "/" + names[|names| - 1]
  }

  function TrimPrefix(s: string, prefix: string): string {
    if prefix <= s then s[|prefix|..] else s
  }

  lemma {:induction false} RenderAppend(base: Path, names: seq<string>)
    requires names != []
    ensures Render(base + names) == Render(base) + "/" + SlashJoin(names)
    decreases |names|
  {
    var whole := base + names;
    assert whole[..|whole| - 1] == base + names[..|names| - 1];
    if |names| == 1 {
      assert whole[..|whole| - 1] == base;
    } else {
      RenderAppend(base, names[..|names| - 1]);
      var front := SlashJoin(names[..|names| - 1]);
      assert Render(base) + "/" + front + "/" + names[|names| - 1] == Render(base) + "/" + (front + "/" + names[|names| - 1]);
    }
  }

  /** Stripping the directory from a path below it leaves the slash-joined names. */
  lemma TrimRendered(base: Path, names: seq<string>)
    requires names != []
    ensures TrimPrefix(Render(base + names), Render(base) + "/") == SlashJoin(names)
  {
    RenderAppend(base, names);
    assert Render(base + names) == (Render(base) + "/") + SlashJoin(names);
  }

  // ---- directories and files -------------------------------------------------

  /** Everything above an entry is a directory. */
  predicate WellFormed(d: Disk) {
    forall p, i :: p in d && 0 <= i < |p| ==> p[..i] in d && d[p[..i]] == Dir
  }

  function Prefixes(p: Path): set<Path> {
    set i | 0 <= i <= |p| :: p[..i]
  }

  /** os.MkdirAll: fails if a file is in the way; directories that exist stay. */
  function MkdirAll(d: Disk, p: Path): Option<Disk> {
    if exists i :: 0 <= i <= |p| && p[..i] in d && d[p[..i]].Regular? then None
    else Some(d + map q | q in Prefixes(p) :: Dir)
  }

  /** os.WriteFile: the directory must exist and the target must not be one; an old file is replaced. */
  function WriteFile(d: Disk, p: Path, text: string): Option<Disk> {
    if p == [] || p[..|p| - 1] !in d || d[p[..|p| - 1]] != Dir || (p in d && d[p] == Dir) then None
    else Some(d[p := Regular(text)])
  }

  /** MkdirAll fails iff a file lies on the way, and otherwise makes what is missing and keeps the rest. */
  lemma MkdirMakes(d: Disk, p: Path)
    ensures MkdirAll(d, p) == None <==> exists i :: 0 <= i <= |p| && p[..i] in d && d[p[..i]].Regular?
    ensures MkdirAll(d, p).Some? ==> var d' := MkdirAll(d, p).value;
      && (forall q :: q in d' <==> q in d || q <= p)
      && (forall q :: q in d' ==> d'[q] == if q in d then d[q] else Dir)
  {
    forall q ensures q <= p <==> q in Prefixes(p) {
      if q <= p { assert q == p[..|q|]; }
    }
    forall q | q in Prefixes(p) && q in d && MkdirAll(d, p).Some? ensures d[q] == Dir {
      var i :| 0 <= i <= |p| && q == p[..i];
    }
  }

  /** WriteFile fails iff there is no directory to write into or the target is one, and otherwise stores
      the text, replacing an old file, and keeps the rest. */
  lemma WriteReplaces(d: Disk, p: Path, text: string)
    ensures WriteFile(d, p, text) == None <==>
            p == [] || p[..|p| - 1] !in d || d[p[..|p| - 1]] != Dir || (p in d && d[p] == Dir)
    ensures WriteFile(d, p, text).Some? ==> var d' := WriteFile(d, p, text).value;
      && p in d' && d'[p] == Regular(text)
      && forall q :: q != p ==> (q in d' <==> q in d) && (q in d ==> d'[q] == d[q])
  {
  }

  /** A fresh entry in an existing directory can be made, and nothing else changes. */
  lemma FreshEntry(d: Disk, dir: Path, name: string, text: string)
    requires WellFormed(d) && dir in d && d[dir] == Dir && dir + [name] !in d
    ensures MkdirAll(d, dir + [name]) == Some(d[dir + [name] := Dir]) && WellFormed(d[dir + [name] := Dir])
    ensures WriteFile(d, dir + [name], text) == Some(d[dir + [name] := Regular(text)]) && WellFormed(d[dir + [name] := Regular(text)])
  {
    var p := dir + [name];
    assert p[..|p|] == p && p[..|p| - 1] == dir;
    forall i | 0 <= i < |p| ensures p[..i] in d && d[p[..i]] == Dir {
      if i < |dir| { assert p[..i] == dir[..i]; } else { assert p[..i] == dir; }
    }
    var made := map q | q in Prefixes(p) :: Dir;
    assert d + made == d[p := Dir] by {
      forall q | q in made ensures q == p || (q in d && d[q] == Dir) {
        var i :| 0 <= i <= |p| && q == p[..i];
      }
      assert p[..|p|] in Prefixes(p);
      assert forall q :: q in d && q in made && q != p ==> (d + made)[q] == d[q];
    }
    EntryBelow(d, p, Dir);
    EntryBelow(d, p, Regular(text));
  }

  lemma EntryBelow(d: Disk, p: Path, e: Entry)
    requires WellFormed(d) && p !in d
    requires forall i :: 0 <= i < |p| ==> p[..i] in d && d[p[..i]] == Dir
    ensures WellFormed(d[p := e])
  {
  }
}
