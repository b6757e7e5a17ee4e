/** Which nodes a traversal meets: the part of `keep` that hangs below a set of starting nodes.
    The executor's walk, its log of the tree and the explorer's tree are measured against this. */
module ForestCover {
  import opened Wrappers
  import opened Forest

  ghost function Cover(l: Links, keep: set<FileId>, starts: set<FileId>): set<FileId> {
    set x | x in l && x in keep && exists r :: r in starts && Reaches(l, x, r)
  }

  function Children(l: Links, n: FileId): set<FileId> {
    set c | c in l && l[c] == Some(n)
  }

  function Roots(l: Links): set<FileId> {
    set x | x in l && IsRoot(l, x)
  }

  /** No start lies below another one. */
  ghost predicate Antichain(l: Links, starts: set<FileId>) {
    forall r, s :: r in starts && s in starts && r != s ==> !Reaches(l, r, s)
  }

  /** Two nodes above the same node lie on one chain. */
  lemma ReachesLinear(l: Links, x: FileId, r: FileId, s: FileId)
    requires Reaches(l, x, r) && Reaches(l, x, s)
    ensures Reaches(l, r, s) || Reaches(l, s, r)
  {
    var j: nat :| Up(l, x, j) == Some(r);
    var k: nat :| Up(l, x, k) == Some(s);
    if j <= k {
      UpAdd(l, x, j, r, k - j);
    } else {
      UpAdd(l, x, k, s, j - k);
    }
  }

  /** A grounded node and the nodes below it: the node itself, then what hangs below its children. */
  lemma CoverNode(l: Links, keep: set<FileId>, n: FileId)
    requires n in l && Grounded(l, n)
    ensures n !in Cover(l, keep, Children(l, n))
    ensures Cover(l, keep, {n}) == (if n in keep then {n} else {}) + Cover(l, keep, Children(l, n))
  {
    GroundedNotOnCycle(l, n);
    ReachesSelf(l, n);
    OnCycleViaParent(l, n);
    if n in Cover(l, keep, Children(l, n)) {
      var c :| c in Children(l, n) && Reaches(l, n, c);
      ReachesStep(l, c, n);
      ReachesSelf(l, n);
      assert Reaches(l, c, n);
      ReachesStep(l, n, c);
      if c != n { ReachesTrans(l, l[n].value, c, n); }
    }
    forall x | x in l && x in keep
      ensures Reaches(l, x, n) <==> x == n || exists c :: c in Children(l, n) && Reaches(l, x, c)
    {
      if Reaches(l, x, n) {
        var k: nat :| Up(l, x, k) == Some(n);
        if k > 0 { LastStep(l, x, n, k); }
      }
      if c :| c in Children(l, n) && Reaches(l, x, c) {
        ReachesStep(l, c, n);
        ReachesTrans(l, x, c, n);
      }
    }
  }

  lemma {:induction false} LastStep(l: Links, x: FileId, n: FileId, k: nat)
    requires k > 0 && Up(l, x, k) == Some(n)
    ensures exists c :: c in Children(l, n) && Reaches(l, x, c)
    decreases k
  {
    if k == 1 {
      UpAdd(l, x, 1, n, 0);
      ReachesSelf(l, x);
      assert x in Children(l, n);
    } else {
      LastStep(l, l[x].value, n, k - 1);
      var c :| c in Children(l, n) && Reaches(l, l[x].value, c);
      ReachesStep(l, x, c);
    }
  }

  /** Starts that do not lie below one another contribute disjoint parts. */
  lemma CoverSplit(l: Links, keep: set<FileId>, starts: set<FileId>, n: FileId)
    requires n !in starts && Antichain(l, starts + {n})
    ensures Cover(l, keep, starts + {n}) == Cover(l, keep, starts) + Cover(l, keep, {n})
    ensures Cover(l, keep, starts) !! Cover(l, keep, {n})
  {
    forall x | x in Cover(l, keep, starts) && x in Cover(l, keep, {n}) ensures false {
      var r :| r in starts && Reaches(l, x, r);
      ReachesLinear(l, x, r, n);
    }
  }

  lemma ChildrenAntichain(l: Links, n: FileId)
    requires n in l && Grounded(l, n)
    ensures Antichain(l, Children(l, n))
    ensures forall c :: c in Children(l, n) ==> Grounded(l, c)
  {
    GroundedNotOnCycle(l, n);
    OnCycleViaParent(l, n);
    forall c | c in Children(l, n) ensures Grounded(l, c) { GroundedStep(l, c); }
    forall c, d | c in Children(l, n) && d in Children(l, n) && c != d ensures !Reaches(l, c, d) {
      if Reaches(l, c, d) {
        ReachesStep(l, c, d);
        ReachesSelf(l, n);
        ReachesStep(l, d, n);
        ReachesStep(l, n, d);
        if d != n { ReachesTrans(l, l[n].value, d, n); }
      }
    }
  }

  lemma RootsAntichain(l: Links)
    ensures Antichain(l, Roots(l))
    ensures forall r :: r in Roots(l) ==> Grounded(l, r)
  {
    forall r | r in Roots(l) ensures Grounded(l, r) { GroundedStep(l, r); }
    forall r, s | r in Roots(l) && s in Roots(l) && r != s ensures !Reaches(l, r, s) {
      ReachesStep(l, r, s);
    }
  }

  /** Everything below the roots: exactly the nodes whose chain ends. */
  lemma RootsCoverGrounded(l: Links, keep: set<FileId>)
    ensures Cover(l, keep, Roots(l)) == set x | x in l && x in keep && Grounded(l, x)
  {
    forall x | x in l ensures Grounded(l, x) <==> exists r :: r in Roots(l) && Reaches(l, x, r) {
      if Grounded(l, x) {
        var k: nat :| Up(l, x, k) == None;
        var r := RootAbove(l, x, k);
      }
      if r :| r in Roots(l) && Reaches(l, x, r) {
        var k: nat :| Up(l, x, k) == Some(r);
        UpAdd(l, x, k, r, 1);
      }
    }
  }

  lemma {:induction false} RootAbove(l: Links, x: FileId, k: nat) returns (r: FileId)
    requires x in l && Up(l, x, k) == None
    ensures r in Roots(l) && Reaches(l, x, r)
    decreases k
  {
    ReachesSelf(l, x);
    if IsRoot(l, x) {
      r := x;
    } else {
      r := RootAbove(l, l[x].value, k - 1);
      ReachesStep(l, x, r);
    }
  }
}
