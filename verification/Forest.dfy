/** Parent links: every node has at most one parent, and nothing rules out cycles.
    The file table, the executor's tree and the explorer's tree all rest on this theory. */
module Forest {
  import opened Wrappers

  datatype FileId = FileId(uuid: string)

  /** A node's parent; None is a NULL parent. A parent need not be a key of the map. */
  type Links = map<FileId, Option<FileId>>

  /** The node reached by following k parent links from x, while every node passed is present. */
  function Up(l: Links, x: FileId, k: nat): Option<FileId>
    decreases k
  {
    if x !in l then None
    else if k == 0 then Some(x)
    else match l[x]
      case None => None
      case Some(p) => Up(l, p, k - 1)
  }

  ghost predicate Reaches(l: Links, x: FileId, r: FileId) {
    exists k: nat :: Up(l, x, k) == Some(r)
  }

  /** r and everything below it: set reachability, with no notion of iteration. */
  ghost function Subtree(l: Links, r: FileId): set<FileId> {
    set x | x in l && Reaches(l, x, r)
  }

  ghost predicate OnCycle(l: Links, x: FileId) {
    exists k: nat :: k > 0 && Up(l, x, k) == Some(x)
  }

  ghost predicate Acyclic(l: Links) {
    forall x :: x in l ==> !OnCycle(l, x)
  }

  /** The chain of x ends: at a NULL parent or at a parent that is not present. */
  ghost predicate Grounded(l: Links, x: FileId) {
    x in l && exists k: nat :: Up(l, x, k) == None
  }

  predicate IsRoot(l: Links, x: FileId) {
    x in l && (l[x] == None || l[x].value !in l)
  }

  // ---- arithmetic of Up -------------------------------------------------

  lemma {:induction false} UpAdd(l: Links, x: FileId, j: nat, y: FileId, k: nat)
    requires Up(l, x, j) == Some(y)
    ensures y in l
    ensures Up(l, x, j + k) == Up(l, y, k)
    decreases j
  {
    if j > 0 {
      UpAdd(l, l[x].value, j - 1, y, k);
    }
  }

  lemma {:induction false} UpStaysNone(l: Links, x: FileId, j: nat, k: nat)
    requires Up(l, x, j) == None && j <= k
    ensures Up(l, x, k) == None
    decreases k
  {
    if j > 0 && x in l && l[x].Some? {
      UpStaysNone(l, l[x].value, j - 1, k - 1);
    }
  }

  lemma ReachesSelf(l: Links, x: FileId)
    requires x in l
    ensures Reaches(l, x, x)
  {
    assert Up(l, x, 0) == Some(x);
  }

  /** One step of reachability: x reaches r iff it is r or its parent does. */
  lemma ReachesStep(l: Links, x: FileId, r: FileId)
    requires x in l
    ensures Reaches(l, x, r) <==> x == r || (l[x].Some? && Reaches(l, l[x].value, r))
  {
    ReachesSelf(l, x);
    if Reaches(l, x, r) {
      var k: nat :| Up(l, x, k) == Some(r);
      if k > 0 {
        assert Up(l, l[x].value, k - 1) == Some(r);
      }
    }
    if l[x].Some? && Reaches(l, l[x].value, r) {
      var k: nat :| Up(l, l[x].value, k) == Some(r);
      assert Up(l, x, k + 1) == Some(r);
    }
  }

  lemma ReachesTrans(l: Links, x: FileId, y: FileId, z: FileId)
    requires Reaches(l, x, y) && Reaches(l, y, z)
    ensures Reaches(l, x, z)
  {
    var j: nat :| Up(l, x, j) == Some(y);
    var k: nat :| Up(l, y, k) == Some(z);
    UpAdd(l, x, j, y, k);
  }

  // ---- cycles and grounded chains ----------------------------------------

  /** x is on a cycle iff its parent reaches it. */
  lemma OnCycleViaParent(l: Links, x: FileId)
    requires x in l
    ensures OnCycle(l, x) <==> l[x].Some? && Reaches(l, l[x].value, x)
  {
    if OnCycle(l, x) {
      var k: nat :| k > 0 && Up(l, x, k) == Some(x);
      assert Up(l, l[x].value, k - 1) == Some(x);
    }
    if l[x].Some? && Reaches(l, l[x].value, x) {
      var k: nat :| Up(l, l[x].value, k) == Some(x);
      assert Up(l, x, k + 1) == Some(x);
    }
  }

  /** Whatever is reached from a node on a cycle of length d is on that cycle too. */
  lemma CycleIsClosed(l: Links, y: FileId, d: nat, k: nat, z: FileId)
    requires d > 0 && Up(l, y, d) == Some(y) && Up(l, y, k) == Some(z)
    ensures Up(l, z, d) == Some(z)
  {
    UpAdd(l, y, d, y, k);
    UpAdd(l, y, k, z, d);
  }

  lemma {:induction false} CycleNeverEnds(l: Links, x: FileId, d: nat, k: nat)
    requires d > 0 && Up(l, x, d) == Some(x)
    ensures Up(l, x, k).Some?
    decreases k
  {
    if k < d {
      if Up(l, x, k) == None { UpStaysNone(l, x, k, d); }
    } else {
      UpAdd(l, x, d, x, k - d);
      CycleNeverEnds(l, x, d, k - d);
    }
  }

  lemma GroundedNotOnCycle(l: Links, x: FileId)
    requires Grounded(l, x)
    ensures !OnCycle(l, x)
  {
    if OnCycle(l, x) {
      var d: nat :| d > 0 && Up(l, x, d) == Some(x);
      var k: nat :| Up(l, x, k) == None;
      CycleNeverEnds(l, x, d, k);
    }
  }

  /** The nodes met on the first k steps from x. */
  function Chain(l: Links, x: FileId, k: nat): set<FileId>
    requires Up(l, x, k).Some?
    decreases k
  {
    if k == 0 then {x} else {x} + Chain(l, l[x].value, k - 1)
  }

  lemma {:induction false} ChainMember(l: Links, x: FileId, k: nat, y: FileId) returns (i: nat)
    requires Up(l, x, k).Some? && y in Chain(l, x, k)
    ensures i <= k && Up(l, x, i) == Some(y)
    decreases k
  {
    if y == x {
      i := 0;
    } else {
      i := ChainMember(l, l[x].value, k - 1, y);
      i := i + 1;
    }
  }

  /** Pigeonhole: k + 1 steps either meet k + 1 different nodes or meet one of them twice. */
  lemma {:induction false} ChainRepeats(l: Links, x: FileId, k: nat) returns (repeats: bool, i: nat, d: nat, y: FileId)
    requires Up(l, x, k).Some?
    ensures Chain(l, x, k) <= l.Keys
    ensures !repeats ==> |Chain(l, x, k)| == k + 1
    ensures repeats ==> d > 0 && i + d <= k && Up(l, x, i) == Some(y) && Up(l, y, d) == Some(y)
    decreases k
  {
    y := x;
    if k == 0 {
      repeats, i, d := false, 0, 0;
    } else {
      var p := l[x].value;
      repeats, i, d, y := ChainRepeats(l, p, k - 1);
      if repeats {
        i := i + 1;
      } else if x in Chain(l, p, k - 1) {
        var j := ChainMember(l, p, k - 1, x);
        repeats, i, d, y := true, 0, j + 1, x;
      }
    }
  }

  lemma SubsetSize<T>(a: set<T>, b: set<T>)
    requires a <= b
    ensures |a| <= |b|
  {
    assert b == a + (b - a);
  }

  /** A chain longer than the table has run into a cycle, and stays on it. */
  lemma LongChainEndsOnCycle(l: Links, x: FileId, k: nat, r: FileId)
    requires Up(l, x, k) == Some(r) && k >= |l|
    ensures OnCycle(l, r)
  {
    var repeats, i, d, y := ChainRepeats(l, x, k);
    SubsetSize(Chain(l, x, k), l.Keys);
    assert |l.Keys| == |l|;
    UpAdd(l, x, i, y, k - i);
    CycleIsClosed(l, y, d, k - i, r);
  }

  /** A table has no cycle exactly when every chain ends. */
  lemma AcyclicIffGrounded(l: Links)
    ensures Acyclic(l) <==> forall x :: x in l ==> Grounded(l, x)
  {
    if Acyclic(l) {
      forall x | x in l ensures Grounded(l, x) {
        if Up(l, x, |l|).Some? {
          var r := Up(l, x, |l|).value;
          UpAdd(l, x, |l|, r, 0);
          LongChainEndsOnCycle(l, x, |l|, r);
        }
      }
    }
    forall x | Grounded(l, x) ensures !OnCycle(l, x) { GroundedNotOnCycle(l, x); }
  }

  lemma GroundedStep(l: Links, x: FileId)
    requires x in l
    ensures Grounded(l, x) <==> IsRoot(l, x) || (l[x].Some? && Grounded(l, l[x].value))
  {
    if Grounded(l, x) && !IsRoot(l, x) {
      var k: nat :| Up(l, x, k) == None;
      assert Up(l, l[x].value, k - 1) == None;
    }
    if IsRoot(l, x) {
      assert Up(l, x, 1) == None;
    } else if Grounded(l, l[x].value) {
      var k: nat :| Up(l, l[x].value, k) == None;
      assert Up(l, x, k + 1) == None;
    }
  }

  // ---- changing links ----------------------------------------------------

  /** No link of l' is new: nodes may vanish and parents may be cleared. */
  ghost predicate LinksShrink(l: Links, l': Links) {
    && l'.Keys <= l.Keys
    && forall x :: x in l' && l'[x].Some? ==> l'[x] == l[x]
  }

  lemma {:induction false} ShrunkUp(l: Links, l': Links, x: FileId, k: nat)
    requires LinksShrink(l, l') && Up(l', x, k).Some?
    ensures Up(l, x, k) == Up(l', x, k)
    decreases k
  {
    if k > 0 { ShrunkUp(l, l', l'[x].value, k - 1); }
  }

  lemma ShrinkKeepsAcyclic(l: Links, l': Links)
    requires Acyclic(l) && LinksShrink(l, l')
    ensures Acyclic(l')
  {
    forall x | x in l' ensures !OnCycle(l', x) {
      if OnCycle(l', x) {
        var k: nat :| k > 0 && Up(l', x, k) == Some(x);
        ShrunkUp(l, l', x, k);
      }
    }
  }

  /** A path that ends at x needs no link out of x: re-linking x does not hide the first arrival. */
  lemma {:induction false} FirstArrival(l: Links, x: FileId, q: Option<FileId>, y: FileId, k: nat) returns (j: nat)
    requires x in l && Up(l, y, k) == Some(x)
    ensures Up(l[x := q], y, j) == Some(x)
    decreases k
  {
    if y == x {
      j := 0;
    } else {
      j := FirstArrival(l, x, q, l[y].value, k - 1);
      j := j + 1;
    }
  }

  /** Re-linking one node changes only the chains that pass through it. */
  lemma {:induction false} RelinkLocal(l: Links, x: FileId, q: Option<FileId>, y: FileId, k: nat) returns (meets: bool, i: nat)
    requires x in l
    ensures meets ==> Up(l[x := q], y, i) == Some(x)
    ensures !meets ==> Up(l[x := q], y, k) == Up(l, y, k)
    decreases k
  {
    if y == x {
      meets, i := true, 0;
    } else if y !in l || k == 0 || l[y].None? {
      meets, i := false, 0;
    } else {
      meets, i := RelinkLocal(l, x, q, l[y].value, k - 1);
      i := i + 1;
    }
  }

  /** A path from the new parent p back to x uses no link out of x, so it was there before. */
  lemma RelinkedPathWasThere(l: Links, x: FileId, p: FileId, k: nat)
    requires x in l && Up(l[x := Some(p)], p, k) == Some(x)
    ensures p in Subtree(l, x)
  {
    var l' := l[x := Some(p)];
    var j := FirstArrival(l', x, l[x], p, k);
    assert l'[x := l[x]] == l;
  }

  /** Re-parenting keeps the links acyclic exactly when the new parent lies outside the moved subtree. */
  lemma RelinkAcyclic(l: Links, x: FileId, p: FileId)
    requires Acyclic(l) && x in l
    ensures Acyclic(l[x := Some(p)]) <==> p !in Subtree(l, x)
  {
    var l' := l[x := Some(p)];
    if p in Subtree(l, x) {
      var k: nat :| Up(l, p, k) == Some(x);
      var j := FirstArrival(l, x, Some(p), p, k);
      assert Up(l', x, j + 1) == Some(x);
      assert OnCycle(l', x);
    } else {
      forall y | y in l' ensures !OnCycle(l', y) {
        if OnCycle(l', y) {
          var d: nat :| d > 0 && Up(l', y, d) == Some(y);
          var meets, i := RelinkLocal(l, x, Some(p), y, d);
          if meets {
            CycleIsClosed(l', y, d, i, x);
            RelinkedPathWasThere(l, x, p, d - 1);
          } else {
            assert OnCycle(l, y);
          }
        }
      }
    }
  }

  /** A new node that nothing points at lengthens no existing chain. */
  lemma {:induction false} FreshUp(l: Links, x: FileId, q: Option<FileId>, y: FileId, k: nat)
    requires x !in l && y in l
    requires forall z :: z in l && l[z].Some? ==> l[z].value in l
    ensures Up(l[x := q], y, k) == Up(l, y, k)
    decreases k
  {
    if k > 0 && l[y].Some? { FreshUp(l, x, q, l[y].value, k - 1); }
  }

  lemma FreshKeepsAcyclic(l: Links, x: FileId, q: Option<FileId>)
    requires Acyclic(l) && x !in l && (q.Some? ==> q.value in l)
    requires forall z :: z in l && l[z].Some? ==> l[z].value in l
    ensures Acyclic(l[x := q])
  {
    var l' := l[x := q];
    forall y | y in l' ensures !OnCycle(l', y) {
      if OnCycle(l', y) {
        var k: nat :| k > 0 && Up(l', y, k) == Some(y);
        if y == x {
          FreshUp(l, x, q, q.value, k - 1);
          UpAdd(l, q.value, k - 1, x, 0);
        } else {
          FreshUp(l, x, q, y, k);
        }
      }
    }
  }
}
