/**
 * The arena `reconcileChildren` and `cloneChildFibers` leave behind,
 * written in closed form, and what that arena satisfies.
 *
 * `reconcileChildren(w, nc)` walks the new children `nc` and the old chain
 * (`Olds`: the children of `w`'s alternate) in lockstep.  After `n` rounds
 * of its loop the first `min(n, |nc|)` new fibers exist, appended to the
 * arena in order and linked as siblings; the old fibers of the positions
 * below `n` that kept no same-type child are marked DELETE and listed (in
 * position order) at the end of `w.patches`; and `w.child` names the first
 * new fiber, or nothing when a round ran with no new child at position 0.
 */
module Children {
  import opened Wrappers
  import opened Fibers
  import opened Diff

  function Kinds(vs: seq<VNode>): (ks: seq<Kind>)
    ensures |ks| == |vs| && forall j | 0 <= j < |vs| :: ks[j] == vs[j].kind
  {
    seq(|vs|, j requires 0 <= j < |vs| => vs[j].kind)
  }

  function FiberKinds(fs: seq<Fiber>, xs: seq<nat>): (ks: seq<Kind>)
    requires forall k | 0 <= k < |xs| :: xs[k] < |fs|
    ensures |ks| == |xs| && forall j | 0 <= j < |xs| :: ks[j] == fs[xs[j]].kind
  {
    seq(|xs|, j requires 0 <= j < |xs| => fs[xs[j]].kind)
  }

  /** Every entry of `xs` names a fiber of `fs`. */
  predicate InArena(fs: seq<Fiber>, xs: seq<nat>)
  {
    forall k | 0 <= k < |xs| :: xs[k] < |fs|
  }

  /** The old sibling chain: the children of `w`'s alternate, or nothing without one. */
  function Olds(fs: seq<Fiber>, w: nat): (olds: seq<nat>)
    requires Links(fs) && w < |fs|
    ensures InArena(fs, olds)
  {
    if fs[w].alternate.Some? then Chain(fs, fs[fs[w].alternate.value].child) else []
  }

  /** `sameType` in round `j`: a new child and an old fiber, of the same type. */
  predicate SameAt(fs: seq<Fiber>, olds: seq<nat>, nc: seq<VNode>, j: nat)
    requires InArena(fs, olds)
  {
    j < |nc| && j < |olds| && nc[j].kind == fs[olds[j]].kind
  }

  lemma SameAtIsSame(fs: seq<Fiber>, olds: seq<nat>, nc: seq<VNode>, j: nat)
    requires InArena(fs, olds)
    ensures SameAt(fs, olds, nc, j) <==> Same(Kinds(nc), FiberKinds(fs, olds), j)
  {
  }

  /** The old fibers marked DELETE in the first `n` rounds, in the order they are pushed onto `w.patches`. */
  function DelUpTo(fs: seq<Fiber>, olds: seq<nat>, nc: seq<VNode>, n: nat): (d: seq<nat>)
    requires InArena(fs, olds)
    ensures InArena(fs, d)
  {
    if n == 0 then []
    else DelUpTo(fs, olds, nc, n - 1) + (if n - 1 < |olds| && !SameAt(fs, olds, nc, n - 1) then [olds[n - 1]] else [])
  }

  /** `d` lists the entries of `xs` at the positions `pos`, in order. */
  predicate Picks(d: seq<nat>, xs: seq<nat>, pos: seq<nat>)
  {
    |d| == |pos| && forall k | 0 <= k < |d| :: pos[k] < |xs| && d[k] == xs[pos[k]]
  }

  lemma PicksSnoc(d: seq<nat>, xs: seq<nat>, pos: seq<nat>, e: nat)
    requires Picks(d, xs, pos) && e < |xs|
    ensures Picks(d + [xs[e]], xs, pos + [e])
  {
  }

  /** The DELETE list is the old fiber at each position `Diff` classifies as deleted, in order. */
  lemma {:induction false} DelUpToPositions(fs: seq<Fiber>, olds: seq<nat>, nc: seq<VNode>, n: nat)
    requires InArena(fs, olds)
    ensures Picks(DelUpTo(fs, olds, nc, n), olds, Positions(Deletes, Kinds(nc), FiberKinds(fs, olds), n))
    decreases n
  {
    if n > 0 {
      DelUpToPositions(fs, olds, nc, n - 1);
      DelUpToStep(fs, olds, nc, n);
    }
  }

  lemma DelUpToStep(fs: seq<Fiber>, olds: seq<nat>, nc: seq<VNode>, n: nat)
    requires InArena(fs, olds) && n > 0
    requires Picks(DelUpTo(fs, olds, nc, n - 1), olds, Positions(Deletes, Kinds(nc), FiberKinds(fs, olds), n - 1))
    ensures Picks(DelUpTo(fs, olds, nc, n), olds, Positions(Deletes, Kinds(nc), FiberKinds(fs, olds), n))
  {
    var d := DelUpTo(fs, olds, nc, n - 1);
    var nk, ok := Kinds(nc), FiberKinds(fs, olds);
    var pos := Positions(Deletes, nk, ok, n - 1);
    if n - 1 < |olds| && !SameAt(fs, olds, nc, n - 1) {
      SameAtIsSame(fs, olds, nc, n - 1);
      assert Picked(Deletes, nk, ok, n - 1);
      assert DelUpTo(fs, olds, nc, n) == d + [olds[n - 1]];
      assert Positions(Deletes, nk, ok, n) == pos + [n - 1];
      PicksSnoc(d, olds, pos, n - 1);
    } else {
      SameAtIsSame(fs, olds, nc, n - 1);
      assert !Picked(Deletes, nk, ok, n - 1);
      assert DelUpTo(fs, olds, nc, n) == d;
      assert Positions(Deletes, nk, ok, n) == pos;
    }
  }

  /** `w.child` after `n` rounds: set in round 0 to the fiber for position 0, if any. */
  function WChild(fs: seq<Fiber>, w: nat, nc: seq<VNode>, n: nat): Option<nat>
    requires w < |fs|
  {
    if n == 0 then fs[w].child else if |nc| > 0 then Some(|fs|) else None
  }

  /** Old fiber `i` once the fibers of `d` are marked DELETE and listed on `w`, whose child is now `c`. */
  function Touch(fs: seq<Fiber>, w: nat, d: seq<nat>, c: Option<nat>, i: nat): Fiber
    requires i < |fs|
  {
    var f := fs[i];
    f.(patchTag := if i in d then Delete else f.patchTag,
       child := if i == w then c else f.child,
       patches := if i == w then f.patches + d else f.patches)
  }

  /** The fiber made for new child `j` when `m` new fibers exist: an UPDATE copy of the old fiber at `j`, or an INSERT. */
  function Fresh(fs: seq<Fiber>, w: nat, olds: seq<nat>, nc: seq<VNode>, j: nat, m: nat): Fiber
    requires InArena(fs, olds) && j < |nc|
  {
    var v := nc[j];
    var sib := if j + 1 < m then Some(|fs| + j + 1) else None;
    if SameAt(fs, olds, nc, j) then
      var o := olds[j];
      Fiber(fs[o].tag, fs[o].kind, FiberProps(v), fs[o].state, fs[o].base, Some(w), None, sib, Some(o), Update, [])
    else
      Fiber(if v.kind.HostKind? then Host else Hook, v.kind, FiberProps(v), None, None, Some(w), None, sib, None, Insert, [])
  }

  /** How many rounds the loop runs: until both the new children and the old chain are used up. */
  function Rounds(olds: seq<nat>, nc: seq<VNode>): nat
  {
    if |nc| < |olds| then |olds| else |nc|
  }

  /** The old fibers `reconcileChildren` marks DELETE. */
  function Dels(fs: seq<Fiber>, olds: seq<nat>, nc: seq<VNode>): seq<nat>
    requires InArena(fs, olds)
  {
    DelUpTo(fs, olds, nc, Rounds(olds, nc))
  }

  /** The arena after `reconcileChildren(w, nc)` walks the old chain `olds`. */
  function Reconcile(fs: seq<Fiber>, w: nat, olds: seq<nat>, nc: seq<VNode>): (r: seq<Fiber>)
    requires InArena(fs, olds) && w < |fs|
    ensures |r| == |fs| + |nc|
  {
    seq(|fs| + |nc|, i requires 0 <= i < |fs| + |nc| =>
      if i < |fs| then Touch(fs, w, Dels(fs, olds, nc), WChild(fs, w, nc, Rounds(olds, nc)), i)
      else Fresh(fs, w, olds, nc, i - |fs|, |nc|))
  }

  lemma ReconcileLinksAt(fs: seq<Fiber>, w: nat, olds: seq<nat>, nc: seq<VNode>, i: nat)
    requires Links(fs) && InArena(fs, olds) && w < |fs| && i < |fs| + |nc|
    ensures LinksOk(Reconcile(fs, w, olds, nc)[i], i, |fs| + |nc|)
  {
    var r := Reconcile(fs, w, olds, nc);
    var n0 := |fs|;
    if i < n0 {
      assert LinksOk(fs[i], i, n0);
      var d := Dels(fs, olds, nc);
      assert r[i] == Touch(fs, w, Dels(fs, olds, nc), WChild(fs, w, nc, Rounds(olds, nc)), i);
      if i == w {
        assert r[i].patches == fs[i].patches + d;
        forall k | 0 <= k < |r[i].patches|
          ensures r[i].patches[k] < n0 + |nc|
        {
          if k >= |fs[i].patches| {
            assert r[i].patches[k] == d[k - |fs[i].patches|];
          }
        }
      }
    } else {
      var j := i - n0;
      assert r[i] == Fresh(fs, w, olds, nc, j, |nc|);
      if SameAt(fs, olds, nc, j) {
        assert olds[j] < n0;
      }
    }
  }

  lemma ReconcileLinks(fs: seq<Fiber>, w: nat, olds: seq<nat>, nc: seq<VNode>)
    requires Links(fs) && InArena(fs, olds) && w < |fs|
    ensures Links(Reconcile(fs, w, olds, nc))
  {
    forall i | 0 <= i < |fs| + |nc| {
      ReconcileLinksAt(fs, w, olds, nc, i);
    }
  }

  lemma ReconcileConsistentAt(fs: seq<Fiber>, w: nat, olds: seq<nat>, nc: seq<VNode>, i: nat)
    requires Links(fs) && Consistent(fs) && InArena(fs, olds) && w < |fs| && i < |fs| + |nc|
    ensures var r := Reconcile(fs, w, olds, nc);
            && (r[i].child.Some? && r[i].child.value < |r| ==> r[r[i].child.value].parent == Some(i))
            && (r[i].sibling.Some? && r[i].sibling.value < |r| ==> r[r[i].sibling.value].parent == r[i].parent)
  {
    var r := Reconcile(fs, w, olds, nc);
    var n0 := |fs|;
    if i < n0 {
      assert LinksOk(fs[i], i, n0) && ConsistentAt(fs, i);
      assert r[i] == Touch(fs, w, Dels(fs, olds, nc), WChild(fs, w, nc, Rounds(olds, nc)), i);
      if r[i].child == Some(n0) {
        assert r[n0] == Fresh(fs, w, olds, nc, 0, |nc|);
      } else if r[i].child.Some? {
        var c := r[i].child.value;
        assert r[i].child == fs[i].child;
        assert r[c] == Touch(fs, w, Dels(fs, olds, nc), WChild(fs, w, nc, Rounds(olds, nc)), c);
      }
      if r[i].sibling.Some? {
        var s := fs[i].sibling.value;
        assert r[s] == Touch(fs, w, Dels(fs, olds, nc), WChild(fs, w, nc, Rounds(olds, nc)), s);
      }
    } else {
      assert r[i] == Fresh(fs, w, olds, nc, i - n0, |nc|);
      if r[i].sibling.Some? {
        assert r[i + 1] == Fresh(fs, w, olds, nc, i + 1 - n0, |nc|);
      }
    }
  }

  lemma ReconcileConsistent(fs: seq<Fiber>, w: nat, olds: seq<nat>, nc: seq<VNode>)
    requires Links(fs) && Consistent(fs) && InArena(fs, olds) && w < |fs|
    ensures Consistent(Reconcile(fs, w, olds, nc))
  {
    forall i | 0 <= i < |fs| + |nc| {
      ReconcileConsistentAt(fs, w, olds, nc, i);
    }
  }

  /** No fiber is lost or moved: every old fiber keeps its type, parent and sibling links, alternate, base and state. */
  lemma ReconcileOldFibers(fs: seq<Fiber>, w: nat, olds: seq<nat>, nc: seq<VNode>, i: nat)
    requires InArena(fs, olds) && w < |fs| && i < |fs|
    ensures var f, g := fs[i], Reconcile(fs, w, olds, nc)[i];
            && g.tag == f.tag && g.kind == f.kind && g.props == f.props && g.state == f.state && g.base == f.base
            && g.parent == f.parent && g.sibling == f.sibling && g.alternate == f.alternate
            && (i != w ==> g.child == f.child && g.patches == f.patches)
            && (g.patchTag == Delete <==> f.patchTag == Delete || i in Dels(fs, olds, nc))
            && (g.patchTag != Delete ==> g.patchTag == f.patchTag)
  {
  }

  /** `w.child` is the fiber for position 0; a run with no new child clears it; no run leaves it as it was. */
  lemma ReconcileFirstChild(fs: seq<Fiber>, w: nat, olds: seq<nat>, nc: seq<VNode>)
    requires InArena(fs, olds) && w < |fs|
    ensures var r := Reconcile(fs, w, olds, nc);
            && (|nc| > 0 ==> r[w].child == Some(|fs|))
            && (|nc| == 0 && |olds| > 0 ==> r[w].child.None?)
            && (|nc| == 0 && |olds| == 0 ==> r[w].child == fs[w].child)
  {
  }

  /** The new fibers, in arena order, are linked one to the next as siblings. */
  lemma NewFibersChain(fs: seq<Fiber>, w: nat, olds: seq<nat>, nc: seq<VNode>)
    requires Links(fs) && InArena(fs, olds) && w < |fs| && |nc| > 0
    ensures Links(Reconcile(fs, w, olds, nc))
    ensures var c := Chain(Reconcile(fs, w, olds, nc), Some(|fs|));
            |c| == |nc| && forall k | 0 <= k < |c| :: c[k] == |fs| + k
  {
    ReconcileLinks(fs, w, olds, nc);
    var r := Reconcile(fs, w, olds, nc);
    var n0 := |fs|;
    forall k | n0 <= k < n0 + |nc| - 1
      ensures r[k].sibling == Some(k + 1)
    {
      assert r[k] == Fresh(fs, w, olds, nc, k - n0, |nc|);
    }
    assert r[n0 + |nc| - 1] == Fresh(fs, w, olds, nc, |nc| - 1, |nc|);
    ConsecutiveChain(r, n0, n0 + |nc|);
  }

  /**
   * The child chain of `w` has one fiber per new child, in array order,
   * each with that child's type and props and `w` as parent.
   */
  lemma ChildChainMatches(fs: seq<Fiber>, w: nat, olds: seq<nat>, nc: seq<VNode>)
    requires Links(fs) && InArena(fs, olds) && w < |fs| && |nc| > 0
    ensures Links(Reconcile(fs, w, olds, nc))
    ensures var r := Reconcile(fs, w, olds, nc);
            r[w].child == Some(|fs|) &&
            var c := Chain(r, r[w].child);
            && |c| == |nc|
            && forall k | 0 <= k < |c| :: c[k] == |fs| + k && r[c[k]].parent == Some(w)
                 && r[c[k]].kind == nc[k].kind && r[c[k]].props == FiberProps(nc[k])
  {
    NewFibersChain(fs, w, olds, nc);
    var r := Reconcile(fs, w, olds, nc);
    assert r[w] == Touch(fs, w, Dels(fs, olds, nc), WChild(fs, w, nc, Rounds(olds, nc)), w);
    var c := Chain(r, Some(|fs|));
    forall k | 0 <= k < |c|
      ensures r[c[k]].parent == Some(w) && r[c[k]].kind == nc[k].kind && r[c[k]].props == FiberProps(nc[k])
    {
      assert r[|fs| + k] == Fresh(fs, w, olds, nc, k, |nc|);
    }
  }

  /**
   * Position `j` of the new children gets an UPDATE copy of the old fiber
   * at `j` when the types agree (reusing its tag, base and state), and a
   * fresh INSERT fiber otherwise (HOST exactly for a string type, with no
   * base and no alternate).
   */
  lemma NewFiberKinds(fs: seq<Fiber>, w: nat, olds: seq<nat>, nc: seq<VNode>, j: nat)
    requires InArena(fs, olds) && w < |fs| && j < |nc|
    ensures var g := Reconcile(fs, w, olds, nc)[|fs| + j];
            && (j < |olds| && fs[olds[j]].kind == nc[j].kind ==>
                  && g.patchTag == Update && g.alternate == Some(olds[j])
                  && g.tag == fs[olds[j]].tag && g.base == fs[olds[j]].base && g.state == fs[olds[j]].state)
            && (!(j < |olds| && fs[olds[j]].kind == nc[j].kind) ==>
                  && g.patchTag == Insert && g.alternate.None? && g.base.None? && g.state.None?
                  && (g.tag == Host <==> nc[j].kind.HostKind?) && g.tag != Root)
  {
    assert Reconcile(fs, w, olds, nc)[|fs| + j] == Fresh(fs, w, olds, nc, j, |nc|);
  }

  /**
   * The DELETE list is appended to `w.patches` and holds, in order, the
   * old fiber of every position whose type changed plus the old tail
   * fibers beyond the new children: one per changed position plus N - M
   * when M < N.
   */
  lemma ReconcileDeletes(fs: seq<Fiber>, w: nat, olds: seq<nat>, nc: seq<VNode>)
    requires InArena(fs, olds) && w < |fs|
    ensures Reconcile(fs, w, olds, nc)[w].patches == fs[w].patches + Dels(fs, olds, nc)
    ensures var nk, ok := Kinds(nc), FiberKinds(fs, olds);
            var d := Dels(fs, olds, nc);
            && |d| == |Changed(nk, ok)| + TailCount(|nc|, |olds|)
            && Picks(d, olds, Deleted(nk, ok))
  {
    var nk, ok := Kinds(nc), FiberKinds(fs, olds);
    assert Reconcile(fs, w, olds, nc)[w] == Touch(fs, w, Dels(fs, olds, nc), WChild(fs, w, nc, Rounds(olds, nc)), w);
    DelUpToPositions(fs, olds, nc, Rounds(olds, nc));
    DeletedPastOld(nk, ok, Rounds(olds, nc));
    DeleteCount(nk, ok);
  }

  /**
   * A re-render that keeps the type of every surviving position and
   * drops the tail deletes exactly the tail old fibers, in order.
   */
  lemma ReconcileShrink(fs: seq<Fiber>, w: nat, olds: seq<nat>, nc: seq<VNode>)
    requires InArena(fs, olds) && w < |fs|
    requires |nc| <= |olds| && Kinds(nc) == FiberKinds(fs, olds)[..|nc|]
    ensures Dels(fs, olds, nc) == olds[|nc|..]
  {
    var nk, ok := Kinds(nc), FiberKinds(fs, olds);
    DelUpToPositions(fs, olds, nc, Rounds(olds, nc));
    DeletedPastOld(nk, ok, Rounds(olds, nc));
    Shrink(nk, ok);
    PicksRange(Dels(fs, olds, nc), olds, Deleted(nk, ok), |nk|, |ok|);
  }

  /** Picking the positions `a .. |xs| - 1` of `xs` picks its suffix from `a`. */
  lemma PicksRange(d: seq<nat>, xs: seq<nat>, pos: seq<nat>, a: nat, b: nat)
    requires Picks(d, xs, pos) && IsRange(pos, a, b) && b == |xs| && a <= b
    ensures d == xs[a..]
  {
    forall k | 0 <= k < |d|
      ensures d[k] == xs[a..][k]
    {
      assert pos[k] == a + k;
    }
  }

  /** The copy `cloneChildFibers` makes of old child `j` under `p`. */
  function CloneOf(fs: seq<Fiber>, p: nat, olds: seq<nat>, j: nat): Fiber
    requires InArena(fs, olds) && j < |olds|
  {
    var o := fs[olds[j]];
    Fiber(o.tag, o.kind, o.props, o.state, o.base, Some(p), None,
          if j + 1 < |olds| then Some(|fs| + j + 1) else None, Some(olds[j]), NoPatch, [])
  }

  /** The arena after `cloneChildFibers(p)` copies the old chain `olds`. */
  function Clone(fs: seq<Fiber>, p: nat, olds: seq<nat>): (r: seq<Fiber>)
    requires InArena(fs, olds) && p < |fs|
    ensures |r| == |fs| + |olds|
  {
    if olds == [] then fs
    else
      seq(|fs| + |olds|, i requires 0 <= i < |fs| + |olds| =>
        if i < |fs| then (if i == p then fs[p].(child := Some(|fs|)) else fs[i]) else CloneOf(fs, p, olds, i - |fs|))
  }

  lemma CloneLinks(fs: seq<Fiber>, p: nat, olds: seq<nat>)
    requires Links(fs) && InArena(fs, olds) && p < |fs|
    ensures Links(Clone(fs, p, olds))
  {
    var r := Clone(fs, p, olds);
    if olds != [] {
      forall i | 0 <= i < |r|
        ensures LinksOk(r[i], i, |r|)
      {
        if i < |fs| {
          assert LinksOk(fs[i], i, |fs|);
        } else {
          assert r[i] == CloneOf(fs, p, olds, i - |fs|);
          assert olds[i - |fs|] < |fs|;
        }
      }
    }
  }

  lemma CloneConsistentAt(fs: seq<Fiber>, p: nat, olds: seq<nat>, i: nat)
    requires Links(fs) && Consistent(fs) && InArena(fs, olds) && p < |fs| && olds != [] && i < |fs| + |olds|
    ensures var r := Clone(fs, p, olds);
            && (r[i].child.Some? && r[i].child.value < |r| ==> r[r[i].child.value].parent == Some(i))
            && (r[i].sibling.Some? && r[i].sibling.value < |r| ==> r[r[i].sibling.value].parent == r[i].parent)
  {
    var r := Clone(fs, p, olds);
    var n0 := |fs|;
    if i < n0 {
      assert LinksOk(fs[i], i, n0) && ConsistentAt(fs, i);
      if i != p && r[i].child.Some? {
        var c := fs[i].child.value;
        assert r[c].parent == fs[c].parent;
      }
      if i == p {
        assert r[n0] == CloneOf(fs, p, olds, 0);
      }
      if r[i].sibling.Some? {
        var s := fs[i].sibling.value;
        assert r[s].parent == fs[s].parent;
        assert r[i].parent == fs[i].parent;
      }
    } else {
      assert r[i] == CloneOf(fs, p, olds, i - n0);
      if r[i].sibling.Some? {
        assert r[i + 1] == CloneOf(fs, p, olds, i + 1 - n0);
      }
    }
  }

  lemma CloneConsistent(fs: seq<Fiber>, p: nat, olds: seq<nat>)
    requires Links(fs) && Consistent(fs) && InArena(fs, olds) && p < |fs|
    ensures Consistent(Clone(fs, p, olds))
  {
    if olds != [] {
      forall i | 0 <= i < |fs| + |olds| {
        CloneConsistentAt(fs, p, olds, i);
      }
    }
  }

  /**
   * With an old chain present, `p`'s children become one copy per old
   * child, in order, each with the old child's type, tag, base, props and
   * state, the old child as alternate, and no patch tag; every other old
   * fiber is left as it was.
   */
  lemma CloneMatches(fs: seq<Fiber>, p: nat, olds: seq<nat>)
    requires Links(fs) && InArena(fs, olds) && p < |fs| && olds != []
    ensures Links(Clone(fs, p, olds))
    ensures var r := Clone(fs, p, olds);
            && r[p] == fs[p].(child := Some(|fs|))
            && (forall i | 0 <= i < |fs| && i != p :: r[i] == fs[i])
            && var c := Chain(r, r[p].child);
               && IsRange(c, |fs|, |fs| + |olds|)
               && forall k | 0 <= k < |c| :: CopiedFrom(r[c[k]], fs[olds[k]], p, olds[k])
  {
    CloneLinks(fs, p, olds);
    CloneChain(fs, p, olds);
    CloneOldFibers(fs, p, olds);
    CloneCopies(fs, p, olds);
    var r := Clone(fs, p, olds);
    RangeCopied(r, fs, p, olds, Chain(r, r[p].child));
  }

  lemma CloneOldFibers(fs: seq<Fiber>, p: nat, olds: seq<nat>)
    requires InArena(fs, olds) && p < |fs| && olds != []
    ensures var r := Clone(fs, p, olds);
            && r[p] == fs[p].(child := Some(|fs|))
            && (forall i | 0 <= i < |fs| && i != p :: r[i] == fs[i])
  {
  }

  lemma CloneCopies(fs: seq<Fiber>, p: nat, olds: seq<nat>)
    requires InArena(fs, olds) && p < |fs|
    ensures forall k | 0 <= k < |olds| :: CopiedFrom(Clone(fs, p, olds)[|fs| + k], fs[olds[k]], p, olds[k])
  {
    var r := Clone(fs, p, olds);
    forall k | 0 <= k < |olds|
      ensures CopiedFrom(r[|fs| + k], fs[olds[k]], p, olds[k])
    {
      assert r[|fs| + k] == CloneOf(fs, p, olds, k);
    }
  }

  /** The chain `c` lists the copies `|fs| .. |fs| + |olds| - 1`, so it lists them in copy order. */
  lemma RangeCopied(r: seq<Fiber>, fs: seq<Fiber>, p: nat, olds: seq<nat>, c: seq<nat>)
    requires InArena(fs, olds) && |r| == |fs| + |olds|
    requires IsRange(c, |fs|, |fs| + |olds|)
    requires forall k | 0 <= k < |olds| :: CopiedFrom(r[|fs| + k], fs[olds[k]], p, olds[k])
    ensures forall k | 0 <= k < |c| :: c[k] < |r| && CopiedFrom(r[c[k]], fs[olds[k]], p, olds[k])
  {
    forall k | 0 <= k < |c|
      ensures c[k] < |r| && CopiedFrom(r[c[k]], fs[olds[k]], p, olds[k])
    {
      assert c[k] == |fs| + k;
    }
  }

  /** `f` was cloned from `o` (at index `alt`) as a child of `p`: same type, tag, base, props and state, no patch tag. */
  predicate CopiedFrom(f: Fiber, o: Fiber, p: nat, alt: nat)
  {
    && f.alternate == Some(alt) && f.patchTag == NoPatch && f.parent == Some(p)
    && f.kind == o.kind && f.tag == o.tag && f.base == o.base && f.props == o.props && f.state == o.state
  }

  lemma CloneChain(fs: seq<Fiber>, p: nat, olds: seq<nat>)
    requires Links(fs) && InArena(fs, olds) && p < |fs| && olds != []
    requires Links(Clone(fs, p, olds))
    ensures IsRange(Chain(Clone(fs, p, olds), Some(|fs|)), |fs|, |fs| + |olds|)
  {
    var r := Clone(fs, p, olds);
    var n0 := |fs|;
    forall k | n0 <= k < n0 + |olds| - 1
      ensures r[k].sibling == Some(k + 1)
    {
      assert r[k] == CloneOf(fs, p, olds, k - n0);
    }
    assert r[n0 + |olds| - 1] == CloneOf(fs, p, olds, |olds| - 1);
    ConsecutiveChain(r, n0, n0 + |olds|);
  }
}
