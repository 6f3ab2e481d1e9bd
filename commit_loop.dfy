/**
 * The commit phase's loops, on the arena as it stands when the commit
 * starts (committing changes no fiber).  Each method computes the host
 * calls its source function makes, in order, and whether it returns
 * normally; its contract ties both to the functions of `Commit`.
 */
module CommitLoop {
  import opened Wrappers
  import opened Fibers
  import opened Commit

  /**
   * The state of `commitDELETE` at the top of its loop: `node` is on the
   * walk, the calls made so far remove the fibers in `removed`, and what
   * remains of the whole walk is the walk of what is still pending.
   */
  ghost predicate Walking(fs: seq<Fiber>, f: nat, domParent: Base, removed: seq<nat>, ops: seq<HostOp>, node: nat)
    requires Links(fs) && f < |fs|
  {
    && node < |fs| && InWalk(fs, f, node)
    && (forall k | 0 <= k < |removed| :: removed[k] < |fs|)
    && ops == Removes(fs, domParent, removed)
    && DeleteWalk(fs, Visit(fs, f)).0 == removed + DeleteWalk(fs, Pending(fs, f, node)).0
    && DeleteWalk(fs, Visit(fs, f)).1 == DeleteWalk(fs, Pending(fs, f, node)).1
  }

  /** One round of the loop of `commitDELETE`. */
  method DeleteStep(fs: seq<Fiber>, f: nat, domParent: Base, ghost removed: seq<nat>, ops: seq<HostOp>, node: nat)
    returns (ops': seq<HostOp>, ghost removed': seq<nat>, node': nat, done: bool, ok: bool)
    requires Links(fs) && Consistent(fs) && f < |fs|
    requires Walking(fs, f, domParent, removed, ops, node)
    ensures done ==> ops' == Removes(fs, domParent, DeleteWalk(fs, Visit(fs, f)).0) && ok == DeleteWalk(fs, Visit(fs, f)).1
    ensures !done ==> Walking(fs, f, domParent, removed', ops', node') && |Pending(fs, f, node')| < |Pending(fs, f, node)|
  {
    removed', node', ok := removed, node, false;
    if fs[node].tag == Hook {
      if fs[node].child.None? {
        // a childless HOOK: the walk steps to a null child, and reading its tag throws
        ghost var rest := After(fs, f, node);
        assert Pending(fs, f, node) == [node] + rest;
        DeleteWalkCons(fs, node, rest);
        assert removed + [] == removed;
        return ops, removed, node, true, false;
      }
      assert ConsistentAt(fs, node);
      PendingDescend(fs, f, node);
      ghost var below := Pending(fs, f, fs[node].child.value);
      DeleteWalkCons(fs, node, below);
      assert [] + DeleteWalk(fs, below).0 == DeleteWalk(fs, below).0;
      return ops, removed, fs[node].child.value, false, false;
    }
    ghost var rest := After(fs, f, node);
    PendingLeaf(fs, f, node);
    DeleteWalkCons(fs, node, rest);
    RemovesSnoc(fs, domParent, removed, node);
    ops' := ops + [Remove(domParent, fs[node].base)];
    assert removed + [node] + DeleteWalk(fs, rest).0 == removed + ([node] + DeleteWalk(fs, rest).0);
    removed' := removed + [node];
    var top := ClimbToSibling(fs, f, node);
    if top == f {
      assert removed' + [] == removed';
      return ops', removed', top, true, true;
    }
    assert ConsistentAt(fs, top);
    AfterSibling(fs, f, top);
    node' := fs[top].sibling.value;
    done := false;
  }

  /**
   * `commitDELETE(f, domParent)`: walk `f`'s subtree, looking through HOOK
   * fibers and removing the node of every other fiber reached, without
   * entering its children.
   */
  method CommitDelete(fs: seq<Fiber>, f: nat, domParent: Base) returns (ops: seq<HostOp>, ok: bool)
    requires Links(fs) && Consistent(fs) && f < |fs|
    ensures ops == Removes(fs, domParent, DeleteWalk(fs, Visit(fs, f)).0)
    ensures ok == DeleteWalk(fs, Visit(fs, f)).1
  {
    ghost var removed: seq<nat> := [];
    var node: nat := f;
    ops := [];
    assert Pending(fs, f, f) == Visit(fs, f) by {
      assert After(fs, f, f) == [];
      assert Visit(fs, f) + [] == Visit(fs, f);
    }
    assert Ancestor(fs, f, f);
    while true
      invariant Walking(fs, f, domParent, removed, ops, node)
      decreases |Pending(fs, f, node)|
    {
      var done;
      ops, removed, node, done, ok := DeleteStep(fs, f, domParent, removed, ops, node);
      if done {
        return;
      }
    }
  }

  /** The inner loop of `commitDELETE`: climb from `node` until a fiber with a sibling, or `f` itself. */
  method ClimbToSibling(fs: seq<Fiber>, f: nat, node: nat) returns (top: nat)
    requires Links(fs) && node < |fs| && InWalk(fs, f, node)
    ensures top < |fs| && InWalk(fs, f, top) && After(fs, f, top) == After(fs, f, node)
    ensures top == f || fs[top].sibling.Some?
  {
    top := node;
    while top != f && fs[top].sibling.None?
      invariant top < |fs| && InWalk(fs, f, top) && After(fs, f, top) == After(fs, f, node)
      decreases top
    {
      AfterClimb(fs, f, top);
      top := fs[top].parent.value;
    }
  }

  /** The climb at the top of `commitWork`: the nearest ancestor starting at `p` that is not a HOOK. */
  method NearestHostParent(fs: seq<Fiber>, p: Option<nat>) returns (r: Option<nat>)
    requires Links(fs) && (p.Some? ==> p.value < |fs|)
    ensures r == HostParentFrom(fs, p)
  {
    r := p;
    while r.Some? && fs[r.value].tag == Hook
      invariant (r.Some? ==> r.value < |fs|) && HostParentFrom(fs, r) == HostParentFrom(fs, p)
      decreases if r.Some? then r.value + 1 else 0
    {
      r := fs[r.value].parent;
    }
  }

  /** `commitWork(f)`: the host calls for one patch. */
  method CommitWork(fs: seq<Fiber>, f: nat) returns (ops: seq<HostOp>, ok: bool)
    requires Links(fs) && Consistent(fs) && f < |fs|
    ensures (ops, ok) == PatchOps(fs, f)
  {
    var fiber := fs[f];
    if fiber.tag == Root {
      return [], true;
    }
    var parentFiber := NearestHostParent(fs, fiber.parent);
    if parentFiber.None? {
      // the climb reads `.tag` of a null parent
      return [], false;
    }
    var parentNode := fs[parentFiber.value].base;
    ops, ok := [], true;
    if fiber.patchTag == Insert && fiber.tag == Host {
      if parentNode.None? {
        ok := false;
      } else {
        ops := [Append(parentNode.value, fiber.base)];
      }
    } else if fiber.patchTag == Update && fiber.tag == Host {
      if fiber.alternate.None? {
        ok := false;
      } else {
        ops := [Patch(fiber.base, fs[fiber.alternate.value].props, fiber.props)];
      }
    } else if fiber.patchTag == Delete {
      if parentNode.None? {
        ok := false;
      } else {
        ops, ok := CommitDelete(fs, f, parentNode.value);
      }
    }
  }

  /** The `forEach` of `commitAllWork`: commit each patch of `ps` in order; a patch that throws ends it. */
  method CommitPatches(fs: seq<Fiber>, ps: seq<nat>) returns (ops: seq<HostOp>, ok: bool)
    requires Links(fs) && Consistent(fs) && forall k | 0 <= k < |ps| :: ps[k] < |fs|
    ensures (ops, ok) == Replay(fs, ps)
  {
    ops := [];
    var i := 0;
    while i < |ps|
      invariant i <= |ps| && Replayed(fs, ps, i, ops)
    {
      var more, fine := CommitWork(fs, ps[i]);
      ReplayStep(fs, ps, i, ops, more, fine);
      if !fine {
        return ops + more, false;
      }
      ops := ops + more;
      i := i + 1;
    }
    ReplayDone(fs, ps, i, ops);
    ok := true;
  }

  /** The calls `ops` of the first `i` patches, followed by those of the rest, are those of all of `ps`. */
  predicate Replayed(fs: seq<Fiber>, ps: seq<nat>, i: nat, ops: seq<HostOp>)
    requires Links(fs) && forall k | 0 <= k < |ps| :: ps[k] < |fs|
  {
    i <= |ps| && Replay(fs, ps).0 == ops + Replay(fs, ps[i..]).0 && Replay(fs, ps).1 == Replay(fs, ps[i..]).1
  }

  lemma ReplayStep(fs: seq<Fiber>, ps: seq<nat>, i: nat, ops: seq<HostOp>, more: seq<HostOp>, fine: bool)
    requires Links(fs) && forall k | 0 <= k < |ps| :: ps[k] < |fs|
    requires i < |ps| && Replayed(fs, ps, i, ops) && (more, fine) == PatchOps(fs, ps[i])
    ensures !fine ==> Replay(fs, ps) == (ops + more, false)
    ensures fine ==> Replayed(fs, ps, i + 1, ops + more)
  {
    assert ps[i..][0] == ps[i];
    assert ps[i..][1..] == ps[i + 1..];
    if fine {
      Assoc(ops, more, Replay(fs, ps[i + 1..]).0);
    }
  }

  lemma ReplayDone(fs: seq<Fiber>, ps: seq<nat>, i: nat, ops: seq<HostOp>)
    requires Links(fs) && forall k | 0 <= k < |ps| :: ps[k] < |fs|
    requires Replayed(fs, ps, i, ops) && i >= |ps|
    ensures Replay(fs, ps) == (ops, true)
  {
    assert ps[i..] == [];
    assert ops + [] == ops;
  }

  lemma Assoc(a: seq<HostOp>, b: seq<HostOp>, c: seq<HostOp>)
    ensures a + (b + c) == a + b + c
  {
  }
}
