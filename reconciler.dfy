/**
 * The reconciler's module-level state and its operations, as a class.
 *
 * `updateQueue`, `nextWork`, `pendingCommit` and `currentInstance` are the
 * module variables of the source, and the fields below them carry what the
 * source keeps elsewhere:
 * - the fiber objects, as an arena;
 * - the component instances;
 * - each container's `rootFiber`;
 * - the next host node number handed out by `createElement`;
 * - the log of calls made on the host tree adapter.
 * A component's render function is the parameter `renderComponent`.
 */
module Reconciler {
  import opened Wrappers
  import opened Fibers
  import opened Traversal
  import opened Commit
  import opened Children
  import opened ReconcileLoop
  import opened CommitLoop

  /** How a call of `workLoop` ends. */
  datatype Outcome =
    | Committed        // a finished tree was committed
    | NothingToCommit  // no tree was waiting for commit
    | Threw            // the commit threw on a null link, part-way
    | OutOfFuel        // the traversal was still going when the step budget ran out

  /**
   * A HOOK fiber's `base` is its component instance. A parentless fiber is
   * a ROOT fiber, and its `base` is a container.
   */
  predicate FiberOk(f: Fiber, instanceCount: nat)
  {
    && (f.tag == Hook && f.base.Some? ==> f.base.value.Inst? && f.base.value.id < instanceCount)
    && (f.parent.None? ==> f.tag == Root && f.base.Some? && f.base.value.Container?)
  }

  predicate FibersOk(fs: seq<Fiber>, instanceCount: nat)
  {
    forall i | 0 <= i < |fs| :: FiberOk(fs[i], instanceCount)
  }

  predicate ArenaOk(fs: seq<Fiber>, instanceCount: nat)
  {
    Links(fs) && Consistent(fs) && FibersOk(fs, instanceCount)
  }

  lemma ReconcileFiberOkAt(fs: seq<Fiber>, w: nat, olds: seq<nat>, nc: seq<VNode>, instanceCount: nat, i: nat)
    requires FibersOk(fs, instanceCount) && InArena(fs, olds) && w < |fs| && i < |fs| + |nc|
    ensures FiberOk(Reconcile(fs, w, olds, nc)[i], instanceCount)
  {
    if i < |fs| {
      ReconcileOldFibers(fs, w, olds, nc, i);
      assert FiberOk(fs[i], instanceCount);
    } else {
      var j := i - |fs|;
      NewFiberKinds(fs, w, olds, nc, j);
      assert Reconcile(fs, w, olds, nc)[i] == Fresh(fs, w, olds, nc, j, |nc|);
      if j < |olds| {
        assert FiberOk(fs[olds[j]], instanceCount);
      }
    }
  }

  /** `reconcileChildren` keeps the arena well formed. */
  lemma ReconcileKeepsArena(fs: seq<Fiber>, w: nat, olds: seq<nat>, nc: seq<VNode>, instanceCount: nat)
    requires ArenaOk(fs, instanceCount) && InArena(fs, olds) && w < |fs|
    ensures ArenaOk(Reconcile(fs, w, olds, nc), instanceCount)
  {
    ReconcileLinks(fs, w, olds, nc);
    ReconcileConsistent(fs, w, olds, nc);
    forall i | 0 <= i < |fs| + |nc|
      ensures FiberOk(Reconcile(fs, w, olds, nc)[i], instanceCount)
    {
      ReconcileFiberOkAt(fs, w, olds, nc, instanceCount, i);
    }
  }

  lemma CloneFiberOkAt(fs: seq<Fiber>, p: nat, olds: seq<nat>, instanceCount: nat, i: nat)
    requires FibersOk(fs, instanceCount) && InArena(fs, olds) && p < |fs| && i < |fs| + |olds|
    ensures FiberOk(Clone(fs, p, olds)[i], instanceCount)
  {
    if i < |fs| {
      assert FiberOk(fs[i], instanceCount);
    } else {
      assert Clone(fs, p, olds)[i] == CloneOf(fs, p, olds, i - |fs|);
      assert FiberOk(fs[olds[i - |fs|]], instanceCount);
    }
  }

  /** `cloneChildFibers` keeps the arena well formed. */
  lemma CloneKeepsArena(fs: seq<Fiber>, p: nat, olds: seq<nat>, instanceCount: nat)
    requires ArenaOk(fs, instanceCount) && InArena(fs, olds) && p < |fs|
    ensures ArenaOk(Clone(fs, p, olds), instanceCount)
  {
    CloneLinks(fs, p, olds);
    CloneConsistent(fs, p, olds);
    forall i | 0 <= i < |fs| + |olds|
      ensures FiberOk(Clone(fs, p, olds)[i], instanceCount)
    {
      CloneFiberOkAt(fs, p, olds, instanceCount, i);
    }
  }

  /** The invariant the reconciler's state keeps between operations. */
  predicate StateOk(fs: seq<Fiber>, insts: seq<Instance>, queue: seq<Update>, next: Option<nat>,
                    pending: Option<nat>, current: Option<nat>, roots: map<nat, nat>)
  {
    && ArenaOk(fs, |insts|)
    && (forall k | 0 <= k < |insts| :: insts[k].fiber < |fs|)
    && (next.Some? ==> next.value < |fs|)
    && (pending.Some? ==> pending.value < |fs| && fs[pending.value].parent.None?)
    && (current.Some? ==> current.value < |insts|)
    && (forall c | c in roots :: roots[c] < |fs|)
    && (forall k | 0 <= k < |queue| :: queue[k].HookUpdate? ==> queue[k].instance < |insts|)
  }

  /** The parentless fiber reached from `x` by following `parent` links. */
  function RootOf(fs: seq<Fiber>, x: nat): (r: nat)
    requires Links(fs) && x < |fs|
    ensures r <= x && fs[r].parent.None?
    decreases x
  {
    if fs[x].parent.None? then x else RootOf(fs, fs[x].parent.value)
  }

  /** The root of `x` is an ancestor of `x`, and the only parentless one. */
  lemma {:induction false} RootOfUnique(fs: seq<Fiber>, x: nat, a: nat)
    requires Links(fs) && x < |fs|
    ensures Ancestor(fs, x, RootOf(fs, x))
    ensures a < |fs| && Ancestor(fs, x, a) && fs[a].parent.None? ==> a == RootOf(fs, x)
    decreases x
  {
    if fs[x].parent.Some? {
      RootOfUnique(fs, fs[x].parent.value, a);
    }
  }

  /** `getRoot(x)`: climb `parent` links until a fiber without a parent. */
  method GetRoot(fs: seq<Fiber>, x: nat) returns (r: nat)
    requires Links(fs) && x < |fs|
    ensures r < |fs| && fs[r].parent.None? && Ancestor(fs, x, r)
    ensures r == RootOf(fs, x)
  {
    r := x;
    while fs[r].parent.Some?
      invariant r < |fs| && RootOf(fs, r) == RootOf(fs, x)
      decreases r
    {
      r := fs[r].parent.value;
    }
    RootOfUnique(fs, x, r);
  }

  /** The ROOT fiber `resetWork` builds: no type, state, links or patches of its own. */
  function NewRoot(base: Option<Base>, props: Props, alternate: Option<nat>): Fiber
  {
    Fiber(Root, NoKind, props, None, base, None, None, None, alternate, NoPatch, [])
  }

  /**
   * The arena once `resetWork` has taken update `u`: a state update is
   * first written onto its instance's fiber; then the new ROOT fiber is
   * appended.
   */
  function Begin(fs: seq<Fiber>, insts: seq<Instance>, roots: map<nat, nat>, u: Update): (r: seq<Fiber>)
    requires Links(fs)
    requires forall k | 0 <= k < |insts| :: insts[k].fiber < |fs|
    requires u.HookUpdate? ==> u.instance < |insts|
    ensures |r| == |fs| + 1 && r[|fs|].tag == Root && r[|fs|].parent.None?
    ensures u.RootRender? ==> r[..|fs|] == fs
    ensures u.RootRender? ==> r[|fs|].base == Some(Container(u.container)) && r[|fs|].props == Attrs(map[], u.children)
    ensures u.RootRender? ==> r[|fs|].alternate == (if u.container in roots then Some(roots[u.container]) else None)
    ensures u.HookUpdate? ==>
              var x := insts[u.instance].fiber;
              && r[..|fs|] == fs[x := fs[x].(state := Some(u.state))]
              && r[|fs|].alternate == Some(RootOf(fs, x))
              && r[|fs|].base == fs[RootOf(fs, x)].base && r[|fs|].props == fs[RootOf(fs, x)].props
  {
    match u
    case RootRender(c, vs) =>
      fs + [NewRoot(Some(Container(c)), Attrs(map[], vs), if c in roots then Some(roots[c]) else None)]
    case HookUpdate(i, st) =>
      var x := insts[i].fiber;
      var fs1 := fs[x := fs[x].(state := Some(st))];
      assert RootOf(fs1, x) == RootOf(fs, x) by {
        SetStateRoot(fs, x, st, x);
      }
      var top := RootOf(fs1, x);
      fs1 + [NewRoot(fs1[top].base, fs1[top].props, Some(top))]
  }

  /** Writing a fiber's state leaves every root where it was. */
  lemma {:induction false} SetStateRoot(fs: seq<Fiber>, x: nat, st: StateVal, y: nat)
    requires Links(fs) && x < |fs| && y < |fs|
    ensures Links(fs[x := fs[x].(state := Some(st))])
    ensures RootOf(fs[x := fs[x].(state := Some(st))], y) == RootOf(fs, y)
    decreases y
  {
    var fs1 := fs[x := fs[x].(state := Some(st))];
    assert forall i | 0 <= i < |fs| :: fs1[i].parent == fs[i].parent && LinksOk(fs1[i], i, |fs|);
    if fs[y].parent.Some? {
      SetStateRoot(fs, x, st, fs[y].parent.value);
    }
  }

  /** Writing a fiber's state keeps the arena well formed. */
  lemma SetStateOk(fs: seq<Fiber>, x: nat, st: StateVal, instanceCount: nat)
    requires ArenaOk(fs, instanceCount) && x < |fs|
    ensures ArenaOk(fs[x := fs[x].(state := Some(st))], instanceCount)
  {
    var r := fs[x := fs[x].(state := Some(st))];
    forall i | 0 <= i < |r|
      ensures LinksOk(r[i], i, |r|) && FiberOk(r[i], instanceCount) && ConsistentAt(r, i)
    {
      assert LinksOk(fs[i], i, |fs|) && FiberOk(fs[i], instanceCount) && ConsistentAt(fs, i);
    }
  }

  /** Appending a ROOT fiber whose base is a container keeps the arena well formed. */
  lemma AppendRootOk(fs: seq<Fiber>, base: Option<Base>, props: Props, alternate: Option<nat>, instanceCount: nat)
    requires ArenaOk(fs, instanceCount)
    requires base.Some? && base.value.Container? && (alternate.Some? ==> alternate.value < |fs|)
    ensures ArenaOk(fs + [NewRoot(base, props, alternate)], instanceCount)
  {
    var r := fs + [NewRoot(base, props, alternate)];
    forall i | 0 <= i < |r|
      ensures LinksOk(r[i], i, |r|) && FiberOk(r[i], instanceCount) && ConsistentAt(r, i)
    {
      if i < |fs| {
        assert r[i] == fs[i];
        assert LinksOk(fs[i], i, |fs|) && FiberOk(fs[i], instanceCount) && ConsistentAt(fs, i);
      }
    }
  }

  /** `resetWork` keeps the state invariant. */
  lemma BeginOk(fs: seq<Fiber>, insts: seq<Instance>, queue: seq<Update>, next: Option<nat>,
                pending: Option<nat>, current: Option<nat>, roots: map<nat, nat>)
    requires StateOk(fs, insts, queue, next, pending, current, roots) && queue != []
    ensures var r := Begin(fs, insts, roots, queue[0]);
            StateOk(r, insts, queue[1..], Some(|fs|), pending, current, roots)
  {
    var u := queue[0];
    var r := Begin(fs, insts, roots, u);
    match u {
      case RootRender(c, vs) =>
        AppendRootOk(fs, r[|fs|].base, r[|fs|].props, r[|fs|].alternate, |insts|);
        assert r == fs + [r[|fs|]];
      case HookUpdate(i, st) =>
        var x := insts[i].fiber;
        var fs1 := fs[x := fs[x].(state := Some(st))];
        SetStateOk(fs, x, st, |insts|);
        var top := RootOf(fs, x);
        assert FiberOk(fs[top], |insts|);
        AppendRootOk(fs1, r[|fs|].base, r[|fs|].props, r[|fs|].alternate, |insts|);
        assert r == fs1 + [r[|fs|]];
        if pending.Some? {
          assert fs1[pending.value].parent == fs[pending.value].parent;
        }
    }
    forall k | 0 <= k < |queue| - 1
      ensures queue[1..][k] == queue[k + 1]
    {
    }
  }

  /** A HOST fiber without a host node gets the newly created node number `node`; one with a node is left as it is. */
  function Based(fs: seq<Fiber>, w: nat, node: nat): (r: seq<Fiber>)
    requires w < |fs|
    ensures Links(fs) ==> Links(r)
    ensures |r| == |fs| && r[w].base.Some?
    ensures fs[w].base.Some? ==> r == fs
  {
    if fs[w].base.None? then fs[w := fs[w].(base := Some(Element(node)))] else fs
  }

  /**
   * What `updateHOOK(w)` does to the arena before it reconciles: a fiber
   * without an instance gets instance `inst`; one with an instance and no
   * state has its alternate's children cloned.
   */
  function Prepared(fs: seq<Fiber>, w: nat, inst: nat): (r: seq<Fiber>)
    requires Links(fs) && w < |fs|
    ensures Links(r) && |r| >= |fs|
  {
    if fs[w].base.None? then fs[w := fs[w].(base := Some(Inst(inst)))]
    else if fs[w].state.None? then CloneLinks(fs, w, Olds(fs, w)); Clone(fs, w, Olds(fs, w))
    else fs
  }

  lemma SameLinksTrans(a: seq<Fiber>, b: seq<Fiber>, c: seq<Fiber>)
    requires SameLinks(a, b) && SameLinks(b, c)
    ensures SameLinks(a, c)
  {
  }

  /** The `k`-th fiber of the up-walk from `w`: the walk stops there exactly when it has a sibling or no parent. */
  lemma ClimbPathAt(fs: seq<Fiber>, w: nat, k: nat)
    requires Links(fs) && w < |fs| && k < |ClimbPath(fs, w)|
    ensures var path := ClimbPath(fs, w);
            && path[k] < |fs|
            && ((fs[path[k]].sibling.Some? || fs[path[k]].parent.None?) <==> k == |path| - 1)
            && (k < |path| - 1 ==> fs[path[k]].parent == Some(path[k + 1]))
            && (k == |path| - 1 ==> ClimbNext(fs, w) == fs[path[k]].sibling)
  {
  }

  lemma PrefixStep(s: seq<nat>, k: nat)
    requires k <= |s|
    ensures k < |s| ==> s[..k + 1] == s[..k] + [s[k]]
    ensures k == |s| ==> s[..k] == s
  {
  }

  /** A HOST fiber that gets its host node keeps the arena well formed. */
  lemma BasedOk(fs: seq<Fiber>, w: nat, node: nat, instanceCount: nat)
    requires ArenaOk(fs, instanceCount) && w < |fs| && fs[w].tag != Hook
    ensures ArenaOk(Based(fs, w, node), instanceCount)
    ensures forall i | 0 <= i < |fs| :: Based(fs, w, node)[i].parent == fs[i].parent
  {
    var r := Based(fs, w, node);
    forall i | 0 <= i < |r|
      ensures LinksOk(r[i], i, |r|) && FiberOk(r[i], instanceCount) && ConsistentAt(r, i)
    {
      assert LinksOk(fs[i], i, |fs|) && FiberOk(fs[i], instanceCount) && ConsistentAt(fs, i);
    }
  }

  /** A HOOK fiber that gets the new instance `instanceCount` keeps the arena well formed, with one more instance. */
  lemma InstanceOk(fs: seq<Fiber>, w: nat, instanceCount: nat)
    requires ArenaOk(fs, instanceCount) && w < |fs| && fs[w].tag == Hook
    ensures ArenaOk(fs[w := fs[w].(base := Some(Inst(instanceCount)))], instanceCount + 1)
    ensures forall i | 0 <= i < |fs| :: fs[w := fs[w].(base := Some(Inst(instanceCount)))][i].parent == fs[i].parent
  {
    var r := fs[w := fs[w].(base := Some(Inst(instanceCount)))];
    forall i | 0 <= i < |r|
      ensures LinksOk(r[i], i, |r|) && FiberOk(r[i], instanceCount + 1) && ConsistentAt(r, i)
    {
      assert LinksOk(fs[i], i, |fs|) && FiberOk(fs[i], instanceCount) && ConsistentAt(fs, i);
    }
  }

  /** The patches `completeWork(f)` hands to `f`'s parent: `f`'s own list, then `f` when it carries a patch tag. */
  function Handed(fs: seq<Fiber>, f: nat): seq<nat>
    requires f < |fs|
  {
    fs[f].patches + (if fs[f].patchTag != NoPatch then [f] else [])
  }

  /** Completing `f` under a parent: the parent's patch list is extended by what `f` hands up. */
  function Aggregate(fs: seq<Fiber>, f: nat): (r: seq<Fiber>)
    requires f < |fs| && fs[f].parent.Some? && fs[f].parent.value < |fs|
  {
    var p := fs[f].parent.value;
    fs[p := fs[p].(patches := fs[p].patches + Handed(fs, f))]
  }

  /**
   * Completing a fiber changes no link and no fiber but its parent, whose
   * patch list grows by what the fiber hands up; the arena stays well
   * formed.
   */
  lemma AggregateOk(fs: seq<Fiber>, f: nat, instanceCount: nat)
    requires ArenaOk(fs, instanceCount) && f < |fs| && fs[f].parent.Some?
    ensures var r := Aggregate(fs, f);
            && ArenaOk(r, instanceCount) && SameLinks(fs, r)
            && r[fs[f].parent.value].patches == fs[fs[f].parent.value].patches + Handed(fs, f)
            && forall i | 0 <= i < |fs| && i != fs[f].parent.value :: r[i] == fs[i]
  {
    var r := Aggregate(fs, f);
    var p := fs[f].parent.value;
    assert LinksOk(fs[f], f, |fs|) && LinksOk(fs[p], p, |fs|);
    forall i | 0 <= i < |r|
      ensures LinksOk(r[i], i, |r|) && FiberOk(r[i], instanceCount) && ConsistentAt(r, i)
    {
      assert LinksOk(fs[i], i, |fs|) && FiberOk(fs[i], instanceCount) && ConsistentAt(fs, i);
      if i == p {
        forall j | 0 <= j < |r[p].patches|
          ensures r[p].patches[j] < |r|
        {
          var ps := fs[p].patches;
          if j >= |ps| && j - |ps| < |fs[f].patches| {
            assert r[p].patches[j] == fs[f].patches[j - |ps|];
          }
        }
      }
    }
  }

  /** What `completeWork` reads and writes: the arena, the instances and `pendingCommit`. */
  datatype Completion = Completion(fibers: seq<Fiber>, instances: seq<Instance>, pendingCommit: Option<nat>)

  /** The part of the state invariant that completing fibers touches. */
  predicate CompletionOk(c: Completion)
  {
    && ArenaOk(c.fibers, |c.instances|)
    && (forall k | 0 <= k < |c.instances| :: c.instances[k].fiber < |c.fibers|)
    && (c.pendingCommit.Some? ==> c.pendingCommit.value < |c.fibers| && c.fibers[c.pendingCommit.value].parent.None?)
  }

  /**
   * `completeWork(f)`.  (Under `CompletionOk` a HOOK's base is one of the
   * instances and a parent lies in the arena, so the two bounds checked
   * here always hold; see `CompleteAtOk`.)
   */
  function CompleteAt(c: Completion, f: nat): (r: Completion)
    requires f < |c.fibers|
    ensures |r.fibers| == |c.fibers| && |r.instances| == |c.instances|
  {
    var x := c.fibers[f];
    var insts := if x.tag == Hook && x.base.Some? && x.base.value.id < |c.instances|
                 then c.instances[x.base.value.id := c.instances[x.base.value.id].(fiber := f)]
                 else c.instances;
    match x.parent
    case Some(p) =>
      if p < |c.fibers| then Completion(Aggregate(c.fibers, f), insts, c.pendingCommit)
      else Completion(c.fibers, insts, c.pendingCommit)
    case None => Completion(c.fibers, insts, Some(f))
  }

  /** Completing a fiber changes no link. */
  lemma CompleteAtLinks(c: Completion, f: nat)
    requires f < |c.fibers|
    ensures SameLinks(c.fibers, CompleteAt(c, f).fibers)
  {
  }

  /** Completing a fiber keeps the invariant. */
  lemma CompleteAtOk(c: Completion, f: nat)
    requires CompletionOk(c) && f < |c.fibers|
    ensures CompletionOk(CompleteAt(c, f))
  {
    var x := c.fibers[f];
    assert FiberOk(x, |c.instances|) && LinksOk(x, f, |c.fibers|);
    if x.parent.Some? {
      AggregateOk(c.fibers, f, |c.instances|);
    }
  }

  /**
   * What `completeWork(f)` does: a HOOK fiber's instance points back at
   * it; a fiber with a parent appends its own patches and then itself (when
   * it carries a patch tag) to its parent's list and changes no other
   * fiber; the parentless fiber becomes the commit target.
   */
  lemma CompleteAtEffect(c: Completion, f: nat)
    requires CompletionOk(c) && f < |c.fibers|
    ensures var r, x := CompleteAt(c, f), c.fibers[f];
            && (x.tag == Hook && x.base.Some? ==> x.base.value.id < |c.instances| && r.instances[x.base.value.id].fiber == f)
            && (forall k | 0 <= k < |c.instances| && !(x.tag == Hook && x.base == Some(Inst(k))) :: r.instances[k] == c.instances[k])
            && (x.parent.Some? ==>
                  && r.fibers[x.parent.value].patches == c.fibers[x.parent.value].patches + c.fibers[f].patches + (if x.patchTag != NoPatch then [f] else [])
                  && (forall i | 0 <= i < |c.fibers| && i != x.parent.value :: r.fibers[i] == c.fibers[i])
                  && r.pendingCommit == c.pendingCommit)
            && (x.parent.None? ==> r.fibers == c.fibers && r.pendingCommit == Some(f))
  {
    var x := c.fibers[f];
    assert FiberOk(x, |c.instances|) && LinksOk(x, f, |c.fibers|);
  }

  /** `completeWork` applied to each fiber of `xs` in turn. */
  function CompleteAll(c: Completion, xs: seq<nat>): (r: Completion)
    requires forall k | 0 <= k < |xs| :: xs[k] < |c.fibers|
    ensures |r.fibers| == |c.fibers| && |r.instances| == |c.instances|
    decreases |xs|
  {
    if xs == [] then c
    else CompleteAt(CompleteAll(c, xs[..|xs| - 1]), xs[|xs| - 1])
  }

  lemma CompleteAllSnoc(c: Completion, xs: seq<nat>, x: nat)
    requires x < |c.fibers| && forall k | 0 <= k < |xs| :: xs[k] < |c.fibers|
    ensures CompleteAll(c, xs + [x]) == CompleteAt(CompleteAll(c, xs), x)
  {
    assert (xs + [x])[..|xs|] == xs;
  }

  /** Completing a sequence of fibers keeps the invariant and changes no link. */
  lemma {:induction false} CompleteAllOk(c: Completion, xs: seq<nat>)
    requires CompletionOk(c) && forall k | 0 <= k < |xs| :: xs[k] < |c.fibers|
    ensures CompletionOk(CompleteAll(c, xs)) && SameLinks(c.fibers, CompleteAll(c, xs).fibers)
    decreases |xs|
  {
    if xs != [] {
      var before := CompleteAll(c, xs[..|xs| - 1]);
      CompleteAllOk(c, xs[..|xs| - 1]);
      CompleteAtOk(before, xs[|xs| - 1]);
      CompleteAtLinks(before, xs[|xs| - 1]);
      SameLinksTrans(c.fibers, before.fibers, CompleteAll(c, xs).fibers);
    }
  }

  /** Completing fibers keeps the state invariant. */
  lemma CompletionKeepsState(fs: seq<Fiber>, insts: seq<Instance>, queue: seq<Update>, next: Option<nat>,
                             pending: Option<nat>, current: Option<nat>, roots: map<nat, nat>, c: Completion)
    requires StateOk(fs, insts, queue, next, pending, current, roots)
    requires CompletionOk(c) && |c.fibers| == |fs| && |c.instances| == |insts|
    ensures StateOk(c.fibers, c.instances, queue, next, c.pendingCommit, current, roots)
  {
  }

  lemma ClimbKeepsState(fs: seq<Fiber>, insts: seq<Instance>, queue: seq<Update>, next: Option<nat>,
                        pending: Option<nat>, current: Option<nat>, roots: map<nat, nat>, w: nat, c: Completion)
    requires StateOk(fs, insts, queue, next, pending, current, roots) && w < |fs|
    requires c == CompleteAll(Completion(fs, insts, pending), ClimbPath(fs, w))
    ensures StateOk(c.fibers, c.instances, queue, next, c.pendingCommit, current, roots) && SameLinks(fs, c.fibers)
  {
    CompleteAllOk(Completion(fs, insts, pending), ClimbPath(fs, w));
    CompletionKeepsState(fs, insts, queue, next, pending, current, roots, c);
  }

  /**
   * The up-walk of `performWork` from a fiber `w` without a child: it
   * completes the fibers of `ClimbPath` in order and returns what
   * `ClimbNext` names.
   */
  method CompleteUp(c0: Completion, w: nat) returns (c: Completion, next: Option<nat>)
    requires Links(c0.fibers) && w < |c0.fibers|
    ensures next == ClimbNext(c0.fibers, w)
    ensures c == CompleteAll(c0, ClimbPath(c0.fibers, w))
  {
    ghost var path := ClimbPath(c0.fibers, w);
    ghost var k := 0;
    c := c0;
    var wip: Option<nat> := Some(w);
    while wip.Some?
      invariant k <= |path| && c == CompleteAll(c0, path[..k]) && SameLinks(c0.fibers, c.fibers)
      invariant wip.Some? ==> k < |path| && wip.value == path[k]
      invariant wip.None? ==> k == |path| && c0.fibers[path[|path| - 1]].sibling.None?
      decreases |path| - k
    {
      var x := wip.value;
      ClimbPathAt(c0.fibers, w, k);
      PrefixStep(path, k);
      CompleteAllSnoc(c0, path[..k], x);
      CompleteAtLinks(c, x);
      SameLinksTrans(c0.fibers, c.fibers, CompleteAt(c, x).fibers);
      c := CompleteAt(c, x);
      assert c.fibers[x].sibling == c0.fibers[x].sibling && c.fibers[x].parent == c0.fibers[x].parent;
      if c.fibers[x].sibling.Some? {
        return c, c.fibers[x].sibling;
      }
      wip := c.fibers[x].parent;
      k := k + 1;
    }
    PrefixStep(path, k);
    next := None;
  }

  /**
   * The part of the reconciler's state that `performWork` reads and
   * writes: what `completeWork` touches, the current instance, the next
   * host node number and the host log.
   */
  datatype Work = Work(fibers: seq<Fiber>, instances: seq<Instance>, pendingCommit: Option<nat>,
                       currentInstance: Option<nat>, nextNode: nat, hostLog: seq<HostOp>)

  /** The state invariant on a `Work` value. */
  predicate WorkOk(s: Work)
  {
    CompletionOk(Completion(s.fibers, s.instances, s.pendingCommit))
    && (s.currentInstance.Some? ==> s.currentInstance.value < |s.instances|)
  }

  /** `updateHost(w)` on a state. */
  function HostStep(s: Work, w: nat): (r: Work)
    requires Links(s.fibers) && w < |s.fibers|
    ensures Links(r.fibers) && |s.fibers| <= |r.fibers|
  {
    var f := s.fibers[w];
    var created := f.base.None?;
    var b := Based(s.fibers, w, s.nextNode);
    ReconcileLinks(b, w, Olds(b, w), HostChildren(f.props));
    s.(fibers := Reconcile(b, w, Olds(b, w), HostChildren(f.props)),
       nextNode := s.nextNode + (if created then 1 else 0),
       hostLog := s.hostLog + (if created then [Create(s.nextNode, f.kind, f.props)] else []))
  }

  /** `updateHOOK(w)` on a state, with `render` standing for the component functions. */
  function HookStep(s: Work, w: nat, render: (Kind, Props, StateVal) -> seq<VNode>): (r: Work)
    requires Links(s.fibers) && w < |s.fibers|
    requires s.fibers[w].base.Some? ==> s.fibers[w].base.value.id < |s.instances|
    ensures Links(r.fibers) && |s.fibers| <= |r.fibers|
  {
    var f := s.fibers[w];
    var st := if f.state.Some? then f.state.value else [];
    var pre := Prepared(s.fibers, w, |s.instances|);
    var nc := render(f.kind, f.props, st);
    ReconcileLinks(pre, w, Olds(pre, w), nc);
    if f.base.None? then
      s.(fibers := Reconcile(pre, w, Olds(pre, w), nc),
         instances := s.instances + [Instance(f.kind, f.props, st, w)],
         currentInstance := Some(|s.instances|))
    else
      var i := f.base.value.id;
      s.(fibers := Reconcile(pre, w, Olds(pre, w), nc),
         instances := s.instances[i := s.instances[i].(props := f.props, state := st)],
         currentInstance := Some(i))
  }

  /** The first line of `performWork(w)`: a HOOK fiber is updated as a component, any other as a host element. */
  function BeginStep(s: Work, w: nat, render: (Kind, Props, StateVal) -> seq<VNode>): (r: Work)
    requires WorkOk(s) && w < |s.fibers|
    ensures Links(r.fibers) && |s.fibers| <= |r.fibers|
  {
    assert FiberOk(s.fibers[w], |s.instances|);
    if s.fibers[w].tag == Hook then HookStep(s, w, render) else HostStep(s, w)
  }

  /**
   * `performWork(w)` on a state: update `w`; then return its first child,
   * or else complete the up-walk from `w` and return where it stops.
   */
  function PerformStep(s: Work, w: nat, render: (Kind, Props, StateVal) -> seq<VNode>): (r: (Work, Option<nat>))
    requires WorkOk(s) && w < |s.fibers|
  {
    var mid := BeginStep(s, w, render);
    if mid.fibers[w].child.Some? then (mid, mid.fibers[w].child)
    else
      var c := CompleteAll(Completion(mid.fibers, mid.instances, mid.pendingCommit), ClimbPath(mid.fibers, w));
      (mid.(fibers := c.fibers, instances := c.instances, pendingCommit := c.pendingCommit), ClimbNext(mid.fibers, w))
  }

  /** Reconciling under `w` keeps every old fiber's parent, so a parentless one stays a root. */
  lemma ReconcileKeepsParents(fs: seq<Fiber>, w: nat, olds: seq<nat>, nc: seq<VNode>)
    requires InArena(fs, olds) && w < |fs|
    ensures forall i | 0 <= i < |fs| :: Reconcile(fs, w, olds, nc)[i].parent == fs[i].parent
  {
    forall i | 0 <= i < |fs|
      ensures Reconcile(fs, w, olds, nc)[i].parent == fs[i].parent
    {
      ReconcileOldFibers(fs, w, olds, nc, i);
    }
  }

  /** `updateHost` keeps the invariant and only appends to the host log. */
  lemma HostStepOk(s: Work, w: nat)
    requires WorkOk(s) && w < |s.fibers| && s.fibers[w].tag != Hook
    ensures WorkOk(HostStep(s, w)) && s.hostLog <= HostStep(s, w).hostLog
  {
    var f := s.fibers[w];
    var b := Based(s.fibers, w, s.nextNode);
    var olds := Olds(b, w);
    BasedOk(s.fibers, w, s.nextNode, |s.instances|);
    ReconcileKeepsArena(b, w, olds, HostChildren(f.props), |s.instances|);
    ReconcileKeepsParents(b, w, olds, HostChildren(f.props));
  }

  /** The arena `updateHOOK` reconciles into keeps the invariant, with room for a new instance, and every fiber's parent. */
  lemma PreparedOk(s: Work, w: nat)
    requires WorkOk(s) && w < |s.fibers| && s.fibers[w].tag == Hook
    ensures var pre, n := Prepared(s.fibers, w, |s.instances|), |s.instances| + (if s.fibers[w].base.None? then 1 else 0);
            && ArenaOk(pre, n) && (forall i | 0 <= i < |s.fibers| :: pre[i].parent == s.fibers[i].parent)
  {
    var fs := s.fibers;
    if fs[w].base.None? {
      InstanceOk(fs, w, |s.instances|);
    } else if fs[w].state.None? {
      var olds := Olds(fs, w);
      CloneKeepsArena(fs, w, olds, |s.instances|);
      if olds != [] {
        CloneOldFibers(fs, w, olds);
      }
    }
  }

  /** `updateHOOK` keeps the invariant and leaves the host log alone. */
  lemma HookStepOk(s: Work, w: nat, render: (Kind, Props, StateVal) -> seq<VNode>)
    requires WorkOk(s) && w < |s.fibers| && s.fibers[w].tag == Hook
    requires s.fibers[w].base.Some? ==> s.fibers[w].base.value.id < |s.instances|
    ensures WorkOk(HookStep(s, w, render)) && HookStep(s, w, render).hostLog == s.hostLog
  {
    var f := s.fibers[w];
    var st := if f.state.Some? then f.state.value else [];
    var pre := Prepared(s.fibers, w, |s.instances|);
    var nc := render(f.kind, f.props, st);
    var r := HookStep(s, w, render);
    PreparedOk(s, w);
    ReconcileKeepsArena(pre, w, Olds(pre, w), nc, |r.instances|);
    ReconcileKeepsParents(pre, w, Olds(pre, w), nc);
    forall k | 0 <= k < |r.instances|
      ensures r.instances[k].fiber < |r.fibers|
    {
      if k < |s.instances| {
        assert r.instances[k].fiber == s.instances[k].fiber;
      }
    }
  }

  /** One `performWork` step keeps the invariant, only appends to the host log, and returns a fiber of the arena. */
  lemma PerformStepOk(s: Work, w: nat, render: (Kind, Props, StateVal) -> seq<VNode>)
    requires WorkOk(s) && w < |s.fibers|
    ensures var r := PerformStep(s, w, render);
            && WorkOk(r.0) && |s.fibers| <= |r.0.fibers| && s.hostLog <= r.0.hostLog
            && (r.1.Some? ==> r.1.value < |r.0.fibers|)
  {
    assert FiberOk(s.fibers[w], |s.instances|);
    var mid := BeginStep(s, w, render);
    if s.fibers[w].tag == Hook {
      HookStepOk(s, w, render);
    } else {
      HostStepOk(s, w);
    }
    if mid.fibers[w].child.Some? {
      assert LinksOk(mid.fibers[w], w, |mid.fibers|);
    } else {
      CompleteAllOk(Completion(mid.fibers, mid.instances, mid.pendingCommit), ClimbPath(mid.fibers, w));
    }
  }

  /**
   * The `performWork` loop of `workLoop` from state `s` and next fiber
   * `next`, for at most `fuel` steps: the state it ends in and the fiber
   * still to visit (none once the traversal is done).
   */
  function RunWork(s: Work, next: Option<nat>, render: (Kind, Props, StateVal) -> seq<VNode>, fuel: nat): (r: (Work, Option<nat>))
    requires WorkOk(s) && (next.Some? ==> next.value < |s.fibers|)
    ensures WorkOk(r.0) && (r.1.Some? ==> r.1.value < |r.0.fibers|)
    ensures |s.fibers| <= |r.0.fibers| && s.hostLog <= r.0.hostLog
    decreases fuel
  {
    if next.None? || fuel == 0 then (s, next)
    else
      var step := PerformStep(s, next.value, render);
      PerformStepOk(s, next.value, render);
      RunWork(step.0, step.1, render, fuel - 1)
  }

  /** The state invariant, read on the fields `performWork` touches. */
  lemma StateWorkOk(fs: seq<Fiber>, insts: seq<Instance>, queue: seq<Update>, next: Option<nat>,
                    pending: Option<nat>, current: Option<nat>, roots: map<nat, nat>, node: nat, log: seq<HostOp>)
    requires StateOk(fs, insts, queue, next, pending, current, roots)
    ensures WorkOk(Work(fs, insts, pending, current, node, log)) && (next.Some? ==> next.value < |fs|)
  {
  }

  /** One more step of the loop: `RunWork` from `s` is `RunWork` from the state that step makes. */
  lemma RunWorkStep(s: Work, w: nat, render: (Kind, Props, StateVal) -> seq<VNode>, fuel: nat, rest: nat, s1: Work, next: Option<nat>)
    requires WorkOk(s) && w < |s.fibers| && fuel == rest + 1 && (s1, next) == PerformStep(s, w, render)
    ensures WorkOk(s1) && (next.Some? ==> next.value < |s1.fibers|)
    ensures RunWork(s1, next, render, rest) == RunWork(s, Some(w), render, fuel)
  {
    PerformStepOk(s, w, render);
  }

  lemma RunWorkDone(s: Work, next: Option<nat>, render: (Kind, Props, StateVal) -> seq<VNode>, fuel: nat)
    requires WorkOk(s) && (next.Some? ==> next.value < |s.fibers|) && (next.None? || fuel == 0)
    ensures RunWork(s, next, render, fuel) == (s, next)
  {
  }

  /**
   * Whether a ROOT fiber has a `patches` list at all: the source creates
   * one only when a child completes (so the root has a first child) or
   * when `reconcileChildren` marks an old child DELETE (so the list is not
   * empty).  A fresh fiber's empty `patches` stands for the missing list.
   */
  predicate HasPatchList(f: Fiber)
  {
    f.child.Some? || f.patches != []
  }

  class Reconciler {
    /** A component's render function: from its type, props and state to its children. */
    const renderComponent: (Kind, Props, StateVal) -> seq<VNode>

    var updateQueue: seq<Update>
    var nextWork: Option<nat>
    var pendingCommit: Option<nat>
    var currentInstance: Option<nat>

    var fibers: seq<Fiber>
    var instances: seq<Instance>
    /** Each container's `rootFiber`: the root of the tree last committed into it. */
    var rootFiberOf: map<nat, nat>
    var nextNode: nat
    var hostLog: seq<HostOp>
    /** The fibers `completeWork` has been called on, in order. */
    ghost var completed: seq<nat>

    ghost predicate Valid()
      reads this
    {
      StateOk(fibers, instances, updateQueue, nextWork, pendingCommit, currentInstance, rootFiberOf)
    }

    constructor (render: (Kind, Props, StateVal) -> seq<VNode>)
      ensures Valid() && renderComponent == render
      ensures updateQueue == [] && nextWork.None? && pendingCommit.None? && currentInstance.None?
      ensures fibers == [] && instances == [] && rootFiberOf == map[] && hostLog == [] && completed == []
    {
      renderComponent := render;
      updateQueue := [];
      nextWork := None;
      pendingCommit := None;
      currentInstance := None;
      fibers := [];
      instances := [];
      rootFiberOf := map[];
      nextNode := 0;
      hostLog := [];
      completed := [];
    }

    /** `render(vdom, container)`: queue a render of `vdom` into `container`. */
    method Render(vdom: seq<VNode>, container: nat)
      requires Valid()
      modifies this
      ensures Valid()
      ensures updateQueue == old(updateQueue) + [RootRender(container, vdom)]
      ensures fibers == old(fibers) && instances == old(instances) && nextWork == old(nextWork)
      ensures pendingCommit == old(pendingCommit) && currentInstance == old(currentInstance)
      ensures rootFiberOf == old(rootFiberOf) && nextNode == old(nextNode) && hostLog == old(hostLog)
      ensures completed == old(completed)
    {
      updateQueue := updateQueue + [RootRender(container, vdom)];
    }

    /** `scheduleWork(instance)`: queue a re-render of `instance` with the state it holds now. */
    method ScheduleWork(instance: nat)
      requires Valid() && instance < |instances|
      modifies this
      ensures Valid() && instances == old(instances)
      ensures updateQueue == old(updateQueue) + [HookUpdate(instance, instances[instance].state)]
      ensures fibers == old(fibers) && nextWork == old(nextWork)
      ensures pendingCommit == old(pendingCommit) && currentInstance == old(currentInstance)
      ensures rootFiberOf == old(rootFiberOf) && nextNode == old(nextNode) && hostLog == old(hostLog)
      ensures completed == old(completed)
    {
      updateQueue := updateQueue + [HookUpdate(instance, instances[instance].state)];
    }

    /** `getCurrentInstance()`: the instance rendered last, if any. */
    function GetCurrentInstance(): (r: Option<nat>)
      reads this
      ensures Valid() && r.Some? ==> r.value < |instances|
    {
      currentInstance
    }

    /**
     * `resetWork()`: take the update at the front of the queue and make
     * the ROOT fiber that starts its traversal; an empty queue changes
     * nothing.
     */
    method ResetWork()
      requires Valid()
      modifies this
      ensures Valid()
      ensures old(updateQueue) == [] ==> fibers == old(fibers) && updateQueue == [] && nextWork == old(nextWork)
      ensures old(updateQueue) != [] ==>
                && updateQueue == old(updateQueue)[1..]
                && fibers == Begin(old(fibers), old(instances), old(rootFiberOf), old(updateQueue)[0])
                && nextWork == Some(|old(fibers)|)
      ensures instances == old(instances) && pendingCommit == old(pendingCommit) && currentInstance == old(currentInstance)
      ensures rootFiberOf == old(rootFiberOf) && nextNode == old(nextNode) && hostLog == old(hostLog)
      ensures completed == old(completed)
    {
      if updateQueue == [] {
        return;
      }
      var update := updateQueue[0];
      BeginOk(fibers, instances, updateQueue, nextWork, pendingCommit, currentInstance, rootFiberOf);
      ghost var started := Begin(fibers, instances, rootFiberOf, update);
      updateQueue := updateQueue[1..];
      var root: Option<nat>;
      var base: Option<Base>;
      var props: Props;
      match update {
        case RootRender(c, vs) =>
          root := if c in rootFiberOf then Some(rootFiberOf[c]) else None;
          base := Some(Container(c));
          props := Attrs(map[], vs);
        case HookUpdate(i, st) =>
          var x := instances[i].fiber;
          SetStateRoot(fibers, x, st, x);
          fibers := fibers[x := fibers[x].(state := Some(st))];
          var top := GetRoot(fibers, x);
          root := Some(top);
          base := fibers[top].base;
          props := fibers[top].props;
      }
      fibers := fibers + [NewRoot(base, props, root)];
      assert fibers == started;
      nextWork := Some(|fibers| - 1);
    }

    /**
     * `reconcileChildren(w, nc)`: the arena becomes `Reconcile` of the old
     * arena, the children of `w`'s alternate and `nc`; nothing else changes.
     */
    method ReconcileChildren(w: nat, nc: seq<VNode>)
      requires Valid() && w < |fibers|
      modifies this
      ensures Valid()
      ensures fibers == Reconcile(old(fibers), w, Olds(old(fibers), w), nc)
      ensures instances == old(instances) && updateQueue == old(updateQueue) && nextWork == old(nextWork)
      ensures pendingCommit == old(pendingCommit) && currentInstance == old(currentInstance)
      ensures rootFiberOf == old(rootFiberOf) && nextNode == old(nextNode) && hostLog == old(hostLog)
      ensures completed == old(completed)
    {
      ghost var olds := Olds(fibers, w);
      ReconcileKeepsArena(fibers, w, olds, nc, |instances|);
      if pendingCommit.Some? {
        ReconcileOldFibers(fibers, w, olds, nc, pendingCommit.value);
      }
      fibers := ReconcileArena(fibers, w, nc);
    }

    /**
     * `cloneChildFibers(p)`: one copy of each child of `p`'s alternate,
     * under `p`; nothing else changes.
     */
    method CloneChildFibers(p: nat)
      requires Valid() && p < |fibers|
      modifies this
      ensures Valid()
      ensures fibers == Clone(old(fibers), p, Olds(old(fibers), p))
      ensures instances == old(instances) && updateQueue == old(updateQueue) && nextWork == old(nextWork)
      ensures pendingCommit == old(pendingCommit) && currentInstance == old(currentInstance)
      ensures rootFiberOf == old(rootFiberOf) && nextNode == old(nextNode) && hostLog == old(hostLog)
      ensures completed == old(completed)
    {
      ghost var olds := Olds(fibers, p);
      CloneKeepsArena(fibers, p, olds, |instances|);
      fibers := CloneArena(fibers, p);
    }

    /**
     * `updateHost(w)`: a fiber without a host node gets a new one (the
     * `createElement` call is logged); then its `props.children` are
     * reconciled.
     */
    method UpdateHost(w: nat)
      requires Valid() && w < |fibers| && fibers[w].tag != Hook
      modifies this
      ensures Valid() && |old(fibers)| <= |fibers|
      ensures var created := old(fibers)[w].base.None?;
              && hostLog == old(hostLog) + (if created then [Create(old(nextNode), old(fibers)[w].kind, old(fibers)[w].props)] else [])
              && nextNode == old(nextNode) + (if created then 1 else 0)
      ensures var b := Based(old(fibers), w, old(nextNode));
              fibers == Reconcile(b, w, Olds(b, w), HostChildren(old(fibers)[w].props))
      ensures instances == old(instances) && updateQueue == old(updateQueue) && nextWork == old(nextWork)
      ensures pendingCommit == old(pendingCommit) && currentInstance == old(currentInstance)
      ensures rootFiberOf == old(rootFiberOf) && completed == old(completed)
    {
      if fibers[w].base.None? {
        hostLog := hostLog + [Create(nextNode, fibers[w].kind, fibers[w].props)];
        BasedOk(fibers, w, nextNode, |instances|);
        fibers := fibers[w := fibers[w].(base := Some(Element(nextNode)))];
        nextNode := nextNode + 1;
      }
      ReconcileChildren(w, HostChildren(fibers[w].props));
    }

    /**
     * `updateHOOK(w)`: a fiber without an instance gets a new one; one
     * with an instance and no state first has its alternate's children
     * cloned.  The instance takes the fiber's props and state (`{}` when
     * it has none), becomes the current instance, and what the component
     * renders from them is reconciled.
     */
    method UpdateHook(w: nat)
      requires Valid() && w < |fibers| && fibers[w].tag == Hook
      modifies this
      ensures Valid() && |old(fibers)| <= |fibers|
      ensures var f := old(fibers)[w];
              var st := if f.state.Some? then f.state.value else [];
              && (f.base.None? ==> instances == old(instances) + [Instance(f.kind, f.props, st, w)]
                                   && currentInstance == Some(|old(instances)|))
              && (f.base.Some? ==> instances == old(instances)[f.base.value.id := old(instances)[f.base.value.id].(props := f.props, state := st)]
                                   && currentInstance == Some(f.base.value.id))
              && var pre := Prepared(old(fibers), w, |old(instances)|);
                 fibers == Reconcile(pre, w, Olds(pre, w), renderComponent(f.kind, f.props, st))
      ensures updateQueue == old(updateQueue) && nextWork == old(nextWork) && pendingCommit == old(pendingCommit)
      ensures rootFiberOf == old(rootFiberOf) && nextNode == old(nextNode) && hostLog == old(hostLog)
      ensures completed == old(completed)
    {
      var f := fibers[w];
      var inst: nat;
      if f.base.None? {
        inst := |instances|;
        InstanceOk(fibers, w, inst);
        instances := instances + [Instance(f.kind, f.props, [], w)];
        fibers := fibers[w := f.(base := Some(Inst(inst)))];
      } else {
        inst := f.base.value.id;
        if f.state.None? {
          CloneChildFibers(w);
        }
      }
      var st := if f.state.Some? then f.state.value else [];
      instances := instances[inst := instances[inst].(props := f.props, state := st)];
      currentInstance := Some(inst);
      ReconcileChildren(w, renderComponent(f.kind, f.props, st));
    }

    /** `completeWork(f)`: the fields `completeWork` touches become `CompleteAt` of them. */
    method CompleteWork(f: nat)
      requires Valid() && f < |fibers|
      modifies this
      ensures Valid()
      ensures Completion(fibers, instances, pendingCommit) == CompleteAt(old(Completion(fibers, instances, pendingCommit)), f)
      ensures completed == old(completed) + [f]
      ensures updateQueue == old(updateQueue) && nextWork == old(nextWork) && currentInstance == old(currentInstance)
      ensures rootFiberOf == old(rootFiberOf) && nextNode == old(nextNode) && hostLog == old(hostLog)
    {
      var c := CompleteAt(Completion(fibers, instances, pendingCommit), f);
      CompleteAtOk(Completion(fibers, instances, pendingCommit), f);
      CompletionKeepsState(fibers, instances, updateQueue, nextWork, pendingCommit, currentInstance, rootFiberOf, c);
      Install(c, [f]);
    }

    /** Store the fields `completeWork` touches, and record the fibers completed. */
    method Install(c: Completion, ghost done: seq<nat>)
      requires StateOk(c.fibers, c.instances, updateQueue, nextWork, c.pendingCommit, currentInstance, rootFiberOf)
      modifies this
      ensures Valid()
      ensures fibers == c.fibers && instances == c.instances && pendingCommit == c.pendingCommit
      ensures completed == old(completed) + done
      ensures updateQueue == old(updateQueue) && nextWork == old(nextWork) && currentInstance == old(currentInstance)
      ensures rootFiberOf == old(rootFiberOf) && nextNode == old(nextNode) && hostLog == old(hostLog)
    {
      fibers, instances, pendingCommit := c.fibers, c.instances, c.pendingCommit;
      completed := completed + done;
    }

    /** The fields `performWork` reads and writes, as a value. */
    function Snap(): Work
      reads this`fibers, this`instances, this`pendingCommit, this`currentInstance, this`nextNode, this`hostLog
    {
      Work(fibers, instances, pendingCommit, currentInstance, nextNode, hostLog)
    }

    /** The first line of `performWork(w)`: `updateHOOK` for a HOOK fiber, `updateHost` for any other. */
    method BeginWork(w: nat)
      requires Valid() && w < |fibers|
      modifies this
      ensures Valid() && Snap() == BeginStep(old(Snap()), w, renderComponent)
      ensures updateQueue == old(updateQueue) && nextWork == old(nextWork) && rootFiberOf == old(rootFiberOf)
      ensures completed == old(completed)
    {
      ghost var s := Snap();
      if fibers[w].tag == Hook {
        UpdateHook(w);
        assert Snap() == HookStep(s, w, renderComponent);
      } else {
        UpdateHost(w);
        assert Snap() == HostStep(s, w);
      }
    }

    /**
     * `performWork(w)`: update `w`, then go to its first child, or else
     * complete fibers up the `parent` chain until one has a sibling, which
     * is next; completing the root leaves nothing next.
     */
    method PerformWork(w: nat) returns (next: Option<nat>)
      requires Valid() && w < |fibers|
      modifies this
      ensures Valid() && (Snap(), next) == PerformStep(old(Snap()), w, renderComponent)
      ensures next == StepNext(fibers, w)
      ensures completed == old(completed) + StepDone(fibers, w)
      ensures updateQueue == old(updateQueue) && nextWork == old(nextWork) && rootFiberOf == old(rootFiberOf)
    {
      BeginWork(w);
      if fibers[w].child.Some? {
        return fibers[w].child;
      }
      ghost var fs1 := fibers;
      next := Climb(w);
      ClimbSameLinks(fs1, fibers, w);
    }

    /** The up-walk of `performWork(w)` on the reconciler's fields. */
    method Climb(w: nat) returns (next: Option<nat>)
      requires Valid() && w < |fibers|
      modifies this
      ensures Valid() && SameLinks(old(fibers), fibers)
      ensures Completion(fibers, instances, pendingCommit) == CompleteAll(old(Completion(fibers, instances, pendingCommit)), ClimbPath(old(fibers), w))
      ensures next == ClimbNext(old(fibers), w)
      ensures completed == old(completed) + ClimbPath(old(fibers), w)
      ensures updateQueue == old(updateQueue) && nextWork == old(nextWork) && rootFiberOf == old(rootFiberOf)
      ensures currentInstance == old(currentInstance) && nextNode == old(nextNode) && hostLog == old(hostLog)
    {
      var c;
      c, next := CompleteUp(Completion(fibers, instances, pendingCommit), w);
      ClimbKeepsState(fibers, instances, updateQueue, nextWork, pendingCommit, currentInstance, rootFiberOf, w, c);
      Install(c, ClimbPath(fibers, w));
    }

    /**
     * `commitAllWork(w)`: commit `w`'s patches in order, then run the
     * effects of the current instance (which throws when there is none);
     * when nothing throws, `w` becomes its container's `rootFiber` and no
     * work is left in flight.
     */
    method CommitAllWork(w: nat) returns (outcome: Outcome)
      requires Valid() && w < |fibers| && fibers[w].parent.None?
      modifies this
      ensures Valid()
      ensures fibers == old(fibers) && instances == old(instances) && updateQueue == old(updateQueue)
      ensures currentInstance == old(currentInstance) && nextNode == old(nextNode) && completed == old(completed)
      ensures hostLog == old(hostLog) + Replay(fibers, fibers[w].patches).0
      ensures outcome == (if HasPatchList(fibers[w]) && Replay(fibers, fibers[w].patches).1 && currentInstance.Some? then Committed else Threw)
      ensures outcome == Committed ==>
                && rootFiberOf == old(rootFiberOf)[fibers[w].base.value.id := w]
                && nextWork.None? && pendingCommit.None?
      ensures outcome == Threw ==>
                rootFiberOf == old(rootFiberOf) && nextWork == old(nextWork) && pendingCommit == old(pendingCommit)
    {
      assert LinksOk(fibers[w], w, |fibers|) && FiberOk(fibers[w], |instances|);
      if !HasPatchList(fibers[w]) {
        // `WIP.patches` is undefined
        return Threw;
      }
      var ops, ok := CommitPatches(fibers, fibers[w].patches);
      hostLog := hostLog + ops;
      if !ok || currentInstance.None? {
        return Threw;
      }
      rootFiberOf := rootFiberOf[fibers[w].base.value.id := w];
      nextWork := None;
      pendingCommit := None;
      return Committed;
    }

    /**
     * `workLoop()`: with nothing in flight, start the next queued update;
     * run `performWork` until no work is left (or `fuel` steps are used
     * up); then commit the finished tree, if there is one.  `start` is the
     * state the loop starts from, from fiber `first`, and `ran` the state
     * it ends in.
     */
    method WorkLoop(fuel: nat) returns (outcome: Outcome, ghost start: Work, ghost first: Option<nat>, ghost ran: Work)
      requires Valid()
      modifies this
      ensures Valid()
      ensures var go := old(nextWork).None? && old(updateQueue) != [];
              && updateQueue == (if go then old(updateQueue)[1..] else old(updateQueue))
              && start == (if go then old(Snap()).(fibers := Begin(old(fibers), old(instances), old(rootFiberOf), old(updateQueue)[0])) else old(Snap()))
              && first == (if go then Some(|old(fibers)|) else old(nextWork))
      ensures WorkOk(start) && (first.Some? ==> first.value < |start.fibers|)
      ensures (ran, nextWork) == RunWork(start, first, renderComponent, fuel)
      ensures outcome == OutOfFuel <==> nextWork.Some?
      ensures outcome == NothingToCommit <==> nextWork.None? && ran.pendingCommit.None?
      ensures outcome == OutOfFuel || outcome == NothingToCommit ==> Snap() == ran && rootFiberOf == old(rootFiberOf)
      ensures nextWork.None? && ran.pendingCommit.Some? ==>
                var r := ran.pendingCommit.value;
                && r < |ran.fibers| && ran.fibers[r].parent.None?
                && Snap() == ran.(hostLog := ran.hostLog + Replay(ran.fibers, ran.fibers[r].patches).0, pendingCommit := pendingCommit)
                && outcome == (if HasPatchList(ran.fibers[r]) && Replay(ran.fibers, ran.fibers[r].patches).1 && ran.currentInstance.Some? then Committed else Threw)
                && (outcome == Committed ==> rootFiberOf == old(rootFiberOf)[ran.fibers[r].base.value.id := r] && pendingCommit.None?)
                && (outcome == Threw ==> rootFiberOf == old(rootFiberOf) && pendingCommit == Some(r))
    {
      if nextWork.None? && updateQueue != [] {
        ResetWork();
      }
      start, first := Snap(), nextWork;
      Drain(fuel);
      ran := Snap();
      if nextWork.Some? {
        outcome := OutOfFuel;
      } else {
        outcome := Finish();
      }
    }

    /** The `while (nextWork)` loop of `workLoop`, for at most `fuel` steps. */
    method Drain(fuel: nat)
      requires Valid()
      modifies this
      ensures Valid() && WorkOk(old(Snap()))
      ensures (Snap(), nextWork) == RunWork(old(Snap()), old(nextWork), renderComponent, fuel)
      ensures updateQueue == old(updateQueue) && rootFiberOf == old(rootFiberOf)
    {
      ghost var start, first := Snap(), nextWork;
      StateWorkOk(fibers, instances, updateQueue, nextWork, pendingCommit, currentInstance, rootFiberOf, nextNode, hostLog);
      var budget := fuel;
      while nextWork.Some? && budget > 0
        invariant Valid() && updateQueue == old(updateQueue) && rootFiberOf == old(rootFiberOf)
        invariant WorkOk(Snap()) && RunWork(Snap(), nextWork, renderComponent, budget) == RunWork(start, first, renderComponent, fuel)
        decreases budget
      {
        budget := DrainStep(budget, RunWork(start, first, renderComponent, fuel));
      }
      RunWorkDone(Snap(), nextWork, renderComponent, budget);
      assert (Snap(), nextWork) == RunWork(start, first, renderComponent, fuel);
    }

    /**
     * One round of the `while (nextWork)` loop, `nextWork = performWork(nextWork)`,
     * spending one step of `budget`; what remains of the run is unchanged.
     */
    method DrainStep(budget: nat, ghost goal: (Work, Option<nat>)) returns (rest: nat)
      requires Valid() && nextWork.Some? && budget > 0
      requires WorkOk(Snap()) && RunWork(Snap(), nextWork, renderComponent, budget) == goal
      modifies this
      ensures Valid() && WorkOk(Snap()) && (nextWork.Some? ==> nextWork.value < |fibers|)
      ensures rest == budget - 1 && RunWork(Snap(), nextWork, renderComponent, rest) == goal
      ensures updateQueue == old(updateQueue) && rootFiberOf == old(rootFiberOf)
    {
      var w := nextWork.value;
      ghost var s := Snap();
      var next := PerformWork(w);
      ghost var s1 := Snap();
      rest := budget - 1;
      RunWorkStep(s, w, renderComponent, budget, rest, s1, next);
      nextWork := next;
      assert Snap() == s1;
    }

    /** The end of `workLoop`: commit the tree waiting in `pendingCommit`, if there is one. */
    method Finish() returns (outcome: Outcome)
      requires Valid() && nextWork.None?
      modifies this
      ensures Valid() && updateQueue == old(updateQueue) && nextWork.None?
      ensures outcome == NothingToCommit <==> old(pendingCommit).None?
      ensures old(pendingCommit).None? ==> Snap() == old(Snap()) && rootFiberOf == old(rootFiberOf)
      ensures old(pendingCommit).Some? ==>
                var r, fs := old(pendingCommit).value, old(fibers);
                && r < |fs| && fs[r].parent.None?
                && Snap() == old(Snap()).(hostLog := old(hostLog) + Replay(fs, fs[r].patches).0, pendingCommit := pendingCommit)
                && outcome == (if HasPatchList(fs[r]) && Replay(fs, fs[r].patches).1 && old(currentInstance).Some? then Committed else Threw)
                && (outcome == Committed ==> rootFiberOf == old(rootFiberOf)[fs[r].base.value.id := r] && pendingCommit.None?)
                && (outcome == Threw ==> rootFiberOf == old(rootFiberOf) && pendingCommit == Some(r))
    {
      if pendingCommit.Some? {
        outcome := CommitAllWork(pendingCommit.value);
      } else {
        outcome := NothingToCommit;
      }
    }
  }
}
