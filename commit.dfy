/**
 * What the commit phase does to the host tree, stated on a fixed arena
 * (committing reads fibers and never changes them).
 *
 * Deleting a fiber walks its subtree iteratively: a HOOK fiber is looked
 * through (the walk moves to its first child), any other fiber has its
 * host node removed and its own children are not entered.  `Visit` lists
 * the fibers that walk reaches, in the order it reaches them; `After` and
 * `Pending` describe what is still to come at each point of the walk.
 */
module Commit {
  import opened Wrappers
  import opened Fibers
  import Traversal

  /** A HOOK fiber without a child: the delete walk reads `node.child.tag` of `null` here and throws. */
  predicate Childless(fs: seq<Fiber>, x: nat)
    requires x < |fs|
  {
    fs[x].tag == Hook && fs[x].child.None?
  }

  /** The fibers the delete walk reaches inside the subtree of `i`. */
  function Visit(fs: seq<Fiber>, i: nat): (r: seq<nat>)
    requires Links(fs) && i < |fs|
    ensures |r| > 0 && r[0] == i
    ensures forall k | 0 <= k < |r| :: i <= r[k] < |fs|
    decreases |fs| - i, 1
  {
    [i] + (if fs[i].tag == Hook && fs[i].child.Some? then VisitFrom(fs, fs[i].child) else [])
  }

  /** `Visit` of each fiber of the sibling chain starting at `s`, in order. */
  function VisitFrom(fs: seq<Fiber>, s: Option<nat>): (r: seq<nat>)
    requires Links(fs) && (s.Some? ==> s.value < |fs|)
    ensures s.None? ==> r == []
    ensures forall k | 0 <= k < |r| :: s.value <= r[k] < |fs|
    decreases if s.Some? then |fs| - s.value else 0, 2
  {
    match s
    case None => []
    case Some(c) => Visit(fs, c) + VisitFrom(fs, fs[c].sibling)
  }

  /** What the walk still reaches after finishing the subtree of `x`, up to the deleted fiber `f`. */
  function After(fs: seq<Fiber>, f: nat, x: nat): (r: seq<nat>)
    requires Links(fs) && x < |fs|
    ensures forall k | 0 <= k < |r| :: r[k] < |fs|
    decreases x
  {
    if x == f then []
    else VisitFrom(fs, fs[x].sibling) + (if fs[x].parent.Some? then After(fs, f, fs[x].parent.value) else [])
  }

  /** What the walk still reaches when it stands at `x`. */
  function Pending(fs: seq<Fiber>, f: nat, x: nat): (r: seq<nat>)
    requires Links(fs) && x < |fs|
    ensures forall k | 0 <= k < |r| :: r[k] < |fs|
  {
    Visit(fs, x) + After(fs, f, x)
  }

  /**
   * The host removals a walk over `vs` makes, in order, and whether it
   * gets to the end: it stops, having thrown, at the first childless HOOK.
   */
  function DeleteWalk(fs: seq<Fiber>, vs: seq<nat>): (r: (seq<nat>, bool))
    requires forall k | 0 <= k < |vs| :: vs[k] < |fs|
    ensures forall k | 0 <= k < |r.0| :: r.0[k] < |fs|
    decreases |vs|
  {
    if vs == [] then ([], true)
    else if Childless(fs, vs[0]) then ([], false)
    else
      var rest := DeleteWalk(fs, vs[1..]);
      ((if fs[vs[0]].tag != Hook then [vs[0]] else []) + rest.0, rest.1)
  }

  /**
   * The walk removes only non-HOOK fibers it reaches; it gets to the end
   * exactly when no fiber it reaches is a childless HOOK, and then it
   * removes every non-HOOK fiber it reaches.
   */
  lemma {:induction false} DeleteWalkFacts(fs: seq<Fiber>, vs: seq<nat>)
    requires forall k | 0 <= k < |vs| :: vs[k] < |fs|
    ensures forall k | 0 <= k < |DeleteWalk(fs, vs).0| :: DeleteWalk(fs, vs).0[k] in vs && fs[DeleteWalk(fs, vs).0[k]].tag != Hook
    ensures DeleteWalk(fs, vs).1 <==> forall k | 0 <= k < |vs| :: !Childless(fs, vs[k])
    ensures DeleteWalk(fs, vs).1 ==> forall k | 0 <= k < |vs| && fs[vs[k]].tag != Hook :: vs[k] in DeleteWalk(fs, vs).0
    decreases |vs|
  {
    if vs != [] && !Childless(fs, vs[0]) {
      var tail := vs[1..];
      DeleteWalkFacts(fs, tail);
      var rest := DeleteWalk(fs, tail);
      var head := if fs[vs[0]].tag != Hook then [vs[0]] else [];
      assert DeleteWalk(fs, vs) == (head + rest.0, rest.1);
      forall k | 0 <= k < |head + rest.0|
        ensures (head + rest.0)[k] in vs && fs[(head + rest.0)[k]].tag != Hook
      {
        if k >= |head| {
          assert (head + rest.0)[k] == rest.0[k - |head|];
          assert rest.0[k - |head|] in tail;
        }
      }
      forall k | 1 <= k < |vs|
        ensures vs[k] == tail[k - 1]
      {
      }
      if rest.1 {
        forall k | 0 <= k < |vs| && fs[vs[k]].tag != Hook
          ensures vs[k] in head + rest.0
        {
          if k > 0 {
            assert tail[k - 1] in rest.0;
          }
        }
      } else {
        var j :| 0 <= j < |tail| && Childless(fs, tail[j]);
        assert Childless(fs, vs[j + 1]);
      }
    }
  }

  /** One step of the delete walk: what it does at `x` and what it does after. */
  lemma DeleteWalkCons(fs: seq<Fiber>, x: nat, vs: seq<nat>)
    requires x < |fs| && forall k | 0 <= k < |vs| :: vs[k] < |fs|
    ensures DeleteWalk(fs, [x] + vs) ==
              if Childless(fs, x) then ([], false)
              else ((if fs[x].tag != Hook then [x] else []) + DeleteWalk(fs, vs).0, DeleteWalk(fs, vs).1)
  {
    assert ([x] + vs)[1..] == vs;
  }

  /** `x` is `f`, or is reached from `f` through HOOK fibers only. */
  predicate HookChain(fs: seq<Fiber>, x: nat, f: nat)
    requires Links(fs) && x < |fs|
    decreases x
  {
    x == f || (fs[x].parent.Some? && fs[fs[x].parent.value].tag == Hook && HookChain(fs, fs[x].parent.value, f))
  }

  lemma {:induction false} HookChainAncestor(fs: seq<Fiber>, x: nat, f: nat)
    requires Links(fs) && x < |fs| && HookChain(fs, x, f)
    ensures Ancestor(fs, x, f)
    decreases x
  {
    if x != f {
      HookChainAncestor(fs, fs[x].parent.value, f);
    }
  }

  lemma {:induction false} VisitHookChain(fs: seq<Fiber>, i: nat, x: nat)
    requires Links(fs) && Consistent(fs) && i < |fs| && x in Visit(fs, i)
    ensures x < |fs| && HookChain(fs, x, i)
    decreases |fs| - i, 1
  {
    if x != i {
      var c := fs[i].child.value;
      assert x in VisitFrom(fs, Some(c));
      var d := VisitFromHookChain(fs, c, x);
      assert ConsistentAt(fs, i);
      assert fs[c].parent == Some(i);
      HookChainExtend(fs, x, d, i);
    }
  }

  lemma {:induction false} HookChainExtend(fs: seq<Fiber>, x: nat, d: nat, i: nat)
    requires Links(fs) && x < |fs| && d < |fs| && i < |fs|
    requires HookChain(fs, x, d) && fs[d].parent == Some(i) && fs[i].tag == Hook
    ensures HookChain(fs, x, i)
    decreases x
  {
    if x != d {
      HookChainExtend(fs, fs[x].parent.value, d, i);
    }
  }

  lemma {:induction false} VisitFromHookChain(fs: seq<Fiber>, s: nat, x: nat) returns (d: nat)
    requires Links(fs) && Consistent(fs) && s < |fs| && x in VisitFrom(fs, Some(s))
    ensures x < |fs| && s <= d < |fs| && fs[d].parent == fs[s].parent && HookChain(fs, x, d)
    decreases |fs| - s, 2
  {
    if x in Visit(fs, s) {
      VisitHookChain(fs, s, x);
      d := s;
    } else {
      var t := fs[s].sibling.value;
      d := VisitFromHookChain(fs, t, x);
      assert ConsistentAt(fs, s);
      assert fs[t].parent == fs[s].parent;
    }
  }

  lemma {:induction false} VisitNoDup(fs: seq<Fiber>, i: nat)
    requires Links(fs) && Consistent(fs) && i < |fs|
    ensures NoDup(Visit(fs, i))
    decreases |fs| - i, 1
  {
    if fs[i].tag == Hook && fs[i].child.Some? {
      var b := VisitFrom(fs, fs[i].child);
      VisitFromNoDup(fs, fs[i].child);
      assert forall x | x in b :: x > i;
      NoDupConcat([i], b);
    }
  }

  lemma {:induction false} VisitFromNoDup(fs: seq<Fiber>, s: Option<nat>)
    requires Links(fs) && Consistent(fs) && (s.Some? ==> s.value < |fs|)
    ensures NoDup(VisitFrom(fs, s))
    decreases if s.Some? then |fs| - s.value else 0, 2
  {
    if s.Some? {
      var c := s.value;
      var a, b := Visit(fs, c), VisitFrom(fs, fs[c].sibling);
      VisitNoDup(fs, c);
      VisitFromNoDup(fs, fs[c].sibling);
      forall x | x in a && x in b
        ensures false
      {
        VisitHookChain(fs, c, x);
        HookChainAncestor(fs, x, c);
        var d := VisitFromHookChain(fs, fs[c].sibling.value, x);
        HookChainAncestor(fs, x, d);
        assert ConsistentAt(fs, c);
        assert fs[fs[c].sibling.value].parent == fs[c].parent;
        AncestorUnique(fs, x, c, d);
      }
      NoDupConcat(a, b);
      assert VisitFrom(fs, s) == a + b;
    }
  }

  lemma NoDupWalk(fs: seq<Fiber>, vs: seq<nat>)
    requires forall k | 0 <= k < |vs| :: vs[k] < |fs|
    requires NoDup(vs)
    ensures NoDup(DeleteWalk(fs, vs).0)
    decreases |vs|
  {
    if vs != [] && !Childless(fs, vs[0]) {
      assert NoDup(vs[1..]);
      var tail := vs[1..];
      NoDupWalk(fs, tail);
      DeleteWalkFacts(fs, tail);
      var rest := DeleteWalk(fs, tail);
      if fs[vs[0]].tag != Hook {
        assert vs[0] !in tail;
        assert vs[0] !in rest.0;
        NoDupConcat([vs[0]], rest.0);
      }
    }
  }

  /**
   * `commitDELETE` removes the host node of each fiber it removes exactly
   * once; each such fiber is a non-HOOK fiber reached from the deleted
   * fiber through HOOK fibers only (so it never enters a host node's
   * children); when no HOOK on the way is childless it removes every
   * non-HOOK fiber it reaches.
   */
  lemma DeleteRemovesTopHosts(fs: seq<Fiber>, f: nat)
    requires Links(fs) && Consistent(fs) && f < |fs|
    ensures NoDup(DeleteWalk(fs, Visit(fs, f)).0)
    ensures forall x | x in DeleteWalk(fs, Visit(fs, f)).0 :: x < |fs| && fs[x].tag != Hook && HookChain(fs, x, f)
    ensures DeleteWalk(fs, Visit(fs, f)).1 ==>
              forall x | x < |fs| && x in Traversal.Post(fs, f) && fs[x].tag != Hook && HookChain(fs, x, f) :: x in DeleteWalk(fs, Visit(fs, f)).0
  {
    var vs := Visit(fs, f);
    DeleteWalkFacts(fs, vs);
    VisitNoDup(fs, f);
    NoDupWalk(fs, vs);
    forall x | x in DeleteWalk(fs, vs).0
      ensures x < |fs| && fs[x].tag != Hook && HookChain(fs, x, f)
    {
      VisitHookChain(fs, f, x);
    }
    if DeleteWalk(fs, vs).1 {
      forall x | x < |fs| && x in Traversal.Post(fs, f) && fs[x].tag != Hook && HookChain(fs, x, f)
        ensures x in DeleteWalk(fs, vs).0
      {
        TopHostReached(fs, f, x);
        var k :| 0 <= k < |vs| && vs[k] == x;
      }
    }
  }

  /** A fiber reached through HOOKs from `i`, other than `i`, makes `i` itself a HOOK. */
  lemma {:induction false} HookThrough(fs: seq<Fiber>, x: nat, i: nat)
    requires Links(fs) && x < |fs| && HookChain(fs, x, i) && x != i
    ensures i < |fs| && fs[i].tag == Hook
    decreases x
  {
    var p := fs[x].parent.value;
    if p != i {
      HookThrough(fs, p, i);
    }
  }

  /** A HOOK chain from `i` down to `x` passes through the child `c` of `i` that lies above `x`. */
  lemma {:induction false} HookChainNarrow(fs: seq<Fiber>, x: nat, c: nat, i: nat)
    requires Links(fs) && x < |fs| && c < |fs|
    requires HookChain(fs, x, i) && Ancestor(fs, x, c) && fs[c].parent == Some(i)
    ensures HookChain(fs, x, c)
    decreases x
  {
    if x != c {
      AncestorBelow(fs, x, c);
      HookChainNarrow(fs, fs[x].parent.value, c, i);
    }
  }

  /**
   * Every fiber of `i`'s subtree that is reached from `i` through HOOK
   * fibers only is one the delete walk reaches.
   */
  lemma {:induction false} TopHostReached(fs: seq<Fiber>, i: nat, x: nat)
    requires Links(fs) && Consistent(fs) && i < |fs| && x < |fs|
    requires x in Traversal.Post(fs, i) && HookChain(fs, x, i)
    ensures x in Visit(fs, i)
    decreases |fs| - i, 1
  {
    if x != i {
      var c := fs[i].child.value;
      assert x in Traversal.PostFrom(fs, Some(c));
      assert ConsistentAt(fs, i);
      HookThrough(fs, x, i);
      TopHostReachedFrom(fs, c, i, x);
    }
  }

  lemma {:induction false} TopHostReachedFrom(fs: seq<Fiber>, s: nat, i: nat, x: nat)
    requires Links(fs) && Consistent(fs) && s < |fs| && x < |fs| && fs[s].parent == Some(i)
    requires x in Traversal.PostFrom(fs, Some(s)) && HookChain(fs, x, i)
    ensures x in VisitFrom(fs, Some(s))
    decreases |fs| - s, 2
  {
    if x in Traversal.Post(fs, s) {
      Traversal.PostAncestor(fs, s, x);
      HookChainNarrow(fs, x, s, i);
      TopHostReached(fs, s, x);
    } else {
      var t := fs[s].sibling.value;
      assert ConsistentAt(fs, s);
      TopHostReachedFrom(fs, t, i, x);
    }
  }

  /** `x` is the deleted fiber `f` or lies below it. */
  predicate InWalk(fs: seq<Fiber>, f: nat, x: nat)
    requires Links(fs) && x < |fs|
  {
    f <= x && Ancestor(fs, x, f)
  }

  /** A HOOK with a child: the walk moves to the child and has reached nothing new. */
  lemma PendingDescend(fs: seq<Fiber>, f: nat, x: nat)
    requires Links(fs) && x < |fs| && InWalk(fs, f, x)
    requires fs[x].tag == Hook && fs[x].child.Some? && fs[fs[x].child.value].parent == Some(x)
    ensures InWalk(fs, f, fs[x].child.value)
    ensures Pending(fs, f, x) == [x] + Pending(fs, f, fs[x].child.value)
  {
    var c := fs[x].child.value;
    assert Ancestor(fs, c, f) by {
      assert fs[c].parent.value == x;
    }
    var kids := VisitFrom(fs, fs[c].sibling);
    var up := After(fs, f, x);
    assert After(fs, f, c) == kids + up by {
      assert c != f;
    }
    assert Visit(fs, x) == [x] + (Visit(fs, c) + kids);
    calc {
      Pending(fs, f, x);
      ([x] + (Visit(fs, c) + kids)) + up;
      [x] + (Visit(fs, c) + (kids + up));
      [x] + Pending(fs, f, c);
    }
  }

  /** A fiber that is not a HOOK with a child: the walk has nothing below it. */
  lemma PendingLeaf(fs: seq<Fiber>, f: nat, x: nat)
    requires Links(fs) && x < |fs|
    requires !(fs[x].tag == Hook && fs[x].child.Some?)
    ensures Pending(fs, f, x) == [x] + After(fs, f, x)
  {
  }

  /** Climbing from a sibling-less fiber below `f` leaves what remains unchanged. */
  lemma AfterClimb(fs: seq<Fiber>, f: nat, x: nat)
    requires Links(fs) && x < |fs| && InWalk(fs, f, x) && x != f && fs[x].sibling.None?
    ensures fs[x].parent.Some? && InWalk(fs, f, fs[x].parent.value)
    ensures After(fs, f, x) == After(fs, f, fs[x].parent.value)
  {
    AncestorBelow(fs, fs[x].parent.value, f);
  }

  /** Moving from a fiber below `f` to its sibling: what remains is what the sibling has pending. */
  lemma AfterSibling(fs: seq<Fiber>, f: nat, x: nat)
    requires Links(fs) && x < |fs| && InWalk(fs, f, x) && x != f && fs[x].sibling.Some?
    requires fs[fs[x].sibling.value].parent == fs[x].parent
    ensures InWalk(fs, f, fs[x].sibling.value)
    ensures After(fs, f, x) == Pending(fs, f, fs[x].sibling.value)
  {
    var s := fs[x].sibling.value;
    var p := fs[x].parent.value;
    assert Ancestor(fs, p, f);
    AncestorBelow(fs, p, f);
    assert Ancestor(fs, s, f) by {
      assert fs[s].parent.value == p;
    }
    var tail := VisitFrom(fs, fs[s].sibling);
    var up := After(fs, f, p);
    assert After(fs, f, s) == tail + up by {
      assert s != f;
    }
    assert After(fs, f, x) == VisitFrom(fs, Some(s)) + up;
    assert VisitFrom(fs, Some(s)) == Visit(fs, s) + tail;
    calc {
      After(fs, f, x);
      (Visit(fs, s) + tail) + up;
      Visit(fs, s) + (tail + up);
      Pending(fs, f, s);
    }
  }

  /** The nearest ancestor starting at `p` that is not a HOOK: the parent host of `commitWork`. */
  function HostParentFrom(fs: seq<Fiber>, p: Option<nat>): (r: Option<nat>)
    requires Links(fs) && (p.Some? ==> p.value < |fs|)
    ensures r.Some? ==> r.value < |fs| && fs[r.value].tag != Hook
    ensures r.Some? ==> p.Some? && p.value >= r.value && Ancestor(fs, p.value, r.value)
    decreases if p.Some? then p.value + 1 else 0
  {
    match p
    case None => None
    case Some(q) => if fs[q].tag == Hook then HostParentFrom(fs, fs[q].parent) else Some(q)
  }

  /** A `Remove(parentNode, base)` call for each fiber of `xs`, in order. */
  function Removes(fs: seq<Fiber>, parentNode: Base, xs: seq<nat>): (ops: seq<HostOp>)
    requires forall k | 0 <= k < |xs| :: xs[k] < |fs|
    ensures |ops| == |xs|
    ensures forall k | 0 <= k < |xs| :: ops[k] == Remove(parentNode, fs[xs[k]].base)
  {
    seq(|xs|, k requires 0 <= k < |xs| => Remove(parentNode, fs[xs[k]].base))
  }

  lemma RemovesSnoc(fs: seq<Fiber>, parentNode: Base, xs: seq<nat>, x: nat)
    requires x < |fs| && forall k | 0 <= k < |xs| :: xs[k] < |fs|
    ensures Removes(fs, parentNode, xs + [x]) == Removes(fs, parentNode, xs) + [Remove(parentNode, fs[x].base)]
  {
  }

  /**
   * The host calls `commitWork` makes for patch `f`, and whether it
   * returns normally.  It throws where it reads through a null link: a
   * parent chain with no non-HOOK fiber, an UPDATE without an alternate,
   * an INSERT or DELETE whose parent host fiber has no node, and a
   * childless HOOK inside a deleted subtree.
   */
  function PatchOps(fs: seq<Fiber>, f: nat): (seq<HostOp>, bool)
    requires Links(fs) && f < |fs|
  {
    var fb := fs[f];
    if fb.tag == Root then ([], true)
    else
      var hp := HostParentFrom(fs, fb.parent);
      if hp.None? then ([], false)
      else
        var parentNode := fs[hp.value].base;
        if fb.patchTag == Insert && fb.tag == Host then
          if parentNode.None? then ([], false) else ([Append(parentNode.value, fb.base)], true)
        else if fb.patchTag == Update && fb.tag == Host then
          if fb.alternate.None? then ([], false)
          else ([Patch(fb.base, fs[fb.alternate.value].props, fb.props)], true)
        else if fb.patchTag == Delete then
          if parentNode.None? then ([], false)
          else
            var w := DeleteWalk(fs, Visit(fs, f));
            (Removes(fs, parentNode.value, w.0), w.1)
        else ([], true)
  }

  /** The host calls of `commitAllWork`'s loop over `ps`, in list order, up to the first patch that throws. */
  function Replay(fs: seq<Fiber>, ps: seq<nat>): (seq<HostOp>, bool)
    requires Links(fs) && forall k | 0 <= k < |ps| :: ps[k] < |fs|
    decreases |ps|
  {
    if ps == [] then ([], true)
    else
      var first := PatchOps(fs, ps[0]);
      if !first.1 then first
      else
        var rest := Replay(fs, ps[1..]);
        (first.0 + rest.0, rest.1)
  }
}
