/**
 * The iterative depth-first walk of `performWork`, stated on the links of
 * an arena: one step descends to the first child if there is one, and
 * otherwise completes the fiber and its sibling-less ancestors until it
 * reaches one with a sibling (the next fiber to visit) or completes the
 * root.  The lemmas show that, driven from a root, the steps complete the
 * fibers of the tree exactly in post-order: each fiber once, right after
 * the fibers of its own subtree.
 */
module Traversal {
  import opened Wrappers
  import opened Fibers

  /**
   * The fibers completed once `w` has no child: `w`, then each ancestor
   * reached while the fiber just completed has no sibling (the up-walk of
   * `performWork`).
   */
  function ClimbPath(fs: seq<Fiber>, w: nat): (path: seq<nat>)
    requires Links(fs) && w < |fs|
    ensures |path| > 0 && path[0] == w
    ensures forall k | 0 <= k < |path| :: path[k] < |fs|
    ensures forall k {:trigger fs[path[k]]} | 0 <= k < |path| - 1 :: fs[path[k]].sibling.None? && fs[path[k]].parent == Some(path[k + 1])
    ensures fs[path[|path| - 1]].sibling.Some? || fs[path[|path| - 1]].parent.None?
    decreases w
  {
    if fs[w].sibling.Some? || fs[w].parent.None? then [w]
    else [w] + ClimbPath(fs, fs[w].parent.value)
  }

  /** Where the up-walk goes next: the sibling of the last fiber it completed, or nowhere at the root. */
  function ClimbNext(fs: seq<Fiber>, w: nat): (next: Option<nat>)
    requires Links(fs) && w < |fs|
    ensures next == fs[ClimbPath(fs, w)[|ClimbPath(fs, w)| - 1]].sibling
    ensures next.Some? ==> next.value < |fs|
    decreases w
  {
    if fs[w].sibling.Some? || fs[w].parent.None? then fs[w].sibling
    else ClimbNext(fs, fs[w].parent.value)
  }

  /** What one `performWork` step completes. */
  function StepDone(fs: seq<Fiber>, w: nat): seq<nat>
    requires Links(fs) && w < |fs|
  {
    if fs[w].child.Some? then [] else ClimbPath(fs, w)
  }

  /** The fiber one `performWork` step returns. */
  function StepNext(fs: seq<Fiber>, w: nat): (next: Option<nat>)
    requires Links(fs) && w < |fs|
    ensures next.Some? ==> next.value < |fs|
  {
    if fs[w].child.Some? then fs[w].child else ClimbNext(fs, w)
  }

  /** The subtree of `i` in post-order: the subtrees of its children in sibling order, then `i`. */
  function Post(fs: seq<Fiber>, i: nat): (r: seq<nat>)
    requires Links(fs) && i < |fs|
    ensures |r| > 0 && r[|r| - 1] == i
    ensures forall k | 0 <= k < |r| :: i <= r[k] < |fs|
    decreases |fs| - i, 1
  {
    PostFrom(fs, fs[i].child) + [i]
  }

  /** The post-order of the subtrees of the sibling chain starting at `s`. */
  function PostFrom(fs: seq<Fiber>, s: Option<nat>): (r: seq<nat>)
    requires Links(fs) && (s.Some? ==> s.value < |fs|)
    ensures s.None? ==> r == []
    ensures forall k | 0 <= k < |r| :: s.value <= r[k] < |fs|
    decreases if s.Some? then |fs| - s.value else 0, 2
  {
    match s
    case None => []
    case Some(c) => Post(fs, c) + PostFrom(fs, fs[c].sibling)
  }

  /** What remains to complete above a subtree: each pending ancestor, after its later siblings' subtrees. */
  function Up(fs: seq<Fiber>, p: Option<nat>): seq<nat>
    requires Links(fs) && (p.Some? ==> p.value < |fs|)
    decreases if p.Some? then p.value + 1 else 0
  {
    match p
    case None => []
    case Some(q) => [q] + PostFrom(fs, fs[q].sibling) + Up(fs, fs[q].parent)
  }

  /** Everything the walk completes from the moment it is about to visit `w`. */
  function Rest(fs: seq<Fiber>, w: nat): seq<nat>
    requires Links(fs) && w < |fs|
  {
    PostFrom(fs, Some(w)) + Up(fs, fs[w].parent)
  }

  function RestOpt(fs: seq<Fiber>, w: Option<nat>): seq<nat>
    requires Links(fs) && (w.Some? ==> w.value < |fs|)
  {
    if w.Some? then Rest(fs, w.value) else []
  }

  /** The sequences `ClimbRest` equates, for one fiber `x`. */
  predicate ClimbSplit(fs: seq<Fiber>, x: nat)
    requires Links(fs) && x < |fs|
  {
    [x] + PostFrom(fs, fs[x].sibling) + Up(fs, fs[x].parent) == ClimbPath(fs, x) + RestOpt(fs, ClimbNext(fs, x))
  }

  lemma {:induction false} ClimbRest(fs: seq<Fiber>, x: nat)
    requires Links(fs) && Consistent(fs) && x < |fs|
    ensures ClimbSplit(fs, x)
    decreases x
  {
    if fs[x].sibling.Some? {
      ClimbRestSibling(fs, x);
    } else if fs[x].parent.Some? {
      ClimbRest(fs, fs[x].parent.value);
      ClimbRestUp(fs, x);
    } else {
      assert ClimbPath(fs, x) == [x];
    }
  }

  lemma ClimbRestSibling(fs: seq<Fiber>, x: nat)
    requires Links(fs) && Consistent(fs) && x < |fs|
    requires fs[x].sibling.Some?
    ensures ClimbSplit(fs, x)
  {
    var side := PostFrom(fs, fs[x].sibling);
    var up := Up(fs, fs[x].parent);
    var s := fs[x].sibling.value;
    assert ConsistentAt(fs, x);
    assert fs[s].parent == fs[x].parent;
    assert ClimbPath(fs, x) == [x];
    assert RestOpt(fs, ClimbNext(fs, x)) == side + up;
    Assoc([x], side, up);
  }

  lemma ClimbRestUp(fs: seq<Fiber>, x: nat)
    requires Links(fs) && x < |fs|
    requires fs[x].sibling.None? && fs[x].parent.Some?
    requires ClimbSplit(fs, fs[x].parent.value)
    ensures ClimbSplit(fs, x)
  {
    var p := fs[x].parent.value;
    var up := Up(fs, fs[x].parent);
    var above := ClimbPath(fs, p);
    var rest := RestOpt(fs, ClimbNext(fs, p));
    assert up == above + rest by {
      assert up == [p] + PostFrom(fs, fs[p].sibling) + Up(fs, fs[p].parent);
    }
    assert ClimbPath(fs, x) == [x] + above;
    assert ClimbNext(fs, x) == ClimbNext(fs, p);
    PrependStep(x, PostFrom(fs, fs[x].sibling), up, above, rest);
  }

  lemma PrependStep(x: nat, side: seq<nat>, up: seq<nat>, above: seq<nat>, rest: seq<nat>)
    requires side == [] && up == above + rest
    ensures [x] + side + up == ([x] + above) + rest
  {
  }

  lemma Assoc(a: seq<nat>, b: seq<nat>, c: seq<nat>)
    ensures a + b + c == a + (b + c)
  {
  }

  lemma StepRestChild(fs: seq<Fiber>, w: nat)
    requires Links(fs) && w < |fs| && fs[w].child.Some?
    requires fs[fs[w].child.value].parent == Some(w)
    ensures Rest(fs, w) == Rest(fs, fs[w].child.value)
  {
    var c := fs[w].child.value;
    var down := PostFrom(fs, Some(c));
    var side := PostFrom(fs, fs[w].sibling);
    var up := Up(fs, fs[w].parent);
    calc {
      Rest(fs, w);
      PostFrom(fs, Some(w)) + up;
      (Post(fs, w) + side) + up;
      ((down + [w]) + side) + up;
      down + (([w] + side) + up);
      down + Up(fs, Some(w));
      Rest(fs, c);
    }
  }

  /**
   * One step of the walk completes a prefix of what remains, and what
   * remains after it is the rest.
   */
  lemma StepRest(fs: seq<Fiber>, w: nat)
    requires Links(fs) && Consistent(fs) && w < |fs|
    ensures Rest(fs, w) == StepDone(fs, w) + RestOpt(fs, StepNext(fs, w))
  {
    if fs[w].child.Some? {
      assert ConsistentAt(fs, w);
      assert fs[fs[w].child.value].parent == Some(w);
      StepRestChild(fs, w);
    } else {
      assert Post(fs, w) == [w];
      ClimbRest(fs, w);
      assert ClimbSplit(fs, w);
    }
  }

  /**
   * The completions of the whole walk from `w` on: `performWork` applied
   * until it returns nothing.  It ends because every step either descends
   * to a later fiber or completes at least one.
   */
  function Run(fs: seq<Fiber>, w: nat): (r: seq<nat>)
    requires Links(fs) && Consistent(fs) && w < |fs|
    ensures r == Rest(fs, w)
    decreases |Rest(fs, w)|, |fs| - w
  {
    StepRest(fs, w);
    var next := StepNext(fs, w);
    if next.None? then StepDone(fs, w) else StepDone(fs, w) + Run(fs, next.value)
  }

  /** From a root (no parent, no sibling) the walk completes exactly the root's subtree, in post-order. */
  lemma RunFromRoot(fs: seq<Fiber>, r: nat)
    requires Links(fs) && Consistent(fs) && r < |fs|
    requires fs[r].parent.None? && fs[r].sibling.None?
    ensures Run(fs, r) == Post(fs, r)
  {
    assert Rest(fs, r) == Post(fs, r) + [] + [];
  }

  lemma {:induction false} PostAncestor(fs: seq<Fiber>, i: nat, x: nat)
    requires Links(fs) && Consistent(fs) && i < |fs| && x in Post(fs, i)
    ensures x < |fs| && Ancestor(fs, x, i)
    decreases |fs| - i, 1
  {
    if x != i {
      var c := fs[i].child.value;
      assert x in PostFrom(fs, Some(c));
      var d := PostFromAncestor(fs, c, x);
      assert ConsistentAt(fs, i);
      assert fs[c].parent == Some(i);
      AncestorStep(fs, x, d);
    }
  }

  lemma {:induction false} PostFromAncestor(fs: seq<Fiber>, s: nat, x: nat) returns (d: nat)
    requires Links(fs) && Consistent(fs) && s < |fs| && x in PostFrom(fs, Some(s))
    ensures x < |fs| && s <= d < |fs| && fs[d].parent == fs[s].parent && Ancestor(fs, x, d)
    decreases |fs| - s, 2
  {
    if x in Post(fs, s) {
      PostAncestor(fs, s, x);
      d := s;
    } else {
      var t := fs[s].sibling.value;
      d := PostFromAncestor(fs, t, x);
      assert ConsistentAt(fs, s);
      assert fs[t].parent == fs[s].parent;
    }
  }

  lemma {:induction false} PostNoDup(fs: seq<Fiber>, i: nat)
    requires Links(fs) && Consistent(fs) && i < |fs|
    ensures NoDup(Post(fs, i))
    decreases |fs| - i, 1
  {
    var a := PostFrom(fs, fs[i].child);
    PostFromNoDup(fs, fs[i].child);
    if fs[i].child.Some? {
      assert forall x | x in a :: x > i;
    }
    NoDupConcat(a, [i]);
  }

  lemma {:induction false} PostFromNoDup(fs: seq<Fiber>, s: Option<nat>)
    requires Links(fs) && Consistent(fs) && (s.Some? ==> s.value < |fs|)
    ensures NoDup(PostFrom(fs, s))
    decreases if s.Some? then |fs| - s.value else 0, 2
  {
    if s.Some? {
      var c := s.value;
      var a, b := Post(fs, c), PostFrom(fs, fs[c].sibling);
      PostNoDup(fs, c);
      PostFromNoDup(fs, fs[c].sibling);
      forall x | x in a && x in b
        ensures false
      {
        PostAncestor(fs, c, x);
        var d := PostFromAncestor(fs, fs[c].sibling.value, x);
        assert ConsistentAt(fs, c);
        assert fs[fs[c].sibling.value].parent == fs[c].parent;
        AncestorUnique(fs, x, c, d);
      }
      NoDupConcat(a, b);
      assert PostFrom(fs, s) == a + b;
    }
  }

  lemma {:induction false} PostBlock(fs: seq<Fiber>, i: nat, x: nat) returns (k: nat)
    requires Links(fs) && i < |fs| && x in Post(fs, i)
    ensures x < |fs| && BlockAt(Post(fs, i), k, Post(fs, x))
    decreases |fs| - i, 1
  {
    if x == i {
      k := 0;
    } else {
      var c := fs[i].child.value;
      var a := PostFrom(fs, Some(c));
      assert Post(fs, i) == a + [i];
      k := PostFromBlock(fs, c, x);
      SliceLeft(Post(fs, i), a, [i], k, Post(fs, x));
    }
  }

  lemma {:induction false} PostFromBlock(fs: seq<Fiber>, s: nat, x: nat) returns (k: nat)
    requires Links(fs) && s < |fs| && x in PostFrom(fs, Some(s))
    ensures x < |fs| && BlockAt(PostFrom(fs, Some(s)), k, Post(fs, x))
    decreases |fs| - s, 2
  {
    var a := Post(fs, s);
    var b := PostFrom(fs, fs[s].sibling);
    var whole := PostFrom(fs, Some(s));
    assert whole == a + b;
    var p := Post(fs, x);
    if x in a {
      k := PostBlock(fs, s, x);
      SliceLeft(whole, a, b, k, p);
    } else {
      var t := fs[s].sibling.value;
      assert b == PostFrom(fs, Some(t));
      var k' := PostFromBlock(fs, t, x);
      k := |a| + k';
      SliceRight(whole, a, b, k, k', p);
    }
  }

  /** `p` occurs in `whole` as a contiguous block starting at position `k`. */
  predicate BlockAt(whole: seq<nat>, k: nat, p: seq<nat>)
  {
    k + |p| <= |whole| && whole[k .. k + |p|] == p
  }

  lemma SliceLeft(whole: seq<nat>, a: seq<nat>, b: seq<nat>, k: nat, p: seq<nat>)
    requires whole == a + b && BlockAt(a, k, p)
    ensures BlockAt(whole, k, p)
  {
  }

  lemma SliceRight(whole: seq<nat>, a: seq<nat>, b: seq<nat>, k: nat, k': nat, p: seq<nat>)
    requires whole == a + b && k == |a| + k' && BlockAt(b, k', p)
    ensures BlockAt(whole, k, p)
  {
  }

  /**
   * Driven from a root, the walk completes every fiber of the tree exactly
   * once, every completed fiber lies below the root, and each fiber's own
   * subtree is completed as one block that ends with the fiber itself: a
   * fiber is completed after all of its descendants.
   */
  lemma CompletesOnceAfterDescendants(fs: seq<Fiber>, r: nat, x: nat) returns (k: nat)
    requires Links(fs) && Consistent(fs) && r < |fs|
    requires fs[r].parent.None? && fs[r].sibling.None?
    requires x in Run(fs, r)
    ensures NoDup(Run(fs, r))
    ensures x < |fs| && Ancestor(fs, x, r)
    ensures k + |Post(fs, x)| <= |Run(fs, r)| && Run(fs, r)[k .. k + |Post(fs, x)|] == Post(fs, x)
    ensures Run(fs, r)[k + |Post(fs, x)| - 1] == x
  {
    RunFromRoot(fs, r);
    PostNoDup(fs, r);
    PostAncestor(fs, r, x);
    k := PostBlock(fs, r, x);
    assert BlockAt(Run(fs, r), k, Post(fs, x));
    assert Run(fs, r)[k + |Post(fs, x)| - 1] == Post(fs, x)[|Post(fs, x)| - 1];
  }

  /** Two arenas of the same size with the same `parent`, `child` and `sibling` links. */
  predicate SameLinks(a: seq<Fiber>, b: seq<Fiber>)
  {
    |a| == |b| &&
    forall i | 0 <= i < |a| :: a[i].parent == b[i].parent && a[i].child == b[i].child && a[i].sibling == b[i].sibling
  }

  /** The up-walk reads only links, so arenas that differ elsewhere (patches, patch tags) walk alike. */
  lemma {:induction false} ClimbSameLinks(a: seq<Fiber>, b: seq<Fiber>, w: nat)
    requires Links(a) && Links(b) && SameLinks(a, b) && w < |a|
    ensures ClimbPath(a, w) == ClimbPath(b, w) && ClimbNext(a, w) == ClimbNext(b, w)
    ensures StepDone(a, w) == StepDone(b, w) && StepNext(a, w) == StepNext(b, w)
    decreases w
  {
    if !(a[w].sibling.Some? || a[w].parent.None?) {
      ClimbSameLinks(a, b, a[w].parent.value);
    }
  }
}
