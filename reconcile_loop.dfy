module ReconcileLoop {
  import opened Wrappers
  import opened Fibers
  import opened Children

  /** How many new fibers the first `n` rounds have made. */
  function Made(n: nat, nc: seq<VNode>): nat
  {
    if n < |nc| then n else |nc|
  }

  /** How many new fibers are linked as siblings once round `n` has made its fiber, before it links it. */
  function Linked(n: nat, nc: seq<VNode>): nat
  {
    if Made(n, nc) == 0 then Made(n + 1, nc) else Made(n, nc)
  }

  /** The old fibers of `fs` are those of `fs0` with the fibers of `d` marked DELETE and `w.child` set to `c`. */
  ghost predicate OldPart(fs: seq<Fiber>, fs0: seq<Fiber>, w: nat, d: seq<nat>, c: Option<nat>)
  {
    |fs0| <= |fs| && forall i {:trigger Touch(fs0, w, d, c, i)} | 0 <= i < |fs0| :: fs[i] == Touch(fs0, w, d, c, i)
  }

  /** `fs` holds `m` new fibers, the first `k` of them linked as siblings. */
  ghost predicate NewPart(fs: seq<Fiber>, fs0: seq<Fiber>, w: nat, olds: seq<nat>, nc: seq<VNode>, m: nat, k: nat)
    requires InArena(fs0, olds)
  {
    m <= |nc| && |fs| == |fs0| + m
    && forall j {:trigger Fresh(fs0, w, olds, nc, j, k)} | 0 <= j < m :: fs[|fs0| + j] == Fresh(fs0, w, olds, nc, j, k)
  }

  lemma OldAppend(fs: seq<Fiber>, fs0: seq<Fiber>, w: nat, d: seq<nat>, c: Option<nat>, x: Fiber)
    requires OldPart(fs, fs0, w, d, c)
    ensures OldPart(fs + [x], fs0, w, d, c)
  {
    forall i | 0 <= i < |fs0| ensures (fs + [x])[i] == Touch(fs0, w, d, c, i) {
      assert fs[i] == Touch(fs0, w, d, c, i);
    }
  }

  lemma OldDelete(fs: seq<Fiber>, fs0: seq<Fiber>, w: nat, d: seq<nat>, c: Option<nat>, gone: nat)
    requires OldPart(fs, fs0, w, d, c) && w < |fs0| && gone < |fs0|
    ensures var f1 := fs[gone := fs[gone].(patchTag := Delete)];
            OldPart(f1[w := f1[w].(patches := f1[w].patches + [gone])], fs0, w, d + [gone], c)
  {
    var f1 := fs[gone := fs[gone].(patchTag := Delete)];
    var f2 := f1[w := f1[w].(patches := f1[w].patches + [gone])];
    forall i | 0 <= i < |fs0| ensures f2[i] == Touch(fs0, w, d + [gone], c, i) {
      assert fs[i] == Touch(fs0, w, d, c, i);
      assert fs0[w].patches + d + [gone] == fs0[w].patches + (d + [gone]);
    }
  }

  lemma OldChild(fs: seq<Fiber>, fs0: seq<Fiber>, w: nat, d: seq<nat>, c: Option<nat>, c': Option<nat>)
    requires OldPart(fs, fs0, w, d, c) && w < |fs0|
    ensures OldPart(fs[w := fs[w].(child := c')], fs0, w, d, c')
  {
    forall i | 0 <= i < |fs0| ensures fs[w := fs[w].(child := c')][i] == Touch(fs0, w, d, c', i) {
      assert fs[i] == Touch(fs0, w, d, c, i);
    }
  }

  lemma OldHigh(fs: seq<Fiber>, fs0: seq<Fiber>, w: nat, d: seq<nat>, c: Option<nat>, p: nat, v: Fiber)
    requires OldPart(fs, fs0, w, d, c) && |fs0| <= p < |fs|
    ensures OldPart(fs[p := v], fs0, w, d, c)
  {
    forall i | 0 <= i < |fs0| ensures fs[p := v][i] == Touch(fs0, w, d, c, i) {
      assert fs[i] == Touch(fs0, w, d, c, i);
    }
  }

  lemma NewAppend(fs: seq<Fiber>, fs0: seq<Fiber>, w: nat, olds: seq<nat>, nc: seq<VNode>, m: nat, m1: nat, k: nat, x: Fiber)
    requires InArena(fs0, olds) && NewPart(fs, fs0, w, olds, nc, m, m) && m < |nc|
    requires m1 == m + 1 && k == (if m == 0 then 1 else m)
    requires x == Fresh(fs0, w, olds, nc, m, m1)
    ensures NewPart(fs + [x], fs0, w, olds, nc, m1, k)
  {
    forall j | 0 <= j < m1 ensures (fs + [x])[|fs0| + j] == Fresh(fs0, w, olds, nc, j, k) {
      if j < m {
        assert fs[|fs0| + j] == Fresh(fs0, w, olds, nc, j, m);
      }
    }
  }

  lemma NewLink(fs: seq<Fiber>, fs0: seq<Fiber>, w: nat, olds: seq<nat>, nc: seq<VNode>, m: nat, m1: nat, p: nat, next: Option<nat>)
    requires InArena(fs0, olds) && 0 < m && m1 == m + 1 && NewPart(fs, fs0, w, olds, nc, m1, m)
    requires p == |fs0| + m - 1 && next == Some(|fs0| + m)
    ensures NewPart(fs[p := fs[p].(sibling := next)], fs0, w, olds, nc, m1, m1)
  {
    var g := fs[p := fs[p].(sibling := next)];
    forall j | 0 <= j < m1 ensures g[|fs0| + j] == Fresh(fs0, w, olds, nc, j, m1) {
      assert fs[|fs0| + j] == Fresh(fs0, w, olds, nc, j, m);
    }
  }

  lemma NewLow(fs: seq<Fiber>, fs0: seq<Fiber>, w: nat, olds: seq<nat>, nc: seq<VNode>, m: nat, k: nat, i: nat, v: Fiber)
    requires InArena(fs0, olds) && NewPart(fs, fs0, w, olds, nc, m, k) && i < |fs0|
    ensures NewPart(fs[i := v], fs0, w, olds, nc, m, k)
  {
    forall j | 0 <= j < m ensures fs[i := v][|fs0| + j] == Fresh(fs0, w, olds, nc, j, k) {
      assert fs[|fs0| + j] == Fresh(fs0, w, olds, nc, j, k);
    }
  }

  lemma PartsReconcile(fs: seq<Fiber>, fs0: seq<Fiber>, w: nat, olds: seq<nat>, nc: seq<VNode>)
    requires InArena(fs0, olds) && w < |fs0|
    requires OldPart(fs, fs0, w, Dels(fs0, olds, nc), WChild(fs0, w, nc, Rounds(olds, nc)))
    requires NewPart(fs, fs0, w, olds, nc, |nc|, |nc|)
    ensures fs == Reconcile(fs0, w, olds, nc)
  {
    var r := Reconcile(fs0, w, olds, nc);
    forall i | 0 <= i < |r| ensures fs[i] == r[i] {
      if i < |fs0| {
        assert fs[i] == Touch(fs0, w, Dels(fs0, olds, nc), WChild(fs0, w, nc, Rounds(olds, nc)), i);
      } else {
        assert fs[|fs0| + (i - |fs0|)] == Fresh(fs0, w, olds, nc, i - |fs0|, |nc|);
      }
    }
  }

  lemma OldsNext(fs: seq<Fiber>, w: nat, n: nat)
    requires Links(fs) && w < |fs| && n < |Olds(fs, w)|
    ensures var olds := Olds(fs, w);
            fs[olds[n]].sibling == if n + 1 < |olds| then Some(olds[n + 1]) else None
  {
  }

  /** The loop state at the start of round `n`. */
  ghost predicate Started(fs0: seq<Fiber>, w: nat, olds: seq<nat>, nc: seq<VNode>, fs: seq<Fiber>, n: nat,
                          oldFiber: Option<nat>, newFiber: Option<nat>, dels: seq<nat>, wchild: Option<nat>)
    requires InArena(fs0, olds) && w < |fs0|
  {
    && n <= Rounds(olds, nc)
    && dels == DelUpTo(fs0, olds, nc, n) && wchild == WChild(fs0, w, nc, n)
    && OldPart(fs, fs0, w, dels, wchild)
    && NewPart(fs, fs0, w, olds, nc, Made(n, nc), Made(n, nc))
    && oldFiber == (if n < |olds| then Some(olds[n]) else None)
    && newFiber == (if Made(n, nc) == 0 then None else Some(|fs0| + Made(n, nc) - 1))
  }

  /** The loop state in round `n` once the fiber for `nc[n]` is made and the old fiber, if replaced, is marked. */
  ghost predicate Made1(fs0: seq<Fiber>, w: nat, olds: seq<nat>, nc: seq<VNode>, fs: seq<Fiber>, n: nat,
                        newFiber: Option<nat>, dels: seq<nat>, wchild: Option<nat>)
    requires InArena(fs0, olds) && w < |fs0|
  {
    && n < Rounds(olds, nc)
    && dels == DelUpTo(fs0, olds, nc, n + 1) && wchild == WChild(fs0, w, nc, n)
    && OldPart(fs, fs0, w, dels, wchild)
    && NewPart(fs, fs0, w, olds, nc, Made(n + 1, nc), Linked(n, nc))
    && newFiber == (if Made(n + 1, nc) == 0 then None else Some(|fs0| + Made(n + 1, nc) - 1))
  }

  /** The first half of round `n`: the UPDATE or INSERT fiber for `nc[n]`, and the DELETE of a replaced old fiber. */
  method MakeFiber(fs0: seq<Fiber>, w: nat, ghost olds: seq<nat>, nc: seq<VNode>, fs: seq<Fiber>, n: nat,
                   oldFiber: Option<nat>, newFiber: Option<nat>, ghost dels: seq<nat>, ghost wchild: Option<nat>)
    returns (fs': seq<Fiber>, newFiber': Option<nat>, ghost dels': seq<nat>)
    requires InArena(fs0, olds) && w < |fs0|
    requires Started(fs0, w, olds, nc, fs, n, oldFiber, newFiber, dels, wchild) && (n < |nc| || oldFiber.Some?)
    ensures Made1(fs0, w, olds, nc, fs', n, newFiber', dels', wchild)
  {
    ghost var m, m1, k := Made(n, nc), Made(n + 1, nc), Linked(n, nc);
    MadeStep(n, nc, m, m1, k);
    fs', newFiber', dels' := fs, newFiber, dels;
    var child: Option<VNode> := if n < |nc| then Some(nc[n]) else None;
    assert oldFiber.Some? ==> fs[oldFiber.value] == Touch(fs0, w, dels, wchild, oldFiber.value);
    var sameType := oldFiber.Some? && child.Some? && child.value.kind == fs[oldFiber.value].kind;
    assert sameType == SameAt(fs0, olds, nc, n);
    if sameType {
      var o := fs[oldFiber.value];
      var f := Fiber(o.tag, o.kind, FiberProps(child.value), o.state, o.base, Some(w), None, None, oldFiber, Update, []);
      assert f == Fresh(fs0, w, olds, nc, n, m1);
      OldAppend(fs, fs0, w, dels, wchild, f);
      NewAppend(fs, fs0, w, olds, nc, m, m1, k, f);
      fs' := fs + [f];
      newFiber' := Some(|fs'| - 1);
    } else {
      if child.Some? {
        var v := child.value;
        var f := Fiber(if v.kind.HostKind? then Host else Hook, v.kind, FiberProps(v), None, None, Some(w), None, None, None, Insert, []);
        assert f == Fresh(fs0, w, olds, nc, n, m1);
        OldAppend(fs, fs0, w, dels, wchild, f);
        NewAppend(fs, fs0, w, olds, nc, m, m1, k, f);
        fs' := fs + [f];
        newFiber' := Some(|fs'| - 1);
      } else {
        assert NewPart(fs', fs0, w, olds, nc, m1, k);
      }
      if oldFiber.Some? {
        var gone := oldFiber.value;
        OldDelete(fs', fs0, w, dels, wchild, gone);
        NewLow(fs', fs0, w, olds, nc, m1, k, gone, fs'[gone].(patchTag := Delete));
        fs' := fs'[gone := fs'[gone].(patchTag := Delete)];
        NewLow(fs', fs0, w, olds, nc, m1, k, w, fs'[w].(patches := fs'[w].patches + [gone]));
        fs' := fs'[w := fs'[w].(patches := fs'[w].patches + [gone])];
        dels' := dels + [gone];
      }
    }
    DelUpToNext(fs0, olds, nc, n, dels, dels');
  }

  /** Round `n` makes a new fiber exactly when it has a child; the first one made is linked at once. */
  lemma MadeStep(n: nat, nc: seq<VNode>, m: nat, m1: nat, k: nat)
    requires m == Made(n, nc) && m1 == Made(n + 1, nc) && k == Linked(n, nc)
    ensures m1 == (if n < |nc| then m + 1 else m)
    ensures k == (if n < |nc| then (if m == 0 then 1 else m) else m)
    ensures k == (if m == 0 then m1 else m)
  {
  }

  /** Round `n` adds the old fiber at position `n` to the DELETE list exactly when it has no same-type child. */
  lemma DelUpToNext(fs0: seq<Fiber>, olds: seq<nat>, nc: seq<VNode>, n: nat, dels: seq<nat>, dels': seq<nat>)
    requires InArena(fs0, olds) && dels == DelUpTo(fs0, olds, nc, n)
    requires dels' == dels + (if n < |olds| && !SameAt(fs0, olds, nc, n) then [olds[n]] else [])
    ensures DelUpTo(fs0, olds, nc, n + 1) == dels'
  {
  }

  /** The second half of round `n`: link the new fiber in as `w`'s first child or its predecessor's sibling, and step along the old chain. */
  method LinkFiber(fs0: seq<Fiber>, w: nat, ghost olds: seq<nat>, nc: seq<VNode>, fs: seq<Fiber>, n: nat,
                   oldFiber: Option<nat>, prevFiber: Option<nat>, newFiber: Option<nat>, ghost dels: seq<nat>, ghost wchild: Option<nat>)
    returns (fs': seq<Fiber>, oldFiber': Option<nat>, ghost wchild': Option<nat>)
    requires Links(fs0) && w < |fs0| && olds == Olds(fs0, w)
    requires Made1(fs0, w, olds, nc, fs, n, newFiber, dels, wchild)
    requires oldFiber == (if n < |olds| then Some(olds[n]) else None)
    requires prevFiber == (if Made(n, nc) == 0 then None else Some(|fs0| + Made(n, nc) - 1))
    ensures Started(fs0, w, olds, nc, fs', n + 1, oldFiber', newFiber, dels, wchild')
  {
    ghost var m, m1, k := Made(n, nc), Made(n + 1, nc), Linked(n, nc);
    MadeStep(n, nc, m, m1, k);
    fs', oldFiber', wchild' := fs, oldFiber, wchild;
    var child: Option<VNode> := if n < |nc| then Some(nc[n]) else None;
    if n == 0 {
      OldChild(fs, fs0, w, dels, wchild, newFiber);
      NewLow(fs, fs0, w, olds, nc, m1, m1, w, fs[w].(child := newFiber));
      fs' := fs[w := fs[w].(child := newFiber)];
      wchild' := newFiber;
      assert wchild' == WChild(fs0, w, nc, n + 1);
    } else if prevFiber.Some? && child.Some? {
      OldHigh(fs, fs0, w, dels, wchild, prevFiber.value, fs[prevFiber.value].(sibling := newFiber));
      NewLink(fs, fs0, w, olds, nc, m, m1, prevFiber.value, newFiber);
      fs' := fs[prevFiber.value := fs[prevFiber.value].(sibling := newFiber)];
    } else {
      assert k == m1;
    }
    assert OldPart(fs', fs0, w, dels, wchild');
    assert NewPart(fs', fs0, w, olds, nc, m1, m1);
    assert wchild' == WChild(fs0, w, nc, n + 1);
    if oldFiber.Some? {
      assert fs'[oldFiber.value] == Touch(fs0, w, dels, wchild', oldFiber.value);
      OldsNext(fs0, w, n);
      oldFiber' := fs'[oldFiber.value].sibling;
    }
    LinkedStarted(fs0, w, olds, nc, fs', n, oldFiber', newFiber, dels, wchild');
  }

  lemma LinkedStarted(fs0: seq<Fiber>, w: nat, olds: seq<nat>, nc: seq<VNode>, fs: seq<Fiber>, n: nat,
                      oldFiber: Option<nat>, newFiber: Option<nat>, dels: seq<nat>, wchild: Option<nat>)
    requires InArena(fs0, olds) && w < |fs0| && n < Rounds(olds, nc)
    requires dels == DelUpTo(fs0, olds, nc, n + 1) && wchild == WChild(fs0, w, nc, n + 1)
    requires OldPart(fs, fs0, w, dels, wchild)
    requires NewPart(fs, fs0, w, olds, nc, Made(n + 1, nc), Made(n + 1, nc))
    requires oldFiber == (if n + 1 < |olds| then Some(olds[n + 1]) else None)
    requires newFiber == (if Made(n + 1, nc) == 0 then None else Some(|fs0| + Made(n + 1, nc) - 1))
    ensures Started(fs0, w, olds, nc, fs, n + 1, oldFiber, newFiber, dels, wchild)
  {
  }

  /**
   * The loop of `reconcileChildren(w, nc)` on the arena: round `n` pairs the
   * new child `nc[n]` with the `n`-th fiber of the old chain.
   */
  method ReconcileArena(fs0: seq<Fiber>, w: nat, nc: seq<VNode>) returns (fs: seq<Fiber>)
    requires Links(fs0) && w < |fs0|
    ensures fs == Reconcile(fs0, w, Olds(fs0, w), nc)
  {
    ghost var olds := Olds(fs0, w);
    fs := fs0;
    var oldFiber: Option<nat> := None;
    if fs[w].alternate.Some? {
      oldFiber := fs[fs[w].alternate.value].child;
    }
    var newFiber: Option<nat> := None;
    var n := 0;
    ghost var dels: seq<nat> := [];
    ghost var wchild := fs0[w].child;
    assert OldPart(fs, fs0, w, dels, wchild) by {
      forall i | 0 <= i < |fs0| ensures fs[i] == Touch(fs0, w, dels, wchild, i) { }
    }
    while n < |nc| || oldFiber.Some?
      invariant Started(fs0, w, olds, nc, fs, n, oldFiber, newFiber, dels, wchild)
      decreases Rounds(olds, nc) - n
    {
      var prevFiber := newFiber;
      fs, newFiber, dels := MakeFiber(fs0, w, olds, nc, fs, n, oldFiber, newFiber, dels, wchild);
      fs, oldFiber, wchild := LinkFiber(fs0, w, olds, nc, fs, n, oldFiber, prevFiber, newFiber, dels, wchild);
      n := n + 1;
    }
    PartsReconcile(fs, fs0, w, olds, nc);
  }

  /** The copy of old child `k` when `m` copies exist: linked to the next copy unless it is the last. */
  function CopyAt(fs0: seq<Fiber>, p: nat, olds: seq<nat>, k: nat, m: nat): Fiber
    requires InArena(fs0, olds) && k < |olds|
  {
    CloneOf(fs0, p, olds, k).(sibling := if k + 1 < m then Some(|fs0| + k + 1) else None)
  }

  /** `fs` is `fs0` with `m` copies of the old chain appended, and `p.child` set to the first once there is one. */
  ghost predicate Copied(fs: seq<Fiber>, fs0: seq<Fiber>, p: nat, olds: seq<nat>, m: nat)
    requires InArena(fs0, olds) && p < |fs0|
  {
    && m <= |olds| && |fs| == |fs0| + m
    && (forall i | 0 <= i < |fs0| && i != p :: fs[i] == fs0[i])
    && fs[p] == (if m == 0 then fs0[p] else fs0[p].(child := Some(|fs0|)))
    && forall k {:trigger CopyAt(fs0, p, olds, k, m)} | 0 <= k < m :: fs[|fs0| + k] == CopyAt(fs0, p, olds, k, m)
  }

  lemma CopyStep(fs: seq<Fiber>, fs0: seq<Fiber>, p: nat, olds: seq<nat>, m: nat, x: Fiber, prev: Option<nat>)
    requires InArena(fs0, olds) && p < |fs0| && Copied(fs, fs0, p, olds, m) && m < |olds|
    requires x == CopyAt(fs0, p, olds, m, m + 1) && prev == (if m == 0 then None else Some(|fs0| + m - 1))
    ensures var f := fs + [x];
            Copied(if prev.Some? then f[prev.value := f[prev.value].(sibling := Some(|f| - 1))]
                   else f[p := f[p].(child := Some(|f| - 1))], fs0, p, olds, m + 1)
  {
    var f := fs + [x];
    var g := if prev.Some? then f[prev.value := f[prev.value].(sibling := Some(|f| - 1))] else f[p := f[p].(child := Some(|f| - 1))];
    var k1 := m + 1;
    forall k | 0 <= k < k1 ensures g[|fs0| + k] == CopyAt(fs0, p, olds, k, k1) {
      if k < m {
        assert fs[|fs0| + k] == CopyAt(fs0, p, olds, k, m);
      }
    }
  }

  lemma CopiedClone(fs: seq<Fiber>, fs0: seq<Fiber>, p: nat, olds: seq<nat>)
    requires InArena(fs0, olds) && p < |fs0| && Copied(fs, fs0, p, olds, |olds|)
    ensures fs == Clone(fs0, p, olds)
  {
    var r := Clone(fs0, p, olds);
    forall i | 0 <= i < |r| ensures fs[i] == r[i] {
      if i >= |fs0| {
        assert fs[|fs0| + (i - |fs0|)] == CopyAt(fs0, p, olds, i - |fs0|, |olds|);
      }
    }
  }

  /** One round of `cloneChildFibers(p)`: copy old child `o`, the `m`-th, and link the copy after `prevChild`. */
  method AppendCopy(fs0: seq<Fiber>, p: nat, ghost olds: seq<nat>, fs: seq<Fiber>, ghost m: nat, o: nat, prevChild: Option<nat>)
    returns (fs': seq<Fiber>, newChild: nat)
    requires InArena(fs0, olds) && p < |fs0| && Copied(fs, fs0, p, olds, m) && m < |olds| && o == olds[m]
    requires prevChild == (if m == 0 then None else Some(|fs0| + m - 1))
    ensures Copied(fs', fs0, p, olds, m + 1) && newChild == |fs0| + m
    ensures fs'[o].sibling == fs0[o].sibling
  {
    assert fs[o] == fs0[o] || o == p;
    var f := Fiber(fs[o].tag, fs[o].kind, fs[o].props, fs[o].state, fs[o].base, Some(p), None, None, Some(o), NoPatch, []);
    assert f == CopyAt(fs0, p, olds, m, m + 1);
    CopyStep(fs, fs0, p, olds, m, f, prevChild);
    fs' := fs + [f];
    newChild := |fs'| - 1;
    if prevChild.Some? {
      fs' := fs'[prevChild.value := fs'[prevChild.value].(sibling := Some(newChild))];
    } else {
      fs' := fs'[p := fs'[p].(child := Some(newChild))];
    }
  }

  /**
   * The loop of `cloneChildFibers(p)` on the arena: one copy of each child
   * of `p`'s alternate, linked in order under `p`.
   */
  method CloneArena(fs0: seq<Fiber>, p: nat) returns (fs: seq<Fiber>)
    requires Links(fs0) && p < |fs0|
    ensures fs == Clone(fs0, p, Olds(fs0, p))
  {
    ghost var olds := Olds(fs0, p);
    fs := fs0;
    if fs[p].alternate.None? {
      return;
    }
    var oldFiber := fs[p].alternate.value;
    if fs[oldFiber].child.None? {
      return;
    }
    var oldChild := fs[oldFiber].child;
    var prevChild: Option<nat> := None;
    ghost var m := 0;
    while oldChild.Some?
      invariant Copied(fs, fs0, p, olds, m)
      invariant oldChild == (if m < |olds| then Some(olds[m]) else None)
      invariant prevChild == (if m == 0 then None else Some(|fs0| + m - 1))
      decreases |olds| - m
    {
      var o := oldChild.value;
      var newChild;
      fs, newChild := AppendCopy(fs0, p, olds, fs, m, o, prevChild);
      prevChild := Some(newChild);
      OldsNext(fs0, p, m);
      oldChild := fs[o].sibling;
      m := m + 1;
    }
    CopiedClone(fs, fs0, p, olds);
  }
}
