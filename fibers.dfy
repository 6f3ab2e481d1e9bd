/**
 * The data model of the reconciler: virtual nodes, fibers, component
 * instances, queued updates and the host-adapter operations the commit
 * phase issues.
 *
 * Fibers live in an arena (`seq<Fiber>`); a fiber is named by its index and
 * every link (`parent`, `child`, `sibling`, `alternate`, the entries of
 * `patches`) is an optional index into the same arena.  The arena only ever
 * grows, so an index keeps naming the same fiber for the whole run, as an
 * object reference does in the source.
 */
module Fibers {
  import opened Wrappers

  /** A virtual node's `type`: a string names a host element, a function a component. */
  datatype Kind = HostKind(name: string) | ComponentKind(id: nat) | NoKind

  /**
   * Props of a fiber: a record of attributes plus `children`, or the
   * `{ nodeValue }` record built for a virtual node that has no props
   * (a text leaf).
   */
  datatype Props = Attrs(attrs: map<string, string>, children: seq<VNode>) | NodeValue(value: string)

  /** A virtual node `{ type, props, nodeValue }`; `props` may be absent. */
  datatype VNode = VNode(kind: Kind, props: Option<Props>, nodeValue: string)

  datatype Tag = Host | Hook | Root

  datatype PatchTag = NoPatch | Insert | Update | Delete

  /** What a fiber's `base` holds: the container, a created host element, or a component instance. */
  datatype Base = Container(id: nat) | Element(id: nat) | Inst(id: nat)

  /** A component's state record; `{}` is the empty sequence. */
  type StateVal = seq<int>

  datatype Fiber = Fiber(
    tag: Tag,
    kind: Kind,
    props: Props,
    state: Option<StateVal>,
    base: Option<Base>,
    parent: Option<nat>,
    child: Option<nat>,
    sibling: Option<nat>,
    alternate: Option<nat>,
    patchTag: PatchTag,
    patches: seq<nat>)

  /** A component instance: its kind, the props and state it last rendered with, and its current fiber. */
  datatype Instance = Instance(kind: Kind, props: Props, state: StateVal, fiber: nat)

  /** An entry of the update queue: a root render, or a component's state update. */
  datatype Update = RootRender(container: nat, children: seq<VNode>) | HookUpdate(instance: nat, state: StateVal)

  /** The calls the core makes on the host tree adapter, in the order it makes them. */
  datatype HostOp =
    | Create(node: nat, kind: Kind, props: Props)
    | Append(parentNode: Base, childNode: Option<Base>)
    | Patch(target: Option<Base>, oldProps: Props, newProps: Props)
    | Remove(parentNode: Base, childNode: Option<Base>)

  /** The props a new fiber takes from a virtual node: its own props, or a record holding only its text when it has none. */
  function FiberProps(v: VNode): Props
  {
    if v.props.Some? then v.props.value else NodeValue(v.nodeValue)
  }

  /** `props.children`, which a text leaf's props do not have. */
  function HostChildren(p: Props): seq<VNode>
  {
    match p
    case Attrs(_, cs) => cs
    case NodeValue(_) => []
  }

  /**
   * The arena discipline every fiber the source creates obeys: a parent and
   * an alternate were created before the fiber, a first child and a next
   * sibling after it.
   */
  predicate LinksOk(f: Fiber, i: nat, n: nat)
  {
    && (f.parent.Some? ==> f.parent.value < i)
    && (f.child.Some? ==> i < f.child.value < n)
    && (f.sibling.Some? ==> i < f.sibling.value < n)
    && (f.alternate.Some? ==> f.alternate.value < i)
    && (forall j | 0 <= j < |f.patches| :: f.patches[j] < n)
  }

  predicate Links(fs: seq<Fiber>)
  {
    forall i | 0 <= i < |fs| :: LinksOk(fs[i], i, |fs|)
  }

  /** A first child points back at its parent; a sibling has the same parent. */
  predicate ConsistentAt(fs: seq<Fiber>, i: nat)
    requires i < |fs|
  {
    && (fs[i].child.Some? && fs[i].child.value < |fs| ==> fs[fs[i].child.value].parent == Some(i))
    && (fs[i].sibling.Some? && fs[i].sibling.value < |fs| ==> fs[fs[i].sibling.value].parent == fs[i].parent)
  }

  predicate Consistent(fs: seq<Fiber>)
  {
    forall i | 0 <= i < |fs| :: ConsistentAt(fs, i)
  }

  /** The sibling chain that starts at `s`, in link order. */
  function Chain(fs: seq<Fiber>, s: Option<nat>): (c: seq<nat>)
    requires Links(fs)
    requires s.Some? ==> s.value < |fs|
    ensures s.None? <==> c == []
    ensures s.Some? ==> c[0] == s.value
    ensures forall k | 0 <= k < |c| :: s.value <= c[k] < |fs|
    ensures forall k {:trigger fs[c[k]]} | 0 <= k < |c| - 1 :: fs[c[k]].sibling == Some(c[k + 1])
    ensures c != [] ==> fs[c[|c| - 1]].sibling.None?
    decreases if s.Some? then |fs| - s.value else 0
  {
    match s
    case None => []
    case Some(i) => [i] + Chain(fs, fs[i].sibling)
  }

  /** `a` is `x` or is reached from `x` by following `parent` links. */
  predicate Ancestor(fs: seq<Fiber>, x: nat, a: nat)
    requires Links(fs) && x < |fs|
    decreases x
  {
    x == a || (fs[x].parent.Some? && Ancestor(fs, fs[x].parent.value, a))
  }

  lemma {:induction false} AncestorBelow(fs: seq<Fiber>, x: nat, a: nat)
    requires Links(fs) && x < |fs| && Ancestor(fs, x, a)
    ensures a <= x
    decreases x
  {
    if x != a {
      AncestorBelow(fs, fs[x].parent.value, a);
    }
  }

  lemma {:induction false} AncestorStep(fs: seq<Fiber>, x: nat, c: nat)
    requires Links(fs) && x < |fs| && c < |fs| && Ancestor(fs, x, c) && fs[c].parent.Some?
    ensures Ancestor(fs, x, fs[c].parent.value)
    decreases x
  {
    if x != c {
      AncestorStep(fs, fs[x].parent.value, c);
    }
  }

  /**
   * Two fibers with the same parent cannot both lie on one fiber's
   * ancestry: the subtrees of distinct siblings are disjoint.
   */
  lemma {:induction false} AncestorUnique(fs: seq<Fiber>, x: nat, c: nat, d: nat)
    requires Links(fs) && x < |fs| && c < |fs| && d < |fs|
    requires Ancestor(fs, x, c) && Ancestor(fs, x, d)
    requires fs[c].parent == fs[d].parent
    ensures c == d
    decreases x
  {
    if x == c && x != d {
      AncestorBelow(fs, fs[x].parent.value, d);
    } else if x == d && x != c {
      AncestorBelow(fs, fs[x].parent.value, c);
    } else if x != c && x != d {
      AncestorUnique(fs, fs[x].parent.value, c, d);
    }
  }

  /** `c` lists `a, a + 1, …, b - 1`. */
  predicate IsRange(c: seq<nat>, a: nat, b: nat)
  {
    |c| == b - a && forall k | 0 <= k < |c| :: c[k] == a + k
  }

  lemma RangeCons(c: seq<nat>, d: seq<nat>, a: nat, b: nat)
    requires c == [a] + d && IsRange(d, a + 1, b)
    ensures IsRange(c, a, b)
  {
    forall k | 0 <= k < |c|
      ensures c[k] == a + k
    {
      if k > 0 {
        assert c[k] == d[k - 1];
      }
    }
  }

  lemma RangeSnoc(c: seq<nat>, a: nat, b: nat)
    requires IsRange(c, a, b)
    ensures IsRange(c + [b], a, b + 1)
  {
  }

  /** Fibers `a .. b - 1` linked one to the next by `sibling` form the chain starting at `a`. */
  lemma {:induction false} ConsecutiveChain(fs: seq<Fiber>, a: nat, b: nat)
    requires Links(fs) && a < b <= |fs|
    requires forall k | a <= k < b - 1 :: fs[k].sibling == Some(k + 1)
    requires fs[b - 1].sibling.None?
    ensures IsRange(Chain(fs, Some(a)), a, b)
    decreases b - a
  {
    var c := Chain(fs, Some(a));
    if a + 1 < b {
      assert fs[a].sibling == Some(a + 1);
      ConsecutiveChain(fs, a + 1, b);
      RangeCons(c, Chain(fs, Some(a + 1)), a, b);
    } else {
      assert c == [a];
    }
  }

  predicate NoDup(s: seq<nat>)
  {
    forall i, j | 0 <= i < j < |s| :: s[i] != s[j]
  }

  lemma NoDupConcat(a: seq<nat>, b: seq<nat>)
    requires NoDup(a) && NoDup(b)
    requires forall x | x in a :: x !in b
    ensures NoDup(a + b)
  {
    forall i, j | 0 <= i < j < |a + b|
      ensures (a + b)[i] != (a + b)[j]
    {
      if j < |a| {
        assert (a + b)[i] == a[i] && (a + b)[j] == a[j];
      } else if i >= |a| {
        assert (a + b)[i] == b[i - |a|] && (a + b)[j] == b[j - |a|];
      } else {
        assert (a + b)[i] == a[i] && (a + b)[j] == b[j - |a|];
        assert a[i] in a && b[j - |a|] in b;
      }
    }
  }
}
