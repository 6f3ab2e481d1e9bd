# fre reconciler, modelled in Dafny

This project models the fiber reconciler of the fre UI library
(`src/reconciler.js`). The model covers:

- the update queue fed by `render` and `scheduleWork`;
- `workLoop` and `resetWork`, which start a traversal by building a ROOT fiber;
- `performWork`, which walks the work-in-progress tree depth first:
  - `updateHost` and `updateHOOK` update a fiber;
  - `reconcileChildren` and `cloneChildFibers` build its children from the
    old (`alternate`) tree;
  - on the way back up, `completeWork` hands each fiber's patch list to its
    parent;
- the commit phase: `commitAllWork`, `commitWork` and `commitDELETE` turn
  the root's patch list into calls on the host tree (append, update,
  remove).

Fibers live in an arena, `seq<Fiber>`. A fiber is named by its index, and
its `parent`, `child`, `sibling` and `alternate` are optional indices.
The arena only grows, so an index names one fiber for the whole run, as an
object reference does. The module variables `updateQueue`, `nextWork`,
`pendingCommit` and `currentInstance` are fields of the class
`Reconciler.Reconciler`, and so are:

- the arena;
- the component instances;
- each container's `rootFiber`;
- a counter of host nodes made by `createElement`;
- a log of the calls made on the host tree.

The class invariant `Valid()` says that every link points into the arena
in creation order:

- a parent or an alternate was made before the fiber;
- a child or a sibling was made after it.

It also says that a first child points back at its parent, and that
siblings share a parent. Every operation keeps the invariant.

Files and modules:

- `fibers.dfy` (`Fibers`): the data model, the link invariants, sibling
  chains and ancestry.
- `diff.dfy` (`Diff`): the positional classification `reconcileChildren`
  makes, stated on the types alone.
- `reconcile.dfy` (`Children`): the arena after `reconcileChildren` and
  after `cloneChildFibers`, as functions, with their properties.
- `reconcile_loop.dfy` (`ReconcileLoop`): the two loops, proved equal to
  those functions.
- `traversal.dfy` (`Traversal`): the order in which `performWork`
  completes fibers.
- `commit.dfy` (`Commit`) and `commit_loop.dfy` (`CommitLoop`): the commit
  phase as functions, and its loops proved against them.
- `reconciler.dfy` (`Reconciler`): the state invariant, `completeWork`,
  and the class with the module-level operations.

Error paths are modelled where the source reads through a null link:

- `commitWork` with no non-HOOK ancestor, or with a parent host fiber that
  has no node;
- an UPDATE fiber without an alternate;
- `commitDELETE` reaching a childless HOOK;
- a root without a `patches` list;
- `commitEffects(currentInstance.effects)` with no current instance.

Such a call yields `ok == false`, or the outcome `Threw`, together with
the host calls made before the throw.

## Model

| member | source | states |
|---|---|---|
| Diff.PositionsExact | src/reconciler.js:110-143 | A position below the bound is listed if and only if it is of the class. A DELETE position has an old fiber and no new child of the same type; an INSERT position has a new child and no old fiber of the same type. The list is strictly increasing, so it has no repeats. |
| Diff.PositionsComplete | src/reconciler.js:110-143 | Every position of the class below the bound appears in the list. |
| Diff.PositionsPicked | src/reconciler.js:110-143 | Every listed position is of the class. |
| Diff.PositionsIncreasing | src/reconciler.js:110-154 | Positions are listed in the order the loop reaches them, strictly increasing. |
| Diff.DeleteCount | src/reconciler.js:110-143 | Going from N old fibers to M children deletes one old fiber per position whose type changed, plus the N - M tail fibers when M < N. |
| Diff.InsertCount | src/reconciler.js:110-137 | Going from N old fibers to M children inserts one fiber per position whose type changed, plus the M - N tail children when M > N. |
| Diff.Shrink | src/reconciler.js:110-143 | When the children keep the types of a prefix of the old chain, exactly the old fibers at positions M .. N - 1 are deleted and nothing is inserted (nothing at all when M == N). |
| Diff.Grow | src/reconciler.js:110-143 | When the old chain keeps the types of a prefix of the children, exactly positions N .. M - 1 are inserted and nothing is deleted. |
| Diff.DeletedPastOld | src/reconciler.js:110-143 | Rounds past the end of the old chain delete nothing more. |
| Diff.InsertedPastNew | src/reconciler.js:110-137 | Rounds past the end of the new children insert nothing more. |
| Children.DelUpToPositions | src/reconciler.js:139-143 | The fibers marked DELETE in the first n rounds are the old fibers at the DELETE positions below n, in round order. |
| Children.ReconcileDeletes | src/reconciler.js:139-143 | `WIP.patches` grows by exactly the DELETE-marked fibers, in order. Their number is the changed positions plus the tail, and they are the old chain's fibers at the DELETE positions. |
| Children.ReconcileShrink | src/reconciler.js:110-155 | When the children keep the types of a prefix of the old chain, the fibers marked DELETE are exactly the old chain's tail past the children. |
| Children.ReconcileOldFibers | src/reconciler.js:139-153 | An old fiber keeps its type, tag, props, state, base, parent, sibling and alternate. Only `WIP` can have its `child` and `patches` changed. A fiber's patch tag is DELETE afterwards exactly when it was DELETE already or is one of the fibers marked DELETE here; a tag other than DELETE is the old one. |
| Children.ReconcileFirstChild | src/reconciler.js:145-147 | `WIP.child` becomes the first new fiber. With no children and an old chain it becomes null; with neither it is untouched. |
| Children.NewFibersChain | src/reconciler.js:145-151 | The new fibers form one sibling chain, in child order. |
| Children.ChildChainMatches | src/reconciler.js:110-155 | `WIP`'s new child chain has one fiber per child, in order. Each has `WIP` as parent and the child's type and props, with `{ nodeValue }` when the child has no props. |
| Children.NewFiberKinds | src/reconciler.js:113-137 | A child whose type matches the old fiber at its position gets an UPDATE fiber. That fiber has the old fiber as alternate and the old tag, base and state. Any other child gets an INSERT fiber: HOST for a string type, HOOK otherwise, with no base, state or alternate. |
| Children.ReconcileLinks | src/reconciler.js:104-156 | Reconciling keeps the arena's link discipline. |
| Children.ReconcileConsistent | src/reconciler.js:104-156 | Reconciling keeps parent/child/sibling links mutually consistent. |
| Children.CloneMatches | src/reconciler.js:164-189 | The parent's `child` becomes the first copy, and every other old fiber is unchanged. The parent's new chain lists the copies in the old chain's order. Each copy has the old child as alternate, the parent as parent, the old type, tag, base, props and state, and no patch tag. |
| Children.CloneConsistent | src/reconciler.js:164-189 | Cloning keeps parent/child/sibling links mutually consistent. |
| ReconcileLoop.ReconcileArena | src/reconciler.js:104-156 | The `while` loop of `reconcileChildren` computes exactly `Children.Reconcile`. |
| ReconcileLoop.MakeFiber | src/reconciler.js:111-143 | One round's new fiber and DELETE mark keep the loop invariant. |
| ReconcileLoop.LinkFiber | src/reconciler.js:145-154 | One round's `child`/`sibling` link and step along the old chain keep the loop invariant. |
| ReconcileLoop.CloneArena | src/reconciler.js:164-189 | The loop of `cloneChildFibers` computes exactly `Children.Clone`. |
| ReconcileLoop.AppendCopy | src/reconciler.js:172-187 | One round of `cloneChildFibers` adds the next copy, links it, and leaves the old child's sibling for the next step. |
| ReconcileLoop.OldsNext | src/reconciler.js:153 | Stepping `oldFiber = oldFiber.sibling` visits the old chain in order, and ends with null after its last fiber. |
| Traversal.ClimbPath | src/reconciler.js:73-78 | The fibers completed on the way up start at `WIP`. Each but the last has no sibling and is the child of the next; the last has a sibling or is the root. |
| Traversal.StepRest | src/reconciler.js:67-79 | One `performWork` step completes exactly the front of the remaining completion order, and what remains is the order from the fiber it returns. |
| Traversal.RunFromRoot | src/reconciler.js:41-43 | Running `performWork` from a root until it returns nothing completes the tree's fibers in post-order. |
| Traversal.CompletesOnceAfterDescendants | src/reconciler.js:41-43 | Run from a root, no fiber is completed twice, and each completed fiber lies in the root's tree. A fiber's whole subtree is completed, in one contiguous block, ending with the fiber itself. |
| Traversal.PostNoDup | src/reconciler.js:67-79 | The post-order of a subtree has no repeats. |
| Traversal.PostAncestor | src/reconciler.js:67-79 | Only fibers of `i`'s subtree appear in its post-order. |
| Traversal.ClimbSameLinks | src/reconciler.js:73-78 | Completing fibers changes no link, so the up-walk and the next fiber are the same before and after. |
| Fibers.AncestorUnique | src/reconciler.js:67-79 | Distinct siblings' subtrees are disjoint. |
| Commit.HostParentFrom | src/reconciler.js:218-222 | The fiber the climb stops at is a non-HOOK ancestor of the start. |
| Commit.DeleteWalkFacts | src/reconciler.js:233-249 | `commitDELETE` removes only non-HOOK fibers of the walk. It returns normally if and only if no HOOK on the walk is childless; then it removes every non-HOOK fiber the walk reaches. |
| Commit.NoDupWalk | src/reconciler.js:233-249 | A walk without repeats removes no node twice. |
| Commit.DeleteRemovesTopHosts | src/reconciler.js:233-249 | Deleting a subtree removes each node at most once. Each removed fiber is a non-HOOK fiber reached from the deleted fiber through HOOK fibers only. When the walk returns normally, every such fiber of the subtree is removed. |
| Commit.TopHostReached | src/reconciler.js:233-249 | Every fiber of the deleted fiber's subtree that is reached from it through HOOK fibers only is a fiber the walk reaches. |
| Commit.HookChainNarrow | src/reconciler.js:235-243 | A chain of HOOK parents from the deleted fiber down to a fiber passes through the child above that fiber. |
| Commit.HookThrough | src/reconciler.js:235-238 | The walk can only pass below a fiber that is a HOOK. |
| CommitLoop.DeleteStep | src/reconciler.js:235-248 | One round of `commitDELETE` either ends, with the calls and outcome of the whole walk, or keeps the walk invariant while the part still pending shrinks. |
| CommitLoop.CommitDelete | src/reconciler.js:233-249 | The loop makes exactly the remove calls of the walk, and returns normally exactly when the walk does. |
| CommitLoop.ClimbToSibling | src/reconciler.js:241-243 | The inner climb stops at the deleted fiber or at a fiber with a sibling, without changing what the walk still has to do. |
| CommitLoop.NearestHostParent | src/reconciler.js:218-221 | The climb finds the nearest non-HOOK ancestor. |
| CommitLoop.CommitWork | src/reconciler.js:215-231 | The host calls and outcome of one patch are those of `Commit.PatchOps`, including its error cases. |
| CommitLoop.CommitPatches | src/reconciler.js:207 | The `forEach` makes the calls of every patch in list order, up to and including the first that throws. |
| Reconciler.RootOfUnique | src/reconciler.js:251-257 | The root of a fiber is its ancestor, and its only parentless ancestor. |
| Reconciler.GetRoot | src/reconciler.js:251-257 | `getRoot` returns the parentless ancestor of the fiber. |
| Reconciler.Begin | src/reconciler.js:49-65 | What `resetWork` makes of an update. A root render builds a ROOT fiber for the container and the children, with the container's `rootFiber` as alternate. A state update first writes the state onto the instance's fiber, then builds a ROOT fiber copying base and props from that fiber's root, which becomes its alternate. |
| Reconciler.SetStateRoot | src/reconciler.js:53-57 | Writing a fiber's state changes no fiber's root. |
| Reconciler.BeginOk | src/reconciler.js:49-65 | Starting an update keeps the state invariant, and the new ROOT fiber is the next work. |
| Reconciler.BasedOk | src/reconciler.js:82 | Giving a HOST fiber its host node keeps the arena invariant. |
| Reconciler.InstanceOk | src/reconciler.js:89-91 | Giving a HOOK fiber a new instance keeps the arena invariant. |
| Reconciler.ReconcileKeepsArena | src/reconciler.js:104-156 | Reconciling keeps the arena invariant. |
| Reconciler.CloneKeepsArena | src/reconciler.js:164-189 | Cloning keeps the arena invariant. |
| Reconciler.AggregateOk | src/reconciler.js:196-200 | Completing a fiber with a parent changes only the parent. The parent's patch list grows by the fiber's own list, then the fiber itself when it carries a patch tag. |
| Reconciler.CompleteAtEffect | src/reconciler.js:191-204 | `completeWork` on a HOOK points its instance back at it and leaves every other instance alone. With a parent it only extends the parent's patch list; without one it sets `pendingCommit`. |
| Reconciler.CompleteAtOk | src/reconciler.js:191-204 | `completeWork` keeps the completion invariant. |
| Reconciler.CompleteAllOk | src/reconciler.js:73-78 | Completing a sequence of fibers keeps the invariant and changes no link. |
| Reconciler.CompleteUp | src/reconciler.js:73-78 | The `while (wip)` loop completes exactly the up-walk from `WIP`. It returns the sibling where it stops, or nothing at the root. |
| Reconciler.Reconciler.constructor | src/reconciler.js:14-17 | The module starts with an empty queue and no work, commit or current instance in flight. |
| Reconciler.Reconciler.Render | src/reconciler.js:19-24 | Queues a root render of `vdom` into the container, and changes nothing else. |
| Reconciler.Reconciler.ScheduleWork | src/reconciler.js:28-33 | Queues a state update of the instance with the state it holds, and changes nothing else. |
| Reconciler.Reconciler.GetCurrentInstance | src/reconciler.js:259-261 | Returns the instance rendered last, which under the invariant is one of the instances. |
| Reconciler.Reconciler.ResetWork | src/reconciler.js:49-65 | An empty queue changes nothing. Otherwise the front update leaves the queue, the arena becomes `Begin` of it, and the new ROOT fiber is the next work. |
| Reconciler.Reconciler.ReconcileChildren | src/reconciler.js:104-156 | The arena becomes `Reconcile` of the old arena, `WIP`'s old chain and the children; nothing else changes. |
| Reconciler.Reconciler.CloneChildFibers | src/reconciler.js:164-189 | The arena becomes `Clone` of the old arena and the alternate's children; nothing else changes. |
| Reconciler.Reconciler.UpdateHost | src/reconciler.js:81-86 | A fiber without a node gets a fresh one, and the `createElement` call is logged. Then `props.children` are reconciled. |
| Reconciler.Reconciler.UpdateHook | src/reconciler.js:88-102 | A fiber without a base gets a new instance; one with an instance and no state first has its alternate's children cloned. The instance takes the props and the state (`{}` when none) and becomes current. What the component renders is reconciled. |
| Reconciler.Reconciler.CompleteWork | src/reconciler.js:191-204 | The arena, instances and `pendingCommit` become `CompleteAt` of their old values. |
| Reconciler.Reconciler.BeginWork | src/reconciler.js:68 | The state becomes `BeginStep` of the old one: `updateHOOK` for a HOOK fiber and `updateHost` for any other. The queue, `nextWork` and the roots are unchanged. |
| Reconciler.Reconciler.PerformWork | src/reconciler.js:67-79 | The new state and the fiber returned are `PerformStep` of the old state. That is, the fiber is updated, then its first child is returned, or else the up-walk is completed and the sibling where it stops is returned. The fibers completed and the fiber returned are `StepDone` and `StepNext` of the new arena. |
| Reconciler.Reconciler.Climb | src/reconciler.js:73-78 | The completion state becomes `CompleteAll` over the up-walk, no link changes, and the sibling where the walk stops is returned. The current instance, the host node counter and the host log are unchanged. |
| Reconciler.HostStepOk | src/reconciler.js:81-86 | `updateHost` keeps the state invariant and only appends to the host log. |
| Reconciler.PreparedOk | src/reconciler.js:88-95 | Giving a HOOK its instance, or cloning its old children, keeps the arena invariant and every fiber's parent. |
| Reconciler.HookStepOk | src/reconciler.js:88-102 | `updateHOOK` keeps the state invariant and leaves the host log alone. |
| Reconciler.ReconcileKeepsParents | src/reconciler.js:104-156 | Reconciling changes no old fiber's parent, so a root stays a root. |
| Reconciler.PerformStepOk | src/reconciler.js:67-79 | One `performWork` step keeps the state invariant, keeps every fiber, only appends to the host log, and returns a fiber of the arena. |
| Reconciler.RunWork | src/reconciler.js:41-43 | Any number of `performWork` steps keep the state invariant, keep every fiber, only append to the host log, and leave a next fiber of the arena. |
| Reconciler.RunWorkStep | src/reconciler.js:41-43 | After one step, what remains of the run is the run from the state that step made. |
| Reconciler.Reconciler.CommitAllWork | src/reconciler.js:206-213 | Logs the host calls of the root's patches up to the first that throws. It throws when the root has no patch list, a patch throws, or there is no current instance. Otherwise the root becomes its container's `rootFiber`, and `nextWork` and `pendingCommit` are cleared; the arena is unchanged. |
| Reconciler.Reconciler.WorkLoop | src/reconciler.js:37-47 | With no work in flight and a queued update, the front update leaves the queue and the run starts from the arena `Begin` makes, at the new ROOT fiber. Otherwise the run starts from the state as it is. The state after the `performWork` loop is `RunWork` of the start. If a fiber is still next, the fuel ran out and nothing is committed. Otherwise, with no tree pending, nothing more changes. With a tree pending, the host calls of its patches are logged, and the outcome is the one `commitAllWork` has. On a commit the root becomes its container's `rootFiber`; on a throw the roots are unchanged and the tree stays pending. |
| Reconciler.Reconciler.Drain | src/reconciler.js:41-43 | The `while (nextWork)` loop, for at most `fuel` rounds, ends in the state and next fiber `RunWork` gives. It leaves the queue and the roots alone. |
| Reconciler.Reconciler.DrainStep | src/reconciler.js:42 | One round `nextWork = performWork(nextWork)` spends one unit of the budget and leaves what remains of the run unchanged. |
| Reconciler.Reconciler.Finish | src/reconciler.js:44-46 | With no tree pending nothing changes. Otherwise `commitAllWork` runs on the pending root: its patches' host calls are logged, it throws or commits as `commitAllWork` does, and on a commit the root becomes its container's `rootFiber`. |

## Left out

- `commitEffects` (`src/reconciler.js:263-268`) and `instance.effects`: effects are callbacks into component code. Only the throw on a null `currentInstance` is kept.
- `createElement` and `updateElement` (`src/element.js` is not part of this model): host nodes are numbers. The host tree is the log of `Create`/`Append`/`Patch`/`Remove` calls; the DOM itself is not modelled.
- `defer(workLoop)` in `render` and `scheduleWork`: scheduling is left out, and `WorkLoop` is a method the caller invokes.
- `resetCursor()` and the hooks module: hook slots, and hook writes to an instance's state, are not part of this model.
- `arrayfy` and `getKey`: children arrive as a sequence without holes or falsy entries. Keys are never used by this reconciler.
- `new fiber.type(fiber.props)` in `createInstance`: an instance is a record of its type, props, state and fiber. Construction is not modelled.
- `WIP.type(WIP.props)`: a component's render is the parameter `renderComponent`. It receives the state as well, which the source reads through hooks.
- Reconciler.Reconciler.WorkLoop: the `while (nextWork)` loop is bounded by a `fuel` argument, because component renders are arbitrary. The model does not prove that the loop ends.
- Reconciler.Reconciler.ScheduleWork: queues the instance's state as a value. A later in-place change to the same state object would be seen by the source but not by the model.
- Reconciler.Reconciler.CloneChildFibers: on a fiber without an alternate the source reads `.child` of null and throws. The model makes no change instead. `updateHOOK` clones only fibers that already have an instance, and every such fiber has an alternate.
- Reconciler.CompleteAt: on a HOOK without a base the source throws at `fiber.base.fiber`. The model skips that assignment. `updateHOOK` gives every HOOK an instance before it completes.
- Reconciler.Reconciler.UpdateHook: the test `WIP.props == WIP.props` is always true, so the model keeps only the state test.
- Reconciler.HasPatchList: source fibers either have no `patches` list or have one. The model keeps an empty list for "none", and tells a root without a list by its having no child and no patches.
- Traversal.CompletesOnceAfterDescendants: the completion-order theorem is stated on a tree whose links stay fixed. The class methods prove each step against `StepDone`/`StepNext` of the arena as it is, and that completing changes no link. The theorem is not carried over a run in which `performWork` keeps adding children.
- Reconciler.Reconciler.WorkLoop: the tree it commits is the one waiting in `pendingCommit` when the loop ends. The model does not prove that this is the ROOT fiber the same call started, because that needs the completion-order theorem over a growing tree.
- Object identity and aliasing: fibers are values in an arena, and an in-place write to a fiber is an update of its arena entry. Two names reaching one object is modelled by two equal indices.
