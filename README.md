# A verified model of the Vue 2 runtime core

This project models, in Dafny, the parts of the Vue 2 runtime that decide *what happens and in which order*. It then proves what the code promises about them.

**Reactivity** (`dep.dfy`, `watcher.dfy`, `observer.dfy`, `host.dfy`)

- A `Dep` keeps the watchers subscribed to one reactive value.
- `Dep.target` and the target stack say which watcher is collecting dependencies.
- A `Watcher` evaluates its getter, collects the deps it touched and drops the ones it no longer reads. It re-runs, or is queued, when one of them notifies.
- `observe`, `defineReactive`, `set`, `del` and `dependArray` decide which objects get an `__ob__` observer and what a property read or write does.
- User code is a `Host`:
  - a getter call is answered by the next `Reading` of a script (its value, the deps it touches, the watchers its callback queues);
  - every call the runtime makes into user code (callbacks, hooks) is appended to an effect log.

**Scheduling** (`scheduler.dfy`, `next_tick.dfy`)

- `queueWatcher` deduplicates by id and splices into a running flush in id order.
- `flushSchedulerQueue` sorts the queue, runs it, counts re-entries up to `MAX_UPDATE_COUNT`, resets, and calls the activated and updated hooks.
- `nextTick` collects callbacks into one batch per turn and asks the host for one timer per batch.

**Component tree** (`lifecycle.dfy`)

- `initLifecycle` wires parent and root links past abstract components.
- `setActiveInstance` can be restored.
- `$destroy` runs once.
- `isInInactiveTree` and the keep-alive `activateChildComponent` / `deactivateChildComponent` state machine are modelled.
- The forced-update rule of `updateChildComponent` is modelled.

**Virtual DOM**

- `vnodes.dfy` defines the vnode record.
- `patch_keys.dfy` covers `sameVnode`, `sameInputType`, the key table, `findIdxInOld` and the duplicate-key scan.
- `reconcile.dfy` is the value-level account of `updateChildren`: which old child each new child reuses, which children are created and which are removed.
- `patch.dfy` is the patcher itself (`createElm`, `addVnodes`, `removeVnodes`, `updateChildren`, `patchVnode`, `patch`). It works over an element store (`node_ops.dfy`) that stands for the `nodeOps` rendering backend.
- `create_element.dfy` covers `createElement` / `_createElement` / `applyNS`.

**Module hooks and render helpers**

- The directives module: `directives.dfy`.
- The ref module: `refs.dfy`.
- `resolveSlots`: `resolve_slots.dfy`.
- `bindObjectProps`: `bind_object_props.dfy`.
- `Vue.use`: `plugin_use.dfy`.

**How the model is written**

- Code that updates state in place is written as classes with `modifies` frames. This covers `Dep`, `Watcher`, `Scheduler`, the tick queue, `Vm`, the reactive realm, the patcher, the element store, the `$refs` table, the `data` object `bindObjectProps` writes into, and a plugin constructor. `resolveSlots` builds its slot map in a loop over local variables.
- Their methods are proved against specification functions, and lemmas prove the promised properties of those functions.
- Pure decisions are datatypes and functions:
  - `sameVnode`;
  - the key table;
  - `normalizeDirectives`;
  - the `createElement` decision order.
- The reactivity files call one another in a cycle (`update` → `queueWatcher` → flush → `run` → `get` → `depend`; `$destroy` → `teardown`; `callActivatedHooks` → `activateChildComponent`). They therefore share Dafny's default module, one file per source file. Mutual recursion among them terminates on a lexicographic measure: whether the scheduler is waiting, then a level per operation, then the flush budget.
- The `Tracking` object holds the global `Dep.target`, the target stack and the id counters. It also holds, as ghost state, every dep, watcher and component created so far.

**Duplicate keys in `updateChildren`**

- When the new children repeat a key, the key table built on the first lookup can send a later child to a slot that was already cleared. `sameVnode(undefined, …)` then throws a `TypeError`.
- The table can also point at an old child that a head or tail match already reused.
- The source warns about duplicate keys and does not guard this case. The patcher therefore returns a `thrown` flag for the first case.
- The reconciliation theorems are stated for new children with unique keys.

## Model

| member | source | states |
|---|---|---|
| Tracking.constructor | src/core/observer/dep.js:7-62 | both id counters start at 0, there is no current target and the target stack is empty |
| Tracking.PushTarget | src/core/observer/dep.js:64-68 | the new target is `t`; the previous target is pushed only when one was set |
| Tracking.PopTarget | src/core/observer/dep.js:70-73 | the target becomes the top of the stack, which shrinks by one; an empty stack leaves no target |
| PushPopRestores | src/core/observer/dep.js:64-73 | a push followed by a pop restores target and stack exactly when a target was set before the push or the stack was empty |
| PushPopPromotesTop | src/core/observer/dep.js:64-73 | with no target and a non-empty stack, a push and a pop make the stacked watcher the target and shorten the stack: the pair is not neutral |
| Dep.constructor | src/core/observer/dep.js:20-24 | the new dep takes the counter's value as id, the counter grows by one, the subscriber list is empty |
| Dep.AddSub | src/core/observer/dep.js:26-29 | the subscriber is appended, even when already present |
| Dep.RemoveSub | src/core/observer/dep.js:31-34 | the first occurrence of the subscriber is removed and nothing else |
| Dep.Depend | src/core/observer/dep.js:36-41 | without a target nothing changes; with one, the dep joins the target's new deps once per evaluation, and the target is subscribed only when the dep was not among its previous deps |
| Dep.Notify | src/core/observer/dep.js:43-52 | every watcher of the subscriber list as it was on entry is told, in order, whatever the updates do to the list; when all are plain watchers and no synchronous flush runs, the scheduler ends as if each had been queued in order, with no callback run |
| Dep.NotifyFrom | src/core/observer/dep.js:48-51 | the loop from position `i` of the copied list tells exactly the remaining watchers, in order |
| DependOne | src/core/observer/dep.js:36-41 | one `depend()` with a target set is one step of the collection relation `Depended` |
| DependedNone | src/core/observer/dep.js:36-41 | depending on no dep leaves the collection state as it was |
| DependedConcat | src/core/observer/dep.js:36-41 | depending on `a` and then on `b` is depending on `a + b` |
| AddedDepsConcat | src/core/observer/watcher.js:159-168 | `addDep` over `a` then `b` gives the same new-dep list as over `a + b` |
| AddedDepsIds | src/core/observer/watcher.js:159-168 | the new-dep id set stays exactly the ids of the new-dep list |
| SubsDependedConcat | src/core/observer/watcher.js:159-168 | the subscriptions made while depending on `a` then `b` are those made while depending on `a + b` |
| Host.CallGetter | src/core/observer/watcher.js:133 | a getter call returns the next scripted reading (or the default once the script is used up) and consumes it |
| Collected | src/core/observer/watcher.js:159-168 | the deps kept by an evaluation have exactly the ids of the deps the getter touched, no id twice, and each is one of the touched deps |
| SubscribedOnce | src/core/observer/watcher.js:159-189 | a watcher subscribed once to each dep it depends on (and not to others) stays so after a re-evaluation, for its new deps; other subscribers' counts are untouched |
| Watcher.constructor | src/core/observer/watcher.js:49-113 | the watcher joins `vm._watchers` (and becomes `vm._watcher` for a render watcher), takes the next id, copies the four flags and `before` from the options (all false without options), is active, dirty exactly when computed, and a computed watcher gets a fresh empty dep |
| NewWatcher | src/core/observer/watcher.js:49-113 | construction followed by the first evaluation: a computed watcher stays dirty and reads nothing; any other holds the getter's value and the deps it touched |
| Register | src/core/observer/watcher.js:49-113 | the constructor's registration part: fresh, known, active, next id, no deps yet |
| Watcher.AddDep | src/core/observer/watcher.js:159-168 | a dep already collected in this evaluation changes nothing; otherwise it is collected once and the watcher subscribes to it only when it was not a previous dep |
| Watcher.CleanupDeps | src/core/observer/watcher.js:173-189 | the new deps become the deps and the new lists are emptied; a previous dep not collected again loses the watcher from its subscribers, the others keep theirs |
| Watcher.Get | src/core/observer/watcher.js:119-154 | the getter's value is returned; the deps become those the getter touched (first of each id), each dep's subscriber list gains or loses this watcher exactly as its membership changed, and the target stack is as after push then pop |
| Watcher.TrackedGet | src/core/observer/watcher.js:119-154 | `get()` with the frame facts: the same result, and the runtime's counters and object universes are unchanged |
| Watcher.CollectWithTarget | src/core/observer/watcher.js:122-150 | between `pushTarget(this)` and `popTarget()` the getter's reading is consumed, the touched deps are collected without duplicate ids and each newly touched dep that was not already a dep gains this watcher as subscriber; the target stack ends as after push then pop |
| Watcher.CollectDeps | src/core/observer/watcher.js:133-168 | the getter's `depend()` calls leave the touched deps collected and the watcher subscribed to each newly touched dep it did not already depend on |
| Watcher.FinishCollection | src/core/observer/watcher.js:150-189 | `popTarget` then `cleanupDeps`: the collected deps replace the old ones and each subscriber list is the one before evaluation changed by `SubsAfter` |
| Watcher.GetAndInvoke | src/core/observer/watcher.js:232-256 | the callback fires exactly when the new value differs (`!==`), is an object, or the watcher is deep; when it fires, the value is stored, `dirty` is cleared and the callback is logged with new and old value, its writes queued in order |
| Watcher.SysGet | src/core/observer/watcher.js:233 | `get()` inside the running system: the scheduler and the effect log are untouched, the value and deps are the reading's |
| Watcher.Invoke | src/core/observer/watcher.js:234-255 | the firing decision and its consequences, given the value `get()` returned |
| Watcher.Run | src/core/observer/watcher.js:226-230 | an inactive watcher does nothing; an active one runs `getAndInvoke` with its own callback, whose effects, readings and queue requests are those of its scripted getter call |
| Watcher.Update | src/core/observer/watcher.js:195-220 | a computed watcher is marked dirty when nobody subscribes to its dep and is re-evaluated otherwise; a sync watcher runs at once; any other is queued in the scheduler |
| Watcher.Dispatch | src/core/observer/watcher.js:197-219 | the choice between the computed branch (`ComputedUpdated`) and the sync-or-queue branch of `update` |
| Watcher.Schedule | src/core/observer/watcher.js:215-219 | the non-computed branch of `update`: run now when sync, else `queueWatcher` |
| Watcher.Recompute | src/core/observer/watcher.js:197-214 | the computed branch of `update`, as the relation `ComputedUpdated` |
| Watcher.Evaluate | src/core/observer/watcher.js:262-271 | a dirty watcher re-reads its getter, stores the value and becomes clean; a clean one returns the cached value and changes nothing |
| Watcher.Depend | src/core/observer/watcher.js:276-280 | with a dep and a target, the watcher's dep is depended on exactly as `Dep.depend` does; otherwise nothing changes |
| Watcher.Teardown | src/core/observer/watcher.js:285-299 | an inactive watcher is untouched; an active one leaves `vm._watchers` (unless the vm is being destroyed), is removed once from every dep's subscribers and becomes inactive, so a watcher subscribed exactly once is subscribed nowhere afterwards |
| InsertById | src/core/observer/scheduler.js:94 | the result is a permutation of the list plus the new watcher, still in ascending id order |
| SortById | src/core/observer/scheduler.js:94 | `queue.sort` by id: the same watchers (as a multiset), in ascending id order |
| ScanFrom | src/core/observer/scheduler.js:200-203 | the backward scan stops after `index`, every entry it passed has a larger id, and the entry it stops at (when past `index + 1`) does not |
| InsertPos | src/core/observer/scheduler.js:200-205 | the splice position is after the running entry, after every entry with an id at most the new one's back to the scan's stop, and before only larger ids |
| Enqueued | src/core/observer/scheduler.js:190-206 | the queue after one `queueWatcher` holds only old entries and the new watcher |
| EnqueuedSorted | src/core/observer/scheduler.js:197-206 | a watcher spliced in during a flush keeps the part of the queue after `index` in id order |
| EnqueuedKeeps | src/core/observer/scheduler.js:190-206 | one `queueWatcher` adds at most the one watcher, drops nothing, keeps every entry up to the running one during a flush and appends at the end otherwise |
| EnqueuedAllKeeps | src/core/observer/scheduler.js:190-206 | the same for a batch: at most one entry per queued watcher, only queued or old entries, entries up to `index` untouched, the waiting part still sorted |
| AfterQueueOne | src/core/observer/scheduler.js:187-222 | a watcher whose id is in `has` changes nothing; another is enqueued, its id recorded, and the first of a cycle sets `waiting` and adds the flush job to the tick queue |
| AfterQueueSnoc | src/core/observer/scheduler.js:187-222 | queueing a batch and then one more watcher is queueing the longer batch |
| AfterQueueCons | src/core/observer/scheduler.js:187-222 | queueing the head and then the rest is queueing the whole batch |
| QueuedDuringFlush | src/core/observer/scheduler.js:193-206 | a batch queued while a flush runs leaves the flags, the tick queue, the index and the entries up to the running one unchanged, adds at most one entry per watcher and keeps the rest sorted |
| RanNext | src/core/observer/scheduler.js:100-126 | one pass of the flush loop keeps the run entries equal to the queue prefix up to the running one, never drops an entry, and either advances past it with the rest still sorted or breaks with the sorted part starting after the run prefix |
| Scheduler.constructor | src/core/observer/scheduler.js:15-23 | empty queue, empty `has` and `circular`, not waiting, not flushing, index 0 |
| Scheduler.InsertPosition | src/core/observer/scheduler.js:200-203 | the `while` loop computes the splice position `InsertPos` |
| Scheduler.QueueWatcher | src/core/observer/scheduler.js:187-222 | when no synchronous flush can start, the new state is exactly one `queueWatcher` step; with `config.async` off, the first watcher of a cycle flushes at once and leaves the scheduler reset |
| Scheduler.OpenCycle | src/core/observer/scheduler.js:210-220 | asynchronous: `waiting` is set and the flush job is handed to `nextTick`; synchronous: the flush runs now and the scheduler ends reset |
| Scheduler.ScheduleFlush | src/core/observer/scheduler.js:219 | the tick queue gains the flush job and nothing else changes |
| Scheduler.Enqueue | src/core/observer/scheduler.js:191-206 | the queue is `Enqueued` and the id joins `has` |
| Scheduler.QueueAll | src/core/observer/scheduler.js:187-222 | queueing a batch in order: the state is `AfterQueue` of the batch when no synchronous flush intervenes |
| Scheduler.ResetSchedulerState | src/core/observer/scheduler.js:29-36 | index 0, both queues empty, `has` and `circular` empty, not waiting and not flushing |
| Scheduler.Flush | src/core/observer/scheduler.js:73-147 | after a flush the scheduler is reset; every watcher queued before it was in the flushed queue; the watchers run are a prefix of that queue, sorted from there on; a shorter prefix means the circular-update warning fired for the last one run; the flush only appends to the effect log |
| Scheduler.RunAndReset | src/core/observer/scheduler.js:99-140 | the loop from its start and then the end of the flush, with the same guarantees |
| Scheduler.BeginFlush | src/core/observer/scheduler.js:77-94 | `flushing` is set and the queue is sorted by id |
| Scheduler.EndFlush | src/core/observer/scheduler.js:130-140 | the state is reset, the flushed queue is kept as `lastQueue`, and the activated then updated hooks only append effects |
| Scheduler.HooksAfterFlush | src/core/observer/scheduler.js:138-140 | `callActivatedHooks` then `callUpdatedHooks`: every activated component ends directly active and effects are only appended |
| Scheduler.RunQueue | src/core/observer/scheduler.js:99-127 | the loop runs entries in queue order; the run entries stay a prefix of a queue that only grows, and stopping early means an infinite-update warning |
| Scheduler.RunNext | src/core/observer/scheduler.js:100-126 | one pass: the running entry joins the run prefix; either the loop advances with a smaller measure or it breaks after the warning |
| Scheduler.RunEntry | src/core/observer/scheduler.js:100-109 | `before`, `has[id] = null` and `run` keep the entries up to `index` and the waiting part sorted, and do not increase the entries still to run plus the queue requests left |
| Scheduler.PrepareRun | src/core/observer/scheduler.js:102-107 | the `before` hook is logged exactly when the watcher has one, and its id leaves `has` |
| Scheduler.RunQueued | src/core/observer/scheduler.js:109 | `watcher.run()` during a flush: what it queues is spliced in after `index` in id order |
| Scheduler.AfterRun | src/core/observer/scheduler.js:112-126 | a watcher re-queued by its own run has its `circular` count incremented; the loop breaks with a warning exactly when the count exceeds `MAX_UPDATE_COUNT` (100) |
| Scheduler.CallUpdatedHooks | src/core/observer/scheduler.js:150-161 | the `updated` hook is logged, last entry first, for each watcher that is its vm's render watcher on a mounted, not destroyed vm |
| Scheduler.QueueActivatedComponent | src/core/observer/scheduler.js:168-173 | the component is marked active and appended to the activated list |
| Scheduler.CallActivatedHooks | src/core/observer/scheduler.js:175-180 | every listed component ends directly active, no other component's direct flag changes, effects are only appended |
| Scheduler.ActivateQueued | src/core/observer/scheduler.js:177-178 | one entry: `_inactive = true` then a direct activation leaves the component directly active |
| OneTimerPerBatch | src/core/util/next-tick.js:118-140 | however many callbacks a turn collects, they are kept in call order and the host is asked for at most one flush, only when none was pending, using the timer kind in force |
| TickQueue.constructor | src/core/util/next-tick.js:8-31 | no callbacks, nothing pending, microtask mode, no timer requested, no function wrapped yet |
| TickQueue.NextTick | src/core/util/next-tick.js:118-147 | the wrapper for `cb` (or, without a callback, the resolver of a fresh promise, or nothing when promises are unsupported) is appended; a flush is requested, as a macrotask in macrotask mode or without native promises, exactly when none was pending |
| TickQueue.WithMacroTask | src/core/util/next-tick.js:109-116 | `withMacroTask(fn)` returns the wrapper cached on `fn`, so a second call for the same function returns the same wrapper and changes nothing; the first call caches a new wrapper that no other function has |
| TickQueue.CallWrapper | src/core/util/next-tick.js:110-115 | a call of the wrapper: the wrapped function's `nextTick` calls go in as in macrotask mode, so a batch it opens asks for a macrotask, and the mode is off again afterwards |
| TickQueue.FlushCallbacks | src/core/util/next-tick.js:12-19 | `pending` is cleared and the queue emptied before any callback runs; without a scheduler flush among them the effects are those of the copied callbacks in order (a throwing callback reported, not propagated); with one, the scheduler ends reset, and the log holds the effects of the callbacks before the flush job, in order, then the flush's own effects, then those of the callbacks after it, in order (`FlushedAt`) |
| TickQueue.RunJobs | src/core/util/next-tick.js:16-18 | the copied callbacks run in order: without a flush job the log gains their effects in order; with one, the effects of the callbacks before it, the flush's effects, then those of the callbacks after it (`FlushedAt`), and the scheduler ends reset |
| TickQueue.FlushThenRest | src/core/util/next-tick.js:16-18 | a scheduler flush at the head runs `flushSchedulerQueue`, then the rest of the batch, whose effects follow the flush's in order; the scheduler ends reset |
| TickQueue.OtherThenRest | src/core/util/next-tick.js:16-18 | a user callback or promise resolver at the head contributes its effects before those of the rest, whether or not a flush job comes later in the batch |
| FlushFirst | src/core/util/next-tick.js:16-18 | a batch that starts with the flush job logs the flush's effects, then the rest's |
| FlushLater | src/core/util/next-tick.js:16-18 | a job before the flush job logs its effects ahead of everything the rest of the batch logs |
| TickQueue.RunOtherJob | src/core/util/next-tick.js:122-132 | a callback is called with its context and reported to `handleError` when it throws; a promise wrapper resolves its promise; an empty wrapper does nothing |
| FlushJobsConcat | src/core/util/next-tick.js:16-18 | the scheduler flushes in a concatenation are those of both parts |
| TickEffectsConcat | src/core/util/next-tick.js:16-18 | running `a + b` has the effects of running `a` then `b` |
| AfterNextTicksConcat | src/core/util/next-tick.js:118-140 | `nextTick` over `a + b` is `nextTick` over `a` then over `b` |
| FirstNonAbstract | src/core/instance/lifecycle.js:38-42 | the climb ends at the component itself or an ancestor, and stops only at a non-abstract component or at the top of the tree |
| RootIsTop | src/core/instance/lifecycle.js:48-49 | the `$root` reached from any component is a known component without a parent |
| AncestorsAbove | src/core/instance/lifecycle.js:38-49 | every ancestor is strictly shallower than its descendant and its own ancestors are among the descendant's, so the parent chain is finite |
| NotOwnAncestor | src/core/instance/lifecycle.js:38-49 | no component is its own ancestor |
| AncestorsKnown | src/core/instance/lifecycle.js:38-49 | the ancestors of a known component are known |
| SubtreeOfChild | src/core/instance/lifecycle.js:44-52 | a child of `$children` is deeper than its parent, and its subtree lies inside the parent's and leaves the parent out |
| Vm.constructor | src/core/instance/lifecycle.js:32-61 | `$parent` is the first non-abstract ancestor of `options.parent` (or that parent itself for an abstract component), `$root` is the parent's root or the component; a non-abstract component is appended to its parent's `$children` and no other list changes; all flags start false, `_inactive` null |
| ClimbAbstract | src/core/instance/lifecycle.js:40-42 | the `while` loop reaches `FirstNonAbstract` of its start |
| Vm.Attach | src/core/instance/lifecycle.js:39-45 | the new component is appended to its parent's `$children` exactly when it is not abstract; the tree stays well linked |
| Vm.ForceUpdate | src/core/instance/lifecycle.js:109-114 | without a render watcher nothing happens; with one, exactly that watcher is told to update, which queues it when it is plain and no synchronous flush intervenes |
| Vm.Destroy | src/core/instance/lifecycle.js:117-158 | a second call changes nothing; the first fires `beforeDestroy`, patches to null, fires `destroyed` and removes the listeners, in that order; every watcher of the component becomes inactive, and each active one that was subscribed exactly once to each of its deps ends up in no subscriber list; the root data's `vmCount` drops by one; the component leaves its parent's `$children` unless the parent is itself being destroyed or the component is abstract |
| Vm.DestroyOnce | src/core/instance/lifecycle.js:122-157 | the first `$destroy`, with the same guarantees |
| Vm.Detach | src/core/instance/lifecycle.js:123-128 | `_isBeingDestroyed` is set and the component is removed once from a parent that is not being destroyed, unless it is abstract |
| Vm.TeardownAll | src/core/instance/lifecycle.js:130-136 | the render watcher and then every entry of `_watchers`, from the last, are torn down: all inactive, each subscribed nowhere |
| TeardownOne | src/core/observer/watcher.js:285-299 | one teardown during `$destroy` leaves `_watchers` alone and keeps every other watcher's exact subscriptions |
| Vm.Release | src/core/instance/lifecycle.js:139-149 | `vmCount` drops by one, `_isDestroyed` is set, and the patch to null, the `destroyed` hook and `$off` are logged in order |
| ActiveInstance.constructor | src/core/instance/lifecycle.js:21 | there is no active instance at first |
| ActiveInstance.SetActiveInstance | src/core/instance/lifecycle.js:24-30 | the component becomes active and the returned restore value is the previous active instance |
| ActiveInstance.Restore | src/core/instance/lifecycle.js:27-29 | the saved instance is active again |
| ActiveInstance.Bracketed | src/core/instance/lifecycle.js:73-87 | an `_update` with any nesting of bracketed updates leaves the active instance as it found it |
| CallHook | src/core/instance/lifecycle.js:388-405 | the hook is logged for the component |
| IsInInactiveTree | src/core/instance/lifecycle.js:346-351 | the loop answers whether some proper ancestor has a truthy `_inactive` |
| ActivateChildComponent | src/core/instance/lifecycle.js:353-369 | a direct call clears `_directInactive`; activation proceeds unless a direct call sits in an inactive tree or an indirect call meets a directly deactivated component, and only when `_inactive` is true or null; then the component becomes active, each child ends directly inactive or active, and `activated` is the last hook logged; otherwise no `_inactive` changes and nothing is logged; components outside the subtree are untouched and an active component never becomes inactive |
| ActivateChildren | src/core/instance/lifecycle.js:364-366 | the loop from entry `i` leaves each later child directly inactive or active, changes no `_directInactive` and nothing outside the subtree |
| DeactivateChildComponent | src/core/instance/lifecycle.js:372-386 | a direct call sets `_directInactive`; unless a direct call sits in an inactive tree, a component not yet inactive becomes inactive with all its children and `deactivated` is the last hook logged; otherwise nothing changes; components outside the subtree are untouched |
| DeactivateChildren | src/core/instance/lifecycle.js:381-383 | the loop from entry `i` leaves each later child inactive |
| NeedsForceUpdate | src/core/instance/lifecycle.js:265-284 | slot children on either side, unstable new or old scoped slots, or a changed `$key` each force a re-render; none of them means no re-render |
| NoForcedUpdateExactly | src/core/instance/lifecycle.js:265-284 | a re-render is skipped if and only if there are no slot children on either side and the scoped slots are stable with an unchanged key |
| Realm.constructor | src/core/observer/index.js:25 | observation starts switched on |
| Realm.ToggleObserving | src/core/observer/index.js:27-29 | `shouldObserve` takes the given value |
| Common.Digits | src/core/observer/index.js:239 | an index key's property name is a non-empty string of decimal digits |
| Common.DigitsRoundTrip | src/core/observer/index.js:239 | reading the digits of an index back gives the index: distinct indices have distinct property names |
| Observer.constructor | src/core/observer/index.js:42-46 | the observer records its object, its dep, and a `vmCount` of 0 |
| NewDep | src/core/observer/index.js:159 | a new dep has no subscribers and an id no known dep has |
| Realm.Observe | src/core/observer/index.js:120-146 | a primitive or a VNode gets no observer and nothing changes; an object that already has `__ob__` gets that observer back (its `vmCount` raised for root data) and nothing else changes; otherwise a fresh observer is created exactly when observation is on, not on the server, and the object is an extensible array or plain object that is not a component, with the object converted; in every case the heap only evolves and the value ends reached |
| Realm.Attach | src/core/observer/index.js:42-62 | `new Observer(o)`: a fresh observer with a fresh subscriber-free dep is stored in `__ob__` and the object is converted |
| Realm.NewObserver | src/core/observer/index.js:43-47 | the first half of the constructor: the heap changes only in the object's `__ob__`, and the number of unobserved objects drops |
| Realm.Convert | src/core/observer/index.js:49-62 | an array has every element observed; any other object has every key walked |
| Realm.Walk | src/core/observer/index.js:71-76 | after the loop each key of `Object.keys` is a reactive property, except a non-configurable one, which is untouched; keys and other properties are unchanged |
| WalkStep | src/core/observer/index.js:73-75 | one more `defineReactive` extends the walked prefix by its key |
| Realm.ObserveArray | src/core/observer/index.js:82-86 | every element of the array ends reached: an observable element carries an observer |
| Realm.ObserveChild | src/core/observer/index.js:181 | `observe(v)` as a conversion calls it returns the value's observer and leaves it reached |
| EvolvedTrans | src/core/observer/index.js:42-225 | two evolutions of the heap in a row are one evolution |
| EvolvedAt | src/core/observer/index.js:182-224 | redefining properties of one object, keeping its kind, elements and observer, is an evolution free at that object |
| UnobservedShrinks | src/core/observer/index.js:42-62 | observation never makes an observed object unobserved, so the number of unobserved objects never grows |
| ConvertedFromAttach | src/core/observer/index.js:47-62 | setting `__ob__` before the conversion does not change what the conversion achieves |
| ReachedKept | src/core/observer/index.js:120-146 | values once reached stay reached as the heap evolves |
| Realm.DefineReactive | src/core/observer/index.js:151-225 | a non-configurable own property is left as it was and nothing changes; otherwise the key becomes a reactive property with a fresh subscriber-free dep, the accessors found on the old descriptor, the value passed in (or the current one, unless a getter has no setter), a child observer of that value unless shallow, and a new key is appended to the key order |
| Realm.Install | src/core/observer/index.js:181-224 | the reactive property holds exactly the given dep, accessors, value and child observer, under the key, appended when new |
| Realm.SetReactive | src/core/observer/index.js:182-224 | `Object.defineProperty` replaces the one property and appends a new key; nothing else in the heap changes |
| SameValue | src/core/observer/index.js:205 | the setter's skip test `newVal === value` or both NaN is equality of values |
| Realm.ReactiveSet | src/core/observer/index.js:201-223 | an unchanged value, or a getter without a setter, changes nothing and notifies nobody; otherwise the user setter is called or the value stored, the child observer is recomputed unless shallow, and every subscriber of the property's dep is told |
| Realm.Commit | src/core/observer/index.js:221-222 | the child observer is the new value's unless shallow, and the property's subscribers are told in order |
| Realm.RefreshChild | src/core/observer/index.js:221 | `childOb = !shallow && observe(newVal)` |
| Realm.NotifyDep | src/core/observer/index.js:222 | `dep.notify()` tells each subscriber and changes no object of the realm |
| Realm.ObserveInSys | src/core/observer/index.js:120-146 | `observe` while watchers and the scheduler are live keeps the whole runtime closed |
| ArraySet | src/core/observer/index.js:239-243 | `length = max(length, key)` then `splice(key, 1, val)`: the element is at `key`, the length is the larger of the old length and `key + 1`, other slots are old elements or `undefined` |
| ArrayDelete | src/core/observer/index.js:284-286 | `splice(key, 1)` removes exactly the element at `key`, shifting the later ones, and does nothing past the end |
| Assigned | src/core/observer/index.js:247 | an ordinary assignment updates a data property, leaves an accessor, adds a missing property at the end of the key order of an extensible object, and touches no other key |
| Deleted | src/core/observer/index.js:299 | `delete` removes a configurable property from the properties and the key order and leaves a non-configurable one |
| SetDecision | src/core/observer/index.js:232-273 | an array with a valid index is written by element; an own key not on `Object.prototype` is assigned; a Vue instance or root data is refused; an unobserved object is assigned; otherwise the property is defined and notified |
| DelDecision | src/core/observer/index.js:278-304 | an array with a valid index is spliced; a Vue instance or root data is refused; a missing own key does nothing; otherwise the key is deleted |
| Realm.Set | src/core/observer/index.js:232-273 | each branch of `set`: an element write (the model has no array interception, so this notifies nobody); refusal with no change; an ordinary assignment to a non-reactive property without notification; a reactive property through its setter; a new reactive property on an observed object followed by notifying the object's dep. The plain assignment logs a user setter. The setter branch changes the heap only by observing the new value. The new-property branch changes the heap only by observing `val` and by the new property at the target (`DefinedFrom`), and the new property's child observer is that of `val` |
| Realm.Assign | src/core/observer/index.js:247 | `target[key] = val`: a reactive property goes through its setter (notifying unless skipped), any other through `Assigned`, with a user setter logged |
| Realm.Store | src/core/observer/index.js:247 | the object is replaced and its observer kept |
| Realm.AddReactive | src/core/observer/index.js:268-271 | the key becomes a new reactive property holding `val`, with `val`'s observer as its child observer, and the object's own dep notifies its subscribers; the rest of the heap changes only by observation (`DefinedFrom`) |
| Realm.DefineInSys | src/core/observer/index.js:268 | `defineReactive(ob.value, key, val)` while watchers and the scheduler are live gives `Added`; the heap changes only at the target and by observing `val`, and a non-configurable property leaves it unchanged (`DefinedFrom`) |
| Realm.Del | src/core/observer/index.js:278-304 | each branch of `del`: an element splice (the model has no array interception, so this notifies nobody); refusal or missing key with no change; deletion followed by notifying the object's dep when observed |
| Realm.ReactiveGet | src/core/observer/index.js:185-200 | the getter returns the user getter's value or the stored one; without a target nothing is subscribed; with one, the target depends on the property's dep, the child observer's dep and, for an array, on the observers of its elements at every nesting level |
| Realm.ReadChild | src/core/observer/index.js:192-197 | the child observer's dep, then the array's nested deps, are depended on |
| Realm.DependArray | src/core/observer/index.js:311-320 | every element's observer dep, and recursively those of nested arrays, are depended on in order |
| Realm.DependElem | src/core/observer/index.js:313-318 | one element: its observer's dep, then its own elements when it is an array |
| Realm.DependOwnOb | src/core/observer/index.js:315 | `e.__ob__.dep.depend()` for an observed element and nothing for any other value |
| PluginUse.InstallArgs | src/core/global-api/use.js:20-21 | the install arguments are the constructor followed by the extra arguments of `use`, in order |
| PluginUse.Constructor.constructor | src/core/global-api/use.js:14 | no plugin list exists before the first `use` and no install call has been made |
| PluginUse.Constructor.Use | src/core/global-api/use.js:13-29 | returns the constructor; a plugin already installed changes nothing; plugins are compared by identity, whatever their `install` property is at the time; a new one has its identity appended to `_installedPlugins` and its `install` method (or, failing that, the plugin function itself) is called once with the constructor and the extra arguments; afterwards the plugin is listed exactly once |
| Common.IndexOf | src/core/global-api/use.js:15 | `indexOf` returns -1 exactly when the element is absent, and otherwise the position of its first occurrence |
| Refs.TargetOf | src/core/vdom/modules/ref.js:33 | the ref target is the component instance, else the element, else `undefined` |
| Refs.Registered | src/core/vdom/modules/ref.js:24-57 | without a `ref` the table is unchanged, and in every case no key other than the vnode's `ref` changes |
| Refs.RefTable.constructor | src/core/vdom/modules/ref.js:34 | a component's `$refs` starts empty |
| Refs.RefTable.Register | src/core/vdom/modules/ref.js:24-57 | `registerRef` leaves exactly the table `Registered`: removal splices the target out of a `v-for` array or clears a single entry holding it; addition inside `v-for` creates the array or appends a target not yet in it; otherwise the entry is overwritten |
| Refs.CreateHook | src/core/vdom/modules/ref.js:7-9 | the vnode's target is registered |
| Refs.UpdateHook | src/core/vdom/modules/ref.js:10-16 | nothing happens when the `ref` name is unchanged; otherwise the old vnode's target is removed from its context's table and then the new one registered in its own |
| Refs.DestroyHook | src/core/vdom/modules/ref.js:17-20 | the vnode's target is removed |
| Refs.AddHolds | src/core/vdom/modules/ref.js:43-56 | after an addition the table holds the target under the ref, as the single entry outside `v-for` |
| Refs.RegisterKeepsNoDuplicates | src/core/vdom/modules/ref.js:35-56 | adding and removing keep every `v-for` array free of duplicates |
| Refs.RemoveReleases | src/core/vdom/modules/ref.js:35-42 | on a duplicate-free table, a removal leaves the target no longer held under its ref |
| Refs.AddRemoveRoundTrip | src/core/vdom/modules/ref.js:35-52 | inside `v-for`, adding a target not yet in the array and removing it again gives back the original table |
| ResolveSlots.Stripped | src/core/instance/render-helpers/resolve-slots.js:19-24 | only a truthy `attrs.slot` is deleted: data presence, every other field and every other attribute stay as they were |
| ResolveSlots.StrippedKeeps | src/core/instance/render-helpers/resolve-slots.js:22-39 | deleting the `slot` attribute does not change which slot a child goes to, whether it is a slot template, or its children |
| ResolveSlots.ResolveSlots | src/core/instance/render-helpers/resolve-slots.js:9-52 | it throws exactly when some child is sent to a slot named after an `Object.prototype` property, after stripping the children up to that one; absent or empty children give no slots; otherwise a slot exists exactly when some child is sent to it and its contents are not all whitespace, and it holds the contributions of its children in input order (a named `<template>` contributes its children, any other child itself with the `slot` attribute removed); no slot is empty or all whitespace |
| ResolveSlots.Group | src/core/instance/render-helpers/resolve-slots.js:17-44 | the first loop throws at the first child sent to an `Object.prototype` name, having stripped the children up to it; otherwise it builds exactly the reference slot table `Collected` over all children and strips each child |
| ResolveSlots.PushChild | src/core/instance/render-helpers/resolve-slots.js:18-43 | the child is stripped; the pass throws exactly when its slot name is inherited from `Object.prototype` (the inherited value has no `push`), and otherwise keeps the slot table equal to the reference definition over the children seen so far |
| ResolveSlots.FirstPrototypeSlot | src/core/instance/render-helpers/resolve-slots.js:29-31 | the first child whose slot name `Object.prototype` has, and no earlier child has one |
| ResolveSlots.DeleteSlotAttribute | src/core/instance/render-helpers/resolve-slots.js:22-24 | the in-place deletion yields `Stripped` |
| ResolveSlots.DropWhitespace | src/core/instance/render-helpers/resolve-slots.js:46-50 | exactly the slots whose nodes are all whitespace are deleted; the others keep their contents |
| ResolveSlots.GroupStep | src/core/instance/render-helpers/resolve-slots.js:29-43 | pushing a child's contribution onto its slot extends the reference table by that child |
| ResolveSlots.CollectedUnrouted | src/core/instance/render-helpers/resolve-slots.js:16-44 | a slot no child is sent to collects nothing |
| ResolveSlots.CollectedHasChild | src/core/instance/render-helpers/resolve-slots.js:29-43 | every child other than a slot template is in the slot it is sent to, stripped |
| ResolveSlots.CollectedFromChildren | src/core/instance/render-helpers/resolve-slots.js:29-43 | everything in a slot comes from a child sent there: the stripped child itself or a child of a slot template |
| BindObjectProps.Put | src/core/instance/render-helpers/bind-object-props.js:55-56 | a property write stores the value under the key and keeps the object well formed, a new key going to the end of the order |
| BindObjectProps.Extend | src/core/instance/render-helpers/bind-object-props.js:36 | `extend` copies the first `n` keys of the source: the result has exactly the old keys and the copied ones, copied keys take the source's values, others keep theirs |
| BindObjectProps.ToObject | src/core/instance/render-helpers/bind-object-props.js:35-37 | `toObject(value)` gives a well-formed object |
| BindObjectProps.ToObjectDomain | src/core/instance/render-helpers/bind-object-props.js:35-37 | a key is in the merged object if and only if some element of the array has it |
| BindObjectProps.ToObjectLastWins | src/core/instance/render-helpers/bind-object-props.js:35-37 | a key takes its value from the last element that has it |
| BindObjectProps.Source | src/core/instance/render-helpers/bind-object-props.js:35-39 | the object the loop walks is well formed |
| BindObjectProps.BindObjectProps | src/core/instance/render-helpers/bind-object-props.js:20-70 | the same `data` object is returned; a warning is given exactly for a non-object value; a falsy or non-object value leaves `data` as it was; otherwise `data` is the result of one loop turn per key in `for...in` order |
| BindObjectProps.BindKey | src/core/instance/render-helpers/bind-object-props.js:40-65 | one turn: the key goes to `data` itself (class, style, reserved attributes), to `domProps` (`asProp` or `mustUseProp`) or to `attrs`, and is written only when neither its camelized nor its hyphenated spelling is bound there yet, with an `update:key` handler under `.sync` |
| BindObjectProps.StepKeeps | src/core/instance/render-helpers/bind-object-props.js:40-65 | one turn keeps every existing binding and leaves its key bound in some spelling |
| BindObjectProps.BindKeeps | src/core/instance/render-helpers/bind-object-props.js:39-66 | binding an object never removes or changes a binding that `data`, `data.attrs` or `data.domProps` already had, and leaves every key of the object bound in some spelling |
| BindObjectProps.BindOnlySyncHandlers | src/core/instance/render-helpers/bind-object-props.js:59-64 | without `.sync` no handler is added |
| BindObjectProps.SyncHandlerAdded | src/core/instance/render-helpers/bind-object-props.js:55-64 | with `.sync`, a key written by its turn gets its `update:key` handler and its value |
| Directives.RawName | src/core/vdom/modules/directives.js:126-128 | `getRawDirName`: a non-empty `rawName` is used as is; otherwise the key starts with the directive's name followed by a dot |
| Directives.Normalize | src/core/vdom/modules/directives.js:109-120 | one directive after normalisation: it has modifiers (an empty set when it had none), the same raw name, and its definition is the asset registered under its name, if any; nothing else changes |
| Directives.NormalizeDirectives | src/core/vdom/modules/directives.js:99-123 | the loop builds exactly the table of the reference definition: missing directives give an empty table, later entries replace earlier ones under the same raw name |
| Directives.NormalizedWF | src/core/vdom/modules/directives.js:99-123 | the normalised table lists each key once and its keys are exactly its entries |
| Directives.NormalizedDomain | src/core/vdom/modules/directives.js:109-117 | a raw name is a key of the table if and only if some directive of the list has it |
| Directives.NormalizedLastWins | src/core/vdom/modules/directives.js:109-117 | the entry under a raw name is the last directive with that name, normalised |
| Directives.NormalizedModifiers | src/core/vdom/modules/directives.js:112-115 | every entry of the table has modifiers |
| Directives.HookCall | src/core/vdom/modules/directives.js:130-139 | `callHook` makes a call exactly when the directive's definition has that hook, and then with the hook, directive, vnodes and `isDestroy` it was given |
| Directives.UpdateDirectives | src/core/vdom/modules/directives.js:17-21 | the module hook produces the calls and deferred hooks of the reference outcome, including the case where neither vnode has directives |
| Directives.Update | src/core/vdom/modules/directives.js:23-95 | `_update` produces exactly the reference outcome for the two vnodes |
| Directives.Run | src/core/vdom/modules/directives.js:40-94 | the three passes together give the calls made now, the `insert` hook and the `postpatch` hook of the reference diff of the two tables |
| Directives.Defer | src/core/vdom/modules/directives.js:62-85 | `inserted` calls go into the vnode's `insert` hook on creation and are made at once otherwise; `componentUpdated` calls always go into the `postpatch` hook |
| Directives.BindOrUpdateAll | src/core/vdom/modules/directives.js:41-60 | the loop over the new table calls `bind` for a new key and `update` (with the old value and argument) for a kept one, and collects the directives with `inserted` and `componentUpdated` hooks, in key order |
| Directives.CallAll | src/core/vdom/modules/directives.js:64-66 | one hook is called on every listed directive that has it, in order |
| Directives.UnbindAll | src/core/vdom/modules/directives.js:87-94 | the loop over the old table calls `unbind` on the old vnode for exactly the keys missing from the new table |
| Directives.NewPassCalls | src/core/vdom/modules/directives.js:41-60 | every call of the first pass is the `bind` or `update` call of one of its keys |
| Directives.NewPassCovers | src/core/vdom/modules/directives.js:41-60 | every key whose directive has the hook it needs gets its `bind` or `update` call |
| Directives.NewPassStep | src/core/vdom/modules/directives.js:41-60 | one more key adds at most its own call, after those of the earlier keys |
| Directives.UnbindPassCalls | src/core/vdom/modules/directives.js:87-94 | `unbind` is called only for keys that left the table, and for every such key whose directive has an `unbind` hook |
| Directives.NoDirectivesNoCalls | src/core/vdom/modules/directives.js:17-21 | when neither vnode has directives, nothing is called and no hook is merged |
| Directives.CreateDefersInserted | src/core/vdom/modules/directives.js:62-76 | on creation only `bind` is called at once and `inserted` waits for the `insert` hook; on update nothing is added to the `insert` hook |
| Directives.UnbindIsDestroy | src/core/vdom/modules/directives.js:9-15 | an `unbind` call happens only on update or destroy, gets the old vnode twice, and is flagged `isDestroy` exactly when the vnode is being destroyed |
| Directives.HookCallsHook | src/core/vdom/modules/directives.js:130-139 | a batch of calls for one hook holds only calls of that hook, none flagged as destroy |
| CreateElement.DataOf | src/core/vdom/create-element.js:36-40 | `data` reaches `_createElement` as a data object exactly when it is an object; `null` and `undefined` give none |
| CreateElement.CreateElement | src/core/vdom/create-element.js:28-45 | with `alwaysNormalize` set and no shift, the call is `_createElement` with full normalisation whatever normalisation type was passed |
| CreateElement.EffectiveTag | src/core/vdom/create-element.js:65-67 | `data.is`, when present, replaces the tag; otherwise the tag is kept |
| CreateElement.Namespace | src/core/vdom/create-element.js:116 | the namespace of the context's placeholder vnode wins when it is a non-empty string; otherwise the platform's namespace for the tag |
| CreateElement.Finish | src/core/vdom/create-element.js:155-166 | an array result is returned as it is; a single vnode gets the namespace when there is one and is otherwise unchanged; no vnode gives an empty vnode |
| CreateElement.CreateElementCore | src/core/vdom/create-element.js:47-167 | observed data and a falsy tag (after `is`) both give an empty vnode |
| CreateElement.WithNSList | src/core/vdom/create-element.js:177-184 | the loop over the children keeps their number |
| CreateElement.WithNSListIndex | src/core/vdom/create-element.js:177-184 | each child is handled on its own: child `i` of the result is child `i` updated by the recursive rule |
| CreateElement.WithNSShape | src/core/vdom/create-element.js:169-185 | `applyNS` sets the vnode's namespace and changes nothing but namespaces in the tree |
| CreateElement.WithNSListShape | src/core/vdom/create-element.js:177-184 | the children loop changes nothing but namespaces |
| CreateElement.WithNSIdempotent | src/core/vdom/create-element.js:169-185 | applying the same namespace twice gives the same tree as once |
| CreateElement.WithNSListIdempotent | src/core/vdom/create-element.js:177-184 | the children loop is idempotent |
| CreateElement.ForeignObjectChildren | src/core/vdom/create-element.js:171-175 | inside `foreignObject` every tagged child except `svg` falls back to the default namespace, and an `svg` child that already has a namespace is left alone |
| CreateElement.KeepsNamespacedChild | src/core/vdom/create-element.js:179-181 | without `force`, a child that already has a namespace is not touched |
| CreateElement.ApplyNS | src/core/vdom/create-element.js:169-185 | the recursive procedure computes exactly the namespaced tree of the reference definition |
| CreateElement.ShiftLaw | src/core/vdom/create-element.js:36-40 | an array or primitive `data` is treated as the children, the arguments moving one place to the left |
| CreateElement.AlwaysNormalizeWins | src/core/vdom/create-element.js:41-43 | with `alwaysNormalize` the normalisation type argument makes no difference |
| CreateElement.ReservedTagElement | src/core/vdom/create-element.js:113-129 | a reserved tag gives an element with the platform's tag name, the data and the normalised children, in the computed namespace |
| CreateElement.FunctionChildIsScopedSlot | src/core/vdom/create-element.js:94-100 | a function as the first child becomes the default scoped slot, the children list is emptied and the rest of the data is kept |
| CreateElement.ComponentTagNoNamespace | src/core/vdom/create-element.js:147-151 | a component constructor or options as tag gives exactly what `createComponent` returns, with no namespace applied |
| CreateElement.RegisteredComponent | src/core/vdom/create-element.js:131-137 | a registered component name (not a reserved tag, no `v-pre`) goes to `createComponent` with the resolved constructor, then through the tail with the computed namespace |
| Patch.HooksOf | src/core/vdom/patch.js:99-106 | `cbs[hook]` lists exactly the modules that define the hook, in module order and each once |
| Patch.Warnings | src/core/vdom/patch.js:578-594 | one duplicate-key warning per repeated key |
| Patch.Wrap | src/core/vdom/patch.js:481-489 | the old children array as the loop sees it: every slot still defined and holding its child |
| Patch.RemoveNode | src/core/vdom/patch.js:124-130 | `removeNode`: the element leaves its parent, if it had one, and nothing else changes |
| Patch.RemoveCallback.constructor | src/core/vdom/patch.js:113-121 | `createRmCb` keeps the element and the listener count |
| Patch.RemoveCallback.Call | src/core/vdom/patch.js:114-118 | each call takes one listener off; the call that brings the count to zero removes the element, earlier ones change nothing in the document |
| Patch.RemovedDetached | src/core/vdom/patch.js:571-574 | every old child `removeVnodes` dropped has left the document, unless a `remove` hook delays that |
| Patch.ReuseFresh | src/core/vdom/patch.js:537-555 | when the new keys are unique, the old child found for the new start vnode has not been reused yet |
| Patch.EndLoop | src/core/vdom/patch.js:511-533 | each of the four end-to-end matches keeps the loop invariant, recording the new child as taking over the old child's element |
| Patch.CreateLoop | src/core/vdom/patch.js:546-547 | creating a new element for the new start vnode keeps the loop invariant, recording that child as created |
| Patch.ReuseLoop | src/core/vdom/patch.js:550-555 | moving a matched old child keeps the loop invariant: its slot is cleared and the new child takes over its element |
| Patch.LoopClose | src/core/vdom/patch.js:504-563 | the cursor and key-table parts of the loop invariant follow from the window invariant |
| Patch.ElmsOf | src/core/vdom/patch.js:342-353 | the elements of a list of created vnodes, in order |
| Patch.ChildrenBuiltNext | src/core/vdom/patch.js:347-349 | appending one more created child keeps "the children created so far follow the old children, in order" |
| Patch.RunPlacedNext | src/core/vdom/patch.js:412-414 | placing one more vnode of the range before `refElm` keeps "the run created so far was placed in order before `refElm`" |
| Patch.Patcher.constructor | src/core/vdom/patch.js:80-106 | `createPatchFunction` starts with no hook calls and an empty insert queue |
| Patch.Patcher.ModuleCalls | src/core/vdom/patch.js:370-371 | the modules' hooks are called once per module that defines them |
| Patch.Patcher.InvokeModuleHooks | src/core/vdom/patch.js:370-371 | the calls `cbs[hook][i](…)` are appended in module order |
| Patch.Patcher.Insert | src/core/vdom/patch.js:329-339 | `insert`: nothing happens without a parent or when the reference node is not a child of the parent; otherwise the element ends up in the parent's children right before the reference node, or last without one, and every other element keeps its children |
| Patch.Patcher.InsertBeforeRef | src/core/vdom/patch.js:332-333 | `insertBefore(parent, elm, ref)` with `ref` a child of `parent`: `elm` goes right before `ref`, every other child list is kept |
| Patch.Patcher.InvokeCreateHooks | src/core/vdom/patch.js:368-382 | the module `create` hooks, then the vnode's own `create` hook, are called, and the vnode is queued for `insert` exactly when it has that hook |
| Patch.Patcher.CreateElm | src/core/vdom/patch.js:151-245 | `createElm` gives the vnode a fresh element, placed in the parent's children right before the reference node (last without one) when the parent exists and the reference node is its child, and left without a parent when there is none; no other element's children or parent change |
| Patch.Patcher.CreateLeaf | src/core/vdom/patch.js:235-244 | a comment or text vnode gets a fresh element holding its text, placed in the parent's children as `insert` places it; no other child list changes |
| Patch.Patcher.CreateTagged | src/core/vdom/patch.js:181-234 | the tagged case: a fresh element placed in the parent's children as `insert` places it, with the subtree below it; no other existing child list changes |
| Patch.Patcher.BuildTagged | src/core/vdom/patch.js:197-229 | the element created for a tag is the next fresh one, and the children are created below it; the child lists of existing elements are kept |
| Patch.Patcher.CreateChildren | src/core/vdom/patch.js:342-353 | `createChildren` gives each child its own fresh element, appended in order under the vnode's element, whose children become the old ones followed by the new ones; no other existing child list changes |
| Patch.Patcher.CreateKids | src/core/vdom/patch.js:347-349 | every child of the list is created, in order, keeping its rendered shape, and its element is appended under the vnode's element |
| Patch.Patcher.CreateKid | src/core/vdom/patch.js:348 | one child more is created and appended after those already created |
| Patch.Patcher.AddVnodes | src/core/vdom/patch.js:411-415 | `addVnodes` gives every vnode of the range a fresh element, places them in order under the parent before `refElm` (or last), and leaves the rest of the array and every other child list alone |
| Patch.Patcher.AddLoop | src/core/vdom/patch.js:412-414 | the loop of `addVnodes`: after each step the vnodes created so far stand, in order, before `refElm` in the parent's children |
| Patch.Patcher.AddVnode | src/core/vdom/patch.js:413 | one vnode of the range gets a fresh element placed before `refElm`; only its slot of the array changes |
| Patch.Patcher.InvokeDestroyHook | src/core/vdom/patch.js:418-432 | `invokeDestroyHook` calls the vnode's own `destroy` hook and the modules' `destroy` hooks, then recurses into the children, in that order |
| Patch.Patcher.DestroyChildren | src/core/vdom/patch.js:426-431 | the children's destroy hooks run child by child, in order |
| Patch.Patcher.DestroyEventsSnoc | src/core/vdom/patch.js:426-431 | destroying one child more appends that child's hook calls to those of the children before it |
| Patch.Patcher.InvokeOwnDestroyHooks | src/core/vdom/patch.js:420-425 | a vnode with data gets its own `destroy` hook, then the modules' |
| Patch.Patcher.DestroyChild | src/core/vdom/patch.js:427-431 | one child's subtree is destroyed |
| Patch.Patcher.RemoveAndInvokeRemoveHook | src/core/vdom/patch.js:450-478 | only the vnode's own element may leave the document, and it does at once unless the vnode has a `remove` hook |
| Patch.Patcher.RemoveVnodes | src/core/vdom/patch.js:435-447 | `removeVnodes` detaches only the elements of the range, and every vnode of the range without a `remove` hook leaves the document |
| Patch.Patcher.RemoveOne | src/core/vdom/patch.js:437-445 | one slot: an undefined slot changes nothing, a tagged vnode goes through its `remove` hooks, a text vnode is removed at once |
| Patch.Patcher.PatchVnode | src/core/vdom/patch.js:607-696 | the same vnode is left alone; otherwise the new vnode takes over the old element and keeps its rendered shape, a text change is written to that element, and a runtime error is possible only with duplicate keys or an unresolved async placeholder |
| Patch.Patcher.PatchElement | src/core/vdom/patch.js:655-695 | the `prepatch` hook, the modules' `update` hooks and the `update` hook are logged, in that order, before the children step starts; `postpatch` is the last call unless the children step threw; new text replaces the element's content |
| Patch.Patcher.PatchHookEvents | src/core/vdom/patch.js:660-671 | no data, no hooks; a `prepatch` hook comes first and an `update` hook last |
| Patch.Patcher.PatchHooks | src/core/vdom/patch.js:660-671 | the hooks before the children are appended to the log as `PatchHookEvents` lists them |
| Patch.Patcher.UpdateHooks | src/core/vdom/patch.js:667-671 | the modules' `update` hooks, then the vnode's own `update` hook |
| Patch.Patcher.PatchChildren | src/core/vdom/patch.js:674-692 | both child lists: `updateChildren`; only new ones: the element's text is cleared and the new children's fresh elements are appended under it in order; only old ones: every old child without a `remove` hook leaves the document; no children: clear the text; with text: write it when it changed |
| Patch.Patcher.AddAll | src/core/vdom/patch.js:679-683 | the add-only branch: the old text is cleared and the new children's fresh elements become the element's children (after the old ones when there was no text), in order |
| Patch.Patcher.RemoveAll | src/core/vdom/patch.js:684-685 | the remove-only branch: every old child without a `remove` hook leaves the document |
| Patch.Patcher.UpdateChildren | src/core/vdom/patch.js:481-575 | with unique keys and no runtime error, every new child either takes over the element of exactly one old child it may be patched from or gets a fresh element, and every old child is either reused by exactly one new child or removed; every removed old child without a `remove` hook has left the document; when the new children are a keyed permutation of the old ones (unique key names on both sides, none inherited from `Object.prototype`, each child with a `sameVnode` partner on the other side) nothing is created and nothing removed |
| Patch.Patcher.LoopStep | src/core/vdom/patch.js:505-563 | one turn of the loop keeps the invariant and shrinks the two windows; it also keeps `Tracked`: no keyed new child is created while an old child it could be patched from is unreused |
| Patch.Patcher.EndStep | src/core/vdom/patch.js:511-533 | one end-to-end match: patch, move when needed, advance both ends |
| Patch.Patcher.EndAdvance | src/core/vdom/patch.js:515-533 | advancing after an end-to-end match keeps the invariant and shrinks the windows |
| Patch.Patcher.MoveEnd | src/core/vdom/patch.js:525-531 | moving a matched element (when moves are allowed) creates no element |
| Patch.Patcher.MoveElm | src/core/vdom/patch.js:555 | `insertBefore` of a reused element creates no element |
| Patch.Patcher.KeyStep | src/core/vdom/patch.js:534-563 | the key-lookup branch keeps the invariant and advances the new start |
| Patch.Patcher.WithTable | src/core/vdom/patch.js:537 | the key table is built once, for the current old window, and then kept; it holds the name of every key in the window but `__proto__` |
| Patch.Patcher.LookUp | src/core/vdom/patch.js:541-543 | a keyed vnode finds an old child with the same key; an unkeyed one finds an old child in the window it may be patched from; a key the table lacks but `Object.prototype` has throws (the `sameVnode` on the slot it selects reads a property of `undefined`), which only a prototype-named key can cause; a keyed vnode that finds nothing has a key name the table lacks |
| Patch.Patcher.PlaceStep | src/core/vdom/patch.js:546-561 | no match or a match that may not be patched from: create; otherwise patch, clear the old slot and move the element |
| Patch.Patcher.CreateStep | src/core/vdom/patch.js:547 | a fresh element is created for the new start vnode and placed in the parent's children right before the old start element; no other child list changes |
| Patch.Patcher.ReuseStep | src/core/vdom/patch.js:552-555 | the matched old child is patched, its slot cleared and its element moved |
| Patch.Patcher.EmptyNodeAt | src/core/vdom/patch.js:109-111 | a vnode for a real element: that element, a tag, empty data and no `remove` hook |
| Patch.Patcher.InsertEvents | src/core/vdom/patch.js:712-714 | one `insert` hook call per queued vnode, in order |
| Patch.Patcher.InvokeInsertHook | src/core/vdom/patch.js:700-716 | every queued `insert` hook runs, in queue order |
| Patch.Patcher.Patch | src/core/vdom/patch.js:830-950 | no new vnode: the old one is destroyed and nothing is returned; no old vnode: a fresh root without a parent; a vnode it may be patched from: patched in place, keeping its element; otherwise a new element goes where the old one was and the old one leaves the document unless a `remove` hook delays that |
| Patch.Patcher.Replace | src/core/vdom/patch.js:855-942 | the replacing branch: the new element takes the old one's parent, and the old one is removed or only destroyed |
| Patch.Patcher.RemoveOldRoot | src/core/vdom/patch.js:937-942 | with a parent the old root is removed and only its element loses its parent link (and it leaves the document unless a `remove` hook delays that); without one only its `destroy` hooks run and no link changes |
| Patch.Patcher.AddRest | src/core/vdom/patch.js:567-570 | when the old window ran out, the rest of the new window gets fresh elements, placed in order before the element that follows the window (or last), which completes the reconciliation |
| Patch.Patcher.RemoveRest | src/core/vdom/patch.js:571-574 | when the new window ran out, what is left of the old window is removed, which completes the reconciliation |
| PatchKeys.SameInputType | src/core/vdom/patch.js:58-65 | any non-`input` pair passes; two inputs pass exactly when their `type` attributes are equal or both are text-like input types |
| PatchKeys.SameVnodeFacts | src/core/vdom/patch.js:37-56 | `sameVnode` needs equal keys, holds of every vnode with itself, ignores every field the patcher writes, and is symmetric outside the async-placeholder case |
| PatchKeys.CreateKeyToOldIdx | src/core/vdom/patch.js:69-78 | the table maps each key name of the range to the last index in the range with that key, and holds every key name of the range except `__proto__`, whose assignment a plain object ignores |
| PatchKeys.FindIdxInOld | src/core/vdom/patch.js:597-602 | the first defined slot in `[start, end)` that may be patched into the node, or none when there is no such slot |
| PatchKeys.KeyNames | src/core/vdom/patch.js:578-594 | the set of property names of the children's defined keys |
| PatchKeys.CheckDuplicateKeys | src/core/vdom/patch.js:578-594 | the loop warns exactly about the keys of the reference definition: each child whose key name was already seen or is inherited from `Object.prototype` |
| PatchKeys.NoWarningsIffUnique | src/core/vdom/patch.js:578-594 | no warning is given if and only if the key names are unique and none is an `Object.prototype` property name |
| PatchKeys.PrototypeKeyWarns | src/core/vdom/patch.js:584-588 | a key named `constructor`, `toString` or another `Object.prototype` property draws the warning even on its only occurrence |
| PatchKeys.UniqueSplit | src/core/vdom/patch.js:580-592 | a list has unique key names if and only if its prefix has and its last child's key name is new |
| Reconcile.SameRenderUpdate | src/core/vdom/patch.js:514 | writing back a patched child that renders like the old one keeps the list's rendering |
| Reconcile.Span | src/core/vdom/patch.js:570 | the indices `addVnodes` walks |
| Reconcile.Start | src/core/vdom/patch.js:482-489 | before the first turn the windows cover both lists and nothing is matched, created or reused |
| Reconcile.SkipStart | src/core/vdom/patch.js:505-507 | skipping a cleared old start slot keeps the invariant |
| Reconcile.SkipEnd | src/core/vdom/patch.js:508-510 | skipping a cleared old end slot keeps the invariant |
| Reconcile.Link | src/core/vdom/patch.js:511-555 | recording a new child as taking over an old child's element keeps the two maps inverse |
| Reconcile.SettledStep | src/core/vdom/patch.js:511-562 | advancing one end of the new window settles exactly that child, as matched or as created |
| Reconcile.NewSideStep | src/core/vdom/patch.js:511-562 | advancing one end of the new window keeps the new side of the invariant |
| Reconcile.EndMatch | src/core/vdom/patch.js:511-533 | an end-to-end match keeps the invariant, both windows shrinking at the matched ends |
| Reconcile.OldShrink | src/core/vdom/patch.js:515-532 | the old side of the invariant after an end of the old window is reused |
| Reconcile.KeyMatch | src/core/vdom/patch.js:550-555 | a match found through the key table or the search keeps the invariant; the old slot is cleared |
| Reconcile.OldClear | src/core/vdom/patch.js:554 | clearing a reused old slot keeps the old side of the invariant |
| Reconcile.Create | src/core/vdom/patch.js:546-547 | creating the new start child keeps the invariant |
| Reconcile.ReusedMeansDuplicate | src/core/vdom/patch.js:541-555 | finding an old child that was already reused implies duplicate keys among the new children |
| Reconcile.SameRenderFill | src/core/vdom/patch.js:570 | filling the rest of the new window with created elements keeps the rendering |
| Reconcile.FinishAdd | src/core/vdom/patch.js:567-570 | when the old window ran out, creating the rest of the new window completes the reconciliation |
| Reconcile.FinishRemove | src/core/vdom/patch.js:571-574 | when the new window ran out, removing the rest of the old window completes the reconciliation |
| Reconcile.PermutationReusesAll | src/core/vdom/patch.js:534-574 | a keyed permutation reconciled by a matching that never creates a keyed child while a reusable old child is left creates no element and removes none |
| Reconcile.CreatedMatched | src/core/vdom/patch.js:541-547 | under a keyed permutation every child counted as created is in fact matched, since the old child of its key is owned by a new child of the same key |
| Reconcile.OldAllOwned | src/core/vdom/patch.js:571-574 | when every new child is matched, under a keyed permutation every old child is reused, so none is left to remove |
| Reconcile.MaximalExhausted | src/core/vdom/patch.js:567-570 | once the old window is empty every old child is reused, so the children `addVnodes` creates had nothing to reuse |
| Patch.TrackedReuse | src/core/vdom/patch.js:505-555 | a step that only reuses old children (or skips cleared slots) keeps the table's coverage of the shrinking window and the maximality of `created` |
| Patch.TrackedCreate | src/core/vdom/patch.js:546-560 | creating the new start child keeps the maximality of `created` when no unreused old child could have been patched into it |
| Patch.MissOwned | src/core/vdom/patch.js:541-547 | a key name the table lacks belongs to no old child in the window, so every old child of that key has already been reused |
| Patch.NoneSame | src/core/vdom/patch.js:556-560 | with unique old key names, when the old child of the key may not be patched into the new one ("same key but different element"), no old child may |
| NodeOps.Without | src/core/vdom/patch.js:128 | removing a child leaves the other children and only them |
| NodeOps.Place | src/core/vdom/patch.js:333-336 | inserting places the element among the children, which are otherwise kept |
| NodeOps.WithoutNoDup | src/core/vdom/patch.js:128 | removing a child keeps a child list free of repetitions |
| NodeOps.PlaceNoDup | src/core/vdom/patch.js:333-336 | inserting an element keeps a child list free of repetitions |
| NodeOps.PlaceAllRun | src/core/vdom/patch.js:411-415 | placing a run of elements one after the other before `ref` puts the run, in order, right before `ref` when `ref` is a child, and after the last child otherwise |
| NodeOps.PlaceAllBefore | src/core/vdom/patch.js:411-415 | a run placed before `ref`, which heads the rest of the list, ends up in order between the two parts |
| NodeOps.PlaceAllAppend | src/core/vdom/patch.js:411-415 | without `ref` among the children, a placed run is appended in order |
| NodeOps.PlaceBefore | src/core/vdom/patch.js:333 | `insertBefore` puts the element right in front of `ref` |
| NodeOps.IndexOfAt | src/core/vdom/patch.js:333 | the position of `ref` is that of its first occurrence |
| NodeOps.DetachFacts | src/core/vdom/patch.js:333 | moving an element first takes it out of its old parent, the other children staying where they were |
| NodeOps.InsertLinked | src/core/vdom/patch.js:333-336 | inserting an element under a parent keeps the children lists and parent links in agreement |
| NodeOps.InsertChildLinks | src/core/vdom/patch.js:333-336 | after an insertion every listed child has a parent link to its list's owner |
| NodeOps.InsertParentLinks | src/core/vdom/patch.js:333-336 | after an insertion every parent link is matched by a listing |
| NodeOps.ClearLinked | src/core/vdom/patch.js:682-691 | clearing an element's content keeps the store consistent |
| NodeOps.RemoveLinked | src/core/vdom/patch.js:128 | removing a child keeps the store consistent |
| NodeOps.LinksKeptTrans | src/core/vdom/patch.js:151-245 | "the links of old elements are kept" is transitive |
| NodeOps.LinksKeptNew | src/core/vdom/patch.js:329-339 | linking a new element keeps the links of older ones |
| NodeOps.ChildListed | src/core/vdom/patch.js:125-129 | an element with a parent link is in its parent's children |
| NodeOps.ElementStore.constructor | src/core/vdom/patch.js:87 | the backend starts empty and consistent |
| NodeOps.ElementStore.ParentNode | src/core/vdom/patch.js:125 | `parentNode(el)` is the element's parent link, or none |
| NodeOps.ElementStore.NextSibling | src/core/vdom/patch.js:525 | `nextSibling(el)` is the element right after `el` in its parent's children, or none |
| NodeOps.ElementStore.CreateElement | src/core/vdom/patch.js:197-199 | a fresh element with the tag and no children or parent; nothing else changes |
| NodeOps.ElementStore.CreateTextNode | src/core/vdom/patch.js:239-243 | a fresh node with the text and no children or parent; nothing else changes |
| NodeOps.ElementStore.InsertBefore | src/core/vdom/patch.js:332-333 | `insertBefore(parent, el, ref)` moves the element out of its old parent and in front of `ref` (at the end without one); a call the DOM would reject changes nothing |
| NodeOps.ElementStore.AppendChild | src/core/vdom/patch.js:336 | `appendChild(parent, el)` moves the element to the end of the parent's children |
| NodeOps.ElementStore.RemoveChild | src/core/vdom/patch.js:128 | `removeChild(parent, el)` takes a child out of its parent; anything else changes nothing |
| NodeOps.ElementStore.SetTextContent | src/core/vdom/patch.js:682-691 | `setTextContent(el, text)` drops the element's children and sets its text |
| NodeOps.SiblingFacts | src/core/vdom/patch.js:888-902 | the old element's parent is a known element, and its next sibling has the same parent |

## Left out

- **Exceptions.** Getters, watcher callbacks, lifecycle hooks and directive hooks never throw in the model, so the `try`/`catch` around those calls is left out. The one exception that is modelled is a throwing `nextTick` callback: it is logged as `TickError` (the call to `handleError`), and the later callbacks of the batch still run. What `handleError` itself does is not part of this model.
- **Re-entrant user code.** User code does not re-enter the runtime, apart from the effects a `Reading` scripts. A watcher callback's writes are the watchers the script queues. The `dep.notify()` closure that `update` hands to a computed watcher is logged as `ComputedChanged`, and what its subscribers then do is not followed.
- **Nested synchronous flushes.** With `config.async` off, a flush nested inside another synchronous flush is only proved to keep the scheduler's invariants, not its exact outcome.
- **`callHook` target handling.** The `pushTarget()`/`popTarget()` pair around a lifecycle hook is left out, because hooks are logged, not run.
- Vm.Destroy: the last two steps of `$destroy` are left out, because the model has no element or placeholder-vnode objects for them to write: `$el.__vue__ = null` and `$vnode.parent = null`. The watcher clause covers only watchers subscribed exactly once to each of their deps, because `remove` takes one occurrence out of a subscriber list.
- Vm.DestroyOnce: the same two steps, `$el.__vue__ = null` and `$vnode.parent = null`, are left out.
- **`mountComponent` and `updateChildComponent`.** Only the forced-update rule of `updateChildComponent` is modelled. The rest of `mountComponent` and `updateChildComponent` is left out.
- **Deep watching and `traverse`.** They are not part of this model. `deep` only affects the firing rule of `getAndInvoke`.
- **Scheduler clock and devtools.** `getNow`, the performance timestamps and `devtools.emit` are clocks and foreign calls.
- **`nextTick` timer choice.** Which host timer is used (`setImmediate`, `MessageChannel`, `Promise`, `setTimeout`) is abstracted. A batch requests one `MacroTask` or `MicroTask` timer, and the host honours a request by calling `FlushCallbacks`.
- **Array interception.** `protoAugment`/`copyAugment` and the intercepted array methods are not part of this model. Arrays change only through `set`, `del` and element writes. In the source, `set` and `del` on an array go through the intercepted `splice`, which notifies the array's dep; in the model they notify nobody.
- Realm.Set: an array write notifies nobody, where the source's intercepted `splice` notifies the array's dep (see Array interception). A key inherited from a prototype other than `Object.prototype` is treated as missing (see SetDecision).
- Realm.Del: an array splice notifies nobody, for the same reason. Deleting a non-configurable own property leaves the object as it is and then notifies. In the source this is strict-mode module code, so `delete` throws a TypeError and nothing is notified.
- Deleted: a non-configurable property is kept. In the strict-mode source, `delete` of such a property throws a TypeError instead, and that throw is not modelled.
- Assigned: sloppy-mode assignment is modelled. An assignment to a read-only property or an accessor without a setter, or a new property on a non-extensible object, changes nothing. In the strict-mode source it throws a TypeError.
- SetDecision: the test `key in target && !(key in Object.prototype)` looks only at the object's own properties. A key inherited from a prototype other than `Object.prototype` counts as absent. The array methods an observed array inherits (`push` and the rest) are such keys: `set(array, 'push', v)` defines a reactive property and notifies in the model, where the source assigns directly.
- Realm.ReactiveSet: an accessor property keeps the getter value it was defined with. After a write through a user setter, the source's getter may return the new value, so a second identical write would be skipped there; the model compares with the fixed getter value and writes and notifies again.
- Realm.ReactiveGet: requires the value's arrays to nest to a finite depth (`NestedBelow`). A self-containing array (`a.push(a)`) read while a watcher is collecting dependencies makes the source's `dependArray` recurse without end, which overflows the stack; the model excludes that input rather than modelling the overflow.
- Realm.ReadChild: the same `NestedBelow` requirement, for the same self-containing-array input.
- Realm.DependArray: the same `NestedBelow` requirement; on a self-containing array the source's recursion does not terminate.
- Realm.DependElem: the same `NestedBelow` requirement, for one element of such an array.
- CreateElement.CreateElementCore: component lookup by tag is an exact-name lookup in the `components` assets. The camelized and capitalized fallbacks of `resolveAsset` and the prototype-chain lookup are left out.
- **`customSetter` and development warnings.** The `customSetter` argument of `defineReactive` is left out. So is every development warning except three: the scheduler's infinite-update warning, the patcher's duplicate-key warning and the non-object warning of `bindObjectProps`.
- **The reactive setter's NaN test.** Values are abstract. `NaN` is a value of its own and the only value that is not equal to itself, so no floating point is modelled.
- **Hydration.** `hydrate` and `assertNodeMatch` are left out, together with the SSR attribute check and the `hydrating` flag.
- **Component vnodes in the patcher.** `createComponent`, `initComponent`, `reactivateComponent`, `setScope`, the `_leaveCb` transition path and the loop that updates `vnode.parent` placeholders on root replacement are left out.
- **`nodeOps`.** `src/platforms/web/runtime/node-ops.js` is not part of this model. The `ElementStore` of `node_ops.dfy` stands for it: elements with an ordered child list, at most one parent, a tag or a text content.
- **Comment nodes.** `createComment` makes a text-content element like `createTextNode`, since the store does not tell comments from text.
- **vnode helpers.** `src/core/vdom/vnode.js` (`cloneVNode`, `createEmptyVNode`) and `src/shared/util.js` are not part of this model. A vnode is a value, so cloning is the identity, and an empty vnode is `VNodes.EmptyVNode`.
- **`createElement` dependencies.** `normalizeChildren`, `simpleNormalizeChildren`, `createComponent`, `config.getTagNamespace`, `config.isReservedTag` and `config.parsePlatformTagName` are parameters of the model (`CreateElement.Env`).
- **`createElement` data and `is`.** Data that `_createElement` changes is returned as a new value, not changed in place. `null` and `undefined` data are both `None`. `data.is` is a string.
- **`applyNS` aliasing.** A child vnode shared by two parents is two values here, so a namespace written through one parent is not seen through the other.
- **Scoped slots.** `data.scopedSlots` is represented only as far as `_createElement` writes `scopedSlots.default`. `render-slot.js` is not part of this model.
- **`bindObjectProps` helpers.** `camelize`, `hyphenate` and `config.mustUseProp` are parameters (`BindObjectProps.Env`). `toObject` is applied to arrays whose elements are objects or falsy. `for...in` visits keys in the order the object lists them, which does not model JavaScript's rule that integer-like keys come first.
- **Directive definitions.** `resolveAsset` is an exact-name lookup in the component's directive assets, without the camelized and capitalized fallbacks.
- **`mergeVNodeHook`.** The `insert` and `postpatch` hooks that `mergeVNodeHook` would add are returned as lists of calls, to be run by the patcher at insert or postpatch time.
- **Directive deep bindings.** `registerDeepBindings` is left out.
- **Ref context.** In `registerRef`, the caller resolves `vnode.context` and passes its `$refs` table. A `v-for` ref array is a value: the source splices and pushes the same array in place, so a saved `this.$refs.items` sees later changes, but in the model it does not.
- **`Vue.use` install code.** A plugin's install function is recorded with its arguments, not run.
- Patch.Patcher.UpdateChildren: states which old child each new child reuses, which children get fresh elements, and that removed children without a `remove` hook leave the document. It does not state the final order of the parent's children, nor that a reused element stays under the parent. Where a created element is placed is stated step by step, by Patch.Patcher.CreateStep (before the old start element) and Patch.Patcher.AddRest (in order before `refElm`, or last), and is not gathered into the contract of UpdateChildren. The no-creation, no-removal property is stated only for keyed permutations whose key names are unique on both sides and not inherited from `Object.prototype`; it is not proved for unkeyed children or for old children that repeat a key.
- Patch.Patcher.EndStep: does not state where the matched element ends up after the move `insertBefore` makes.
- Patch.Patcher.ReuseStep: does not state where the reused element ends up after the move.
- Patch.Patcher.PlaceStep: does not state where a reused element ends up after the move. Placement of a created element is stated by Patch.Patcher.CreateStep.
- Patch.Patcher.PatchElement: states the hook calls logged before the children step and that `postpatch` is the last call. It does not state that the children step only appends to the log, so those two parts are not tied together in one equation.
- Patch.Patcher.MoveEnd: states only that moving a matched element keeps the store valid and creates no element, not where the element ends up in its parent's child list. The model proves which old element each new child reuses and which elements are created or removed (`Reconcile.Reconciled`), but not the final order of the children in the store.
- Patch.Patcher.MoveElm: states only that `insertBefore` of a reused element keeps the store valid and creates no element, for the same reason.
- Patch.Warnings: states only that there is one duplicate-key warning per repeated key, and not which key each warning names.
