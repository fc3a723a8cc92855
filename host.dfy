/* The code the reactivity model cannot see: user getters, watcher callbacks,
   lifecycle hooks and `nextTick` callbacks.  A getter call is answered by the
   next `Reading` of a script; every call the runtime makes into user code is
   appended to an effect log. */

/** What one call of a watcher's getter does: the value it returns, the deps
    whose `depend()` it calls (in order), and the watchers that the writes of
    the callback run afterwards send to `queueWatcher`. */
datatype Reading = Reading(value: Value, touched: seq<Dep>, queued: seq<Watcher>)

/** The answer of a getter once the script is exhausted. */
function NextReading(script: seq<Reading>): Reading {
  if script == [] then Reading(Undefined, [], []) else script[0]
}

function RestReadings(script: seq<Reading>): seq<Reading> {
  if script == [] then [] else script[1..]
}

/** Every dep a scripted getter touches is in `ds`. */
ghost predicate TouchesWithin(script: seq<Reading>, ds: set<Dep>) {
  forall r, d | r in script && d in r.touched :: d in ds
}

/** Every watcher a scripted callback queues is in `ws`. */
ghost predicate QueuesWithin(script: seq<Reading>, ws: set<Watcher>) {
  forall r, w | r in script && w in r.queued :: w in ws
}

/** The number of queue requests still in the script. */
function QueueBudget(script: seq<Reading>): nat {
  if script == [] then 0 else |script[0].queued| + QueueBudget(script[1..])
}

/** A getter call spends the queue requests of the reading it answers with. */
lemma QueueBudgetStep(script: seq<Reading>)
  ensures QueueBudget(script) == |NextReading(script).queued| + QueueBudget(RestReadings(script))
{
}

datatype LifecycleHook = Updated | Activated | Deactivated | BeforeDestroy | Destroyed

datatype Effect =
  | WatcherCallback(watcher: nat, newValue: Value, oldValue: Value)
  | ComputedChanged(watcher: nat)
  | BeforeRun(watcher: nat)
  | InfiniteUpdateLoop(watcher: nat)
  | Hook(vm: nat, hook: LifecycleHook)
  | PatchToNull(vm: nat)
  | ListenersOff(vm: nat)
  | TickCallback(callback: nat)
  | TickError(callback: nat)
  | PromiseResolved(promise: nat)
  | UserSetter(value: Value)

class Host {
  var readings: seq<Reading>
  var effects: seq<Effect>

  constructor (script: seq<Reading>)
    ensures readings == script && effects == []
  {
    readings, effects := script, [];
  }

  /** Calls the getter of the watcher being evaluated. */
  method CallGetter() returns (r: Reading)
    modifies this`readings
    ensures r == NextReading(old(readings)) && readings == RestReadings(old(readings))
  {
    r := NextReading(readings);
    readings := RestReadings(readings);
  }

  method Emit(e: Effect)
    modifies this`effects
    ensures effects == old(effects) + [e]
  {
    effects := effects + [e];
  }
}
