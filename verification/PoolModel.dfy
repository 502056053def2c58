/** The single-use engine pool of ai/mcp/src/pool.ts as a state machine.

    JavaScript runs each callback to completion, so one callback is one step. `State`
    holds the closure's own variables and, in `env`, what those callbacks have started
    and not finished, together with the history the promises are about. */
module PoolModel {
  import opened Sequences

  type Engine = nat

  /** How the promise of a queued request was settled. */
  datatype Outcome = Granted(engine: Engine) | TimedOut | Aborted | PoolClosed

  /** A member of `inflight`: the promise of a build, or of closing a used engine. */
  datatype Work = Build(id: nat) | Disposal(engine: Engine)

  /** The abort signal a request comes with. */
  datatype Signal = NoSignal | Live | AlreadyAborted

  datatype Env = Env(
    builds: set<nat>,             // builds whose `create` has not settled
    lent: set<Engine>,            // engines a task is using
    releasing: set<Engine>,       // engines their own `use` is closing
    freed: set<Engine>,           // closed, but `use` has not yet given the slot back
    strays: map<nat, Engine>,     // engines built after `close`, by build, being closed
    draining: set<Engine>,        // engines that were ready at `close`, being closed
    timers: set<nat>,             // waiters whose timeout is pending
    listeners: set<nat>,          // waiters with an abort listener still registered
    retries: nat,                 // pending retry timers
    nextBuild: nat,
    nextWaiter: nat,
    outcome: map<nat, Outcome>,   // how each settled waiter was settled
    made: set<Engine>,            // every engine ever built
    shut: set<Engine>,            // every engine ever closed
    granted: seq<Engine>,         // every engine ever handed out, in order
    resolved: bool)               // the promise of `close` is resolved

  datatype State = State(
    size: nat,
    maxWaiting: nat,
    ready: seq<Engine>,
    waiters: seq<nat>,            // numbered in order of arrival
    building: int,
    leased: int,
    closing: bool,
    inflight: set<Work>,
    env: Env)

  datatype Event =
    | Request(signal: Signal)
    | Built(id: nat, engine: Engine)
    | BuildFailed(id: nat)
    | RetryFired
    | TimeoutFired(waiter: nat)
    | AbortFired(waiter: nat)
    | TaskEnded(engine: Engine)
    | EngineClosed(engine: Engine)
    | SlotFreed(engine: Engine)
    | StrayClosed(id: nat)
    | DrainedClosed(engine: Engine)
    | Forgotten(work: Work)
    | CloseCalled
    | CloseResolved

  function Accounted(s: State): int {
    |s.ready| + s.building + s.leased
  }

  /** One round of the loop of `refill`. */
  function StartBuild(s: State): State {
    s.(building := s.building + 1,
       inflight := s.inflight + {Build(s.env.nextBuild)},
       env := s.env.(builds := s.env.builds + {s.env.nextBuild}, nextBuild := s.env.nextBuild + 1))
  }

  function Refill(s: State): State
    decreases s.size - Accounted(s)
  {
    if !s.closing && Accounted(s) < s.size then Refill(StartBuild(s)) else s
  }

  /** A settled promise stays as it is. */
  function Settle(outcome: map<nat, Outcome>, w: nat, o: Outcome): map<nat, Outcome> {
    if w in outcome then outcome else outcome[w := o]
  }

  function SettleAll(outcome: map<nat, Outcome>, ws: seq<nat>, o: Outcome): map<nat, Outcome>
    decreases |ws|
  {
    if ws == [] then outcome else SettleAll(Settle(outcome, ws[0], o), ws[1..], o)
  }

  function Remove(ws: seq<nat>, w: nat): seq<nat> {
    if ws == [] then []
    else if ws[0] == w then ws[1..]
    else [ws[0]] + Remove(ws[1..], w)
  }

  /** A build or a disposal that has not finished. */
  predicate Running(s: State, work: Work) {
    match work
    case Build(id) => id in s.env.builds || id in s.env.strays
    case Disposal(e) => e in s.env.releasing
  }

  /** When the program can take a step. `create` makes a new engine each time. */
  predicate Enabled(s: State, event: Event) {
    match event
    case Request(_) => true
    case Built(id, e) => id in s.env.builds && e !in s.env.made
    case BuildFailed(id) => id in s.env.builds
    case RetryFired => s.env.retries > 0
    case TimeoutFired(w) => w in s.env.timers
    case AbortFired(w) => w in s.env.listeners
    case TaskEnded(e) => e in s.env.lent
    case EngineClosed(e) => e in s.env.releasing
    case SlotFreed(e) => e in s.env.freed
    case StrayClosed(id) => id in s.env.strays
    case DrainedClosed(e) => e in s.env.draining
    case Forgotten(work) => work in s.inflight && !Running(s, work)
    case CloseCalled => true
    case CloseResolved => s.closing && !s.env.resolved && s.env.draining == {} && s.inflight == {}
  }

  function Lend(s: State, e: Engine): State {
    s.(leased := s.leased + 1,
       env := s.env.(lent := s.env.lent + {e}, granted := s.env.granted + [e]))
  }

  /** `acquire` up to the `refill` of a request that has to wait. */
  function Acquire(s: State, signal: Signal): State {
    if s.closing || signal == AlreadyAborted then s
    else if s.ready != [] then Lend(s.(ready := s.ready[1..]), s.ready[0])
    else if |s.waiters| >= s.maxWaiting then s
    else
      var w := s.env.nextWaiter;
      s.(waiters := s.waiters + [w],
         env := s.env.(nextWaiter := w + 1,
                       timers := s.env.timers + {w},
                       listeners := if signal == Live then s.env.listeners + {w} else s.env.listeners))
  }

  /** Whether `acquire` queues the request, and so calls `refill`. */
  predicate Queues(s: State, signal: Signal) {
    !s.closing && signal != AlreadyAborted && s.ready == [] && |s.waiters| < s.maxWaiting
  }

  /** The callback of a build that succeeded. */
  function OnBuilt(s: State, id: nat, e: Engine): State
    requires id in s.env.builds
  {
    var t := s.(building := s.building - 1,
                env := s.env.(builds := s.env.builds - {id}, made := s.env.made + {e}));
    if s.closing then t.(env := t.env.(strays := t.env.strays[id := e]))
    else if s.waiters != [] then
      var w := s.waiters[0];
      Lend(t.(waiters := s.waiters[1..],
              env := t.env.(timers := t.env.timers - {w},
                            listeners := t.env.listeners - {w},
                            outcome := Settle(t.env.outcome, w, Granted(e)))), e)
    else t.(ready := s.ready + [e])
  }

  /** A queued request gives up. */
  function Leave(s: State, w: nat, o: Outcome): State {
    s.(waiters := Remove(s.waiters, w),
       env := s.env.(timers := s.env.timers - {w},
                     listeners := s.env.listeners - {w},
                     outcome := Settle(s.env.outcome, w, o)))
  }

  function Close(s: State): State {
    if s.closing then s
    else
      s.(closing := true, waiters := [], ready := [],
         env := s.env.(timers := s.env.timers - Elements(s.waiters),
                       outcome := SettleAll(s.env.outcome, s.waiters, PoolClosed),
                       draining := s.env.draining + Elements(s.ready)))
  }

  /** One callback without the `refill` at its end. */
  function Act(s: State, event: Event): State
    requires Enabled(s, event)
  {
    match event
    case Request(signal) => Acquire(s, signal)
    case Built(id, e) => OnBuilt(s, id, e)
    case BuildFailed(id) =>
      s.(building := s.building - 1,
         env := s.env.(builds := s.env.builds - {id},
                       retries := if s.closing then s.env.retries else s.env.retries + 1))
    case RetryFired => s.(env := s.env.(retries := s.env.retries - 1))
    case TimeoutFired(w) => Leave(s, w, TimedOut)
    case AbortFired(w) => Leave(s, w, Aborted)
    case TaskEnded(e) =>
      s.(inflight := s.inflight + {Disposal(e)},
         env := s.env.(lent := s.env.lent - {e}, releasing := s.env.releasing + {e}))
    case EngineClosed(e) =>
      s.(env := s.env.(releasing := s.env.releasing - {e}, freed := s.env.freed + {e}, shut := s.env.shut + {e}))
    case SlotFreed(e) => s.(leased := s.leased - 1, env := s.env.(freed := s.env.freed - {e}))
    case StrayClosed(id) =>
      s.(env := s.env.(strays := s.env.strays - {id}, shut := s.env.shut + {s.env.strays[id]}))
    case DrainedClosed(e) =>
      s.(env := s.env.(draining := s.env.draining - {e}, shut := s.env.shut + {e}))
    case Forgotten(work) => s.(inflight := s.inflight - {work})
    case CloseCalled => Close(s)
    case CloseResolved => s.(env := s.env.(resolved := true))
  }

  predicate Refills(s: State, event: Event) {
    match event
    case Request(signal) => Queues(s, signal)
    case RetryFired => true
    case SlotFreed(_) => true
    case _ => false
  }

  /** One callback. */
  function Step(s: State, event: Event): State
    requires Enabled(s, event)
  {
    if Refills(s, event) then Refill(Act(s, event)) else Act(s, event)
  }

  /** `createEnginePool`, which refills at once. */
  function Init(size: nat, maxWaiting: nat): State {
    Refill(State(size, maxWaiting, [], [], 0, 0, false, {},
                 Env({}, {}, {}, {}, map[], {}, {}, {}, 0, 0, 0, map[], {}, {}, [], false)))
  }

  /** `run` is a sequence of steps from `s` to `t`. */
  ghost predicate Runs(s: State, run: seq<Event>, t: State)
    decreases |run|
  {
    if run == [] then s == t
    else Enabled(s, run[0]) && Runs(Step(s, run[0]), run[1..], t)
  }
}
