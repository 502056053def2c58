/** `createEnginePool` of ai/mcp/src/pool.ts: the closure's variables and its callbacks,
    each proved to be the step of the state machine it is named after. */
module EnginePools {
  import opened PoolModel
  import opened Sequences

  /** What `acquire` answers at once. A queued request is answered by a later callback. */
  datatype Reply = Got(engine: Engine) | Refused | Busy | Queued(waiter: nat)

  class EnginePool {
    const size: nat
    const maxWaiting: nat
    var ready: seq<Engine>
    var waiters: seq<nat>
    var inflight: set<Work>
    var closing: bool
    var building: int
    var leased: int
    // The runtime's side: pending promises, timers and listeners, and the history.
    var env: Env

    ghost function View(): State
      reads this
    {
      State(size, maxWaiting, ready, waiters, building, leased, closing, inflight, env)
    }

    constructor (size: nat, maxWaiting: nat)
      ensures this.size == size && this.maxWaiting == maxWaiting
      ensures View() == Init(size, maxWaiting)
    {
      this.size, this.maxWaiting := size, maxWaiting;
      ready, waiters, inflight, closing, building, leased := [], [], {}, false, 0, 0;
      env := Env({}, {}, {}, {}, map[], {}, {}, {}, 0, 0, 0, map[], {}, {}, [], false);
      new;
      StartBuilds();
    }

    /** `refill`. */
    method StartBuilds()
      modifies this
      ensures View() == Refill(old(View()))
    {
      while !closing && |ready| + building + leased < size
        invariant Refill(View()) == Refill(old(View()))
        decreases size - (|ready| + building + leased)
      {
        building := building + 1;
        inflight := inflight + {Build(env.nextBuild)};
        env := env.(builds := env.builds + {env.nextBuild}, nextBuild := env.nextBuild + 1);
      }
    }

    /** The callback of `create` when it resolves. */
    method BuildResolved(id: nat, engine: Engine)
      requires Enabled(View(), Built(id, engine))
      modifies this
      ensures View() == Step(old(View()), Built(id, engine))
      ensures building == old(building) - 1 && closing == old(closing)
      ensures old(closing) ==> ready == old(ready) && waiters == old(waiters) && env.granted == old(env.granted)
      ensures !old(closing) && old(waiters) == [] ==>
        ready == old(ready) + [engine] && waiters == [] && leased == old(leased) && env.granted == old(env.granted)
      ensures !old(closing) && old(waiters) != [] ==>
        && ready == old(ready) && waiters == old(waiters)[1..] && leased == old(leased) + 1
        && env.granted == old(env.granted) + [engine]
    {
      building := building - 1;
      env := env.(builds := env.builds - {id}, made := env.made + {engine});
      if closing {
        env := env.(strays := env.strays[id := engine]);
        return;
      }
      if waiters != [] {
        var waiter := waiters[0];
        waiters := waiters[1..];
        env := env.(timers := env.timers - {waiter});
        leased := leased + 1;
        env := env.(listeners := env.listeners - {waiter},
                    outcome := Settle(env.outcome, waiter, Granted(engine)),
                    lent := env.lent + {engine},
                    granted := env.granted + [engine]);
      } else {
        ready := ready + [engine];
      }
    }

    /** The callback of `create` when it rejects. */
    method BuildRejected(id: nat)
      requires Enabled(View(), BuildFailed(id))
      modifies this
      ensures View() == Step(old(View()), BuildFailed(id))
      ensures building == old(building) - 1
      ensures env.retries == old(env.retries) + if old(closing) then 0 else 1
    {
      building := building - 1;
      env := env.(builds := env.builds - {id});
      if !closing {
        env := env.(retries := env.retries + 1);
      }
    }

    /** The retry timer. */
    method Retry()
      requires Enabled(View(), RetryFired)
      modifies this
      ensures View() == Step(old(View()), RetryFired)
      ensures env.retries == old(env.retries) - 1
    {
      env := env.(retries := env.retries - 1);
      RefillKeepsQueue(View());
      StartBuilds();
    }

    /** `acquire`. A refused request changes nothing; one that is served takes the engine
        that has been ready longest; one that queues is the youngest of the queue. */
    method AcquireEngine(signal: Signal) returns (reply: Reply)
      modifies this
      ensures View() == Step(old(View()), Request(signal))
      ensures reply.Refused? <==> old(closing) || signal == AlreadyAborted
      ensures reply.Got? <==> !reply.Refused? && old(ready) != []
      ensures reply.Busy? <==> !reply.Refused? && old(ready) == [] && |old(waiters)| >= maxWaiting
      ensures reply.Refused? || reply.Busy? ==> View() == old(View())
      ensures reply.Got? ==> old(ready) == [reply.engine] + ready && env.granted == old(env.granted) + [reply.engine]
      ensures reply.Queued? ==> waiters == old(waiters) + [reply.waiter]
      ensures reply.Queued? ==> env.timers == old(env.timers) + {reply.waiter}
      ensures reply.Queued? ==> env.listeners == old(env.listeners) + if signal == Live then {reply.waiter} else {}
    {
      if closing || signal == AlreadyAborted {
        return Refused;
      }
      if ready != [] {
        var engine := ready[0];
        ready := ready[1..];
        leased := leased + 1;
        env := env.(lent := env.lent + {engine}, granted := env.granted + [engine]);
        return Got(engine);
      }
      if |waiters| >= maxWaiting {
        return Busy;
      }
      var waiter := env.nextWaiter;
      env := env.(nextWaiter := waiter + 1, timers := env.timers + {waiter});
      if signal == Live {
        env := env.(listeners := env.listeners + {waiter});
      }
      waiters := waiters + [waiter];
      ghost var queued := View();
      StartBuilds();
      assert View() == Refill(queued);
      RefillKeepsQueue(queued);
      return Queued(waiter);
    }

    /** `leave`, then the rejection, of a waiter whose time is up or whose client has gone. */
    method GiveUp(waiter: nat, reason: Outcome)
      modifies this
      ensures View() == Leave(old(View()), waiter, reason)
    {
      waiters := Remove(waiters, waiter);
      env := env.(timers := env.timers - {waiter}, listeners := env.listeners - {waiter});
      env := env.(outcome := Settle(env.outcome, waiter, reason));
    }

    method Timeout(waiter: nat)
      requires Enabled(View(), TimeoutFired(waiter))
      modifies this
      ensures View() == Step(old(View()), TimeoutFired(waiter))
    {
      GiveUp(waiter, TimedOut);
    }

    method Abort(waiter: nat)
      requires Enabled(View(), AbortFired(waiter))
      modifies this
      ensures View() == Step(old(View()), AbortFired(waiter))
    {
      GiveUp(waiter, Aborted);
    }

    /** `release` up to its first `await`: the engine starts to close. */
    method Release(engine: Engine)
      requires Enabled(View(), TaskEnded(engine))
      modifies this
      ensures View() == Step(old(View()), TaskEnded(engine))
      ensures leased == old(leased) && inflight == old(inflight) + {Disposal(engine)}
    {
      env := env.(lent := env.lent - {engine}, releasing := env.releasing + {engine});
      inflight := inflight + {Disposal(engine)};
    }

    /** `release` after it: only now is the slot free. */
    method FreeSlot(engine: Engine)
      requires Enabled(View(), SlotFreed(engine))
      modifies this
      ensures View() == Step(old(View()), SlotFreed(engine))
      ensures leased == old(leased) - 1
    {
      env := env.(freed := env.freed - {engine});
      leased := leased - 1;
      RefillKeepsQueue(View());
      StartBuilds();
    }

    /** The `finally` of `track`. */
    method Forget(work: Work)
      requires Enabled(View(), Forgotten(work))
      modifies this
      ensures View() == Step(old(View()), Forgotten(work))
    {
      inflight := inflight - {work};
    }

    /** `close` up to its first `await`. */
    method BeginClose()
      modifies this
      ensures View() == Step(old(View()), CloseCalled)
      ensures closing && (old(closing) ==> View() == old(View()))
      ensures !old(closing) ==>
        && waiters == [] && ready == [] && env.draining == old(env.draining) + Elements(old(ready))
        && env.timers == old(env.timers) - Elements(old(waiters))
    {
      if closing {
        return;
      }
      closing := true;
      var queue := waiters;
      waiters := [];
      ghost var before := env;
      var i := 0;
      while i < |queue|
        invariant 0 <= i <= |queue|
        invariant env == before.(timers := before.timers - Elements(queue[..i]), outcome := env.outcome)
        invariant SettleAll(env.outcome, queue[i..], PoolClosed) == SettleAll(before.outcome, queue, PoolClosed)
        invariant ready == old(ready) && building == old(building) && leased == old(leased)
        invariant inflight == old(inflight) && closing && waiters == []
      {
        assert Elements(queue[..i + 1]) == Elements(queue[..i]) + {queue[i]};
        assert queue[i..][1..] == queue[i + 1..];
        env := env.(timers := env.timers - {queue[i]},
                    outcome := Settle(env.outcome, queue[i], PoolClosed));
        i := i + 1;
      }
      assert queue[..i] == queue;
      env := env.(draining := env.draining + Elements(ready));
      ready := [];
    }
  }

  lemma {:induction false} RefillKeepsQueue(s: State)
    ensures Refill(s).ready == s.ready && Refill(s).waiters == s.waiters
    ensures Refill(s).env.timers == s.env.timers && Refill(s).env.listeners == s.env.listeners
    ensures Refill(s).leased == s.leased && Refill(s).env.retries == s.env.retries
    decreases s.size - Accounted(s)
  {
    if !s.closing && Accounted(s) < s.size {
      RefillKeepsQueue(StartBuild(s));
    }
  }
}
