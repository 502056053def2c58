/** What the engine pool promises, for every run from `createEnginePool` on. */
module PoolTheorems {
  import opened PoolModel
  import opened Sequences
  import opened PoolSafety

  ghost predicate Reachable(size: nat, maxWaiting: nat, s: State) {
    exists run :: Runs(Init(size, maxWaiting), run, s)
  }

  lemma ReachableIsSafe(size: nat, maxWaiting: nat, s: State)
    requires Reachable(size, maxWaiting, s)
    ensures Safe(s) && s.size == size && s.maxWaiting == maxWaiting
  {
    hide Safe;
    var run :| Runs(Init(size, maxWaiting), run, s);
    InitIsSafe(size, maxWaiting);
    RunIsSafe(Init(size, maxWaiting), run, s);
    InitSizes(size, maxWaiting);
    RunSizes(Init(size, maxWaiting), run, s);
  }

  lemma InitSizes(size: nat, maxWaiting: nat)
    ensures Init(size, maxWaiting).size == size && Init(size, maxWaiting).maxWaiting == maxWaiting
  {
    RefillEffect(State(size, maxWaiting, [], [], 0, 0, false, {},
                       Env({}, {}, {}, {}, map[], {}, {}, {}, 0, 0, 0, map[], {}, {}, [], false)));
    hide Refill;
  }

  /** What a callback makes of the history and of the closing flag. */
  ghost predicate Extends(s: State, t: State) {
    && t.size == s.size && t.maxWaiting == s.maxWaiting
    && (forall w | w in s.env.outcome :: w in t.env.outcome && t.env.outcome[w] == s.env.outcome[w])
    && s.env.made <= t.env.made && s.env.shut <= t.env.shut
    && s.env.granted <= t.env.granted
    && (s.closing ==> t.closing && t.env.granted == s.env.granted && t.env.nextBuild == s.env.nextBuild
                      && t.env.retries <= s.env.retries)
    && (s.env.resolved ==> t.env.resolved)
  }

  lemma ActExtends(s: State, event: Event)
    requires Safe(s) && Enabled(s, event)
    ensures Extends(s, Act(s, event))
  {
    hide Counts, Places, Tracked, Queue;
    if event == CloseCalled {
      SettleAllEffect(s.env.outcome, s.waiters, PoolClosed);
      hide SettleAll;
    }
  }

  lemma StepExtends(s: State, event: Event)
    requires Safe(s) && Enabled(s, event)
    ensures Extends(s, Step(s, event))
  {
    ActExtends(s, event);
    if Refills(s, event) {
      ActCounts(s, event);
      ActTracked(s, event);
      ActClosed(s, event);
      RefillEffect(Act(s, event));
    }
    hide Safe, Act, Refill;
  }

  lemma {:induction false} RunExtends(s: State, run: seq<Event>, t: State)
    requires Safe(s) && Runs(s, run, t)
    ensures Extends(s, t)
    decreases |run|
  {
    hide Safe, Step;
    if run != [] {
      StepIsSafe(s, run[0]);
      StepExtends(s, run[0]);
      RunExtends(Step(s, run[0]), run[1..], t);
    }
  }

  lemma {:induction false} RunSizes(s: State, run: seq<Event>, t: State)
    requires Safe(s) && Runs(s, run, t)
    ensures t.size == s.size && t.maxWaiting == s.maxWaiting
  {
    RunExtends(s, run, t);
  }

  // ----- engines

  /** The engines that exist and are not closed. */
  function Alive(s: State): set<Engine> {
    s.env.made - s.env.shut
  }

  lemma UnionCount<T>(a: set<T>, b: set<T>)
    ensures |a + b| <= |a| + |b|
  {
    assert a + b == a + (b - a);
    assert |b - a| <= |b| by { assert b == (b - a) + (b * a); }
  }

  lemma {:induction false} ValuesCount(m: map<nat, Engine>)
    ensures |m.Values| <= |m|
    decreases |m|
  {
    if m != map[] {
      var id :| id in m;
      StrayGone(m, id);
      var rest := m - {id};
      ValuesCount(rest);
      assert m.Values == rest.Values + {m[id]} by {
        forall e | e in m.Values ensures e in rest.Values + {m[id]} {
          var i :| i in m && m[i] == e;
          assert i == id || (i in rest && rest[i] == e);
        }
      }
      UnionCount(rest.Values, {m[id]});
    } else {
      assert m.Values == {};
    }
  }

  lemma SubsetCount<T>(a: set<T>, b: set<T>)
    requires a <= b
    ensures |a| <= |b|
  {
    assert b == a + (b - a);
  }

  lemma AliveIs(s: State)
    requires Places(s)
    ensures Alive(s) <= Elements(s.ready) + s.env.lent + s.env.releasing + s.env.draining + s.env.strays.Values
  {
    forall e | e in Alive(s)
      ensures e in Elements(s.ready) + s.env.lent + s.env.releasing + s.env.draining + s.env.strays.Values
    {
      if e !in s.ready && e !in s.env.granted && e !in s.env.draining {
        var id :| id in s.env.strays && s.env.strays[id] == e;
        assert e in s.env.strays.Values;
      }
    }
  }

  lemma AliveCount(s: State)
    requires Places(s)
    ensures |Alive(s)| <= |s.ready| + |s.env.lent| + |s.env.releasing| + |s.env.draining| + |s.env.strays|
  {
    AliveIs(s);
    hide Places, Alive;
    var a := Elements(s.ready);
    var b := a + s.env.lent;
    var c := b + s.env.releasing;
    var d := c + s.env.draining;
    ElementsCount(s.ready);
    ValuesCount(s.env.strays);
    UnionCount(a, s.env.lent);
    UnionCount(b, s.env.releasing);
    UnionCount(c, s.env.draining);
    UnionCount(d, s.env.strays.Values);
    SubsetCount(Alive(s), d + s.env.strays.Values);
  }

  /** In every run, the engines being built and the engines that are not closed yet,
      late ones and draining ones included, never number more than `size`. */
  lemma EnginesStayWithinSize(size: nat, maxWaiting: nat, s: State)
    requires Reachable(size, maxWaiting, s)
    ensures |s.env.builds| + |Alive(s)| <= size
  {
    ReachableIsSafe(size, maxWaiting, s);
    AliveCount(s);
    hide Alive;
  }

  lemma ActLendsFresh(s: State, event: Event, e: Engine)
    requires Safe(s) && Enabled(s, event) && e !in s.env.granted && e in Act(s, event).env.granted
    ensures var t := Act(s, event); e !in s.env.shut && e !in t.env.shut && e in t.env.lent
  {
    hide Counts, Tracked, Queue, Clean, Closed, Supplied;
  }

  /** `refill` after a callback changes nothing but the builds. */
  lemma StepIsAct(s: State, event: Event)
    requires Safe(s) && Enabled(s, event)
    ensures var t, u := Step(s, event), Act(s, event);
      t == u.(building := t.building, inflight := t.inflight,
              env := u.env.(builds := t.env.builds, nextBuild := t.env.nextBuild))
    ensures s.closing ==> Step(s, event) == Act(s, event)
  {
    if Refills(s, event) {
      ActCounts(s, event);
      ActTracked(s, event);
      ActClosed(s, event);
      RefillEffect(Act(s, event));
      ActExtends(s, event);
    }
    hide Safe, Act, Refill;
  }

  /** An engine is handed out at most once, and never once it is closed. */
  lemma EnginesAreLentOnce(size: nat, maxWaiting: nat, s: State, event: Event)
    requires Reachable(size, maxWaiting, s) && Enabled(s, event)
    ensures var t := Step(s, event);
      && Distinct(t.env.granted)
      && s.env.granted <= t.env.granted
      && forall e | e in t.env.granted && e !in s.env.granted :: e !in s.env.shut && e !in t.env.shut && e in t.env.lent
  {
    hide Step, Act, Safe;
    ReachableIsSafe(size, maxWaiting, s);
    StepIsAct(s, event);
    StepExtends(s, event);
    var t := Step(s, event);
    forall e | e in t.env.granted && e !in s.env.granted
      ensures e !in s.env.shut && e !in t.env.shut && e in t.env.lent
    {
      ActLendsFresh(s, event, e);
    }
    StepIsSafe(s, event);
    GrantsDiffer(t);
  }

  lemma GrantsDiffer(s: State)
    requires Safe(s)
    ensures Distinct(s.env.granted)
  {
  }

  // ----- requests

  lemma ActSettles(s: State, event: Event, w: nat)
    requires Safe(s) && Enabled(s, event) && w !in s.env.outcome
    ensures var t := Act(s, event); w in t.env.outcome ==> w in s.waiters && SettledBy(s, event, w, t.env.outcome[w])
  {
    hide Counts, Tracked, Places, Supplied;
    if event == CloseCalled {
      SettleAllEffect(s.env.outcome, s.waiters, PoolClosed);
      hide SettleAll;
    }
  }

  /** The callback that settles `w` as `o`. */
  predicate SettledBy(s: State, event: Event, w: nat, o: Outcome) {
    match o
    case Granted(e) => event.Built? && event.engine == e && s.waiters != [] && w == s.waiters[0]
    case TimedOut => event == TimeoutFired(w)
    case Aborted => event == AbortFired(w)
    case PoolClosed => event == CloseCalled
  }

  lemma SettledDoNotWait(s: State, w: nat)
    requires Safe(s) && w in s.env.outcome
    ensures w !in s.waiters
  {
  }

  /** A request that waits is settled at most once: a settled promise stays as it is, and
      the step that settles it is the build it was served by, its timeout, its abort or `close`. */
  lemma RequestsAreSettledOnce(size: nat, maxWaiting: nat, s: State, event: Event, w: nat)
    requires Reachable(size, maxWaiting, s) && Enabled(s, event)
    ensures var t := Step(s, event);
      && (w in s.env.outcome ==> w in t.env.outcome && t.env.outcome[w] == s.env.outcome[w])
      && (w in t.env.outcome && w !in s.env.outcome ==>
            w in s.waiters && w !in t.waiters && SettledBy(s, event, w, t.env.outcome[w]))
  {
    hide Step, Act, Safe;
    ReachableIsSafe(size, maxWaiting, s);
    StepIsAct(s, event);
    StepExtends(s, event);
    StepIsSafe(s, event);
    var t := Step(s, event);
    if w in t.env.outcome && w !in s.env.outcome {
      ActSettles(s, event, w);
      SettledDoNotWait(t, w);
    }
  }

  /** A timeout never fires for nothing: it settles the request it was set for. */
  lemma TimeoutsAlwaysSettle(size: nat, maxWaiting: nat, s: State, w: nat)
    requires Reachable(size, maxWaiting, s) && Enabled(s, TimeoutFired(w))
    ensures w in s.waiters && w !in s.env.outcome
    ensures Step(s, TimeoutFired(w)).env.outcome == s.env.outcome[w := TimedOut]
    ensures w !in Step(s, TimeoutFired(w)).waiters
  {
    ReachableIsSafe(size, maxWaiting, s);
    RemoveKeeps(s.waiters, w);
    hide Counts, Tracked, Places, Remove;
  }

  /** Every request that waits has its timeout pending, and no other request has; one that is
      served, aborted or rejected at close has none. */
  lemma WaitingRequestsAreTimed(size: nat, maxWaiting: nat, s: State)
    requires Reachable(size, maxWaiting, s)
    ensures forall w: nat :: w in s.env.timers <==> w in s.waiters
    ensures forall w | w in s.waiters :: Enabled(s, TimeoutFired(w))
    ensures forall w | w in s.env.outcome :: w !in s.env.timers
  {
    ReachableIsSafe(size, maxWaiting, s);
    hide Counts, Tracked, Places;
  }

  // ----- requests whose client can go away

  /** A request is queued when the pool is open, its client is there, no engine is ready and the
      queue has room; its abort listener is set exactly when it came with a signal. */
  lemma RequestsListen(size: nat, maxWaiting: nat, s: State, signal: Signal)
    requires Reachable(size, maxWaiting, s)
    ensures var t, w := Step(s, Request(signal)), s.env.nextWaiter;
      && w !in s.waiters && !Enabled(s, AbortFired(w))
      && (w in t.waiters <==>
            !s.closing && signal != AlreadyAborted && s.ready == [] && |s.waiters| < maxWaiting)
      && (Enabled(t, AbortFired(w)) <==> w in t.waiters && signal == Live)
  {
    hide Safe, Act, Step;
    ReachableIsSafe(size, maxWaiting, s);
    StepIsAct(s, Request(signal));
    RequestActs(s, signal);
  }

  lemma RequestActs(s: State, signal: Signal)
    requires Safe(s)
    ensures var t, w := Act(s, Request(signal)), s.env.nextWaiter;
      && w !in s.waiters && w !in s.env.listeners
      && (w in t.waiters <==>
            !s.closing && signal != AlreadyAborted && s.ready == [] && |s.waiters| < s.maxWaiting)
      && (w in t.env.listeners <==> w in t.waiters && signal == Live)
  {
    hide Counts, Tracked, Places, Ascending;
  }

  lemma ActListens(s: State, event: Event, w: nat)
    requires Safe(s) && Enabled(s, event) && w in s.waiters && w !in Act(s, event).env.outcome
    ensures w in Act(s, event).env.listeners <==> w in s.env.listeners
  {
    hide Counts, Tracked, Places, Supplied;
    if event == CloseCalled {
      SettleAllEffect(s.env.outcome, s.waiters, PoolClosed);
      hide SettleAll;
    }
  }

  /** No step that leaves a request waiting sets or removes its abort listener. */
  lemma StepListens(s: State, event: Event, w: nat)
    requires Safe(s) && Enabled(s, event) && w in s.waiters && w in Step(s, event).waiters
    ensures w in Step(s, event).env.listeners <==> w in s.env.listeners
  {
    hide Step, Act, Safe;
    StepIsSafe(s, event);
    StepIsAct(s, event);
    WaitingIsNotSettled(Step(s, event), w);
    ActListens(s, event, w);
  }

  lemma WaitingIsNotSettled(s: State, w: nat)
    requires Safe(s) && w in s.waiters
    ensures w !in s.env.outcome && w < s.env.nextWaiter
  {
  }

  lemma LeftIsSettled(s: State, run: seq<Event>, t: State, w: nat)
    requires Safe(s) && Runs(s, run, t) && w < s.env.nextWaiter && w in t.waiters
    ensures w in s.waiters
  {
    hide Counts, Tracked, Places;
    RunIsSafe(s, run, t);
    RunExtends(s, run, t);
  }

  lemma {:induction false} RunListens(s: State, run: seq<Event>, t: State, w: nat)
    requires Safe(s) && Runs(s, run, t) && w in s.waiters && w in t.waiters
    ensures w in t.env.listeners <==> w in s.env.listeners
    decreases |run|
  {
    if run != [] {
      var u := Step(s, run[0]);
      hide Step, Safe;
      StepIsSafe(s, run[0]);
      StepExtends(s, run[0]);
      WaitingIsNotSettled(s, w);
      StillNumbered(s, run[0], w);
      LeftIsSettled(u, run[1..], t, w);
      StepListens(s, run[0], w);
      RunListens(u, run[1..], t, w);
    }
  }

  lemma StillNumbered(s: State, event: Event, w: nat)
    requires Safe(s) && Enabled(s, event) && w < s.env.nextWaiter
    ensures w < Step(s, event).env.nextWaiter
  {
    StepIsAct(s, event);
    hide Safe, Step;
  }

  /** As long as a request waits, however the run goes on, its client can go away exactly when
      the request came with a signal: its abort listener is there from the call of `acquire`
      until the request is settled. */
  lemma WaitingRequestsCanAbort(size: nat, maxWaiting: nat, s: State, signal: Signal, run: seq<Event>, t: State)
    requires Reachable(size, maxWaiting, s) && Runs(Step(s, Request(signal)), run, t)
    requires s.env.nextWaiter in t.waiters && s.env.nextWaiter in Step(s, Request(signal)).waiters
    ensures Enabled(t, AbortFired(s.env.nextWaiter)) <==> signal == Live
  {
    hide Step, Safe;
    ReachableIsSafe(size, maxWaiting, s);
    RequestsListen(size, maxWaiting, s, signal);
    StepIsSafe(s, Request(signal));
    RunListens(Step(s, Request(signal)), run, t, s.env.nextWaiter);
  }

  /** When the client of a waiting request goes away, that request is settled as aborted, takes
      no engine and leaves the queue, its timeout and its listener behind; the others keep their
      order. After `close` the listener finds its request settled already and changes nothing. */
  lemma AbortsSettle(size: nat, maxWaiting: nat, s: State, w: nat)
    requires Reachable(size, maxWaiting, s) && Enabled(s, AbortFired(w))
    ensures var t := Step(s, AbortFired(w));
      && w !in t.waiters && !Enabled(t, TimeoutFired(w)) && !Enabled(t, AbortFired(w))
      && (w in s.waiters ==> t.env.outcome == s.env.outcome[w := Aborted])
      && (w !in s.waiters ==> s.closing && t.env.outcome == s.env.outcome)
      && (forall x: nat :: x in t.waiters <==> x in s.waiters && x != w)
      && (forall i, j | 0 <= i < j < |t.waiters| :: t.waiters[i] < t.waiters[j])
      && t.ready == s.ready && t.leased == s.leased && t.env.granted == s.env.granted
  {
    hide Act, Safe, Step;
    ReachableIsSafe(size, maxWaiting, s);
    StepIsAct(s, AbortFired(w));
    AbortLeaves(s, w);
    AbortQueue(s, w);
  }

  lemma AbortLeaves(s: State, w: nat)
    requires Safe(s) && Enabled(s, AbortFired(w))
    ensures var t := Act(s, AbortFired(w));
      && w !in t.env.timers && w !in t.env.listeners
      && (w in s.waiters ==> t.env.outcome == s.env.outcome[w := Aborted])
      && (w !in s.waiters ==> s.closing && t.env.outcome == s.env.outcome)
      && t.ready == s.ready && t.leased == s.leased && t.env.granted == s.env.granted
  {
    hide Counts, Tracked, Places, Remove, Ascending;
  }

  lemma AbortQueue(s: State, w: nat)
    requires Safe(s) && Enabled(s, AbortFired(w))
    ensures var ws := Act(s, AbortFired(w)).waiters;
      && (forall x: nat :: x in ws <==> x in s.waiters && x != w)
      && (forall i, j | 0 <= i < j < |ws| :: ws[i] < ws[j])
  {
    RemoveKeeps(s.waiters, w);
    hide Counts, Tracked, Places, Remove;
  }

  /** Every request that was queued is waiting or settled, at most `maxWaiting` wait, nobody
      waits while an engine is ready, and nobody who waits came before one who was served. */
  lemma RequestsAreServedInOrder(size: nat, maxWaiting: nat, s: State)
    requires Reachable(size, maxWaiting, s)
    ensures |s.waiters| <= maxWaiting
    ensures s.ready == [] || s.waiters == []
    ensures forall w: nat | w < s.env.nextWaiter :: w in s.waiters <==> w !in s.env.outcome
    ensures forall w, g | w in s.waiters && g in s.env.outcome && s.env.outcome[g].Granted? :: g < w
    ensures forall i, j | 0 <= i < j < |s.waiters| :: s.waiters[i] < s.waiters[j]
  {
    ReachableIsSafe(size, maxWaiting, s);
    hide Counts, Tracked, Places;
  }

  /** While the pool is open, a request that waits has an engine being built, an engine in
      use or a retry timer to wait for. */
  lemma NobodyIsStranded(size: nat, maxWaiting: nat, s: State)
    requires Reachable(size, maxWaiting, s) && !s.closing
    ensures |s.ready| + s.building + s.leased < size ==> s.env.retries > 0
    ensures s.waiters != [] && size > 0 ==>
      s.env.builds != {} || s.env.lent + s.env.releasing + s.env.freed != {} || s.env.retries > 0
  {
    ReachableIsSafe(size, maxWaiting, s);
    hide Tracked, Places;
  }

  /** A task can end whenever it likes. Its engine is then closed, and only after that is its slot
      free, and `refill` brings an open pool back to `size` engines at once. */
  lemma UsedEngineIsReplaced(size: nat, maxWaiting: nat, s: State, e: Engine)
    requires Reachable(size, maxWaiting, s) && e in s.env.lent
    ensures Enabled(s, TaskEnded(e))
    ensures var t := Step(s, TaskEnded(e));
      && t.leased == s.leased && e !in t.env.shut && Enabled(t, EngineClosed(e))
      && var u := Step(t, EngineClosed(e));
         && u.leased == s.leased && e in u.env.shut && Enabled(u, SlotFreed(e))
         && var v := Step(u, SlotFreed(e));
            && v.leased == s.leased - 1 && e !in v.env.lent
            && (!s.closing ==> |v.ready| + v.building + v.leased == size)
            && (s.closing ==> v.building == s.building)
  {
    hide Safe, Step;
    ReachableIsSafe(size, maxWaiting, s);
    LentIsOpen(s, e);
    var t := Step(s, TaskEnded(e));
    StepIsAct(s, TaskEnded(e));
    StepIsSafe(s, TaskEnded(e));
    var u := Step(t, EngineClosed(e));
    StepIsAct(t, EngineClosed(e));
    StepIsSafe(t, EngineClosed(e));
    StepIsAct(u, SlotFreed(e));
    StepIsSafe(u, SlotFreed(e));
    if !u.closing { FreedIsRefilled(u, e); }
  }

  lemma LentIsOpen(s: State, e: Engine)
    requires Safe(s) && e in s.env.lent
    ensures e !in s.env.shut
  {
  }

  lemma FreedIsRefilled(s: State, e: Engine)
    requires Safe(s) && e in s.env.freed && !s.closing
    ensures Accounted(Step(s, SlotFreed(e))) == s.size
  {
    ActCounts(s, SlotFreed(e));
    ActTracked(s, SlotFreed(e));
    ActClosed(s, SlotFreed(e));
    RefillEffect(Act(s, SlotFreed(e)));
    hide Refill;
  }

  // ----- close

  /** Once `close` has been called, no request waits, nothing is ready, no build starts and
      no engine is handed out, in every run from there on. */
  lemma ClosedPoolStaysClosed(size: nat, maxWaiting: nat, s: State, run: seq<Event>, t: State)
    requires Reachable(size, maxWaiting, s) && s.closing && Runs(s, run, t)
    ensures t.closing && t.ready == [] && t.waiters == []
    ensures t.env.granted == s.env.granted && t.env.nextBuild == s.env.nextBuild
    ensures t.env.retries <= s.env.retries
  {
    ReachableIsSafe(size, maxWaiting, s);
    RunIsSafe(s, run, t);
    RunExtends(s, run, t);
    hide Counts, Tracked, Places, Queue;
  }

  /** `close` can be called at any time. The first call rejects every request that waits, with its
      timeout cleared, and starts closing every engine that is ready; it touches neither builds nor
      engines in use. A second call changes nothing. */
  lemma CloseRejectsAll(size: nat, maxWaiting: nat, s: State)
    requires Reachable(size, maxWaiting, s)
    ensures Enabled(s, CloseCalled)
    ensures var t := Step(s, CloseCalled);
      && t.closing && t.waiters == [] && t.ready == [] && t.inflight == s.inflight && t.building == s.building
      && t.env.builds == s.env.builds && t.env.lent == s.env.lent && t.leased == s.leased
      && (s.closing ==> t == s)
      && (!s.closing ==>
            && (forall w | w in s.waiters :: w in t.env.outcome && t.env.outcome[w] == PoolClosed
                                             && !Enabled(t, TimeoutFired(w)))
            && (forall e | e in s.ready :: Enabled(t, DrainedClosed(e))))
  {
    hide Step, Close, Safe, Enabled;
    ReachableIsSafe(size, maxWaiting, s);
    StepCloses(s);
    CloseMoves(s);
    if !s.closing {
      forall w | w in s.waiters
        ensures w in Close(s).env.outcome && Close(s).env.outcome[w] == PoolClosed
        ensures !Enabled(Close(s), TimeoutFired(w))
      {
        CloseSettles(s, w);
      }
    }
  }

  lemma StepCloses(s: State)
    ensures Enabled(s, CloseCalled) && Step(s, CloseCalled) == Close(s)
  {
  }

  lemma CloseMoves(s: State)
    requires Safe(s)
    ensures var t := Close(s);
      && t.closing && t.waiters == [] && t.ready == [] && t.inflight == s.inflight && t.building == s.building
      && t.env.builds == s.env.builds && t.env.lent == s.env.lent && t.leased == s.leased
      && (s.closing ==> t == s)
      && (!s.closing ==> forall e | e in s.ready :: Enabled(t, DrainedClosed(e)))
  {
    hide Counts, Tracked, Places, Queue, SettleAll;
  }

  lemma CloseSettles(s: State, w: nat)
    requires Safe(s) && !s.closing && w in s.waiters
    ensures var t := Close(s);
      w in t.env.outcome && t.env.outcome[w] == PoolClosed && !Enabled(t, TimeoutFired(w))
  {
    WaitingIsNotSettled(s, w);
    SettleAllEffect(s.env.outcome, s.waiters, PoolClosed);
    hide Safe, SettleAll;
  }

  lemma ResolvedAlive(s: State)
    requires Places(s) && s.ready == [] && s.env.draining == {} && s.env.strays == map[]
    ensures Alive(s) == s.env.lent + s.env.releasing
    ensures forall e | e in Alive(s) :: e in s.env.granted
  {
    AliveIs(s);
    assert s.env.strays.Values == {} && Elements(s.ready) == {};
    assert forall e | e in s.env.lent + s.env.releasing :: e in s.env.granted && e in Alive(s);
  }

  /** When the promise of `close` has resolved, nothing is being built and every engine that
      is not closed is with a task or is being closed by the `use` that took it. */
  lemma ResolvedCloseLeavesOnlyLeased(size: nat, maxWaiting: nat, s: State)
    requires Reachable(size, maxWaiting, s) && s.env.resolved
    ensures s.closing && s.env.builds == {} && s.building == 0
    ensures Alive(s) == s.env.lent + s.env.releasing
    ensures forall e | e in Alive(s) :: e in s.env.granted
  {
    hide Alive, Places, Queue, Tracked, Supplied;
    ReachableIsSafe(size, maxWaiting, s);
    ResolvedAlive(s);
  }

  /** What still runs and what `inflight` still holds. */
  function Pending(s: State): nat {
    3 * |s.env.builds| + 2 * |s.env.releasing| + |s.env.draining| + |s.env.strays| + |s.inflight|
  }

  ghost predicate Finishes(s: State, event: Event) {
    && Enabled(s, event) && !Refills(s, event)
    && var t := Act(s, event);
       t.closing && t.env.lent == s.env.lent && (t.env.resolved || Pending(t) < Pending(s))
  }

  lemma DrainFinishes(s: State, e: Engine)
    requires s.closing && e in s.env.draining
    ensures Finishes(s, DrainedClosed(e))
  {
    Shrinks(s.env.draining, e);
  }

  lemma BuildFinishes(s: State, id: nat)
    requires s.closing && id in s.env.builds
    ensures Finishes(s, BuildFailed(id))
  {
    Shrinks(s.env.builds, id);
  }

  lemma StrayFinishes(s: State, id: nat)
    requires s.closing && id in s.env.strays
    ensures Finishes(s, StrayClosed(id))
  {
    StrayGone(s.env.strays, id);
  }

  lemma ReleaseFinishes(s: State, e: Engine)
    requires s.closing && e in s.env.releasing
    ensures Finishes(s, EngineClosed(e))
  {
    Shrinks(s.env.releasing, e);
  }

  lemma WorkFinishes(s: State, work: Work)
    requires s.closing && work in s.inflight && !Running(s, work)
    ensures Finishes(s, Forgotten(work))
  {
    Shrinks(s.inflight, work);
  }

  lemma NextOfClose(s: State) returns (event: Event)
    requires s.closing && !s.env.resolved
    ensures Finishes(s, event)
  {
    hide Finishes;
    if e: Engine :| e in s.env.draining {
      event := DrainedClosed(e);
      DrainFinishes(s, e);
    } else if id: nat :| id in s.env.builds {
      event := BuildFailed(id);
      BuildFinishes(s, id);
    } else if id: nat :| id in s.env.strays {
      event := StrayClosed(id);
      StrayFinishes(s, id);
    } else if e: Engine :| e in s.env.releasing {
      event := EngineClosed(e);
      ReleaseFinishes(s, e);
    } else if work: Work :| work in s.inflight {
      event := Forgotten(work);
      WorkFinishes(s, work);
    } else {
      event := CloseResolved;
      assert s.env.draining == {} && s.inflight == {};
      ResolveFinishes(s);
    }
  }

  lemma ResolveFinishes(s: State)
    requires s.closing && !s.env.resolved && s.env.draining == {} && s.inflight == {}
    ensures Finishes(s, CloseResolved)
  {
  }

  /** `close` cannot hang: from every state in which it has been called, finishing the work
      that is already running, and no task, lets it resolve. */
  lemma {:induction false} CloseCanResolve(s: State) returns (run: seq<Event>, t: State)
    requires s.closing
    ensures Runs(s, run, t) && t.env.resolved
    ensures t.env.lent == s.env.lent
    decreases Pending(s)
  {
    hide Act, Enabled, Pending;
    if s.env.resolved {
      return [], s;
    }
    var event := NextOfClose(s);
    var u := Step(s, event);
    if u.env.resolved {
      run, t := [event], u;
      assert run[1..] == [];
    } else {
      var rest;
      rest, t := CloseCanResolve(u);
      run := [event] + rest;
      assert run[1..] == rest;
    }
  }

  // ----- close under every schedule

  /** Requests are refused and further calls of `close` do nothing. */
  predicate Idle(event: Event) {
    event.Request? || event.CloseCalled?
  }

  /** A bound on what can still happen once `close` has been called. */
  function Bound(s: State): nat {
    2 * |s.env.builds| + 4 * |s.env.lent| + 2 * |s.env.releasing| + |s.env.freed| + |s.env.strays|
    + |s.env.draining| + |s.env.timers| + |s.env.listeners| + s.env.retries + |s.inflight|
    + if s.env.resolved then 0 else 1
  }

  lemma LeavesFewer<T>(a: set<T>, x: T)
    ensures |a - {x}| <= |a| && (x in a ==> |a - {x}| == |a| - 1)
    ensures |a + {x}| <= |a| + 1
  {
    if x in a {
      assert a == (a - {x}) + {x};
    } else {
      assert a - {x} == a;
    }
  }

  lemma StraysGrow(m: map<nat, Engine>, id: nat, e: Engine)
    ensures |m[id := e]| <= |m| + 1
  {
    var n := m[id := e];
    assert n.Keys == m.Keys + {id};
    assert |n| == |n.Keys| && |m| == |m.Keys|;
    LeavesFewer(m.Keys, id);
  }

  /** Every callback that can still come after `close`, whichever comes, brings its end nearer. */
  lemma EveryStepFinishes(s: State, event: Event)
    requires s.closing && Enabled(s, event)
    ensures Step(s, event).closing
    ensures if Idle(event) then Step(s, event) == s else Bound(Step(s, event)) < Bound(s)
  {
    match event
    case Request(_) =>
    case Built(id, e) =>
      LeavesFewer(s.env.builds, id);
      StraysGrow(s.env.strays, id, e);
    case BuildFailed(id) => LeavesFewer(s.env.builds, id);
    case RetryFired =>
    case TimeoutFired(w) =>
      LeavesFewer(s.env.timers, w);
      LeavesFewer(s.env.listeners, w);
    case AbortFired(w) =>
      LeavesFewer(s.env.timers, w);
      LeavesFewer(s.env.listeners, w);
    case TaskEnded(e) =>
      LeavesFewer(s.env.lent, e);
      LeavesFewer(s.env.releasing, e);
      LeavesFewer(s.inflight, Disposal(e));
    case EngineClosed(e) =>
      LeavesFewer(s.env.releasing, e);
      LeavesFewer(s.env.freed, e);
    case SlotFreed(e) => LeavesFewer(s.env.freed, e);
    case StrayClosed(id) => StrayGone(s.env.strays, id);
    case DrainedClosed(e) => LeavesFewer(s.env.draining, e);
    case Forgotten(work) => LeavesFewer(s.inflight, work);
    case CloseCalled =>
    case CloseResolved =>
  }

  /** The steps of a run that are neither requests nor calls of `close`. */
  function Busy(run: seq<Event>): nat {
    if run == [] then 0 else (if Idle(run[0]) then 0 else 1) + Busy(run[1..])
  }

  /** `close` resolves under every schedule: however a run goes on from there, it can take no more
      than a bounded number of steps beside requests, and until `close` has resolved there is
      always such a step to take, one that ends no task. */
  lemma {:induction false} CloseResolvesUnderEverySchedule(s: State, run: seq<Event>, t: State)
    requires s.closing && Runs(s, run, t)
    ensures t.closing && Busy(run) + Bound(t) <= Bound(s)
    ensures t.env.resolved || exists event :: Enabled(t, event) && !Idle(event) && !event.TaskEnded?
    decreases |run|
  {
    hide Step, Bound, Enabled;
    if run == [] {
      if !t.env.resolved {
        var event := NextOfClose(t);
        NextIsBusy(t, event);
      }
    } else {
      EveryStepFinishes(s, run[0]);
      CloseResolvesUnderEverySchedule(Step(s, run[0]), run[1..], t);
    }
  }

  lemma NextIsBusy(s: State, event: Event)
    requires s.closing && !s.env.resolved && Finishes(s, event)
    ensures Enabled(s, event) && !Idle(event) && !event.TaskEnded?
  {
    hide Pending;
  }
}
