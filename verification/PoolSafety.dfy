/** What every run of the engine pool keeps. */
module PoolSafety {
  import opened PoolModel
  import opened Sequences

  // ----- the invariant, in parts

  /** The counters count what they are named for, and everything alive fits in `size`. */
  ghost predicate Counts(s: State) {
    && s.building == |s.env.builds|
    && s.leased == |s.env.lent| + |s.env.releasing| + |s.env.freed|
    && |s.ready| + s.building + s.leased + |s.env.draining| + |s.env.strays| <= s.size
  }

  /** Every engine ever built is in exactly one place. */
  ghost predicate Places(s: State) {
    && Distinct(s.ready)
    && (forall e | e in s.ready :: e in s.env.made && e !in s.env.granted && e !in s.env.shut && e !in s.env.draining)
    && (forall e | e in s.env.lent :: e in s.env.granted && e !in s.env.shut && e !in s.env.releasing)
    && (forall e | e in s.env.releasing :: e in s.env.granted && e !in s.env.shut)
    && (forall e | e in s.env.freed :: e in s.env.granted && e in s.env.shut)
    && (forall e | e in s.env.draining :: e in s.env.made && e !in s.env.granted && e !in s.env.shut)
    && (forall id | id in s.env.strays :: var e := s.env.strays[id];
          e in s.env.made && e !in s.env.granted && e !in s.env.shut && e !in s.ready && e !in s.env.draining)
    && (forall a, b | a in s.env.strays && b in s.env.strays && a != b :: s.env.strays[a] != s.env.strays[b])
    && (forall e | e in s.env.shut :: e in s.env.made)
    && Distinct(s.env.granted)
    && (forall e | e in s.env.granted ::
      e in s.env.made && (e in s.env.lent || e in s.env.releasing || e in s.env.shut))
    && (forall e | e in s.env.made :: e in s.ready || e in s.env.granted || e in s.env.draining
          || e in s.env.shut || exists id | id in s.env.strays :: s.env.strays[id] == e)
  }

  /** The queue: bounded, in order of arrival, and every request is waiting or settled. */
  ghost predicate Queue(s: State) {
    && (s.ready != [] ==> s.waiters == [])
    && |s.waiters| <= s.maxWaiting
    && Ascending(s.waiters)
    && (forall w: nat :: w in s.waiters || w in s.env.outcome <==> w < s.env.nextWaiter)
    && (forall w | w in s.waiters :: w !in s.env.outcome)
    && (forall w: nat :: w in s.env.timers <==> w in s.waiters)
    && (forall w | w in s.env.listeners :: w in s.waiters || (w in s.env.outcome && s.env.outcome[w] == PoolClosed))
    && (forall w | w in s.env.outcome && s.env.outcome[w] == PoolClosed :: s.closing)
    && (forall w, g | w in s.waiters && g in s.env.outcome && s.env.outcome[g].Granted? :: g < w)
    && (forall g | g in s.env.outcome && s.env.outcome[g].Granted? :: s.env.outcome[g].engine in s.env.granted)
  }

  /** `inflight` holds every build and every disposal that is still running. */
  ghost predicate Tracked(s: State) {
    && (forall id | id in s.env.builds :: id < s.env.nextBuild && id !in s.env.strays)
    && (forall id | id in s.env.strays :: id < s.env.nextBuild)
    && (forall work | Running(s, work) :: work in s.inflight)
  }

  /** Until `close`, only a `use` closes an engine. */
  ghost predicate Clean(s: State) {
    !s.closing ==> s.env.draining == {} && s.env.strays == map[] && !s.env.resolved
  }

  /** After `close`, nobody waits and nothing is ready; once it has resolved, nothing is being built. */
  ghost predicate Closed(s: State) {
    && (s.closing ==> s.ready == [] && s.waiters == [])
    && (s.env.resolved ==> s.env.draining == {} && s.env.strays == map[] && s.env.builds == {})
  }

  /** An open pool that is short of engines has a retry timer pending. */
  ghost predicate Supplied(s: State) {
    !s.closing && Accounted(s) < s.size ==> s.env.retries > 0
  }

  ghost predicate Safe(s: State) {
    Counts(s) && Places(s) && Queue(s) && Tracked(s) && Clean(s) && Closed(s) && Supplied(s)
  }

  // ----- refill

  lemma StartBuildKeeps(s: State)
    requires Counts(s) && Tracked(s) && Clean(s) && !s.closing && Accounted(s) < s.size
    ensures Counts(StartBuild(s)) && Tracked(StartBuild(s)) && Clean(StartBuild(s))
  {
    var n := s.env.nextBuild;
    var t := StartBuild(s);
    assert n !in s.env.builds;
    assert Accounted(t) == Accounted(s) + 1;
    forall work | Running(t, work) ensures work in t.inflight {
      assert work == Build(n) || Running(s, work);
    }
  }

  /** `refill` starts builds until `size` engines are accounted for, and does nothing else. */
  lemma {:induction false} RefillEffect(s: State)
    requires Counts(s) && Tracked(s) && Clean(s)
    ensures var t := Refill(s);
      && t == s.(building := t.building, inflight := t.inflight,
                 env := s.env.(builds := t.env.builds, nextBuild := t.env.nextBuild))
      && Counts(t) && Tracked(t) && Clean(t)
      && (!s.closing ==> Accounted(t) >= s.size)
      && (s.closing ==> t == s)
    decreases s.size - Accounted(s)
  {
    hide Counts, Tracked;
    if !s.closing && Accounted(s) < s.size {
      StartBuildKeeps(s);
      RefillEffect(StartBuild(s));
    }
  }

  lemma RefillSafe(s: State)
    requires Counts(s) && Places(s) && Queue(s) && Tracked(s) && Clean(s) && Closed(s)
    ensures Safe(Refill(s))
  {
    hide Counts, Tracked, Clean, Refill;
    RefillEffect(s);
    assert Clean(s) ==> !s.env.resolved || s.closing by { CleanMeans(s); }
  }

  lemma CleanMeans(s: State)
    ensures Clean(s) && s.env.resolved ==> s.closing
  {
  }

  // ----- one callback

  lemma Shrinks<T>(a: set<T>, x: T)
    requires x in a
    ensures |a - {x}| == |a| - 1
  {
  }

  lemma Grows<T>(a: set<T>, x: T)
    requires x !in a
    ensures |a + {x}| == |a| + 1
  {
  }

  lemma ElementsCount<T>(s: seq<T>)
    ensures |Elements(s)| <= |s|
  {
    if s != [] {
      ElementsCount(s[1..]);
      assert Elements(s) == {s[0]} + Elements(s[1..]);
    }
  }

  lemma StrayGone(s: map<nat, Engine>, id: nat)
    requires id in s
    ensures |s - {id}| == |s| - 1
  {
    assert (s - {id}).Keys == s.Keys - {id};
    assert |s| == |s.Keys| && |s - {id}| == |(s - {id}).Keys|;
  }

  lemma StrayComes(s: map<nat, Engine>, id: nat, e: Engine)
    requires id !in s
    ensures |s[id := e]| == |s| + 1
  {
    assert s[id := e].Keys == s.Keys + {id};
    assert |s| == |s.Keys| && |s[id := e]| == |s[id := e].Keys|;
  }

  /** A ready engine and a new one are with no task. */
  lemma NotLent(s: State, e: Engine)
    requires Places(s) && (e in s.ready || e !in s.env.made)
    ensures e !in s.env.lent
  {
  }

  lemma RequestCounts(s: State, signal: Signal)
    requires Safe(s)
    ensures Counts(Acquire(s, signal))
  {
    hide Tracked, Queue, Places;
    if s.ready != [] {
      assert s.ready[0] in s.ready;
      NotLent(s, s.ready[0]);
      Grows(s.env.lent, s.ready[0]);
    }
  }

  lemma BuiltCounts(s: State, id: nat, e: Engine)
    requires Safe(s) && id in s.env.builds && e !in s.env.made
    ensures Counts(OnBuilt(s, id, e))
  {
    hide Tracked, Queue, Places;
    Shrinks(s.env.builds, id);
    if s.closing {
      TrackedApart(s, id);
      StrayComes(s.env.strays, id, e);
    } else {
      NotLent(s, e);
      Grows(s.env.lent, e);
    }
  }

  lemma CloseCounts(s: State)
    requires Safe(s)
    ensures Counts(Close(s))
  {
    hide Tracked, Queue, Places;
    ElementsCount(s.ready);
    assert {} + Elements(s.ready) == Elements(s.ready);
  }

  /** A set that an element leaves for another set. */
  lemma Moves<T>(a: set<T>, b: set<T>, x: T)
    requires x in a
    ensures x !in b ==> |a - {x}| + |b + {x}| == |a| + |b|
    ensures |a - {x}| == |a| - 1
  {
    if x !in b { Grows(b, x); }
    Shrinks(a, x);
  }

  lemma UsedApart(s: State, e: Engine)
    requires Places(s)
    ensures e in s.env.lent ==> e !in s.env.releasing
    ensures e in s.env.releasing ==> e !in s.env.freed
  {
  }

  lemma ActCounts(s: State, event: Event)
    requires Safe(s) && Enabled(s, event)
    ensures Counts(Act(s, event))
  {
    hide Tracked, Queue, Places, Clean, Closed, Supplied;
    match event
    case Request(signal) => RequestCounts(s, signal);
    case Built(id, e) => BuiltCounts(s, id, e);
    case BuildFailed(id) => Shrinks(s.env.builds, id);
    case RetryFired =>
    case TimeoutFired(w) =>
    case AbortFired(w) =>
    case TaskEnded(e) =>
      UsedApart(s, e);
      Moves(s.env.lent, s.env.releasing, e);
    case EngineClosed(e) =>
      UsedApart(s, e);
      Moves(s.env.releasing, s.env.freed, e);
    case SlotFreed(e) => Shrinks(s.env.freed, e);
    case StrayClosed(id) => StrayGone(s.env.strays, id);
    case DrainedClosed(e) => Shrinks(s.env.draining, e);
    case Forgotten(work) =>
    case CloseCalled => CloseCounts(s);
    case CloseResolved =>
  }

  lemma TrackedApart(s: State, id: nat)
    requires Tracked(s) && id in s.env.builds
    ensures id !in s.env.strays
  {
  }

  lemma ActTracked(s: State, event: Event)
    requires Safe(s) && Enabled(s, event)
    ensures Tracked(Act(s, event))
  {
    hide Counts, Places, Queue;
    var t := Act(s, event);
    forall work | Running(t, work) ensures work in t.inflight {
      assert Running(s, work) || work in t.inflight;
    }
  }

  lemma ActClosed(s: State, event: Event)
    requires Safe(s) && Enabled(s, event)
    ensures Clean(Act(s, event)) && Closed(Act(s, event))
  {
    hide Counts, Places, Queue;
    if event == CloseResolved {
      NothingRuns(s);
    }
  }

  /** When `inflight` is empty, no build runs and no late engine is closing. */
  lemma NothingRuns(s: State)
    requires Tracked(s) && s.inflight == {}
    ensures s.env.builds == {} && s.env.strays == map[] && s.env.releasing == {}
  {
    assert forall id | id in s.env.builds :: Running(s, Build(id));
    assert forall id | id in s.env.strays :: Running(s, Build(id));
    assert forall e | e in s.env.releasing :: Running(s, Disposal(e));
  }

  lemma ActSupplied(s: State, event: Event)
    requires Safe(s) && Enabled(s, event) && !Refills(s, event)
    ensures Supplied(Act(s, event))
  {
    hide Counts, Places, Queue, Tracked;
  }

  // ----- the engines

  lemma RequestPlaces(s: State, signal: Signal)
    requires Safe(s)
    ensures Places(Acquire(s, signal))
  {
    hide Counts, Tracked, Queue;
    if !s.closing && signal != AlreadyAborted && s.ready != [] {
      var e, t := s.ready[0], Acquire(s, signal);
      assert e in s.ready;
      assert forall i | 0 <= i < |t.ready| :: t.ready[i] == s.ready[i + 1] && t.ready[i] in s.ready;
      forall x | x in s.env.made ensures x == e || x in s.ready ==> x == e || x in t.ready {
        if x in s.ready && x != e {
          var i :| 0 <= i < |s.ready| && s.ready[i] == x;
          assert t.ready[i - 1] == x;
        }
      }
    }
  }

  lemma BuiltPlaces(s: State, id: nat, e: Engine)
    requires Safe(s) && id in s.env.builds && e !in s.env.made
    ensures Places(OnBuilt(s, id, e))
  {
    hide Counts, Queue;
    var t := OnBuilt(s, id, e);
    TrackedApart(s, id);
    hide Tracked;
    assert forall i | i in s.env.strays :: i in t.env.strays && t.env.strays[i] == s.env.strays[i];
    if s.closing {
      assert id in t.env.strays && t.env.strays[id] == e;
      forall x | x in s.env.made && exists i | i in s.env.strays :: s.env.strays[i] == x
        ensures exists i | i in t.env.strays :: t.env.strays[i] == x
      {
        var i :| i in s.env.strays && s.env.strays[i] == x;
        assert i in t.env.strays && t.env.strays[i] == x;
      }
    }
  }

  lemma ClosePlaces(s: State)
    requires Safe(s)
    ensures Places(Close(s))
  {
    hide Counts, Tracked, Queue;
  }

  lemma StrayPlaces(s: State, id: nat)
    requires Places(s) && id in s.env.strays
    ensures Places(s.(env := s.env.(strays := s.env.strays - {id}, shut := s.env.shut + {s.env.strays[id]})))
  {
    var t := s.env.strays - {id};
    forall e | e in s.env.made && e != s.env.strays[id] && exists i | i in s.env.strays :: s.env.strays[i] == e
      ensures exists i | i in t :: t[i] == e
    {
      var i :| i in s.env.strays && s.env.strays[i] == e;
      assert i in t;
    }
  }

  lemma ActPlaces(s: State, event: Event)
    requires Safe(s) && Enabled(s, event)
    ensures Places(Act(s, event))
  {
    hide Counts, Places, Tracked, Queue;
    match event
    case Request(signal) => RequestPlaces(s, signal);
    case Built(id, e) => BuiltPlaces(s, id, e);
    case StrayClosed(id) => StrayPlaces(s, id);
    case CloseCalled => ClosePlaces(s);
    case _ => OtherPlaces(s, event);
  }

  lemma OtherPlaces(s: State, event: Event)
    requires Safe(s) && Enabled(s, event)
    requires !event.Request? && !event.Built? && !event.StrayClosed? && !event.CloseCalled?
    ensures Places(Act(s, event))
  {
    hide Counts, Tracked, Queue;
  }

  // ----- the queue

  lemma TailAscends(ws: seq<nat>)
    requires ws != [] && Ascending(ws)
    ensures Ascending(ws[1..]) && ws[0] !in ws[1..]
    ensures forall x | x in ws[1..] :: ws[0] < x
    ensures forall x: nat :: x in ws <==> x == ws[0] || x in ws[1..]
  {
    assert ws == [ws[0]] + ws[1..];
  }

  lemma ConsAscends(w: nat, ws: seq<nat>)
    requires Ascending(ws) && forall x | x in ws :: w < x
    ensures Ascending([w] + ws)
  {
    assert forall i | 0 <= i < |ws| :: ws[i] in ws;
  }

  lemma {:induction false} RemoveKeeps(ws: seq<nat>, w: nat)
    requires Ascending(ws)
    ensures Ascending(Remove(ws, w)) && |Remove(ws, w)| <= |ws|
    ensures forall x: nat :: x in Remove(ws, w) <==> x in ws && x != w
  {
    hide Ascending;
    if ws != [] {
      TailAscends(ws);
      if ws[0] != w {
        RemoveKeeps(ws[1..], w);
        ConsAscends(ws[0], Remove(ws[1..], w));
      }
    }
  }

  lemma {:induction false} SettleAllEffect(outcome: map<nat, Outcome>, ws: seq<nat>, o: Outcome)
    ensures var r := SettleAll(outcome, ws, o);
      && (forall x: nat :: x in r <==> x in outcome || x in ws)
      && (forall x | x in r :: r[x] == if x in outcome then outcome[x] else o)
    decreases |ws|
  {
    if ws != [] {
      SettleAllEffect(Settle(outcome, ws[0], o), ws[1..], o);
      assert ws == [ws[0]] + ws[1..];
    }
  }

  lemma LeaveQueue(s: State, w: nat, o: Outcome)
    requires Safe(s) && (o == TimedOut || o == Aborted) && w < s.env.nextWaiter
    ensures Queue(Leave(s, w, o))
  {
    hide Counts, Places, Tracked;
    RemoveKeeps(s.waiters, w);
    hide Remove;
  }

  lemma RequestQueue(s: State, signal: Signal)
    requires Safe(s)
    ensures Queue(Acquire(s, signal))
  {
    hide Counts, Places, Tracked;
    var t := Acquire(s, signal);
    if Queues(s, signal) {
      var w := s.env.nextWaiter;
      assert forall x: nat :: x in t.waiters <==> x in s.waiters || x == w;
      assert forall i | 0 <= i < |s.waiters| :: t.waiters[i] == s.waiters[i] && s.waiters[i] in s.waiters;
    }
  }

  lemma BuiltQueue(s: State, id: nat, e: Engine)
    requires Safe(s) && id in s.env.builds && e !in s.env.made
    ensures Queue(OnBuilt(s, id, e))
  {
    hide Counts, Places, Tracked, Clean, Supplied, Ascending;
    if !s.closing && s.waiters != [] {
      TailAscends(s.waiters);
      var w, t := s.waiters[0], OnBuilt(s, id, e);
      assert t.waiters == s.waiters[1..];
      assert t.env.outcome == s.env.outcome[w := Granted(e)];
    }
  }

  lemma CloseQueue(s: State)
    requires Safe(s)
    ensures Queue(Close(s))
  {
    hide Counts, Places, Tracked;
    SettleAllEffect(s.env.outcome, s.waiters, PoolClosed);
    hide SettleAll;
  }

  lemma Known(s: State, w: nat)
    requires Queue(s) && (w in s.env.timers || w in s.env.listeners)
    ensures w < s.env.nextWaiter
  {
  }

  /** What the queue is made of. */
  lemma SameQueue(s: State, t: State)
    requires Queue(s) && t.maxWaiting == s.maxWaiting && t.ready == s.ready && t.waiters == s.waiters
    requires t.env.timers == s.env.timers && t.env.listeners == s.env.listeners
    requires t.env.outcome == s.env.outcome && t.env.nextWaiter == s.env.nextWaiter
    requires t.env.granted == s.env.granted && t.closing == s.closing
    ensures Queue(t)
  {
  }

  lemma ActQueue(s: State, event: Event)
    requires Safe(s) && Enabled(s, event)
    ensures Queue(Act(s, event))
  {
    hide Counts, Places, Tracked, Queue;
    match event
    case Request(signal) => RequestQueue(s, signal);
    case Built(id, e) => BuiltQueue(s, id, e);
    case TimeoutFired(w) =>
      Known(s, w);
      LeaveQueue(s, w, TimedOut);
    case AbortFired(w) =>
      Known(s, w);
      LeaveQueue(s, w, Aborted);
    case CloseCalled => CloseQueue(s);
    case _ => SameQueue(s, Act(s, event));
  }

  // ----- every run

  /** A callback keeps the invariant. */
  lemma StepIsSafe(s: State, event: Event)
    requires Safe(s) && Enabled(s, event)
    ensures Safe(Step(s, event))
  {
    ActCounts(s, event);
    ActPlaces(s, event);
    ActQueue(s, event);
    ActTracked(s, event);
    ActClosed(s, event);
    if Refills(s, event) {
      RefillSafe(Act(s, event));
    } else {
      ActSupplied(s, event);
    }
    hide Counts, Places, Tracked, Queue, Clean, Closed, Supplied, Act, Refill;
  }

  lemma InitIsSafe(size: nat, maxWaiting: nat)
    ensures Safe(Init(size, maxWaiting))
  {
    var s := State(size, maxWaiting, [], [], 0, 0, false, {},
                   Env({}, {}, {}, {}, map[], {}, {}, {}, 0, 0, 0, map[], {}, {}, [], false));
    RefillSafe(s);
    hide Refill;
  }

  lemma {:induction false} RunIsSafe(s: State, run: seq<Event>, t: State)
    requires Safe(s) && Runs(s, run, t)
    ensures Safe(t)
    decreases |run|
  {
    hide Safe, Step;
    if run != [] {
      StepIsSafe(s, run[0]);
      RunIsSafe(Step(s, run[0]), run[1..], t);
    }
  }
}
