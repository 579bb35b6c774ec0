/**
 * The observer API: watches, the items emitters put on the shared event queue, and the
 * base observer's four registries (watches, handlers per watch, emitters, emitter per
 * watch). Threads are abstracted: an emitter is a value with a fresh id, starting a
 * thread appends it to a start log, stopping and joining an emitter adds it to a set.
 */
module ObserverApi {
  import opened Wrappers
  import opened Events

  const DEFAULT_EMITTER_TIMEOUT := 1
  const DEFAULT_OBSERVER_TIMEOUT := 1

  /** A monitored path with its recursion flag; compared and hashed by this key. */
  datatype ObservedWatch = ObservedWatch(path: Path, isRecursive: bool)
  {
    function Key(): (Path, bool)
    {
      (path, isRecursive)
    }
  }

  /** `ObservedWatch.__eq__`: equal keys. */
  function WatchEquals(a: ObservedWatch, b: ObservedWatch): (r: bool)
    ensures r <==> a == b
    ensures r <==> a.path == b.path && a.isRecursive == b.isRecursive
  {
    a.Key() == b.Key()
  }

  /** `ObservedWatch.__ne__`. */
  function WatchDiffers(a: ObservedWatch, b: ObservedWatch): (r: bool)
    ensures r <==> !WatchEquals(a, b)
  {
    a.Key() != b.Key()
  }

  /** What `EventEmitter.queue_event` puts on the queue. */
  datatype QueuedItem = QueuedItem(event: Event, watch: ObservedWatch)

  /** The items queued for `events`, in order, all for watch `w`. */
  function Items(events: seq<Event>, w: ObservedWatch): (r: seq<QueuedItem>)
    ensures |r| == |events|
    ensures forall i :: 0 <= i < |r| ==> r[i] == QueuedItem(events[i], w)
  {
    seq(|events|, i requires 0 <= i < |events| => QueuedItem(events[i], w))
  }

  type HandlerId = nat

  /** An emitter: a fresh identity bound to one watch. */
  datatype Emitter = Emitter(id: nat, watch: ObservedWatch)

  /** A thread the observer starts: an emitter's or the dispatcher's own. */
  datatype Thread = EmitterThread(emitter: Emitter) | DispatcherThread

  datatype Error = KeyError | RuntimeError

  /** `self._handlers.get(watch, [])`. */
  function HandlersOf(handlers: map<ObservedWatch, set<HandlerId>>, w: ObservedWatch): set<HandlerId>
  {
    if w in handlers then handlers[w] else {}
  }

  function EmitterThreads(order: seq<Emitter>): (r: seq<Thread>)
    ensures |r| == |order|
    ensures forall i :: 0 <= i < |r| ==> r[i] == EmitterThread(order[i])
  {
    seq(|order|, i requires 0 <= i < |order| => EmitterThread(order[i]))
  }

  predicate Distinct<T(==)>(s: seq<T>)
  {
    forall i, j :: 0 <= i < j < |s| ==> s[i] != s[j]
  }

  /** The handlers one dispatch calls, in order; the watch's live set after it; whether a callback raised. */
  datatype Dispatch = Dispatch(called: seq<HandlerId>, remaining: set<HandlerId>, raised: bool)

  /**
   * The handlers `dispatch_events` calls for one event. `copy` is `list(handlers[watch])`
   * taken before the loop; `registered` is the watch's live handler set, which a callback
   * may shrink: `withdraws(h)` is the set of handlers h's callback unregisters from the
   * watch, and `raises(h)` says whether h's callback then raises. A handler of the copy is
   * called only if it is still registered when reached; a raising callback ends the loop.
   */
  function DispatchPlan(copy: seq<HandlerId>, registered: set<HandlerId>,
                        withdraws: HandlerId -> set<HandlerId>, raises: HandlerId -> bool): Dispatch
  {
    if copy == [] then Dispatch([], registered, false)
    else if copy[0] in registered then
      if raises(copy[0]) then Dispatch([copy[0]], registered - withdraws(copy[0]), true)
      else
        var rest := DispatchPlan(copy[1..], registered - withdraws(copy[0]), withdraws, raises);
        rest.(called := [copy[0]] + rest.called)
    else DispatchPlan(copy[1..], registered, withdraws, raises)
  }

  /** Every handler called was in the copy and registered when dispatch began; the live set only shrinks. */
  lemma {:induction false} DispatchedWereRegistered(copy: seq<HandlerId>, registered: set<HandlerId>,
                                                    withdraws: HandlerId -> set<HandlerId>, raises: HandlerId -> bool)
    ensures forall h :: h in DispatchPlan(copy, registered, withdraws, raises).called ==> h in copy && h in registered
    ensures DispatchPlan(copy, registered, withdraws, raises).remaining <= registered
  {
    if copy != [] {
      if copy[0] in registered {
        if !raises(copy[0]) {
          DispatchedWereRegistered(copy[1..], registered - withdraws(copy[0]), withdraws, raises);
        }
      } else {
        DispatchedWereRegistered(copy[1..], registered, withdraws, raises);
      }
    }
  }

  /**
   * A raise ends the dispatch: it raised exactly when the last handler called raises, and
   * no handler called before it raises.
   */
  lemma {:induction false} RaiseStopsDispatch(copy: seq<HandlerId>, registered: set<HandlerId>,
                                              withdraws: HandlerId -> set<HandlerId>, raises: HandlerId -> bool)
    ensures var d := DispatchPlan(copy, registered, withdraws, raises);
      && (d.raised ==> d.called != [] && raises(d.called[|d.called| - 1]))
      && (forall k :: 0 <= k < |d.called| && (k < |d.called| - 1 || !d.raised) ==> !raises(d.called[k]))
  {
    if copy != [] {
      if copy[0] in registered {
        if !raises(copy[0]) {
          var rest := DispatchPlan(copy[1..], registered - withdraws(copy[0]), withdraws, raises);
          RaiseStopsDispatch(copy[1..], registered - withdraws(copy[0]), withdraws, raises);
          var called := [copy[0]] + rest.called;
          forall k | 0 <= k < |called| && (k < |called| - 1 || !rest.raised)
            ensures !raises(called[k])
          {
            if k > 0 {
              assert called[k] == rest.called[k - 1];
            }
          }
        }
      } else {
        RaiseStopsDispatch(copy[1..], registered, withdraws, raises);
      }
    }
  }

  /** A handler withdrawn by the callback of one called handler is never called after it. */
  lemma {:induction false} WithdrawnHandlersAreSkipped(copy: seq<HandlerId>, registered: set<HandlerId>,
                                                       withdraws: HandlerId -> set<HandlerId>, raises: HandlerId -> bool)
    ensures var called := DispatchPlan(copy, registered, withdraws, raises).called;
      forall j, k :: 0 <= j < k < |called| ==> called[k] !in withdraws(called[j])
  {
    if copy != [] {
      if copy[0] in registered {
        if !raises(copy[0]) {
          var reg' := registered - withdraws(copy[0]);
          WithdrawnHandlersAreSkipped(copy[1..], reg', withdraws, raises);
          DispatchedWereRegistered(copy[1..], reg', withdraws, raises);
          var called := DispatchPlan(copy, registered, withdraws, raises).called;
          var rest := DispatchPlan(copy[1..], reg', withdraws, raises).called;
          assert called == [copy[0]] + rest;
          forall j, k | 0 <= j < k < |called|
            ensures called[k] !in withdraws(called[j])
          {
            assert called[k] == rest[k - 1];
            if j > 0 {
              assert called[j] == rest[j - 1];
            }
          }
        }
      } else {
        WithdrawnHandlersAreSkipped(copy[1..], registered, withdraws, raises);
        assert DispatchPlan(copy, registered, withdraws, raises) == DispatchPlan(copy[1..], registered, withdraws, raises);
      }
    }
  }

  /** When no callback withdraws anything or raises, every handler of the copy is called, in the copy's order. */
  lemma {:induction false} DispatchWithoutWithdrawals(copy: seq<HandlerId>, registered: set<HandlerId>,
                                                      withdraws: HandlerId -> set<HandlerId>, raises: HandlerId -> bool)
    requires forall h :: h in copy ==> h in registered && withdraws(h) == {} && !raises(h)
    ensures DispatchPlan(copy, registered, withdraws, raises) == Dispatch(copy, registered, false)
  {
    if copy != [] {
      DispatchWithoutWithdrawals(copy[1..], registered, withdraws, raises);
      assert registered - withdraws(copy[0]) == registered;
      assert [copy[0]] + copy[1..] == copy;
    }
  }


  /**
   * The registries of a base observer. `startLog` records the threads started, in order;
   * the observer is alive once its dispatcher thread is in the log. `stopped` holds the
   * emitters stopped and joined; emitter ids are handed out from `nextEmitterId`.
   */
  datatype ObserverState = ObserverState(
    watches: set<ObservedWatch>,
    handlers: map<ObservedWatch, set<HandlerId>>,
    emitters: set<Emitter>,
    emitterForWatch: map<ObservedWatch, Emitter>,
    startLog: seq<Thread>,
    stopped: set<Emitter>,
    nextEmitterId: nat)
  {
    /** `is_alive()`. */
    predicate IsAlive()
    {
      DispatcherThread in startLog
    }

    /**
     * The registries agree: the watches are exactly the domain of the emitter map and the
     * emitters exactly its range; each emitter is filed under its own watch; every
     * scheduled watch has a handler entry; live emitters are running exactly when the
     * observer is, and are not stopped; ids below `nextEmitterId` are taken.
     */
    ghost predicate Valid()
    {
      && watches == emitterForWatch.Keys
      && emitters == emitterForWatch.Values
      && (forall w :: w in emitterForWatch ==> emitterForWatch[w].watch == w)
      && watches <= handlers.Keys
      && (forall e :: e in emitters ==>
            e.id < nextEmitterId && e !in stopped && (EmitterThread(e) in startLog <==> IsAlive()))
      && (forall t :: t in startLog && t.EmitterThread? ==> t.emitter.id < nextEmitterId)
      && (forall e :: e in stopped ==> e.id < nextEmitterId)
    }
  }

  /** The base observer; each operation replaces its registries as one value. */
  class BaseObserver {
    var state: ObserverState

    ghost predicate Valid()
      reads this
    {
      state.Valid()
    }

    /** `is_alive()`. */
    predicate IsAlive()
      reads this
    {
      state.IsAlive()
    }

    constructor ()
      ensures Valid()
      ensures state == ObserverState({}, map[], {}, map[], [], {}, 0) && !IsAlive()
    {
      state := ObserverState({}, map[], {}, map[], [], {}, 0);
    }

    /**
     * `start`: each emitter's thread is started, then the dispatcher's. Starting a thread
     * twice raises RuntimeError; since live emitters run exactly when the observer does, a
     * second start fails at once and changes nothing.
     */
    method Start() returns (r: Outcome<Error>, order: seq<Emitter>)
      requires Valid()
      modifies this
      ensures Valid()
      ensures old(IsAlive()) ==> r == Fail(RuntimeError) && state == old(state)
      ensures !old(IsAlive()) ==>
        && r == Pass && IsAlive()
        && Distinct(order) && (forall e :: e in order <==> e in state.emitters)
        && state == old(state).(startLog := old(state.startLog) + EmitterThreads(order) + [DispatcherThread])
    {
      order := [];
      var s := state;
      if s.IsAlive() {
        // The first emitter's start raises, or the dispatcher's when there is no emitter.
        return Fail(RuntimeError), order;
      }
      var rest := s.emitters;
      while rest != {}
        invariant rest <= s.emitters
        invariant forall e :: e in s.emitters <==> e in rest || e in order
        invariant forall e :: e in order ==> e !in rest
        invariant Distinct(order)
        decreases rest
      {
        var e :| e in rest;
        order := order + [e];
        rest := rest - {e};
      }
      var log := s.startLog + EmitterThreads(order) + [DispatcherThread];
      forall e | e in s.emitters
        ensures EmitterThread(e) in log
      {
        var i :| 0 <= i < |order| && order[i] == e;
        assert log[|s.startLog| + i] == EmitterThread(e);
      }
      state := s.(startLog := log);
      r := Pass;
    }

    /**
     * `schedule`: the handler joins the watch's handler set; an emitter is created only for
     * a watch that has none, and started at once if the observer is alive.
     */
    method Schedule(handler: HandlerId, path: Path, recursive: bool) returns (watch: ObservedWatch)
      requires Valid()
      modifies this
      ensures Valid()
      ensures watch == ObservedWatch(path, recursive)
      ensures var s := old(state);
        var s' := s.(watches := s.watches + {watch},
                     handlers := s.handlers[watch := HandlersOf(s.handlers, watch) + {handler}]);
        && (watch in s.emitterForWatch ==> state == s')
        && (watch !in s.emitterForWatch ==>
              var e := Emitter(s.nextEmitterId, watch);
              && e !in s.emitters
              && state == s'.(emitterForWatch := s.emitterForWatch[watch := e],
                              emitters := s.emitters + {e},
                              nextEmitterId := s.nextEmitterId + 1,
                              startLog := s.startLog + if s.IsAlive() then [EmitterThread(e)] else []))
    {
      watch := ObservedWatch(path, recursive);
      AddHandler(handler, watch);
      var s := state;
      if watch !in s.emitterForWatch {
        var e := Emitter(s.nextEmitterId, watch);
        s := s.(emitterForWatch := s.emitterForWatch[watch := e], emitters := s.emitters + {e},
                nextEmitterId := s.nextEmitterId + 1,
                startLog := s.startLog + if s.IsAlive() then [EmitterThread(e)] else []);
      }
      state := s.(watches := s.watches + {watch});
    }

    /** `_add_handler_for_watch`. */
    method AddHandler(handler: HandlerId, watch: ObservedWatch)
      requires Valid()
      modifies this
      ensures Valid()
      ensures state == old(state).(handlers := old(state.handlers)[watch := HandlersOf(old(state.handlers), watch) + {handler}])
    {
      var h := state.handlers;
      if watch !in h {
        h := h[watch := {}];
      }
      state := state.(handlers := h[watch := h[watch] + {handler}]);
    }

    /** `add_handler_for_watch`: the watch need not be scheduled. */
    method AddHandlerForWatch(handler: HandlerId, watch: ObservedWatch)
      requires Valid()
      modifies this
      ensures Valid()
      ensures state == old(state).(handlers := old(state.handlers)[watch := HandlersOf(old(state.handlers), watch) + {handler}])
    {
      AddHandler(handler, watch);
    }

    /**
     * `remove_handler_for_watch`: KeyError when the watch has no handler entry or the
     * handler is not in it; otherwise the handler leaves the set, which stays even if empty.
     */
    method RemoveHandlerForWatch(handler: HandlerId, watch: ObservedWatch) returns (r: Outcome<Error>)
      requires Valid()
      modifies this
      ensures Valid()
      ensures r == Pass <==> watch in old(state.handlers) && handler in old(state.handlers)[watch]
      ensures r == Pass ==>
        state == old(state).(handlers := old(state.handlers)[watch := old(state.handlers)[watch] - {handler}])
      ensures r != Pass ==> r == Fail(KeyError) && state == old(state)
    {
      var h := state.handlers;
      if watch !in h || handler !in h[watch] {
        return Fail(KeyError);
      }
      state := state.(handlers := h[watch := h[watch] - {handler}]);
      r := Pass;
    }

    /**
     * `unschedule`: KeyError, with nothing changed, for a watch without an emitter;
     * otherwise the watch's handler entry, its emitter (stopped and joined) and the watch
     * itself go, and nothing else.
     */
    method Unschedule(watch: ObservedWatch) returns (r: Outcome<Error>)
      requires Valid()
      modifies this
      ensures Valid()
      ensures r == Pass <==> watch in old(state.emitterForWatch)
      ensures r != Pass ==> r == Fail(KeyError) && state == old(state)
      ensures r == Pass ==>
        var s := old(state);
        var e := s.emitterForWatch[watch];
        state == s.(handlers := s.handlers - {watch}, emitterForWatch := s.emitterForWatch - {watch},
                    emitters := s.emitters - {e}, stopped := s.stopped + {e}, watches := s.watches - {watch})
    {
      var s := state;
      if watch !in s.emitterForWatch {
        return Fail(KeyError);
      }
      var e := s.emitterForWatch[watch];
      var forWatch := s.emitterForWatch - {watch};
      forall e' | e' in s.emitters - {e}
        ensures e' in forWatch.Values
      {
        var w' :| w' in s.emitterForWatch && s.emitterForWatch[w'] == e';
        assert w' == e'.watch;
        assert w' != watch;
        assert forWatch[w'] == e';
      }
      state := s.(handlers := s.handlers - {watch}, emitterForWatch := forWatch,
                  emitters := s.emitters - {e}, stopped := s.stopped + {e}, watches := s.watches - {watch});
      r := Pass;
    }

    /** `unschedule_all`: every registry is emptied and every emitter stopped and joined. */
    method UnscheduleAll()
      requires Valid()
      modifies this
      ensures Valid()
      ensures var s := old(state);
        state == s.(handlers := map[], emitters := {}, emitterForWatch := map[], watches := {},
                    stopped := s.stopped + s.emitters)
    {
      var s := state;
      state := s.(handlers := map[], emitters := {}, emitterForWatch := map[], watches := {},
                  stopped := s.stopped + s.emitters);
    }

    /** `on_thread_stop`. */
    method OnThreadStop()
      requires Valid()
      modifies this
      ensures Valid()
      ensures var s := old(state);
        state == s.(handlers := map[], emitters := {}, emitterForWatch := map[], watches := {},
                    stopped := s.stopped + s.emitters)
    {
      UnscheduleAll();
    }

    /**
     * `dispatch_events`: `next` is what `event_queue.get` returns, `None` when it times out
     * and raises `queue.Empty`. The handler set of the item's watch is copied (in some
     * order), then each handler of the copy that is still registered is called until one
     * raises. `task_done` is called only when the queue gave an item and no handler raised.
     */
    method DispatchEvents(next: Option<QueuedItem>, withdraws: HandlerId -> set<HandlerId>,
                          raises: HandlerId -> bool)
      returns (called: seq<HandlerId>, copy: seq<HandlerId>, raised: bool, taskDone: bool)
      requires Valid()
      modifies this
      ensures Valid()
      ensures next.None? ==> raised && !taskDone && called == [] && copy == [] && state == old(state)
      ensures next.Some? ==>
        && Distinct(copy) && (forall h :: h in copy <==> h in HandlersOf(old(state.handlers), next.value.watch))
        && taskDone == !raised
        && var d := DispatchPlan(copy, HandlersOf(old(state.handlers), next.value.watch), withdraws, raises);
        && called == d.called && raised == d.raised
        && state == if next.value.watch in old(state.handlers)
                    then old(state).(handlers := old(state.handlers)[next.value.watch := d.remaining])
                    else old(state)
    {
      if next.None? {
        return [], [], true, false;
      }
      var watch := next.value.watch;
      var s := state;
      var live := HandlersOf(s.handlers, watch);
      copy := [];
      var rest := live;
      while rest != {}
        invariant forall h :: h in live <==> h in rest || h in copy
        invariant forall h :: h in copy ==> h !in rest
        invariant Distinct(copy)
        decreases rest
      {
        var h :| h in rest;
        copy := copy + [h];
        rest := rest - {h};
      }
      ghost var plan := DispatchPlan(copy, live, withdraws, raises);
      called := [];
      raised := false;
      var cur := live;
      var i := 0;
      assert watch in s.handlers ==> s == s.(handlers := s.handlers[watch := cur]);
      while i < |copy| && !raised
        invariant 0 <= i <= |copy|
        invariant !raised ==> |called| <= |plan.called| && called == plan.called[..|called|]
        invariant !raised ==> DispatchPlan(copy[i..], cur, withdraws, raises)
                              == plan.(called := plan.called[|called|..])
        invariant raised ==> plan == Dispatch(called, cur, true)
        invariant watch in s.handlers ==> state == s.(handlers := s.handlers[watch := cur])
        invariant watch !in s.handlers ==> state == s && cur == {}
      {
        var h := copy[i];
        assert copy[i..] == [h] + copy[i + 1..];
        if h in cur {
          // handler.dispatch(event): its callback withdraws handlers from this watch, then may raise.
          called := called + [h];
          cur := cur - withdraws(h);
          state := state.(handlers := s.handlers[watch := cur]);
          raised := raises(h);
        }
        i := i + 1;
      }
      if !raised {
        assert copy[i..] == [];
      }
      taskDone := !raised;
    }
  }
}
