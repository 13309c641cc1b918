/** common.AsyncMapReduce as interleaved steps: goroutines, a reducer over unbuffered channels, and the caller. */
module AsyncMapReduce {
  import opened Prelude

  /** The outcome of mapFunc on each item, the reduce function and the error formatting. */
  datatype Problem<!P, !A> = Problem(mapped: seq<Result<P>>, init: A, reduce: (A, P) -> A, format: string -> seq<string>)

  datatype Worker = NotStarted | Mapping | Sending | Sent

  /** The reducer: in its select, with a received item in hand, or about to call wg.Done. */
  datatype Reducer = Unborn | Selecting | Holding(item: nat) | Settling | Stopped

  /** The caller: spawning, in wg.Wait, sending on doneChan, or running its deferred closes. */
  datatype Caller = Spawning(next: nat) | Waiting | Stopping | Closing(closed: nat) | Returned

  datatype State<A> = State(
    workers: seq<Worker>, reducer: Reducer, caller: Caller, waitGroup: int, acc: A, errs: seq<string>,
    received: seq<nat>)

  /** What may happen next, in any order the scheduler likes. */
  datatype Event = Spawn | StartReducer | FinishMapping(item: nat) | Receive(item: nat) | Reduce | Settle | Wake | Stop | Close

  function Initial<P, A>(p: Problem<P, A>): State<A> {
    State(seq(|p.mapped|, i => NotStarted), Unborn, Spawning(0), |p.mapped|, p.init, [], [])
  }

  predicate Enabled<P, A>(p: Problem<P, A>, s: State<A>, e: Event) {
    match e
    case Spawn => s.caller.Spawning? && s.caller.next < |s.workers|
    case StartReducer => s.caller == Spawning(|s.workers|)
    case FinishMapping(i) => i < |s.workers| && s.workers[i] == Mapping
    case Receive(i) => i < |s.workers| && s.workers[i] == Sending && s.reducer == Selecting
    case Reduce => s.reducer.Holding? && s.reducer.item < |p.mapped|
    case Settle => s.reducer == Settling
    case Wake => s.caller == Waiting && s.waitGroup == 0
    case Stop => s.caller == Stopping && s.reducer == Selecting
    case Close => s.caller.Closing?
  }

  function Happen<P, A>(p: Problem<P, A>, s: State<A>, e: Event): State<A>
    requires Enabled(p, s, e)
  {
    match e
    case Spawn => s.(workers := s.workers[s.caller.next := Mapping], caller := Spawning(s.caller.next + 1))
    case StartReducer => s.(reducer := Selecting, caller := Waiting)
    case FinishMapping(i) => s.(workers := s.workers[i := Sending])
    case Receive(i) => s.(workers := s.workers[i := Sent], reducer := Holding(i), received := s.received + [i])
    case Reduce =>
      var i := s.reducer.item;
      (match p.mapped[i]
       case Ok(v) => s.(acc := p.reduce(s.acc, v), reducer := Settling)
       case Err(reason) => s.(errs := s.errs + p.format(reason), reducer := Settling))
    case Settle => s.(reducer := Selecting, waitGroup := s.waitGroup - 1)
    case Wake => s.(caller := Stopping)
    case Stop => s.(caller := Closing(0), reducer := Stopped)
    case Close => s.(caller := if s.caller.closed < 2 then Closing(s.caller.closed + 1) else Returned)
  }

  predicate SomeClosed<A>(s: State<A>) {
    (s.caller.Closing? && s.caller.closed > 0) || s.caller == Returned
  }

  /** What Go panics on: a send on a closed channel, or a negative wait group. */
  ghost predicate Panics<A>(s: State<A>) {
    || s.waitGroup < 0
    || (SomeClosed(s) && exists i :: 0 <= i < |s.workers| && (s.workers[i] == Sending || s.workers[i] == Mapping))
  }

  /** The accumulator after some items, in their order of arrival. */
  function Fold<P, A>(p: Problem<P, A>, order: seq<nat>): A
    requires forall i :: 0 <= i < |order| ==> order[i] < |p.mapped|
  {
    if order == [] then p.init
    else
      var before, last := Fold(p, order[..|order| - 1]), p.mapped[order[|order| - 1]];
      if last.Ok? then p.reduce(before, last.value) else before
  }

  /** The errors after some items. */
  function Errors<P, A>(p: Problem<P, A>, order: seq<nat>): seq<string>
    requires forall i :: 0 <= i < |order| ==> order[i] < |p.mapped|
  {
    if order == [] then []
    else
      var before, last := Errors(p, order[..|order| - 1]), p.mapped[order[|order| - 1]];
      if last.Ok? then before else before + p.format(last.reason)
  }

  /** The items whose outcome is in the accumulator or among the errors. */
  function Accounted<A>(s: State<A>): seq<nat> {
    if s.reducer.Holding? && s.received != [] then s.received[..|s.received| - 1] else s.received
  }

  /** How many items the wait group has been told of. */
  function Told<A>(s: State<A>): int {
    |s.received| - if s.reducer.Holding? || s.reducer == Settling then 1 else 0
  }

  ghost predicate Inv<P, A>(p: Problem<P, A>, s: State<A>) {
    && |s.workers| == |p.mapped|
    && Distinct(s.received)
    && (forall i :: 0 <= i < |s.received| ==> s.received[i] < |p.mapped|)
    && (forall i :: 0 <= i < |s.workers| ==> (s.workers[i] == Sent <==> i in s.received))
    && (s.reducer.Holding? || s.reducer == Settling ==> s.received != [])
    && (s.reducer.Holding? ==> s.reducer.item == s.received[|s.received| - 1])
    && s.acc == Fold(p, Accounted(s))
    && s.errs == Errors(p, Accounted(s))
    && s.waitGroup == |p.mapped| - Told(s)
    && (s.caller.Spawning? <==> s.reducer == Unborn)
    && (s.caller.Spawning? ==> s.received == [] && s.caller.next <= |s.workers|)
    && (forall i :: 0 <= i < |s.workers| ==> (s.workers[i] == NotStarted <==> s.caller.Spawning? && s.caller.next <= i))
    && (s.caller.Stopping? ==> s.waitGroup == 0 && s.reducer == Selecting)
    && (s.caller.Closing? || s.caller.Returned? <==> s.reducer == Stopped)
    && (s.caller.Closing? || s.caller.Returned? ==> s.waitGroup == 0)
    && (s.caller.Closing? ==> s.caller.closed <= 2)
  }

  lemma InitialInv<P, A>(p: Problem<P, A>)
    ensures Inv(p, Initial(p))
  {
  }

  /** At most n different numbers lie below n; n of them are all of them. */
  lemma {:induction false} Pigeonhole(n: nat, received: seq<nat>)
    requires Distinct(received) && forall i :: 0 <= i < |received| ==> received[i] < n
    ensures |received| <= n
    ensures |received| == n ==> forall i: nat :: i < n ==> i in received
  {
    var first := if received == [] then 0 else received[0];
    if n == 0 {
    } else if n - 1 in received {
      var k :| 0 <= k < |received| && received[k] == n - 1;
      var rest := Without(received, k);
      WithoutDistinct(received, k);
      InWithout(received, k);
      Below(n, rest);
      Pigeonhole(n - 1, rest);
      OneMoreBelow(n, rest, received);
    } else {
      Below(n, received);
      Pigeonhole(n - 1, received);
    }
  }

  lemma OneMoreBelow(n: nat, rest: seq<nat>, received: seq<nat>)
    requires n > 0 && forall x :: x in received <==> x in rest || x == n - 1
    ensures (forall i: nat :: i < n - 1 ==> i in rest) ==> forall i: nat :: i < n ==> i in received
  {
  }

  lemma Below(n: nat, received: seq<nat>)
    requires n > 0 && n - 1 !in received && forall x :: x in received ==> x < n
    ensures forall i :: 0 <= i < |received| ==> received[i] < n - 1
  {
    forall i | 0 <= i < |received|
      ensures received[i] < n - 1
    {
      assert received[i] in received;
    }
  }

  /** Every step keeps the invariant. */
  lemma StepInv<P, A>(p: Problem<P, A>, s: State<A>, e: Event)
    requires Inv(p, s) && Enabled(p, s, e)
    ensures Inv(p, Happen(p, s, e))
  {
    match e
    case Receive(i) => ReceiveInv(p, s, i);
    case Reduce => ReduceInv(p, s);
    case Spawn =>
    case StartReducer =>
    case FinishMapping(_) =>
    case Settle =>
    case Wake => AllReceived(p, s);
    case Stop =>
    case Close =>
  }

  lemma ReceiveInv<P, A>(p: Problem<P, A>, s: State<A>, i: nat)
    requires Inv(p, s) && Enabled(p, s, Receive(i))
    ensures Inv(p, Happen(p, s, Receive(i)))
  {
    var t := Happen(p, s, Receive(i));
    DistinctSnoc(s.received, i);
    if s.caller == Stopping {
      AllReceived(p, s);
    }
    assert Accounted(t) == s.received;
    forall j | 0 <= j < |t.workers|
      ensures t.workers[j] == Sent <==> j in t.received
    {
    }
  }

  lemma ReduceInv<P, A>(p: Problem<P, A>, s: State<A>)
    requires Inv(p, s) && Enabled(p, s, Reduce)
    ensures Inv(p, Happen(p, s, Reduce))
  {
    var t := Happen(p, s, Reduce);
    assert Accounted(t) == s.received && Accounted(s) == s.received[..|s.received| - 1];
  }

  /** With the wait group at zero every item has been received and accounted for. */
  lemma AllReceived<P, A>(p: Problem<P, A>, s: State<A>)
    requires Inv(p, s) && s.waitGroup == 0 && !s.caller.Spawning?
    ensures forall i :: 0 <= i < |s.workers| ==> s.workers[i] == Sent
    ensures !s.reducer.Holding? && s.reducer != Settling
  {
    Pigeonhole(|p.mapped|, s.received);
  }

  /** No reachable state panics: nothing is sent on a closed channel and the wait group stays non-negative. */
  lemma NoPanic<P, A>(p: Problem<P, A>, s: State<A>)
    requires Inv(p, s)
    ensures !Panics(s)
  {
    Pigeonhole(|p.mapped|, s.received);
    if SomeClosed(s) {
      AllReceived(p, s);
    }
  }

  /** Until the caller has returned, something can happen: there is no deadlock. */
  lemma NoDeadlock<P, A>(p: Problem<P, A>, s: State<A>) returns (e: Event)
    requires Inv(p, s) && s.caller != Returned
    ensures Enabled(p, s, e)
  {
    Pigeonhole(|p.mapped|, s.received);
    match s.caller
    case Spawning(next) => e := if next < |s.workers| then Spawn else StartReducer;
    case Stopping =>
      AllReceived(p, s);
      e := Stop;
    case Closing(_) => e := Close;
    case Waiting =>
      if s.waitGroup == 0 {
        e := Wake;
      } else if s.reducer.Holding? {
        e := Reduce;
      } else if s.reducer == Settling {
        e := Settle;
      } else {
        var i := Missing(|p.mapped|, s.received);
        e := if s.workers[i] == Mapping then FinishMapping(i) else Receive(i);
      }
  }

  lemma Missing(n: nat, received: seq<nat>) returns (i: nat)
    requires Distinct(received) && |received| < n && forall i :: 0 <= i < |received| ==> received[i] < n
    ensures i < n && i !in received
  {
    if forall j: nat :: j < n ==> j in received {
      AllIn(n, received);
    }
    i :| i < n && i !in received;
  }

  lemma {:induction false} AllIn(n: nat, received: seq<nat>)
    requires forall j: nat :: j < n ==> j in received
    ensures |received| >= n
    decreases n
  {
    if n > 0 {
      var last: nat := n - 1;
      assert last in received;
      var k :| 0 <= k < |received| && received[k] == last;
      InWithout(received, k);
      forall j: nat | j < n - 1
        ensures j in Without(received, k)
      {
        assert j in received;
      }
      AllIn(n - 1, Without(received, k));
    }
  }

  function WorkLeft(w: Worker): nat {
    match w
    case NotStarted => 3
    case Mapping => 2
    case Sending => 1
    case Sent => 0
  }

  function AllWorkLeft(workers: seq<Worker>): nat {
    if workers == [] then 0 else AllWorkLeft(workers[..|workers| - 1]) + WorkLeft(workers[|workers| - 1])
  }

  function ReducerLeft(r: Reducer): nat {
    match r
    case Holding(_) => 2
    case Settling => 1
    case Unborn => 0
    case Selecting => 0
    case Stopped => 0
  }

  function CallerLeft(c: Caller): int {
    match c
    case Spawning(_) => 6
    case Waiting => 5
    case Stopping => 4
    case Closing(k) => 3 - k
    case Returned => 0
  }

  /** How many steps are left: each worker's three, the reducer's two for each item still to be reduced, the caller's. */
  function StepsLeft<P, A>(p: Problem<P, A>, s: State<A>): int {
    AllWorkLeft(s.workers) + 2 * (|p.mapped| - |s.received|) + ReducerLeft(s.reducer) + CallerLeft(s.caller)
  }

  lemma {:induction false} WorkerMoves(workers: seq<Worker>, i: nat, w: Worker)
    requires i < |workers|
    ensures AllWorkLeft(workers[i := w]) == AllWorkLeft(workers) - WorkLeft(workers[i]) + WorkLeft(w)
  {
    var front := workers[..|workers| - 1];
    if i < |front| {
      WorkerMoves(front, i, w);
      assert workers[i := w][..|front|] == front[i := w];
    } else {
      assert workers[i := w][..|front|] == front;
    }
  }

  /** Every step brings the end one step nearer, so every run ends. */
  lemma StepDecreases<P, A>(p: Problem<P, A>, s: State<A>, e: Event)
    requires Inv(p, s) && Enabled(p, s, e)
    ensures StepsLeft(p, Happen(p, s, e)) == StepsLeft(p, s) - 1
  {
    match e
    case Spawn => WorkerMoves(s.workers, s.caller.next, Mapping);
    case FinishMapping(i) => WorkerMoves(s.workers, i, Sending);
    case Receive(i) => WorkerMoves(s.workers, i, Sent);
    case _ => OthersMove(p, s, e);
  }

  /** Steps of the reducer and of the caller. */
  lemma OthersMove<P, A>(p: Problem<P, A>, s: State<A>, e: Event)
    requires Inv(p, s) && Enabled(p, s, e) && !e.Spawn? && !e.FinishMapping? && !e.Receive?
    ensures StepsLeft(p, Happen(p, s, e)) == StepsLeft(p, s) - 1
  {
  }

  /** An interleaving: any enabled event may be next. */
  ghost predicate Interleaving<P, A>(p: Problem<P, A>, events: seq<Event>, states: seq<State<A>>) {
    && |states| == |events| + 1
    && states[0] == Initial(p)
    && forall i :: 0 <= i < |events| ==> Enabled(p, states[i], events[i]) && states[i + 1] == Happen(p, states[i], events[i])
  }

  /** Every reachable state satisfies the invariant, and the steps taken and left always add up. */
  lemma {:induction false} Reachable<P, A>(p: Problem<P, A>, events: seq<Event>, states: seq<State<A>>, i: nat)
    requires Interleaving(p, events, states) && i < |states|
    ensures Inv(p, states[i]) && i + StepsLeft(p, states[i]) == StepsLeft(p, Initial(p))
  {
    if i == 0 {
      InitialInv(p);
    } else {
      Reachable(p, events, states, i - 1);
      StepInv(p, states[i - 1], events[i - 1]);
      StepDecreases(p, states[i - 1], events[i - 1]);
    }
  }

  /**
   * AsyncMapReduce over all interleavings: when the caller has returned, every item has been received exactly once,
   * the accumulator is the reduce function folded over the successes in some order, the errors are the failures'
   * formatted errors in that order, and every goroutine has ended.
   */
  lemma {:induction false} Returns<P, A>(p: Problem<P, A>, events: seq<Event>, states: seq<State<A>>)
    requires Interleaving(p, events, states) && states[|events|].caller == Returned
    ensures var s := states[|events|];
            && Distinct(s.received) && (forall i :: 0 <= i < |s.received| ==> s.received[i] < |p.mapped|)
            && (forall i: nat :: i < |p.mapped| ==> i in s.received)
            && s.acc == Fold(p, s.received) && s.errs == Errors(p, s.received)
            && (forall i :: 0 <= i < |s.workers| ==> s.workers[i] == Sent) && s.reducer == Stopped
  {
    Reachable(p, events, states, |events|);
    Pigeonhole(|p.mapped|, states[|events|].received);
    AllReceived(p, states[|events|]);
  }

  /** A run that cannot go on has returned, and no run is longer than the steps left at the start. */
  lemma EveryRunEnds<P, A>(p: Problem<P, A>, events: seq<Event>, states: seq<State<A>>)
    requires Interleaving(p, events, states)
    ensures !Panics(states[|events|])
    ensures (forall e :: !Enabled(p, states[|events|], e)) ==> states[|events|].caller == Returned
    ensures |events| <= StepsLeft(p, Initial(p))
  {
    var s := states[|events|];
    Reachable(p, events, states, |events|);
    NoPanic(p, s);
    if s.caller != Returned {
      var e := NoDeadlock(p, s);
    }
    Pigeonhole(|p.mapped|, s.received);
    assert StepsLeft(p, s) >= 0;
  }

  /** No errors are reported exactly when every failure among the items formats to none; one error each tells them all. */
  lemma {:induction false} ErrorsExact<P, A>(p: Problem<P, A>, order: seq<nat>)
    requires forall i :: 0 <= i < |order| ==> order[i] < |p.mapped|
    ensures Errors(p, order) == [] <==> forall i :: 0 <= i < |order| && p.mapped[order[i]].Err? ==> p.format(p.mapped[order[i]].reason) == []
  {
    if order != [] {
      var front := order[..|order| - 1];
      ErrorsExact(p, front);
      assert forall i :: 0 <= i < |front| ==> front[i] == order[i];
    }
  }

  /** The reduce function folded over values, first to last. */
  function Folded<P, A>(init: A, reduce: (A, P) -> A, values: seq<P>): A {
    if values == [] then init else reduce(Folded(init, reduce, values[..|values| - 1]), values[|values| - 1])
  }

  function ValuesOf<P, A>(p: Problem<P, A>, order: seq<nat>): (values: seq<P>)
    requires forall i :: 0 <= i < |order| ==> order[i] < |p.mapped| && p.mapped[order[i]].Ok?
    ensures |values| == |order|
  {
    seq(|order|, i requires 0 <= i < |order| => p.mapped[order[i]].value)
  }

  /** When no item has failed the accumulator is the fold over all values in their order of arrival. */
  lemma {:induction false} FoldIsFolded<P, A>(p: Problem<P, A>, order: seq<nat>)
    requires forall i :: 0 <= i < |order| ==> order[i] < |p.mapped| && p.mapped[order[i]].Ok?
    ensures Fold(p, order) == Folded(p.init, p.reduce, ValuesOf(p, order))
  {
    if order != [] {
      FoldIsFolded(p, order[..|order| - 1]);
      assert ValuesOf(p, order)[..|order| - 1] == ValuesOf(p, order[..|order| - 1]);
    }
  }

  /** All events that n items can give rise to. */
  function Events(n: nat): set<Event> {
    {Spawn, StartReducer, Reduce, Settle, Wake, Stop, Close}
    + (set i | 0 <= i < n :: FinishMapping(i))
    + set i | 0 <= i < n :: Receive(i)
  }

  lemma EnabledIsEvent<P, A>(p: Problem<P, A>, s: State<A>, e: Event)
    requires Inv(p, s) && Enabled(p, s, e)
    ensures e in Events(|p.mapped|)
  {
  }

  lemma InterleavingGrows<P, A>(p: Problem<P, A>, events: seq<Event>, states: seq<State<A>>, e: Event)
    requires Interleaving(p, events, states) && Enabled(p, states[|events|], e)
    ensures Interleaving(p, events + [e], states + [Happen(p, states[|events|], e)])
  {
  }

  lemma StepsLeftNat<P, A>(p: Problem<P, A>, s: State<A>)
    requires Inv(p, s)
    ensures StepsLeft(p, s) >= 0
  {
    Pigeonhole(|p.mapped|, s.received);
  }

  /** The map-reduce itself: at every moment any event that can happen may be next, until the caller has returned. */
  method Run<P, A>(p: Problem<P, A>) returns (acc: A, errs: seq<string>, ghost events: seq<Event>, ghost states: seq<State<A>>)
    ensures Interleaving(p, events, states) && states[|events|].caller == Returned
    ensures acc == states[|events|].acc && errs == states[|events|].errs
  {
    var s := Initial(p);
    events, states := [], [s];
    InitialInv(p);
    StepsLeftNat(p, s);
    while s.caller != Returned
      invariant Interleaving(p, events, states) && states[|events|] == s
      invariant Inv(p, s) && StepsLeft(p, s) >= 0
      decreases StepsLeft(p, s)
    {
      ghost var some := NoDeadlock(p, s);
      EnabledIsEvent(p, s, some);
      var e :| e in Events(|p.mapped|) && Enabled(p, s, e);
      StepInv(p, s, e);
      StepDecreases(p, s, e);
      InterleavingGrows(p, events, states, e);
      s := Happen(p, s, e);
      StepsLeftNat(p, s);
      events, states := events + [e], states + [s];
    }
    return s.acc, s.errs, events, states;
  }
}
