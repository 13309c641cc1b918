/**
 * Every run of the scheduler, in any order of arrivals: it never gets stuck, and it ends with the answer.
 * One pending request keeps the run invariant, so a round does in every order, and so does every sequence of rounds.
 * A run that has nothing left to do has done everything.
 */
module Runs {
  import opened Prelude
  import opened Json
  import opened Schema
  import opened Selection
  import opened Evaluation
  import opened Division
  import opened DivisionProofs
  import opened DivisionShape
  import opened Progress
  import opened ProgressProofs
  import opened PlaceProofs
  import opened InsertionPoints
  import opened Stitching
  import opened Requests
  import opened RoundProofs
  import opened InvariantProofs
  import opened Service
  import opened DepthExecutor
  import opened Scheduler

  /** A setting with services and a parent-type function that agree with the data. */
  ghost predicate Served(ctx: Context, store: Store, root: Place, env: Env) {
    && Setting(ctx, store, root)
    && root.typename in store.roots && root.m == store.roots[root.typename]
    && !HasFieldNamed(root.sels, NODE)
    && Faithful(ctx, store, root.typename, env.services)
    && Truthful(store, env.parentTypeOf)
  }

  /** The steps that follow a step are all different. */
  lemma ThensDistinct(ctx: Context, store: Store, q: Place, r: Request)
    requires Asked(ctx, store, q, r)
    ensures Distinct(r.step.thens)
  {
    var g, ip := GroupPlace(ctx, q, r.step.url), KeysOf(AddressOf(r.ip));
    GroupPlaceOk(ctx, store, q, r.step.url);
    ChildrenOfGroup(ctx, ip, g.typename, g.sels, g.location);
    var steps := Children(ctx, ip, g.typename, g.sels, g.location);
    forall i, j | 0 <= i < j < |steps|
      ensures steps[i] != steps[j]
    {
      StepsDiffer(ctx, ip, g.typename, g.sels, g.location, i, j);
    }
  }

  /** No request follows twice from one answer. */
  lemma {:induction false} NextDistinct(ctx: Context, store: Store, q: Place, r: Request, thens: seq<Step>)
    requires Asked(ctx, store, q, r) && Denotes(r.ip, AddressOf(r.ip))
    requires Distinct(thens) && forall c :: c in thens ==> c in r.step.thens
    ensures var next := NextRequests(r.ip, r.step.sel, thens, Answer(ctx, store, q, r.step.url));
            next.Ok? && Distinct(next.value)
  {
    NextSound(ctx, store, q, r, thens);
    if thens != [] {
      var answer := Answer(ctx, store, q, r.step.url);
      var before, child := thens[..|thens| - 1], thens[|thens| - 1];
      NextDistinct(ctx, store, q, r, before);
      NextSound(ctx, store, q, r, before);
      ChildPoints(ctx, store, q, r, child);
      var hits := Reached(answer, child.ip[|r.ip|..]);
      PointsDistinct(ctx, store, q, r, child, hits);
      var old_, new_ := NextRequests(r.ip, r.step.sel, before, answer).value, RequestsAt(child, PointsOf(r.ip, hits));
      assert NextRequests(r.ip, r.step.sel, thens, answer).value == old_ + new_;
      OtherSteps(thens, old_, new_);
    }
  }

  lemma OtherSteps(thens: seq<Step>, old_: seq<Request>, new_: seq<Request>)
    requires thens != [] && Distinct(thens) && Distinct(old_) && Distinct(new_)
    requires forall n :: n in old_ ==> n.step in thens[..|thens| - 1]
    requires forall i :: 0 <= i < |new_| ==> new_[i].step == thens[|thens| - 1]
    ensures Distinct(old_ + new_)
  {
    forall i | 0 <= i < |old_|
      ensures old_[i].step != thens[|thens| - 1]
    {
      assert old_[i] in old_;
      var j :| 0 <= j < |thens| - 1 && thens[j] == old_[i].step;
    }
  }

  lemma PointsDistinct(ctx: Context, store: Store, q: Place, r: Request, child: Step, hits: seq<Hit>)
    requires Asked(ctx, store, q, r) && Denotes(r.ip, AddressOf(r.ip)) && child in r.step.thens
    requires |child.ip| > |r.ip| && hits == Reached(Answer(ctx, store, q, r.step.url), child.ip[|r.ip|..])
    requires forall h :: h in hits ==> HasID(h.obj) && h.at != []
    ensures Distinct(RequestsAt(child, PointsOf(r.ip, hits)))
  {
    var answer, points := Answer(ctx, store, q, r.step.url), PointsOf(r.ip, hits);
    ReachedDistinct(answer, child.ip[|r.ip|..]);
    forall i, j | 0 <= i < j < |points|
      ensures points[i] != points[j]
    {
      assert hits[i] in hits && hits[j] in hits;
      FollowerPoints(ctx, store, q, r, Request(child, points[i]), hits[i]);
      FollowerPoints(ctx, store, q, r, Request(child, points[j]), hits[j]);
      var at := AddressOf(r.ip);
      assert (at + hits[i].at)[|at|..] == hits[i].at && (at + hits[j].at)[|at|..] == hits[j].at;
    }
  }

  /** What a pending request alone yields: the answer to its task, and the requests that follow from it. */
  lemma PendingSucceeds(ctx: Context, store: Store, root: Place, env: Env, done: set<Task>, r: Request)
    requires Served(ctx, store, root, env) && Waiting(ctx, store, root, done, r)
    ensures SingleIn(env, r).Ok?
    ensures var o := SingleIn(env, r).value;
            && o.result == AnswerTo(ctx, store, root, done, r)
            && Distinct(o.next)
            && FollowersOf(ctx, store, root, done, r, ToSet(o.next))
  {
    var q := PlaceOf(ctx, store, root, done, r);
    WaitingAnswered(ctx, store, root, done, env.services, env.parentTypeOf, env.variables, r);
    LocatedOk(ctx, store, root, done, AddressOf(r.ip));
    ThensDistinct(ctx, store, q, r);
    NextDistinct(ctx, store, q, r, r.step.thens);
  }

  /** The requests of an order not yet merged. */
  function From(order: seq<Request>, n: nat): set<Request>
    requires n <= |order|
  {
    set i | n <= i < |order| :: order[i]
  }

  lemma FromNext(order: seq<Request>, n: nat)
    requires Distinct(order) && n < |order|
    ensures order[n] in From(order, n)
    ensures From(order, n + 1) == From(order, n) - {order[n]}
  {
  }

  /** Midway through a round: n results are merged, the rest wait, and what has been asked for is kept apart. */
  ghost predicate Midway(ctx: Context, store: Store, root: Place, env: Env, order: seq<Request>, n: nat,
                         done: set<Task>, tree: Object, asked: set<Request>)
    requires n <= |order|
  {
    && Inv(ctx, store, root, done, tree, From(order, n) + asked)
    && From(order, n) !! asked
    && NextBag(Responses(env, order[..n])) == multiset(asked)
  }

  lemma NextBagStep(env: Env, order: seq<Request>, n: nat)
    requires n < |order| && SingleIn(env, order[n]).Ok?
    ensures NextBag(Responses(env, order[..n + 1])) == NextBag(Responses(env, order[..n])) + multiset(SingleIn(env, order[n]).value.next)
  {
    var qs := Responses(env, order[..n + 1]);
    assert order[..n + 1][..n] == order[..n];
    assert qs[..|qs| - 1] == Responses(env, order[..n]);
    assert qs[n] == ResponseTo(env, order[n]);
    ParseIsSingle(env, order[n]);
  }

  lemma PendingNext(order: seq<Request>, n: nat, asked: set<Request>, next: set<Request>)
    requires n < |order| && Distinct(order) && From(order, n) !! asked
    ensures From(order, n) + asked - {order[n]} + next == From(order, n + 1) + (asked + next)
  {
    FromNext(order, n);
  }

  /** One more result merged. */
  lemma OneMore(ctx: Context, store: Store, root: Place, env: Env, order: seq<Request>, n: nat, done: set<Task>,
                tree: Object, asked: set<Request>)
    requires Served(ctx, store, root, env) && n < |order| && Distinct(order)
    requires Midway(ctx, store, root, env, order, n, done, tree, asked)
    ensures SingleIn(env, order[n]).Ok?
    ensures var o := SingleIn(env, order[n]).value;
            var stitched := Stitch(tree, order[n].ip, o.result);
            && stitched.Ok?
            && Midway(ctx, store, root, env, order, n + 1, done + {TaskOf(order[n])}, stitched.value, asked + ToSet(o.next))
  {
    var r := order[n];
    FromNext(order, n);
    var pending := From(order, n) + asked;
    PendingSucceeds(ctx, store, root, env, done, r);
    var next := SingleIn(env, r).value.next;
    StepKeepsInv(ctx, store, root, done, tree, pending, r, ToSet(next));
    PendingNext(order, n, asked, ToSet(next));
    OneMoreAsked(env, order, n, asked);
  }

  lemma OneMoreAsked(env: Env, order: seq<Request>, n: nat, asked: set<Request>)
    requires n < |order| && SingleIn(env, order[n]).Ok? && Distinct(SingleIn(env, order[n]).value.next)
    requires asked !! ToSet(SingleIn(env, order[n]).value.next)
    requires NextBag(Responses(env, order[..n])) == multiset(asked)
    ensures NextBag(Responses(env, order[..n + 1])) == multiset(asked + ToSet(SingleIn(env, order[n]).value.next))
  {
    var next := SingleIn(env, order[n]).value.next;
    NextBagStep(env, order, n);
    DistinctBag(next);
    assert multiset(asked) + multiset(ToSet(next)) == multiset(asked + ToSet(next));
  }

  /** The results of a round in the order of arrival. */
  ghost predicate ResultsOf(env: Env, order: seq<Request>, results: seq<ExecutionResult>) {
    && |results| == |order|
    && forall i :: 0 <= i < |order| && SingleIn(env, order[i]).Ok? ==>
         results[i] == ExecutionResult(order[i].ip, SingleIn(env, order[i]).value.result)
  }

  /** The first n results of a round merged: tasks done, and requests asked for. */
  ghost predicate MergedTo(ctx: Context, store: Store, root: Place, env: Env, tree: Object, order: seq<Request>,
                           results: seq<ExecutionResult>, n: nat,
                           done: set<Task>, asked: set<Request>)
    requires n <= |order| && n <= |results|
  {
    var merged := MergeAll(tree, results[..n]);
    merged.Ok? && Midway(ctx, store, root, env, order, n, done, merged.value, asked)
  }

  lemma NothingMerged(ctx: Context, store: Store, root: Place, env: Env, done: set<Task>, tree: Object,
                      order: seq<Request>, results: seq<ExecutionResult>)
    requires Inv(ctx, store, root, done, tree, ToSet(order))
    ensures MergedTo(ctx, store, root, env, tree, order, results, 0, done, {})
  {
    assert From(order, 0) == ToSet(order);
    assert order[..0] == [] && results[..0] == [];
    assert ToSet(order) + {} == ToSet(order);
  }

  /** Merging the first n results of a round, whatever their order. */
  lemma {:induction false} MergedSoFar(ctx: Context, store: Store, root: Place, env: Env, done: set<Task>, tree: Object,
                                       order: seq<Request>, results: seq<ExecutionResult>, n: nat)
    returns (more: set<Task>, asked: set<Request>)
    requires Served(ctx, store, root, env) && Distinct(order) && n <= |order|
    requires Inv(ctx, store, root, done, tree, ToSet(order)) && ResultsOf(env, order, results)
    ensures MergedTo(ctx, store, root, env, tree, order, results, n, more, asked)
    decreases n
  {
    if n == 0 {
      more, asked := done, {};
      NothingMerged(ctx, store, root, env, done, tree, order, results);
    } else {
      var before, soFar := MergedSoFar(ctx, store, root, env, done, tree, order, results, n - 1);
      more, asked := MergedNext(ctx, store, root, env, tree, order, results, n - 1, before, soFar);
    }
  }

  lemma {:induction false} MergedNext(ctx: Context, store: Store, root: Place, env: Env, tree: Object,
                                      order: seq<Request>, results: seq<ExecutionResult>, n: nat, before: set<Task>, soFar: set<Request>)
    returns (more: set<Task>, asked: set<Request>)
    requires Served(ctx, store, root, env) && Distinct(order) && n < |order| && ResultsOf(env, order, results)
    requires MergedTo(ctx, store, root, env, tree, order, results, n, before, soFar)
    ensures MergedTo(ctx, store, root, env, tree, order, results, n + 1, more, asked)
  {
    OneMore(ctx, store, root, env, order, n, before, MergeAll(tree, results[..n]).value, soFar);
    MergeAllNext(tree, results, n);
    more := before + {TaskOf(order[n])};
    asked := soFar + ToSet(SingleIn(env, order[n]).value.next);
  }

  /** The tree is the partial answer of the tasks done so far, and exactly what is still needed is pending, once each. */
  ghost predicate Healthy(ctx: Context, store: Store, root: Place, m: Moment) {
    Distinct(m.pending) && exists done :: Inv(ctx, store, root, done, m.tree, ToSet(m.pending))
  }

  lemma OrderIsPending(order: seq<Request>, pending: seq<Request>)
    requires multiset(order) == multiset(pending) && Distinct(pending)
    ensures Distinct(order) && ToSet(order) == ToSet(pending)
  {
    DistinctBag(pending);
    BagDistinct(order, ToSet(pending));
  }

  lemma ExecutedResults(env: Env, order: seq<Request>, resp: DepthExecutorResponse)
    requires Executed(env, order, resp)
    ensures ResultsOf(env, order, resp.results)
  {
    forall i | 0 <= i < |order|
      ensures resp.results[i] == ExecutionResult(order[i].ip, SingleIn(env, order[i]).value.result)
    {
      ParseIsSingle(env, order[i]);
      assert Responses(env, order)[i] == ResponseTo(env, order[i]);
    }
  }

  /** The answers of a round can be stitched in every order of arrival, and what follows is healthy again. */
  lemma AnyOrder(ctx: Context, store: Store, root: Place, env: Env, m: Moment, order: seq<Request>, resp: DepthExecutorResponse)
    requires Served(ctx, store, root, env) && Healthy(ctx, store, root, m)
    requires multiset(order) == multiset(m.pending) && Executed(env, order, resp)
    ensures var merged := MergeAll(m.tree, resp.results);
            merged.Ok? && Healthy(ctx, store, root, Moment(merged.value, resp.next))
  {
    var done :| Inv(ctx, store, root, done, m.tree, ToSet(m.pending));
    OrderIsPending(order, m.pending);
    AllMerged(ctx, store, root, env, done, m.tree, order, resp);
  }

  lemma {:induction false} AllMerged(ctx: Context, store: Store, root: Place, env: Env, done: set<Task>, tree: Object,
                                     order: seq<Request>, resp: DepthExecutorResponse)
    requires Served(ctx, store, root, env) && Distinct(order) && Inv(ctx, store, root, done, tree, ToSet(order))
    requires Executed(env, order, resp)
    ensures var merged := MergeAll(tree, resp.results);
            merged.Ok? && Healthy(ctx, store, root, Moment(merged.value, resp.next))
  {
    ExecutedResults(env, order, resp);
    assert resp.results[..|order|] == resp.results && order[..|order|] == order;
    var more, asked := MergedSoFar(ctx, store, root, env, done, tree, order, resp.results, |order|);
    HealthyAfter(ctx, store, root, env, order, resp, more, MergeAll(tree, resp.results).value, asked);
  }

  lemma HealthyAfter(ctx: Context, store: Store, root: Place, env: Env, order: seq<Request>, resp: DepthExecutorResponse,
                     done: set<Task>, tree: Object, asked: set<Request>)
    requires Midway(ctx, store, root, env, order, |order|, done, tree, asked) && multiset(resp.next) == NextBag(Responses(env, order))
    ensures Healthy(ctx, store, root, Moment(tree, resp.next))
  {
    assert order[..|order|] == order;
    assert From(order, |order|) + asked == asked;
    BagDistinct(resp.next, asked);
    assert Inv(ctx, store, root, done, tree, ToSet(resp.next));
  }

  lemma PendingSingles(ctx: Context, store: Store, root: Place, env: Env, m: Moment)
    requires Served(ctx, store, root, env) && Healthy(ctx, store, root, m)
    ensures forall r :: r in m.pending ==> SingleIn(env, r).Ok?
  {
    var done :| Inv(ctx, store, root, done, m.tree, ToSet(m.pending));
    forall r | r in m.pending
      ensures SingleIn(env, r).Ok?
    {
      assert r in ToSet(m.pending);
      PendingSucceeds(ctx, store, root, env, done, r);
    }
  }

  lemma NeverStuck(ctx: Context, store: Store, root: Place, env: Env, m: Moment)
    requires Served(ctx, store, root, env) && Healthy(ctx, store, root, m)
    ensures !Stuck(env, m)
  {
    PendingSingles(ctx, store, root, env, m);
    forall order, resp | multiset(order) == multiset(m.pending) && Executed(env, order, resp)
      ensures MergeAll(m.tree, resp.results).Ok?
    {
      AnyOrder(ctx, store, root, env, m, order, resp);
    }
  }

  lemma RoundHealthy(ctx: Context, store: Store, root: Place, env: Env, before: Moment, after: Moment)
    requires Served(ctx, store, root, env) && Healthy(ctx, store, root, before) && SomeRound(env, before, after)
    ensures Healthy(ctx, store, root, after)
  {
    var order, resp :| Round(env, before, order, resp, after);
    AnyOrder(ctx, store, root, env, before, order, resp);
    assert after == Moment(MergeAll(before.tree, resp.results).value, resp.next);
  }

  /** What holds at the start of a run and is kept by every round holds at every moment. */
  lemma {:induction false} Always(env: Env, roots: seq<Step>, run: seq<Moment>, d: nat, p: Moment -> bool)
    requires Run(env, roots, map[], run) && d < |run|
    requires p(run[0]) && forall before, after :: SomeRound(env, before, after) && p(before) ==> p(after)
    ensures p(run[d])
  {
    if d > 0 {
      Always(env, roots, run, d - 1, p);
      assert SomeRound(env, run[d - 1], run[d]);
    }
  }

  /** The run invariant: every moment of every run is healthy. */
  lemma {:induction false} RunHealthy(ctx: Context, store: Store, root: Place, env: Env, roots: seq<Step>,
                                      run: seq<Moment>, d: nat)
    requires Served(ctx, store, root, env) && Run(env, roots, map[], run) && d < |run|
    requires Healthy(ctx, store, root, Moment(map[], RootRequestsOf(roots)))
    ensures Healthy(ctx, store, root, run[d])
  {
    forall before, after | SomeRound(env, before, after) && Healthy(ctx, store, root, before)
      ensures Healthy(ctx, store, root, after)
    {
      RoundHealthy(ctx, store, root, env, before, after);
    }
    Always(env, roots, run, d, m => Healthy(ctx, store, root, m));
  }

  /** A run that leaves nothing pending ends with the direct evaluation, whatever the order of arrivals. */
  lemma {:induction false} FinishedRun(ctx: Context, store: Store, root: Place, env: Env, roots: seq<Step>, run: seq<Moment>)
    requires Served(ctx, store, root, env) && Run(env, roots, map[], run)
    requires Healthy(ctx, store, root, Moment(map[], RootRequestsOf(roots)))
    requires run[|run| - 1].pending == []
    ensures run[|run| - 1].tree == Eval(store, root.typename, root.m, root.sels)
  {
    var m := run[|run| - 1];
    RunHealthy(ctx, store, root, env, roots, run, |run| - 1);
    var done :| Inv(ctx, store, root, done, m.tree, ToSet(m.pending));
    assert ToSet(m.pending) == {};
    NothingPending(ctx, store, root, done, m.tree);
  }

  /** The executor on a plan whose root requests are healthy: it succeeds, with the direct evaluation. */
  method ExecutePlan(ghost ctx: Context, ghost store: Store, ghost root: Place, env: Env, roots: seq<Step>)
    returns (r: Result<Object>)
    requires Served(ctx, store, root, env) && roots != [] && WellPlanned(env.digest, roots)
    requires Healthy(ctx, store, root, Moment(map[], RootRequestsOf(roots)))
    ensures r == Ok(Eval(store, root.typename, root.m, root.sels))
  {
    var dem := new DepthExecutorManager(env, roots, None);
    ghost var run;
    r, run := dem.Execute();
    RunHealthy(ctx, store, root, env, roots, run, |run| - 1);
    if r.Err? {
      NeverStuck(ctx, store, root, env, run[|run| - 1]);
    } else {
      FinishedRun(ctx, store, root, env, roots, run);
    }
  }
}
