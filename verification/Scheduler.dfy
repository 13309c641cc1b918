/** executor/depth_executor_manager.go: levels are executed one after the other, answers stitched as they arrive. */
module Scheduler {
  import opened Prelude
  import opened Text
  import opened Points
  import opened Json
  import opened Schema
  import opened Selection
  import opened MergeMaps
  import opened Stitching
  import opened InsertionPoints
  import opened Requests
  import opened Dedup
  import opened DepthExecutor

  /** The steps at a depth below some steps, in pre-order. */
  function Level(steps: seq<Step>, depth: nat): seq<Step>
    decreases steps, 1
  {
    if steps == [] then [] else Level(steps[..|steps| - 1], depth) + LevelOf(steps[|steps| - 1], depth)
  }

  function LevelOf(s: Step, depth: nat): seq<Step>
    decreases s, 0
  {
    if depth == 0 then [s] else Level(s.thens, depth - 1)
  }

  function StepsAt(acc: map<nat, seq<Step>>, depth: nat): seq<Step> {
    if depth in acc then acc[depth] else []
  }

  lemma {:induction false} LevelZero(steps: seq<Step>)
    ensures Level(steps, 0) == steps
  {
    if steps != [] {
      LevelZero(steps[..|steps| - 1]);
      assert steps == steps[..|steps| - 1] + [steps[|steps| - 1]];
    }
  }

  /** The steps one level deeper are those that follow some step of this level. */
  lemma {:induction false} LevelBelow(steps: seq<Step>, depth: nat, c: Step)
    ensures c in Level(steps, depth + 1) <==> exists s :: s in Level(steps, depth) && c in s.thens
    decreases steps, 1
  {
    if steps != [] {
      var front, last := steps[..|steps| - 1], steps[|steps| - 1];
      LevelBelow(front, depth, c);
      LevelOfBelow(last, depth, c);
      assert forall s :: s in Level(steps, depth) <==> s in Level(front, depth) || s in LevelOf(last, depth);
    }
  }

  lemma {:induction false} LevelOfBelow(s: Step, depth: nat, c: Step)
    ensures c in LevelOf(s, depth + 1) <==> exists t :: t in LevelOf(s, depth) && c in t.thens
    decreases s, 0
  {
    if depth == 0 {
      LevelZero(s.thens);
      assert s in LevelOf(s, 0);
    } else {
      LevelBelow(s.thens, depth - 1, c);
    }
  }

  /** There is no level below an empty one. */
  lemma {:induction false} NoGaps(steps: seq<Step>, d: nat, e: nat)
    requires d <= e && Level(steps, d) == []
    ensures Level(steps, e) == []
  {
    if d < e {
      NoGaps(steps, d, e - 1);
      if Level(steps, e) != [] {
        LevelBelow(steps, e - 1, Level(steps, e)[0]);
      }
    }
  }

  /** The results of a level, stitched one after the other. */
  function MergeAll(tree: Object, results: seq<ExecutionResult>): Result<Object> {
    if results == [] then Ok(tree)
    else
      var before :- MergeAll(tree, results[..|results| - 1]);
      Stitch(before, results[|results| - 1].ip, results[|results| - 1].result)
  }

  lemma {:induction false} MergeAllSnoc(tree: Object, results: seq<ExecutionResult>, last: ExecutionResult)
    ensures MergeAll(tree, results + [last]) ==
            match MergeAll(tree, results)
            case Err(reason) => Err(reason)
            case Ok(before) => Stitch(before, last.ip, last.result)
  {
    assert (results + [last])[..|results|] == results;
  }

  lemma {:induction false} MergeAllNext(tree: Object, results: seq<ExecutionResult>, n: nat)
    requires n < |results|
    ensures MergeAll(tree, results[..n + 1]) ==
            match MergeAll(tree, results[..n])
            case Err(reason) => Err(reason)
            case Ok(before) => Stitch(before, results[n].ip, results[n].result)
  {
    assert results[..n + 1] == results[..n] + [results[n]];
    MergeAllSnoc(tree, results[..n], results[n]);
  }

  lemma {:induction false} FirstMergeError(tree: Object, results: seq<ExecutionResult>, n: nat)
    requires n <= |results| && MergeAll(tree, results[..n]).Err?
    ensures MergeAll(tree, results).Err?
    decreases |results| - n
  {
    if n == |results| {
      assert results[..n] == results;
    } else {
      assert results[..n + 1][..n] == results[..n];
      FirstMergeError(tree, results, n + 1);
    }
  }

  /** A run between two rounds: the tree so far and the requests to execute next. */
  datatype Moment = Moment(tree: Object, pending: seq<Request>)

  function RootRequestsOf(steps: seq<Step>): (ers: seq<Request>)
    ensures |ers| == |steps|
  {
    seq(|steps|, i requires 0 <= i < |steps| => Request(steps[i], steps[i].ip))
  }

  /** A round: every pending request is executed once, and the outcomes are stitched in the order of their arrival. */
  ghost predicate Round(env: Env, before: Moment, order: seq<Request>, resp: DepthExecutorResponse, after: Moment) {
    && before.pending != []
    && multiset(order) == multiset(before.pending)
    && Executed(env, order, resp)
    && MergeAll(before.tree, resp.results) == Ok(after.tree)
    && after.pending == resp.next
  }

  ghost predicate SomeRound(env: Env, before: Moment, after: Moment) {
    exists order, resp :: Round(env, before, order, resp, after)
  }

  /** Every sequence of rounds from the root steps, whatever the order of arrivals. */
  ghost predicate Run(env: Env, roots: seq<Step>, initial: Object, run: seq<Moment>) {
    && run != []
    && run[0] == Moment(initial, RootRequestsOf(roots))
    && forall i :: 0 <= i < |run| - 1 ==> SomeRound(env, run[i], run[i + 1])
  }

  /** A round that fails: some request fails, or some answers cannot be stitched. */
  ghost predicate Stuck(env: Env, m: Moment) {
    && m.pending != []
    && ((exists r :: r in m.pending && SingleIn(env, r).Err?)
        || (exists order, resp :: Unmergeable(env, m, order, resp)))
  }

  ghost predicate Unmergeable(env: Env, m: Moment, order: seq<Request>, resp: DepthExecutorResponse) {
    && multiset(order) == multiset(m.pending)
    && Executed(env, order, resp)
    && MergeAll(m.tree, resp.results).Err?
  }

  /** A step that follows lies deeper, and the queries of one level have different digests. */
  ghost predicate WellPlanned(digest: seq<Sel> -> Digest, roots: seq<Step>) {
    && (forall s :: s in roots ==> IsRoot(s.parentType) || s.ip != [])
    && (forall d: nat, s, c :: s in Level(roots, d) && c in s.thens ==> |c.ip| > |s.ip|)
    && (forall d: nat, s, t :: s in Level(roots, d) && t in Level(roots, d) && digest(s.sel) == digest(t.sel) ==> s.sel == t.sel)
  }

  /** A request of a level: for one of its steps, at a point of that step's length. */
  ghost predicate AtLevel(roots: seq<Step>, depth: nat, r: Request) {
    r.step in Level(roots, depth) && |r.ip| == |r.step.ip|
  }

  ghost predicate AllAtLevel(roots: seq<Step>, depth: nat, pending: seq<Request>) {
    forall r :: r in pending ==> AtLevel(roots, depth, r)
  }

  lemma RootsAtLevel(roots: seq<Step>)
    ensures AllAtLevel(roots, 0, RootRequestsOf(roots))
  {
    LevelZero(roots);
  }

  lemma {:induction false} InNextRequests(ip: seq<string>, sent: seq<Sel>, thens: seq<Step>, result: Object, n: Request)
    requires NextRequests(ip, sent, thens, result).Ok? && n in NextRequests(ip, sent, thens, result).value
    requires forall c :: c in thens ==> |c.ip| > |ip|
    ensures n.step in thens && |n.ip| == |n.step.ip|
  {
    var before, child := thens[..|thens| - 1], thens[|thens| - 1];
    if n in NextRequests(ip, sent, before, result).value {
      InNextRequests(ip, sent, before, result, n);
    } else {
      var points := Find(child.ip, sent, result, [ip]);
      FindLength(child.ip, sent, result, [ip]);
      assert n in RequestsAt(child, points.value);
    }
  }

  ghost predicate AllLong(points: seq<seq<string>>, n: nat) {
    forall i :: 0 <= i < |points| ==> |points[i]| == n
  }

  /** Whatever the answer looks like, the points found are as long as the targets. */
  lemma {:induction false} FindLength(targets: seq<string>, sels: seq<Sel>, result: Object, branches: seq<seq<string>>)
    requires branches != [] && AllLong(branches, |branches[0]|) && |branches[0]| <= |targets|
    ensures var r := Find(targets, sels, result, branches); r.Ok? ==> AllLong(r.value, |targets|)
    decreases JObj(result), |targets|, 2
  {
    if |targets| != |branches[0]| {
      WalkLength(targets, |branches[0]|, sels, result, branches);
    }
  }

  lemma {:induction false} WalkLength(targets: seq<string>, n: nat, sels: seq<Sel>, chunk: Object, branches: seq<seq<string>>)
    requires branches != [] && AllLong(branches, n) && n <= |targets|
    ensures var r := Walk(targets, n, sels, chunk, branches); r.Ok? ==> AllLong(r.value, |targets|)
    decreases JObj(chunk), if n <= |targets| then |targets| - n else 0, 1
  {
    if n < |targets| {
      var point := targets[n];
      var found := FindSelection(point, sels);
      if found.Some? && point in chunk && !chunk[point].JNull? {
        var value := chunk[point];
        if found.value.typ.list {
          if value.JList? {
            EntriesLength(targets, n, found.value, value.items, 0, branches, []);
          }
        } else {
          var grown := seq(|branches|, i requires 0 <= i < |branches| => branches[i] + [point]);
          if n == |targets| - 1 {
            LastLength(value, n, grown);
          } else {
            WalkLength(targets, n + 1, found.value.sub, if value.JObj? then value.fields else chunk, grown);
          }
        }
      }
    }
  }

  lemma {:induction false} EntriesLength(targets: seq<string>, n: nat, found: Sel, items: seq<Json>, i: nat,
                                        branches: seq<seq<string>>, acc: seq<seq<string>>)
    requires found.Field? && n < |targets| && i <= |items|
    requires branches != [] && AllLong(branches, n) && AllLong(acc, |targets|)
    ensures var r := Entries(targets, n, found, items, i, branches, acc); r.Ok? ==> AllLong(r.value, |targets|)
    decreases JList(items), |items| - i, 0
  {
    if i < |items| && items[i].JObj? {
      var entry := items[i].fields;
      var point := PrintStem(Key(found), Some(i));
      var id := if n == |targets| - 1 then ExtractID(entry) else Ok(None);
      if id.Ok? && !(n == |targets| - 1 && id.value.None?) {
        var below := EntryBranches(branches, point, id.value);
        FindLength(targets, found.sub, entry, below);
        var points := Find(targets, found.sub, entry, below);
        if points.Ok? {
          EntriesLength(targets, n, found, items, i + 1, branches, acc + points.value);
        }
      }
    }
  }

  lemma LastLength(value: Json, n: nat, grown: seq<seq<string>>)
    requires AllLong(grown, n + 1)
    ensures var r := Last(value, n, grown); r.Ok? ==> AllLong(r.value, n + 1)
  {
    if value.JList? {
      LastOfListLength(value.items, n, grown, 0);
    }
  }

  lemma {:induction false} LastOfListLength(items: seq<Json>, n: nat, grown: seq<seq<string>>, i: nat)
    requires i <= |grown| && AllLong(grown, n + 1)
    ensures var r := LastOfList(items, n, grown, i); r.Ok? ==> AllLong(r.value, n + 1)
    decreases |grown| - i
  {
    if i < |grown| && i < |items| && items[i].JObj? {
      var id := ExtractID(items[i].fields);
      if id.Ok? && id.value.Some? {
        LastOfListLength(items, n, grown[i := WithSuffix(grown[i], n, ":" + PrintNat(i) + "#" + id.value.value)], i + 1);
      }
    }
  }

  ghost predicate FollowsSome(qs: seq<QueryerResponse>, n: Request) {
    exists q :: q in qs && n in Followers(q)
  }

  lemma {:induction false} InNextBag(qs: seq<QueryerResponse>, n: Request)
    ensures n in NextBag(qs) <==> FollowsSome(qs, n)
  {
    if qs != [] {
      InNextBag(qs[..|qs| - 1], n);
      InSnoc(qs);
      assert qs[|qs| - 1] in qs;
    }
  }

  /** What is asked next follows from a request of the round. */
  lemma NextFollows(env: Env, order: seq<Request>, resp: DepthExecutorResponse, n: Request) returns (r: Request)
    requires Executed(env, order, resp) && n in resp.next
    ensures r in order && SingleIn(env, r).Ok? && n in SingleIn(env, r).value.next
  {
    var qs := Responses(env, order);
    InNextBag(qs, n);
    assert n in multiset(resp.next);
    var q :| q in qs && n in Followers(q);
    var i :| 0 <= i < |qs| && qs[i] == q;
    r := order[i];
    ParseIsSingle(env, r);
  }

  lemma NextIsDeeper(env: Env, roots: seq<Step>, depth: nat, r: Request, n: Request)
    requires forall c :: c in r.step.thens ==> |c.ip| > |r.step.ip|
    requires AtLevel(roots, depth, r) && SingleIn(env, r).Ok? && n in SingleIn(env, r).value.next
    ensures AtLevel(roots, depth + 1, n)
  {
    InNextRequests(r.ip, r.step.sel, r.step.thens, SingleIn(env, r).value.result, n);
    LevelBelow(roots, depth, n.step);
  }

  /** A round at one level asks, next, for steps of the level below. */
  lemma RoundGoesDown(env: Env, roots: seq<Step>, depth: nat, before: Moment, after: Moment)
    requires WellPlanned(env.digest, roots) && SomeRound(env, before, after)
    requires AllAtLevel(roots, depth, before.pending)
    ensures AllAtLevel(roots, depth + 1, after.pending)
  {
    var order, resp :| Round(env, before, order, resp, after);
    forall n | n in after.pending
      ensures AtLevel(roots, depth + 1, n)
    {
      var r := NextFollows(env, order, resp, n);
      assert r in multiset(order);
      assert AtLevel(roots, depth, r);
      NextIsDeeper(env, roots, depth, r, n);
    }
  }

  lemma OneRoundDown(env: Env, roots: seq<Step>, initial: Object, run: seq<Moment>, d: nat)
    requires WellPlanned(env.digest, roots) && Run(env, roots, initial, run) && d + 1 < |run|
    requires AllAtLevel(roots, d, run[d].pending)
    ensures AllAtLevel(roots, d + 1, run[d + 1].pending)
  {
    assert SomeRound(env, run[d], run[d + 1]);
    RoundGoesDown(env, roots, d, run[d], run[d + 1]);
  }

  /** In every run, round d executes only plan steps at depth d. */
  lemma {:induction false} RunGoesDown(env: Env, roots: seq<Step>, initial: Object, run: seq<Moment>, d: nat)
    requires WellPlanned(env.digest, roots) && Run(env, roots, initial, run) && d < |run|
    ensures AllAtLevel(roots, d, run[d].pending)
  {
    if d == 0 {
      RootsAtLevel(roots);
    } else {
      RunGoesDown(env, roots, initial, run, d - 1);
      OneRoundDown(env, roots, initial, run, d - 1);
    }
  }

  lemma RunGrows(env: Env, roots: seq<Step>, initial: Object, run: seq<Moment>, after: Moment)
    requires Run(env, roots, initial, run) && SomeRound(env, run[|run| - 1], after)
    ensures Run(env, roots, initial, run + [after])
  {
    var more := run + [after];
    forall i | 0 <= i < |more| - 1
      ensures SomeRound(env, more[i], more[i + 1])
    {
      assert i < |run| - 1 ==> SomeRound(env, run[i], run[i + 1]);
    }
  }

  /** Below the last level nothing is pending. */
  lemma {:induction false} NothingLeft(env: Env, roots: seq<Step>, initial: Object, run: seq<Moment>, d: nat)
    requires WellPlanned(env.digest, roots) && Run(env, roots, initial, run) && d < |run| && Level(roots, d) == []
    ensures run[d].pending == []
  {
    var pending := run[d].pending;
    assert pending != [] ==> pending[0] in pending;
    RunGoesDown(env, roots, initial, run, d);
    assert forall r :: r in pending ==> r.step in Level(roots, d);
  }

  lemma LevelSendable(digest: seq<Sel> -> Digest, roots: seq<Step>, depth: nat, pending: seq<Request>)
    requires WellPlanned(digest, roots) && AllAtLevel(roots, depth, pending)
    ensures Sendable(digest, pending)
  {
    forall r | r in pending
      ensures IsRoot(r.step.parentType) || r.ip != []
    {
      if depth == 0 {
        LevelZero(roots);
      } else {
        LevelBelow(roots, depth - 1, r.step);
      }
    }
  }

  class DepthExecutorManager {
    const env: Env
    const pointDataExtractor: CachedPointDataExtractor
    ghost const roots: seq<Step>
    var depthExecutors: map<nat, seq<Step>>
    var maxDepth: nat
    var result: Object

    /** Every level up to maxDepth has its executor, and no other has one. */
    ghost predicate Valid()
      reads this, pointDataExtractor
    {
      && pointDataExtractor.Valid()
      && (forall d: nat :: StepsAt(depthExecutors, d) == Level(roots, d))
      && (forall d: nat :: d in depthExecutors <==> d <= maxDepth)
    }

    constructor (env: Env, rootSteps: seq<Step>, initialResult: Option<Object>)
      requires rootSteps != []
      ensures Valid() && fresh(pointDataExtractor) && this.env == env && roots == rootSteps
      ensures result == match initialResult case None => map[] case Some(obj) => obj
    {
      var levels: map<nat, seq<Step>> := map[];
      for i := 0 to |rootSteps|
        invariant forall d :: d in levels ==> levels[d] != []
        invariant forall d: nat :: StepsAt(levels, d) == Level(rootSteps[..i], d)
      {
        assert rootSteps[..i + 1][..i] == rootSteps[..i];
        levels := WalkPlanStep(rootSteps[i], 0, levels);
      }
      assert rootSteps[..|rootSteps|] == rootSteps;
      var deepest := Deepest(levels);
      pointDataExtractor := new CachedPointDataExtractor();
      LevelsReachDown(rootSteps, levels, deepest);
      this.env := env;
      roots := rootSteps;
      depthExecutors := levels;
      maxDepth := deepest;
      result := match initialResult case None => map[] case Some(obj) => obj;
    }

    /** Stitches the results of a level, in the order they arrived; after an error the result is not used. */
    method Merge(results: seq<ExecutionResult>) returns (err: Option<string>)
      requires Valid()
      modifies this`result, pointDataExtractor
      ensures Valid()
      ensures err.None? ==> MergeAll(old(result), results) == Ok(result)
      ensures err.Some? ==> MergeAll(old(result), results).Err?
    {
      for i := 0 to |results|
        invariant pointDataExtractor.Valid()
        invariant MergeAll(old(result), results[..i]) == Ok(result)
      {
        assert results[..i + 1][..i] == results[..i];
        var walked := ExtractValueModifyingSource(pointDataExtractor, result, results[i].ip);
        if walked.Err? {
          FirstMergeError(old(result), results, i + 1);
          return Some(walked.reason);
        }
        var merged := MergeResult(walked.value.target, results[i].result);
        result := WithAt(walked.value.source, walked.value.at, merged);
      }
      assert results[..|results|] == results;
      return None;
    }

    /**
     * Rounds from the root steps until nothing is pending or the levels are exhausted. What it goes through is a
     * run; it succeeds exactly with a run that leaves nothing pending, and fails only where the run cannot go on.
     */
    method Execute() returns (r: Result<Object>, ghost run: seq<Moment>)
      requires Valid() && roots != [] && WellPlanned(env.digest, roots)
      modifies this`result, pointDataExtractor
      ensures Run(env, roots, old(result), run)
      ensures r.Ok? ==> run[|run| - 1] == Moment(r.value, []) && result == r.value && |run| <= maxDepth + 2
      ensures r.Err? ==> Stuck(env, run[|run| - 1])
    {
      var executionRequests := RootRequestsOf(StepsAt(depthExecutors, 0));
      LevelZero(roots);
      run := [Moment(result, executionRequests)];
      var depth := 0;
      while depth <= maxDepth && |executionRequests| > 0
        invariant Valid() && depth <= maxDepth + 1 && |run| == depth + 1
        invariant Run(env, roots, old(result), run) && run[depth] == Moment(result, executionRequests)
        decreases maxDepth + 1 - depth
      {
        RunGoesDown(env, roots, old(result), run, depth);
        LevelSendable(env.digest, roots, depth, executionRequests);
        ghost var before := run[depth];
        var exResp;
        ghost var order;
        exResp, order := DepthExecutor.Execute(env, executionRequests);
        if exResp.Err? {
          return Err(exResp.reason), run;
        }
        var err := Merge(exResp.value.results);
        if err.Some? {
          assert Unmergeable(env, before, order, exResp.value);
          return Err(err.value), run;
        }
        executionRequests := exResp.value.next;
        ghost var after := Moment(result, executionRequests);
        assert Round(env, before, order, exResp.value, after);
        RunGrows(env, roots, old(result), run, after);
        run := run + [after];
        depth := depth + 1;
      }
      if depth > maxDepth {
        assert Level(roots, depth) == StepsAt(depthExecutors, depth);
        NothingLeft(env, roots, old(result), run, depth);
      }
      return Ok(result), run;
    }
  }

  /** The steps k levels below qps, counting only the first n that follow it. */
  function LevelOfFirst(qps: Step, n: nat, k: int): seq<Step>
    requires n <= |qps.thens|
  {
    if k < 0 then [] else if k == 0 then [qps] else Level(qps.thens[..n], k - 1)
  }

  ghost predicate Filed(acc: map<nat, seq<Step>>, r: map<nat, seq<Step>>, qps: Step, n: nat, depth: nat)
    requires n <= |qps.thens|
  {
    && (forall d :: d in r ==> r[d] != [])
    && (forall d: nat :: StepsAt(r, d) == StepsAt(acc, d) + LevelOfFirst(qps, n, d - depth))
  }

  /** walkPlanStep: every step below qps is filed under its depth, in pre-order. */
  method WalkPlanStep(qps: Step, depth: nat, acc: map<nat, seq<Step>>) returns (r: map<nat, seq<Step>>)
    requires forall d :: d in acc ==> acc[d] != []
    ensures forall d :: d in r ==> r[d] != []
    ensures forall d: nat :: StepsAt(r, d) == StepsAt(acc, d) + if d < depth then [] else LevelOf(qps, d - depth)
    decreases qps
  {
    r := acc[depth := StepsAt(acc, depth) + [qps]];
    FiledFirst(acc, qps, depth);
    for i := 0 to |qps.thens|
      invariant Filed(acc, r, qps, i, depth)
    {
      ghost var before := r;
      r := WalkPlanStep(qps.thens[i], depth + 1, r);
      FiledOneMore(acc, before, r, qps, i, depth);
    }
    FiledAll(acc, r, qps, depth);
  }

  lemma {:induction false} FiledFirst(acc: map<nat, seq<Step>>, qps: Step, depth: nat)
    requires forall d :: d in acc ==> acc[d] != []
    ensures Filed(acc, acc[depth := StepsAt(acc, depth) + [qps]], qps, 0, depth)
  {
    forall d: nat
      ensures StepsAt(acc[depth := StepsAt(acc, depth) + [qps]], d) == StepsAt(acc, d) + LevelOfFirst(qps, 0, d - depth)
    {
      assert qps.thens[..0] == [];
    }
  }

  lemma {:induction false} FiledAll(acc: map<nat, seq<Step>>, r: map<nat, seq<Step>>, qps: Step, depth: nat)
    requires Filed(acc, r, qps, |qps.thens|, depth)
    ensures forall d: nat :: StepsAt(r, d) == StepsAt(acc, d) + if d < depth then [] else LevelOf(qps, d - depth)
  {
    assert qps.thens[..|qps.thens|] == qps.thens;
    forall d: nat
      ensures StepsAt(r, d) == StepsAt(acc, d) + if d < depth then [] else LevelOf(qps, d - depth)
    {
      assert d >= depth ==> LevelOfFirst(qps, |qps.thens|, d - depth) == LevelOf(qps, d - depth);
    }
  }

  lemma {:induction false} FiledOneMore(acc: map<nat, seq<Step>>, before: map<nat, seq<Step>>,
                                        after: map<nat, seq<Step>>, qps: Step, i: nat, depth: nat)
    requires i < |qps.thens| && Filed(acc, before, qps, i, depth)
    requires forall d :: d in after ==> after[d] != []
    requires forall d: nat :: StepsAt(after, d) == StepsAt(before, d) + if d < depth + 1 then [] else LevelOf(qps.thens[i], d - depth - 1)
    ensures Filed(acc, after, qps, i + 1, depth)
  {
    forall d: nat
      ensures StepsAt(after, d) == StepsAt(acc, d) + LevelOfFirst(qps, i + 1, d - depth)
    {
      FiledAt(acc, before, after, qps, i, depth, d);
    }
  }

  lemma {:induction false} FiledAt(acc: map<nat, seq<Step>>, before: map<nat, seq<Step>>, after: map<nat, seq<Step>>,
                                   qps: Step, i: nat, depth: nat, d: nat)
    requires i < |qps.thens|
    requires StepsAt(before, d) == StepsAt(acc, d) + LevelOfFirst(qps, i, d - depth)
    requires StepsAt(after, d) == StepsAt(before, d) + if d < depth + 1 then [] else LevelOf(qps.thens[i], d - depth - 1)
    ensures StepsAt(after, d) == StepsAt(acc, d) + LevelOfFirst(qps, i + 1, d - depth)
  {
    LevelOfOneMore(qps, i, d - depth);
    Regroup(StepsAt(acc, d), LevelOfFirst(qps, i, d - depth), if d < depth + 1 then [] else LevelOf(qps.thens[i], d - depth - 1));
  }

  lemma {:induction false} LevelOfOneMore(qps: Step, i: nat, k: int)
    requires i < |qps.thens|
    ensures LevelOfFirst(qps, i + 1, k) == LevelOfFirst(qps, i, k) + if k < 1 then [] else LevelOf(qps.thens[i], k - 1)
  {
    assert qps.thens[..i + 1][..i] == qps.thens[..i];
  }

  /** The largest key, visiting the keys in any order. */
  method Deepest(levels: map<nat, seq<Step>>) returns (deepest: nat)
    ensures forall d :: d in levels ==> d <= deepest
    ensures levels != map[] ==> deepest in levels
  {
    deepest := 0;
    var left := levels.Keys;
    while left != {}
      invariant left <= levels.Keys
      invariant forall d :: d in levels && d !in left ==> d <= deepest
      invariant deepest in levels || (deepest == 0 && left == levels.Keys)
      decreases left
    {
      var d :| d in left;
      if d > deepest || deepest !in levels {
        deepest := if d > deepest then d else deepest;
      }
      left := left - {d};
    }
  }

  lemma LevelsReachDown(roots: seq<Step>, levels: map<nat, seq<Step>>, deepest: nat)
    requires roots != []
    requires forall d :: d in levels ==> levels[d] != []
    requires forall d: nat :: StepsAt(levels, d) == Level(roots, d)
    requires forall d :: d in levels ==> d <= deepest
    requires levels != map[] ==> deepest in levels
    ensures forall d: nat :: d in levels <==> d <= deepest
  {
    LevelZero(roots);
    assert StepsAt(levels, 0) != [];
    forall d: nat | d <= deepest
      ensures d in levels
    {
      assert StepsAt(levels, deepest) == Level(roots, deepest) && StepsAt(levels, d) == Level(roots, d);
      if Level(roots, d) == [] {
        NoGaps(roots, d, deepest);
      }
    }
  }
}
