/** gateway.go from a validated query to its data: sanitize, plan, execute, clean. The result is direct evaluation. */
module Gateway {
  import opened Prelude
  import opened Json
  import opened Schema
  import opened Selection
  import opened SequentialPlanner
  import opened Evaluation
  import opened Findable
  import opened Progress
  import opened Service
  import opened Dedup
  import opened DepthExecutor
  import opened Runs
  import opened RootPlan
  import opened Scrubbing
  import opened Sanitizing
  import opened SanitizeProofs
  import opened ScrubProofs
  import opened ClientQuery

  /**
   * A client's query the gateway answers faithfully: of object types, no alias the name of an earlier sibling, no
   * stitched key shadowed within a step, and every root field some service's own.
   */
  ghost predicate Supported(ctx: Context, typename: string, query: seq<Sel>) {
    && IsRoot(typename)
    && query != []
    && Client(ctx, typename, query)
    && Unshadowing(query)
    && Unhidden(ctx, typename, WithIDs(ctx.tum, query), "")
    && Owned(query)
  }

  /** Services and a parent-type function that agree with data of the right types. */
  ghost predicate Backed(ctx: Context, store: Store, typename: string, env: Env) {
    && ContextOk(ctx)
    && StoreOk(ctx, store)
    && typename in store.roots
    && Faithful(ctx, store, typename, env.services)
    && Truthful(store, env.parentTypeOf)
  }

  /** No two queries of one level of the query's plan collide, in whatever order the plan lists its steps. */
  ghost predicate NoCollisions(ctx: Context, typename: string, query: seq<Sel>, digest: seq<Sel> -> Digest) {
    forall locs, steps :: StepsOf(ctx, [], typename, "", WithIDs(ctx.tum, query), locs, steps) ==> ToldApart(digest, steps)
  }

  function RootPlace(ctx: Context, store: Store, typename: string, query: seq<Sel>): Place
    requires typename in store.roots
  {
    Place(typename, store.roots[typename], WithIDs(ctx.tum, query), "")
  }

  /** The sanitized query is what planning and execution need. */
  lemma SanitizedIsServed(ctx: Context, store: Store, typename: string, query: seq<Sel>, env: Env)
    requires Supported(ctx, typename, query) && Backed(ctx, store, typename, env)
    ensures var root := RootPlace(ctx, store, typename, query);
            && Served(ctx, store, root, env)
            && Owned(root.sels)
            && ToFields(root.sels) == root.sels != []
  {
    var root := RootPlace(ctx, store, typename, query);
    ClientShape(ctx, typename, query);
    OwnedHasNoNode(query);
    AnsweringOk(ctx, typename, query, false);
    assert Answering(ctx.tum, query, false) == root.sels;
    assert forall i :: 0 <= i < |query| ==> root.sels[i].name == query[i].name;
    assert Owned(root.sels);
    OwnedHasNoNode(root.sels);
    ToFieldsOfFields(root.sels);
  }

  /** A condition on the query alone that suffices: no stitched key occurs below an earlier sibling, and none is `node`. */
  lemma {:induction false} ClearSuffices(ctx: Context, typename: string, query: seq<Sel>)
    requires Client(ctx, typename, query) && Clear(query) && NODE !in DeepKeys(query)
    ensures Unhidden(ctx, typename, WithIDs(ctx.tum, query), "")
  {
    ClientShape(ctx, typename, query);
    ClearAnswering(ctx.tum, query, false);
    DeepKeysAnswering(ctx.tum, query, false);
    ClearIsUnhidden(ctx, typename, WithIDs(ctx.tum, query), "");
  }

  lemma OwnedHasNoNode(sels: seq<Sel>)
    requires Owned(sels)
    ensures !HasFieldNamed(sels, NODE)
  {
  }

  /** Cleaning the direct evaluation of the sanitized query gives the direct evaluation of the query. */
  lemma {:induction false} CleanedIsAnswer(ctx: Context, store: Store, typename: string, query: seq<Sel>, env: Env,
                                        order: seq<string>)
    requires Supported(ctx, typename, query) && Backed(ctx, store, typename, env)
    requires OrderOf(order, Sanitize(ctx.tum, query, []).scrub)
    ensures var root := RootPlace(ctx, store, typename, query);
            var result := Eval(store, typename, root.m, root.sels);
            && SettledAll(result, order, Sanitize(ctx.tum, query, []).scrub)
            && CleanAll(result, order, Sanitize(ctx.tum, query, []).scrub) == Eval(store, typename, root.m, query)
  {
    var root := RootPlace(ctx, store, typename, query);
    ClientShape(ctx, typename, query);
    SanitizeExact(ctx.tum, query, []);
    assert Answering(ctx.tum, query, false) == root.sels;
    OwnedHasNoNode(query);
    AnsweringOk(ctx, typename, query, false);
    AnsweringTypenames(ctx, typename, query, false);
    EvalShaped(ctx, store, typename, root.m, root.sels);
    forall p | p in Injected(ctx.tum, query)
      ensures Held(Eval(store, typename, root.m, root.sels), p)
    {
      InjectedThrough(ctx.tum, query, p);
      AnsweringThrough(ctx.tum, query, false, p);
      EvalHeld(ctx, store, typename, root.m, root.sels, p);
    }
    CleanRestricts(ctx.tum, typename, query, Eval(store, typename, root.m, root.sels), order);
    RestrictEval(ctx, store, typename, root.m, query, false);
  }

  /** Whatever cleaning leaves of the direct evaluation of the sanitized query is the answer. */
  lemma {:induction false} DataIsAnswer(ctx: Context, store: Store, typename: string, query: seq<Sel>, env: Env,
                                        order: seq<string>, data: Object)
    requires Supported(ctx, typename, query) && Backed(ctx, store, typename, env)
    requires OrderOf(order, Sanitize(ctx.tum, query, []).scrub)
    requires var root := RootPlace(ctx, store, typename, query);
             MayCleanAll(Eval(store, typename, root.m, root.sels), order, Sanitize(ctx.tum, query, []).scrub, data)
    ensures data == Eval(store, typename, store.roots[typename], query)
  {
    var root := RootPlace(ctx, store, typename, query);
    CleanedIsAnswer(ctx, store, typename, query, env, order);
    var result, entries := Eval(store, typename, root.m, root.sels), Sanitize(ctx.tum, query, []).scrub;
    SettledOrderOnce(result, order, entries, data, Eval(store, typename, root.m, query));
  }

  /**
   * Meaning preservation: for every supported query, every data graph and every order in which maps are visited,
   * services answer and results arrive, the gateway returns exactly the direct evaluation of the client's query.
   */
  method Query(ctx: Context, ghost store: Store, typename: string, query: seq<Sel>, env: Env) returns (r: Result<Object>)
    requires Supported(ctx, typename, query) && Backed(ctx, store, typename, env)
    requires NoCollisions(ctx, typename, query, env.digest)
    ensures r == Ok(Eval(store, typename, store.roots[typename], query))
  {
    ghost var root := RootPlace(ctx, store, typename, query);
    SanitizedIsServed(ctx, store, typename, query, env);
    ClientShape(ctx, typename, query);
    SanitizeExact(ctx.tum, query, []);
    var selectionSet, scrubFields := SanitizeSelectionSet(ctx.tum, query, []);
    var steps;
    ghost var locs;
    steps, locs := CreateQueryPlanSteps(ctx, [], typename, "", selectionSet);
    if steps.Err? {
      r := Err(steps.reason);
      PlanningSucceeds(ctx, store, root, steps, locs);
      return;
    }
    PlanningSucceeds(ctx, store, root, steps, locs);
    PlannedWell(ctx, store, root, env.digest, locs, steps.value);
    var result := ExecutePlan(ctx, store, root, env, steps.value);
    if result.Err? {
      return result;
    }
    var data;
    ghost var order;
    data, order := scrubFields.Clean(result.value);
    DataIsAnswer(ctx, store, typename, query, env, order, data);
    return Ok(data);
  }
}
