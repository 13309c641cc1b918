/** One level of execution (executor/depth_executor.go and its parse and next-requests files), in any order. */
module DepthExecutor {
  import opened Prelude
  import opened Async
  import opened AsyncMapReduce
  import opened Json
  import opened Schema
  import opened Selection
  import opened InsertionPoints
  import opened FindPoints
  import opened Requests
  import opened Service
  import opened Dedup

  /** What is stitched where. */
  datatype ExecutionResult = ExecutionResult(ip: seq<string>, result: Object)

  datatype DepthExecutorResponse = DepthExecutorResponse(results: seq<ExecutionResult>, next: seq<Request>)

  /** What everything below the gateway reads while a plan is executed. */
  datatype Env = Env(services: Services, parentTypeOf: Json -> Option<string>, digest: seq<Sel> -> Digest, variables: Object)

  const EMPTY: DepthExecutorResponse := DepthExecutorResponse([], [])

  function SingleIn(env: Env, r: Request): Result<Outcome> {
    Single(env.services, env.parentTypeOf, env.variables, r)
  }

  /** parseRespones for one response. */
  function Parse(q: QueryerResponse): Result<Outcome> {
    var result :- Unwrap(q.request.step.parentType, q.response);
    var next :- NextRequests(q.request.ip, q.request.step.sel, q.request.step.thens, result);
    Ok(Outcome(result, next))
  }

  /** findNextExecutionRequestsWithCache: insertion points are looked up once per distinct target path, for which Points.CacheKey stands. */
  method FindNextExecutionRequestsWithCache(ip: seq<string>, sent: seq<Sel>, thens: seq<Step>, result: Object)
    returns (r: Result<seq<Request>>)
    ensures r == NextRequests(ip, sent, thens, result)
  {
    var next: seq<Request> := [];
    var cache: map<seq<string>, seq<seq<string>>> := map[];
    for i := 0 to |thens|
      invariant NextRequests(ip, sent, thens[..i], result) == Ok(next)
      invariant forall key :: key in cache ==> Find(key, sent, result, [ip]) == Ok(cache[key])
      invariant forall j :: i <= j <= |thens| ==>
                  (NextRequests(ip, sent, thens[..i], result).Err? ==>
                     NextRequests(ip, sent, thens[..j], result) == NextRequests(ip, sent, thens[..i], result))
    {
      var dependent := thens[i];
      var points;
      if dependent.ip in cache {
        points := Ok(cache[dependent.ip]);
      } else {
        points := FindInsertionPoints(dependent.ip, sent, result, [ip]);
      }
      assert thens[..i + 1][..i] == thens[..i];
      if points.Err? {
        FirstError(ip, sent, thens, result, i + 1, |thens|);
        assert thens[..|thens|] == thens;
        return Err(points.reason);
      }
      cache := cache[dependent.ip := points.value];
      next := next + RequestsAt(dependent, points.value);
    }
    assert thens[..|thens|] == thens;
    return Ok(next);
  }

  /** The first error is the result. */
  lemma {:induction false} FirstError(ip: seq<string>, sent: seq<Sel>, thens: seq<Step>, result: Object, i: nat, j: nat)
    requires i <= j <= |thens| && NextRequests(ip, sent, thens[..i], result).Err?
    ensures NextRequests(ip, sent, thens[..j], result) == NextRequests(ip, sent, thens[..i], result)
    decreases j
  {
    if i < j {
      assert thens[..j][..j - 1] == thens[..j - 1];
      FirstError(ip, sent, thens, result, i, j - 1);
    }
  }

  /** The requests of one dependent step. */
  function PointsFor(ip: seq<string>, sent: seq<Sel>, child: Step, result: Object): Result<seq<Request>> {
    var points :- Find(child.ip, sent, result, [ip]);
    Ok(RequestsAt(child, points))
  }

  /** All dependent steps' requests, found or not. */
  function MappedPoints(ip: seq<string>, sent: seq<Sel>, thens: seq<Step>, result: Object): (mapped: seq<Result<seq<Request>>>)
    ensures |mapped| == |thens|
  {
    seq(|thens|, i requires 0 <= i < |thens| => PointsFor(ip, sent, thens[i], result))
  }

  function Values<T>(mapped: seq<Result<T>>): (values: seq<T>)
    requires forall i :: 0 <= i < |mapped| ==> mapped[i].Ok?
    ensures |values| == |mapped| && forall i :: 0 <= i < |values| ==> mapped[i] == Ok(values[i])
  {
    seq(|mapped|, i requires 0 <= i < |mapped| => mapped[i].value)
  }

  ghost predicate AllOk<T>(mapped: seq<Result<T>>) {
    forall i :: 0 <= i < |mapped| ==> mapped[i].Ok?
  }

  /** The plain search is the flattening of the steps' own searches. */
  lemma {:induction false} NextIsFlat(ip: seq<string>, sent: seq<Sel>, thens: seq<Step>, result: Object)
    ensures var mapped := MappedPoints(ip, sent, thens, result);
            && (NextRequests(ip, sent, thens, result).Ok? <==> AllOk(mapped))
            && (AllOk(mapped) ==> NextRequests(ip, sent, thens, result) == Ok(Flatten(Values(mapped))))
  {
    if thens != [] {
      var before, last := thens[..|thens| - 1], thens[|thens| - 1];
      var mapped, front := MappedPoints(ip, sent, thens, result), MappedPoints(ip, sent, before, result);
      NextIsFlat(ip, sent, before, result);
      var own := PointsFor(ip, sent, last, result);
      assert mapped == front + [own];
      assert AllOk(mapped) <==> AllOk(front) && own.Ok? by {
        assert forall i :: 0 <= i < |front| ==> mapped[i] == front[i];
        assert mapped[|front|] == own;
      }
      if AllOk(mapped) {
        assert Values(mapped) == Values(front) + [own.value];
        FlattenAppend(Values(front), own.value);
      }
    }
  }

  /** findNextExecutionRequestsAsync: the dependent steps finish in any order. */
  method FindNextExecutionRequestsAsync(ip: seq<string>, sent: seq<Sel>, thens: seq<Step>, result: Object)
    returns (r: Result<seq<Request>>)
    ensures r.Ok? <==> NextRequests(ip, sent, thens, result).Ok?
    ensures r.Ok? ==> multiset(r.value) == multiset(NextRequests(ip, sent, thens, result).value)
  {
    var mapped: seq<Result<seq<Request>>> := [];
    for i := 0 to |thens|
      invariant |mapped| == i && forall j :: 0 <= j < i ==> mapped[j] == PointsFor(ip, sent, thens[j], result)
    {
      var points := FindInsertionPoints(thens[i].ip, sent, result, [ip]);
      mapped := mapped + [if points.Ok? then Ok(RequestsAt(thens[i], points.value)) else Err(points.reason)];
    }
    assert mapped == MappedPoints(ip, sent, thens, result);
    NextIsFlat(ip, sent, thens, result);
    ghost var tags := seq(|mapped|, i requires 0 <= i < |mapped| => if mapped[i].Ok? then mapped[i].value else []);
    ghost var arrived;
    var gathered;
    ghost var values;
    gathered, values, arrived := Gather(mapped, [], Concatenated, tags);
    if gathered.Err? {
      return Err(gathered.reason);
    }
    assert tags == Values(mapped);
    assert values == arrived;
    FlattenPermuted(values, tags);
    FoldedIsFlat(values);
    return Ok(gathered.value);
  }

  function Concatenated(acc: seq<Request>, value: seq<Request>): seq<Request> {
    acc + value
  }

  lemma {:induction false} FoldedIsFlat(values: seq<seq<Request>>)
    ensures Folded([], Concatenated, values) == Flatten(values)
  {
    if values != [] {
      FoldedIsFlat(values[..|values| - 1]);
    }
  }

  method FindNextExecutionRequests(ip: seq<string>, step: Step, result: Object) returns (r: Result<seq<Request>>)
    ensures r.Ok? <==> NextRequests(ip, step.sel, step.thens, result).Ok?
    ensures r.Ok? ==> multiset(r.value) == multiset(NextRequests(ip, step.sel, step.thens, result).value)
  {
    if |step.thens| == 0 {
      return Ok([]);
    }
    if |ip| == 0 {
      r := FindNextExecutionRequestsWithCache(ip, step.sel, step.thens, result);
    } else {
      r := FindNextExecutionRequestsAsync(ip, step.sel, step.thens, result);
    }
  }

  /** The requests that follow from one response. */
  function Followers(q: QueryerResponse): seq<Request> {
    var o := Parse(q);
    if o.Ok? then o.value.next else []
  }

  function Stitches(q: QueryerResponse): ExecutionResult {
    var o := Parse(q);
    ExecutionResult(q.request.ip, if o.Ok? then o.value.result else map[])
  }

  function NextBag(order: seq<QueryerResponse>): multiset<Request> {
    if order == [] then multiset{} else NextBag(order[..|order| - 1]) + multiset(Followers(order[|order| - 1]))
  }

  /** The response gathered from some queryer responses, in the order they were gathered. */
  ghost predicate Gathered(order: seq<QueryerResponse>, resp: DepthExecutorResponse) {
    && |resp.results| == |order|
    && (forall i :: 0 <= i < |order| ==> resp.results[i] == Stitches(order[i]))
    && multiset(resp.next) == NextBag(order)
  }

  function Appended(x: DepthExecutorResponse, y: DepthExecutorResponse): DepthExecutorResponse {
    DepthExecutorResponse(x.results + y.results, x.next + y.next)
  }

  lemma {:induction false} NextBagAppend(a: seq<QueryerResponse>, b: seq<QueryerResponse>)
    ensures NextBag(a + b) == NextBag(a) + NextBag(b)
  {
    if b == [] {
      assert a + b == a;
    } else {
      assert (a + b)[..|a + b| - 1] == a + b[..|b| - 1];
      NextBagAppend(a, b[..|b| - 1]);
    }
  }

  lemma GatheredAppend(a: seq<QueryerResponse>, x: DepthExecutorResponse, b: seq<QueryerResponse>, y: DepthExecutorResponse)
    requires Gathered(a, x) && Gathered(b, y)
    ensures Gathered(a + b, Appended(x, y))
  {
    NextBagAppend(a, b);
    forall i | 0 <= i < |a + b|
      ensures (x.results + y.results)[i] == Stitches((a + b)[i])
    {
      if i < |a| {
        assert (a + b)[i] == a[i];
      } else {
        assert (a + b)[i] == b[i - |a|];
      }
    }
  }

  /** The work of one response: its result, and its next requests in some order. */
  method ParseResponse(q: QueryerResponse) returns (r: Result<DepthExecutorResponse>)
    ensures r.Ok? <==> Parse(q).Ok?
    ensures r.Ok? ==> Gathered([q], r.value)
  {
    var result := Unwrap(q.request.step.parentType, q.response);
    if result.Err? {
      return Err(result.reason);
    }
    var next := FindNextExecutionRequests(q.request.ip, q.request.step, result.value);
    if next.Err? {
      return Err(next.reason);
    }
    assert [q][..0] == [];
    assert NextBag([q]) == multiset(Followers(q));
    return Ok(DepthExecutorResponse([ExecutionResult(q.request.ip, result.value)], next.value));
  }

  /** Responses gathered from the parts that arrived, each part gathered from its tag. */
  lemma {:induction false} GatheredFlat(parts: seq<seq<QueryerResponse>>, resps: seq<DepthExecutorResponse>)
    requires |parts| == |resps| && forall i :: 0 <= i < |parts| ==> Gathered(parts[i], resps[i])
    ensures Gathered(Flatten(parts), Reduced(resps))
  {
    if parts != [] {
      var n := |parts| - 1;
      GatheredFlat(parts[..n], resps[..n]);
      GatheredAppend(Flatten(parts[..n]), Reduced(resps[..n]), parts[n], resps[n]);
    }
  }

  /** The reduce function folded over the arrivals. */
  function Reduced(resps: seq<DepthExecutorResponse>): DepthExecutorResponse {
    if resps == [] then EMPTY
    else Appended(Reduced(resps[..|resps| - 1]), resps[|resps| - 1])
  }

  lemma {:induction false} FoldedIsReduced(resps: seq<DepthExecutorResponse>)
    ensures Folded(EMPTY, Appended, resps) == Reduced(resps)
  {
    if resps != [] {
      FoldedIsReduced(resps[..|resps| - 1]);
    }
  }

  /** A response parsed alone. */
  ghost predicate ParsedAs(q: QueryerResponse, r: Result<DepthExecutorResponse>) {
    (r.Ok? <==> Parse(q).Ok?) && (r.Ok? ==> Gathered([q], r.value))
  }

  lemma AllParsed(qResps: seq<QueryerResponse>, mapped: seq<Result<DepthExecutorResponse>>)
    requires |mapped| == |qResps| && forall j :: 0 <= j < |mapped| ==> ParsedAs(qResps[j], mapped[j])
    ensures (forall j :: 0 <= j < |mapped| ==> mapped[j].Ok?) <==> forall q :: q in qResps ==> Parse(q).Ok?
    ensures forall j :: 0 <= j < |qResps| && mapped[j].Ok? ==> Gathered([qResps[j]], mapped[j].value)
  {
    if forall j :: 0 <= j < |mapped| ==> mapped[j].Ok? {
      forall q | q in qResps
        ensures Parse(q).Ok?
      {
        var j :| 0 <= j < |qResps| && qResps[j] == q;
        assert ParsedAs(qResps[j], mapped[j]);
      }
    } else {
      var j :| 0 <= j < |mapped| && !mapped[j].Ok?;
      assert ParsedAs(qResps[j], mapped[j]) && qResps[j] in qResps;
    }
  }

  /** parseRespones: responses are parsed and gathered in any order; one failure fails them all. */
  method ParseResponses(qResps: seq<QueryerResponse>) returns (r: Result<DepthExecutorResponse>,
                        ghost order: seq<QueryerResponse>)
    ensures r.Ok? <==> forall q :: q in qResps ==> Parse(q).Ok?
    ensures r.Ok? ==> multiset(order) == multiset(qResps) && Gathered(order, r.value)
  {
    var mapped: seq<Result<DepthExecutorResponse>> := [];
    for i := 0 to |qResps|
      invariant |mapped| == i && forall j :: 0 <= j < i ==> ParsedAs(qResps[j], mapped[j])
    {
      var resp := ParseResponse(qResps[i]);
      mapped := mapped + [resp];
    }
    AllParsed(qResps, mapped);
    ghost var tags := seq(|qResps|, i requires 0 <= i < |qResps| => [qResps[i]]);
    var gathered;
    ghost var arrived;
    ghost var values;
    gathered, values, arrived := Gather(mapped, EMPTY, Appended, tags);
    if gathered.Err? {
      return Err(gathered.reason), [];
    }
    ResponsesArrived(qResps, mapped, tags, values, arrived);
    FoldedIsReduced(values);
    return Ok(gathered.value), Flatten(arrived);
  }

  /** Every response has arrived once, in some order. */
  lemma {:induction false} ResponsesArrived(qResps: seq<QueryerResponse>, mapped: seq<Result<DepthExecutorResponse>>,
                                        tags: seq<seq<QueryerResponse>>,
                                            values: seq<DepthExecutorResponse>, arrived: seq<seq<QueryerResponse>>)
    requires |mapped| == |qResps| == |tags| && |values| == |arrived| && multiset(arrived) == multiset(tags)
    requires tags == seq(|qResps|, i requires 0 <= i < |qResps| => [qResps[i]])
    requires forall j :: 0 <= j < |qResps| && mapped[j].Ok? ==> Gathered([qResps[j]], mapped[j].value)
    requires forall i :: 0 <= i < |arrived| ==> ArrivedFrom(mapped, tags, values[i], arrived[i])
    ensures multiset(Flatten(arrived)) == multiset(qResps) && Gathered(Flatten(arrived), Reduced(values))
  {
    forall i | 0 <= i < |arrived|
      ensures Gathered(arrived[i], values[i])
    {
      assert ArrivedFrom(mapped, tags, values[i], arrived[i]);
    }
    GatheredFlat(arrived, values);
    FlattenPermuted(arrived, tags);
    FlattenSingletons(qResps);
  }

  lemma {:induction false} FlattenSingletons(s: seq<QueryerResponse>)
    ensures Flatten(seq(|s|, i requires 0 <= i < |s| => [s[i]])) == s
  {
    var parts := seq(|s|, i requires 0 <= i < |s| => [s[i]]);
    if s != [] {
      var front := s[..|s| - 1];
      FlattenSingletons(front);
      assert parts[..|s| - 1] == seq(|front|, i requires 0 <= i < |front| => [front[i]]);
    }
  }

  /** Each request with the answer it receives alone. */
  function Responses(env: Env, ers: seq<Request>): (qs: seq<QueryerResponse>)
    ensures |qs| == |ers|
  {
    seq(|ers|, i requires 0 <= i < |ers| => ResponseTo(env, ers[i]))
  }

  function ResponseTo(env: Env, r: Request): QueryerResponse {
    var response := Alone(env.services, env.parentTypeOf, env.variables, r);
    QueryerResponse(r, if response.Ok? then response.value else map[])
  }

  function RequestsOf(qs: seq<QueryerResponse>): (ers: seq<Request>)
    ensures |ers| == |qs|
  {
    seq(|qs|, i requires 0 <= i < |qs| => qs[i].request)
  }

  lemma ParseIsSingle(env: Env, r: Request)
    requires Alone(env.services, env.parentTypeOf, env.variables, r).Ok?
    ensures Parse(ResponseTo(env, r)) == SingleIn(env, r)
  {
  }

  lemma {:induction false} RequestsPermuted(a: seq<QueryerResponse>, b: seq<QueryerResponse>)
    requires multiset(a) == multiset(b)
    ensures multiset(RequestsOf(a)) == multiset(RequestsOf(b))
    decreases |a|
  {
    if a == [] {
      assert |multiset(b)| == 0;
    } else {
      var front, last := a[..|a| - 1], a[|a| - 1];
      assert a == front + [last];
      var k := LastIn(a, b);
      RequestsPermuted(front, Without(b, k));
      assert RequestsOf(a) == RequestsOf(front) + [last.request];
      assert RequestsOf(Without(b, k)) == Without(RequestsOf(b), k);
    }
  }

  /** A response made of the outcomes the requests of order have alone, in that order. */
  ghost predicate Executed(env: Env, order: seq<Request>, resp: DepthExecutorResponse) {
    && (forall i :: 0 <= i < |order| ==> SingleIn(env, order[i]).Ok?)
    && Gathered(Responses(env, order), resp)
  }

  /** One service's share of a level: executeRequests, then parseRespones. */
  method ExecuteGroup(env: Env, group: seq<Request>) returns (r: Result<DepthExecutorResponse>, ghost order: seq<Request>)
    requires Batchable(env.digest, group)
    ensures r.Ok? <==> forall i :: 0 <= i < |group| ==> SingleIn(env, group[i]).Ok?
    ensures r.Ok? ==> multiset(order) == multiset(group) && Executed(env, order, r.value)
  {
    var q := new Queryer(if |group| == 0 then "" else group[0].step.url, env.services);
    var qResps := ExecuteRequests(q, env.parentTypeOf, env.digest, env.variables, group);
    if qResps.Err? {
      return Err(qResps.reason), [];
    }
    var resps := qResps.value;
    assert resps == Responses(env, group);
    forall i | 0 <= i < |group|
      ensures Parse(resps[i]) == SingleIn(env, group[i])
    {
      ParseIsSingle(env, group[i]);
    }
    ghost var arrived;
    r, arrived := ParseResponses(resps);
    order := RequestsOf(arrived);
    if r.Ok? {
      OrderExecuted(env, group, arrived, r.value);
    }
  }

  lemma OrderExecuted(env: Env, group: seq<Request>, arrived: seq<QueryerResponse>, resp: DepthExecutorResponse)
    requires forall i :: 0 <= i < |group| ==> SingleIn(env, group[i]).Ok?
    requires multiset(arrived) == multiset(Responses(env, group)) && Gathered(arrived, resp)
    ensures multiset(RequestsOf(arrived)) == multiset(group)
    ensures Executed(env, RequestsOf(arrived), resp)
  {
    var resps := Responses(env, group);
    RequestsPermuted(arrived, resps);
    assert RequestsOf(resps) == group;
    forall i | 0 <= i < |arrived|
      ensures arrived[i].request in group && arrived[i] == ResponseTo(env, arrived[i].request)
    {
      assert arrived[i] in multiset(resps);
    }
    assert Responses(env, RequestsOf(arrived)) == arrived;
  }

  ghost predicate SameURL(group: seq<Request>) {
    forall i, j :: 0 <= i < |group| && 0 <= j < |group| ==> group[i].step.url == group[j].step.url
  }

  /** One non-empty group for each service. */
  ghost predicate OnePerService(groups: seq<seq<Request>>) {
    && (forall i :: 0 <= i < |groups| ==> groups[i] != [] && SameURL(groups[i]))
    && (forall i, j :: 0 <= i < j < |groups| ==> groups[i][0].step.url != groups[j][0].step.url)
  }

  /** Position of the group for a service, or the number of groups. */
  function FindGroup(groups: seq<seq<Request>>, url: string): (k: nat)
    requires forall i :: 0 <= i < |groups| ==> groups[i] != []
    ensures k <= |groups|
    ensures k < |groups| ==> groups[k][0].step.url == url
    ensures forall j :: 0 <= j < k ==> groups[j][0].step.url != url
  {
    if groups == [] || groups[0][0].step.url == url then 0 else 1 + FindGroup(groups[1..], url)
  }

  lemma GroupGrows(groups: seq<seq<Request>>, k: nat, r: Request)
    requires k < |groups|
    ensures multiset(Flatten(groups[k := groups[k] + [r]])) == multiset(Flatten(groups)) + multiset{r}
  {
    var more := groups[k := groups[k] + [r]];
    FlattenWithout(groups, k);
    FlattenWithout(more, k);
    assert Without(groups, k) == Without(more, k);
  }

  lemma StillOnePerService(groups: seq<seq<Request>>, k: nat, r: Request)
    requires OnePerService(groups) && k < |groups| && groups[k][0].step.url == r.step.url
    ensures OnePerService(groups[k := groups[k] + [r]])
  {
    var more := groups[k := groups[k] + [r]];
    assert more[k][0] == groups[k][0];
    assert forall i :: 0 <= i < |groups[k]| ==> groups[k][i].step.url == groups[k][0].step.url;
    assert SameURL(more[k]);
  }

  lemma OneMoreService(groups: seq<seq<Request>>, r: Request)
    requires OnePerService(groups) && forall j :: 0 <= j < |groups| ==> groups[j][0].step.url != r.step.url
    ensures OnePerService(groups + [[r]])
  {
    var more := groups + [[r]];
    forall i | 0 <= i < |more|
      ensures more[i] != [] && SameURL(more[i])
    {
      assert more[i] == if i < |groups| then groups[i] else [r];
    }
  }

  /** lo.PartitionBy with the URL as key: one non-empty group for each service, together all requests. */
  method PartitionByURL(ers: seq<Request>) returns (groups: seq<seq<Request>>)
    ensures OnePerService(groups)
    ensures multiset(Flatten(groups)) == multiset(ers)
  {
    groups := [];
    for n := 0 to |ers|
      invariant OnePerService(groups)
      invariant multiset(Flatten(groups)) == multiset(ers[..n])
    {
      PrefixBag(ers, n);
      var k := FindGroup(groups, ers[n].step.url);
      if k < |groups| {
        GroupGrows(groups, k, ers[n]);
        StillOnePerService(groups, k, ers[n]);
        groups := groups[k := groups[k] + [ers[n]]];
      } else {
        FlattenBag(groups, [ers[n]]);
        OneMoreService(groups, ers[n]);
        groups := groups + [[ers[n]]];
      }
    }
    assert ers[..|ers|] == ers;
  }

  /** A level as plans produce it: bare requests only at a root, and queries told apart by their digests. */
  ghost predicate Sendable(digest: seq<Sel> -> Digest, ers: seq<Request>) {
    && (forall r :: r in ers ==> IsRoot(r.step.parentType) || r.ip != [])
    && (forall r, s :: r in ers && s in ers && digest(r.step.sel) == digest(s.step.sel) ==> r.step.sel == s.step.sel)
  }

  lemma {:induction false} GroupBatchable(digest: seq<Sel> -> Digest, ers: seq<Request>, groups: seq<seq<Request>>,
                                        g: seq<Request>)
    requires Sendable(digest, ers) && multiset(Flatten(groups)) == multiset(ers) && g in groups && SameURL(g)
    ensures Batchable(digest, g)
    ensures forall r :: r in g ==> r in ers
  {
    forall r | r in g
      ensures r in ers
    {
      InFlatten(groups, r);
      assert r in multiset(Flatten(groups));
    }
    forall i | 0 <= i < |g|
      ensures g[i] in g
    {
    }
  }

  lemma {:induction false} ResponsesFlat(env: Env, orders: seq<seq<Request>>)
    ensures Flatten(seq(|orders|, i requires 0 <= i < |orders| => Responses(env, orders[i]))) == Responses(env, Flatten(orders))
  {
    var parts := seq(|orders|, i requires 0 <= i < |orders| => Responses(env, orders[i]));
    if orders != [] {
      var n := |orders| - 1;
      ResponsesFlat(env, orders[..n]);
      assert parts[..n] == seq(n, i requires 0 <= i < n => Responses(env, orders[..n][i]));
      ResponsesAppend(env, Flatten(orders[..n]), orders[n]);
    }
  }

  lemma ResponsesAppend(env: Env, a: seq<Request>, b: seq<Request>)
    ensures Responses(env, a + b) == Responses(env, a) + Responses(env, b)
  {
  }

  lemma {:induction false} ExecutedFlat(env: Env, orders: seq<seq<Request>>, resps: seq<DepthExecutorResponse>)
    requires |orders| == |resps| && forall i :: 0 <= i < |orders| ==> Executed(env, orders[i], resps[i])
    ensures Executed(env, Flatten(orders), Reduced(resps))
  {
    var parts := seq(|orders|, i requires 0 <= i < |orders| => Responses(env, orders[i]));
    GatheredFlat(parts, resps);
    ResponsesFlat(env, orders);
    forall i | 0 <= i < |Flatten(orders)|
      ensures SingleIn(env, Flatten(orders)[i]).Ok?
    {
      InFlatten(orders, Flatten(orders)[i]);
      var k :| 0 <= k < |orders| && Flatten(orders)[i] in orders[k];
    }
  }

  /** What became of a group: its own failure, or the outcomes of its requests in some order. */
  ghost predicate GroupDone(env: Env, group: seq<Request>, resp: Result<DepthExecutorResponse>, order: seq<Request>) {
    && (resp.Ok? <==> forall q :: q in group ==> SingleIn(env, q).Ok?)
    && (resp.Ok? ==> multiset(order) == multiset(group) && Executed(env, order, resp.value))
  }

  /** The map function of DepthExecutor.Execute on every group. */
  method ExecuteGroups(env: Env, ers: seq<Request>, groups: seq<seq<Request>>)
    returns (mapped: seq<Result<DepthExecutorResponse>>, ghost tags: seq<seq<Request>>)
    requires Sendable(env.digest, ers) && OnePerService(groups) && multiset(Flatten(groups)) == multiset(ers)
    ensures |mapped| == |tags| == |groups|
    ensures forall j :: 0 <= j < |groups| ==> GroupDone(env, groups[j], mapped[j], tags[j])
  {
    mapped, tags := [], [];
    for k := 0 to |groups|
      invariant |mapped| == |tags| == k
      invariant forall j :: 0 <= j < k ==> GroupDone(env, groups[j], mapped[j], tags[j])
    {
      GroupBatchable(env.digest, ers, groups, groups[k]);
      var resp;
      ghost var own;
      resp, own := ExecuteGroup(env, groups[k]);
      mapped := mapped + [resp];
      tags := tags + [own];
    }
  }

  /**
   * DepthExecutor.Execute: services are asked in parallel and answer in any order. It fails exactly when there is
   * nothing to do or some request alone would fail; otherwise it returns the outcome of every request, each once.
   */
  method Execute(env: Env, ers: seq<Request>) returns (r: Result<DepthExecutorResponse>, ghost order: seq<Request>)
    requires Sendable(env.digest, ers)
    ensures r.Ok? <==> ers != [] && forall q :: q in ers ==> SingleIn(env, q).Ok?
    ensures r.Ok? ==> multiset(order) == multiset(ers) && Executed(env, order, r.value)
  {
    if |ers| == 0 {
      return Err("empty request list"), [];
    }
    var groups := PartitionByURL(ers);
    var mapped;
    ghost var tags;
    mapped, tags := ExecuteGroups(env, ers, groups);
    EveryGroup(env, ers, groups, mapped, tags);
    var gathered;
    ghost var arrived;
    ghost var values;
    gathered, values, arrived := Gather(mapped, EMPTY, Appended, tags);
    if gathered.Err? {
      return Err(gathered.reason), [];
    }
    GroupsArrived(env, ers, groups, mapped, tags, values, arrived);
    FoldedIsReduced(values);
    return Ok(gathered.value), Flatten(arrived);
  }

  lemma {:induction false} GroupsArrived(env: Env, ers: seq<Request>, groups: seq<seq<Request>>,
                                        mapped: seq<Result<DepthExecutorResponse>>,
                      tags: seq<seq<Request>>, resps: seq<DepthExecutorResponse>, arrived: seq<seq<Request>>)
    requires |mapped| == |tags| == |groups| && |resps| == |arrived|
    requires multiset(Flatten(groups)) == multiset(ers)
    requires forall j :: 0 <= j < |groups| ==> mapped[j].Ok? && GroupDone(env, groups[j], mapped[j], tags[j])
    requires multiset(arrived) == multiset(tags)
    requires forall i :: 0 <= i < |arrived| ==> ArrivedFrom(mapped, tags, resps[i], arrived[i])
    ensures multiset(Flatten(arrived)) == multiset(ers) && Executed(env, Flatten(arrived), Reduced(resps))
  {
    forall i | 0 <= i < |arrived|
      ensures Executed(env, arrived[i], resps[i])
    {
      assert ArrivedFrom(mapped, tags, resps[i], arrived[i]);
    }
    ExecutedFlat(env, arrived, resps);
    FlattenPermuted(arrived, tags);
    FlattenEach(tags, groups);
  }

  lemma {:induction false} EveryGroup(env: Env, ers: seq<Request>, groups: seq<seq<Request>>,
                                      mapped: seq<Result<DepthExecutorResponse>>, tags: seq<seq<Request>>)
    requires |mapped| == |tags| == |groups| && multiset(Flatten(groups)) == multiset(ers)
    requires forall j :: 0 <= j < |groups| ==> GroupDone(env, groups[j], mapped[j], tags[j])
    ensures (forall q :: q in ers ==> SingleIn(env, q).Ok?) <==> forall j :: 0 <= j < |mapped| ==> mapped[j].Ok?
  {
    forall q
      ensures q in ers <==> exists j :: 0 <= j < |groups| && q in groups[j]
    {
      InFlatten(groups, q);
      assert q in ers <==> q in multiset(ers);
      assert q in Flatten(groups) <==> q in multiset(Flatten(groups));
    }
    forall j | 0 <= j < |groups|
      ensures mapped[j].Ok? <==> forall q :: q in groups[j] ==> SingleIn(env, q).Ok?
    {
      assert GroupDone(env, groups[j], mapped[j], tags[j]);
    }
  }

  /** Permuting inside the parts permutes the whole. */
  lemma {:induction false} FlattenEach(a: seq<seq<Request>>, b: seq<seq<Request>>)
    requires |a| == |b| && forall i :: 0 <= i < |a| ==> multiset(a[i]) == multiset(b[i])
    ensures multiset(Flatten(a)) == multiset(Flatten(b))
  {
    if a != [] {
      FlattenEach(a[..|a| - 1], b[..|b| - 1]);
    }
  }
}
