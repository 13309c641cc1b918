/** The loops of planner/sequential_planner.go, proved against the functions of Planner. */
module SequentialPlanner {
  import opened Prelude
  import opened Schema
  import opened Selection
  import opened Planner
  import opened InsertionPoints

  lemma {:induction false} PrefixSize(sels: seq<Sel>, i: nat)
    requires i <= |sels|
    ensures if i < |sels| then Size(sels[..i]) < Size(sels) else sels[..i] == sels
    decreases |sels| - i
  {
    if i == |sels| {
      assert sels[..i] == sels;
    } else {
      PrefixSize(sels, i + 1);
      assert sels[..i + 1][..i] == sels[..i];
    }
  }

  lemma SubSize(sels: seq<Sel>)
    requires sels != []
    ensures Size(sels[|sels| - 1].sub) < Size(sels)
  {
  }

  /** The first error of the loop is its result. */
  lemma {:induction false} FirstGatherError(ctx: Context, ip: seq<string>, parentType: string, input: seq<Sel>,
                                        location: string, i: nat)
    requires i <= |input| && Gather(ctx, ip, parentType, input[..i], location).Err?
    ensures Gather(ctx, ip, parentType, input, location) == Gather(ctx, ip, parentType, input[..i], location)
    decreases |input| - i
  {
    if i == |input| {
      assert input[..i] == input;
    } else {
      assert input[..i + 1][..i] == input[..i];
      FirstGatherError(ctx, ip, parentType, input, location, i + 1);
    }
  }

  /** extractSelectionSet. */
  method ExtractSelectionSet(ctx: Context, ip: seq<string>, parentType: string, input: seq<Sel>, location: string)
    returns (r: Result<Extracted>)
    requires Sound(ctx.tum) && location != ""
    ensures r == Extract(ctx, ip, parentType, input, location)
    decreases Size(input), Hop(ctx, parentType, input, location), 3
  {
    if parentType !in ctx.types {
      return Err("unable to find type in schema");
    }
    var acc := Extracted([], []);
    for i := 0 to |input|
      invariant Gather(ctx, ip, parentType, input[..i], location) == Ok(acc)
    {
      assert input[..i + 1][..i] == input[..i];
      PrefixSize(input, i + 1);
      var turn := VisitSelection(ctx, ip, parentType, input[..i + 1], location, acc);
      if turn.Err? {
        FirstGatherError(ctx, ip, parentType, input, location, i + 1);
        return Err(turn.reason);
      }
      acc := turn.value;
    }
    assert input[..|input|] == input;
    if NeedsNodeQuery(ctx, parentType, acc.sel) {
      acc := acc.(sel := NodeQuery(parentType, acc.sel));
    }
    return Ok(acc);
  }

  /** The first step for this service at this insertion point, or the number of steps. */
  method FindExistingStep(steps: seq<Step>, url: string, ip: seq<string>) returns (k: nat)
    ensures k == FindStep(steps, url, ip)
  {
    k := 0;
    while k < |steps| && !(steps[k].url == url && steps[k].ip == ip)
      invariant k <= |steps|
      invariant FindStep(steps, url, ip) == k + FindStep(steps[k..], url, ip)
    {
      assert steps[k..][1..] == steps[k + 1..];
      k := k + 1;
    }
  }

  /** The body of extractSelectionSet's loop, for the last element of input. */
  method VisitSelection(ctx: Context, ip: seq<string>, parentType: string, input: seq<Sel>, location: string, acc: Extracted)
    returns (r: Result<Extracted>)
    requires Sound(ctx.tum) && location != "" && input != []
    ensures r == Visit(ctx, ip, parentType, input, location, acc)
    decreases Size(input), Hop(ctx, parentType, input, location), 2
  {
    var s := input[|input| - 1];
    SubSize(input);
    match s
    case Inline(cond, sub) =>
      var inner := ExtractSelectionSet(ctx, ip, cond, sub, location);
      if inner.Err? {
        return Err(inner.reason);
      }
      return Ok(Extracted(acc.sel + [Inline(cond, inner.value.sel)], acc.steps + inner.value.steps));
    case Field(alias, name, _, typ, sub) =>
      var loc := GetURL(ctx.tum, parentType, name, location);
      if loc.Err? {
        return Ok(acc.(sel := acc.sel + [s]));
      }
      if loc.value == location {
        if sub == [] {
          return Ok(acc.(sel := acc.sel + [s]));
        }
        var inner := ExtractSelectionSet(ctx, ip + [alias], typ.name, sub, location);
        if inner.Err? {
          return Err(inner.reason);
        }
        return Ok(Extracted(acc.sel + [WithSub(s, inner.value.sel)], acc.steps + inner.value.steps));
      }
      r := RouteField(ctx, ip, parentType, input, location, acc, loc.value);
  }

  /** A field of another service: merged into an existing step, or the start of a new one. */
  method RouteField(ctx: Context, ip: seq<string>, parentType: string, input: seq<Sel>, location: string,
                    acc: Extracted, loc: string)
    returns (r: Result<Extracted>)
    requires Sound(ctx.tum) && location != "" && input != [] && input[|input| - 1].Field?
    requires GetURL(ctx.tum, parentType, input[|input| - 1].name, location) == Ok(loc) && loc != location
    ensures r == Visit(ctx, ip, parentType, input, location, acc)
    decreases Size(input), Hop(ctx, parentType, input, location), 1
  {
    var s := input[|input| - 1];
    SubSize(input);
    assert loc != "";
    var k := FindExistingStep(acc.steps, loc, ip);
    if k < |acc.steps| {
      var modified, more := s, [];
      if s.sub != [] {
        var inner := ExtractSelectionSet(ctx, ip + [s.alias], s.typ.name, s.sub, loc);
        if inner.Err? {
          return Err(inner.reason);
        }
        modified, more := WithSub(s, inner.value.sel), inner.value.steps;
      }
      return Ok(acc.(steps := acc.steps[k := AddToStep(parentType, acc.steps[k], modified, more)]));
    }
    SizeOfOne(s);
    assert if |input| == 1 then input == [s] else Size(input[..|input| - 1]) > 0;
    var steps;
    ghost var locs;
    steps, locs := CreateQueryPlanSteps(ctx, ip, parentType, location, [s]);
    AloneSteps(ctx, ip, parentType, input, location, steps, locs);
    if steps.Err? {
      return Err(steps.reason);
    }
    return Ok(acc.(steps := acc.steps + steps.value));
  }

  /** Where createQueryPlanSteps sends a field: the empty parent location stands for the root. */
  predicate RoutesTo(tum: TypeURLMap, parentType: string, parentLocation: string, f: Sel, loc: string) {
    && f.Field?
    && if parentLocation == "" then GetURL(tum, parentType, f.name, INTERNAL_SERVICE) == Ok(loc)
       else !IsBuiltin(f.name) && Get(tum, parentType, f.name) == Some(loc)
  }

  function RoutedTo(tum: TypeURLMap, parentType: string, parentLocation: string, sels: seq<Sel>, loc: string): (routed: seq<Sel>)
    ensures Size(routed) <= Size(sels)
    ensures forall f :: f in routed <==> f in sels && RoutesTo(tum, parentType, parentLocation, f, loc)
  {
    if sels == [] then []
    else
      var front, f := sels[..|sels| - 1], sels[|sels| - 1];
      assert sels == front + [f];
      var routed := RoutedTo(tum, parentType, parentLocation, front, loc);
      if RoutesTo(tum, parentType, parentLocation, f, loc) then
        assert (routed + [f])[..|routed|] == routed;
        routed + [f]
      else routed
  }

  /** A selection with a place to go; below the root, builtin fields are dropped. */
  predicate HasRoute(tum: TypeURLMap, parentType: string, parentLocation: string, f: Sel) {
    && f.Field?
    && if parentLocation == "" then GetURL(tum, parentType, f.name, INTERNAL_SERVICE).Ok?
       else IsBuiltin(f.name) || Get(tum, parentType, f.name).Some?
  }

  predicate Routable(tum: TypeURLMap, parentType: string, parentLocation: string, sels: seq<Sel>) {
    forall i :: 0 <= i < |sels| ==> HasRoute(tum, parentType, parentLocation, sels[i])
  }

  /** A field about the schema itself. */
  predicate Introspects(f: Sel) {
    f.Field? && |f.name| >= 2 && f.name[0] == f.name[1] == '_'
  }

  function Introspecting(sels: seq<Sel>): seq<Sel> {
    if sels == [] then []
    else Introspecting(sels[..|sels| - 1]) + if Introspects(sels[|sels| - 1]) then [sels[|sels| - 1]] else []
  }

  lemma InternalField(tum: TypeURLMap, parentType: string, f: Sel)
    requires Sound(tum)
    ensures RoutesTo(tum, parentType, "", f, INTERNAL_SERVICE) <==> Introspects(f)
    ensures Introspects(f) ==> HasRoute(tum, parentType, "", f)
  {
    if f.Field? && |f.name| >= 2 {
      assert f.name[..2] == [f.name[0], f.name[1]];
    }
  }

  /** At the root, the internal service gets the introspection fields, all of them, in order, and no others. */
  lemma {:induction false} InternalExact(tum: TypeURLMap, parentType: string, sels: seq<Sel>)
    requires Sound(tum)
    ensures RoutedTo(tum, parentType, "", sels, INTERNAL_SERVICE) == Introspecting(sels)
    ensures (forall i :: 0 <= i < |sels| ==> Introspects(sels[i])) ==> Routable(tum, parentType, "", sels)
  {
    forall i | 0 <= i < |sels|
      ensures Introspects(sels[i]) ==> HasRoute(tum, parentType, "", sels[i])
    {
      InternalField(tum, parentType, sels[i]);
    }
    if sels != [] {
      InternalExact(tum, parentType, sels[..|sels| - 1]);
      InternalField(tum, parentType, sels[|sels| - 1]);
    }
  }

  lemma {:induction false} OneMoreRouted(tum: TypeURLMap, parentType: string, parentLocation: string, sels: seq<Sel>, i: nat)
    requires i < |sels|
    ensures Routable(tum, parentType, parentLocation, sels[..i + 1])
            <==> Routable(tum, parentType, parentLocation, sels[..i]) && HasRoute(tum, parentType, parentLocation, sels[i])
    ensures forall loc {:trigger RoutedTo(tum, parentType, parentLocation, sels[..i + 1], loc)} ::
              RoutedTo(tum, parentType, parentLocation, sels[..i + 1], loc)
              == RoutedTo(tum, parentType, parentLocation, sels[..i], loc)
                 + if RoutesTo(tum, parentType, parentLocation, sels[i], loc) then [sels[i]] else []
  {
    assert sels[..i + 1][..i] == sels[..i];
    assert forall j :: 0 <= j < i ==> sels[..i + 1][j] == sels[..i][j];
    assert sels[..i + 1][i] == sels[i];
  }

  /** Each location with the fields that go there, and no location without fields. */
  ghost predicate IsRouting(tum: TypeURLMap, parentType: string, parentLocation: string, sels: seq<Sel>,
                            routing: map<string, seq<Sel>>) {
    forall loc :: if loc in routing then routing[loc] == RoutedTo(tum, parentType, parentLocation, sels, loc) != []
                  else RoutedTo(tum, parentType, parentLocation, sels, loc) == []
  }

  /** What routeSelectionSet promises; with no services at all an unroutable root set goes unnoticed. */
  ghost predicate Routed(tum: TypeURLMap, parentType: string, parentLocation: string, fields: seq<Sel>,
                         r: Result<map<string, seq<Sel>>>) {
    if Routable(tum, parentType, parentLocation, fields) then r.Ok? && IsRouting(tum, parentType, parentLocation, fields, r.value)
    else if parentLocation == "" && URLs(tum) == {} then r == Ok(map[])
    else r.Err?
  }

  /** GetURLs. */
  function URLs(tum: TypeURLMap): (urls: set<string>)
    ensures forall t, f :: t in tum && f in tum[t].fields ==> tum[t].fields[f] in urls
  {
    set t, f | t in tum && f in tum[t].fields :: tum[t].fields[f]
  }

  /** common.SelectionSetToFields without a parent definition. */
  method SelectionSetToFields(sels: seq<Sel>) returns (fields: seq<Sel>)
    ensures fields == ToFields(sels)
    decreases Size(sels)
  {
    fields := [];
    for i := 0 to |sels|
      invariant fields == ToFields(sels[..i])
    {
      assert sels[..i + 1][..i] == sels[..i];
      PrefixSize(sels, i + 1);
      SubSize(sels[..i + 1]);
      match sels[i]
      case Field(_, _, _, _, _) => fields := fields + [sels[i]];
      case Inline(_, sub) =>
        var inner := SelectionSetToFields(sub);
        fields := fields + inner;
    }
    assert sels[..|sels|] == sels;
  }

  /** filterSelectionSetByLoc. */
  method FilterSelectionSetByLoc(ctx: Context, sels: seq<Sel>, loc: string, parentType: string) returns (r: Result<seq<Sel>>)
    ensures r.Ok? <==> Routable(ctx.tum, parentType, "", ToFields(sels))
    ensures r.Ok? ==> r.value == RoutedTo(ctx.tum, parentType, "", ToFields(sels), loc)
  {
    var fields := SelectionSetToFields(sels);
    r := FilterFieldsByLoc(ctx, fields, loc, parentType);
  }

  method FilterFieldsByLoc(ctx: Context, fields: seq<Sel>, loc: string, parentType: string) returns (r: Result<seq<Sel>>)
    requires AllFields(fields)
    ensures r.Ok? <==> Routable(ctx.tum, parentType, "", fields)
    ensures r.Ok? ==> r.value == RoutedTo(ctx.tum, parentType, "", fields, loc)
  {
    var res := [];
    for i := 0 to |fields|
      invariant Routable(ctx.tum, parentType, "", fields[..i])
      invariant res == RoutedTo(ctx.tum, parentType, "", fields[..i], loc)
    {
      OneMoreRouted(ctx.tum, parentType, "", fields, i);
      var fieldLoc := GetURL(ctx.tum, parentType, fields[i].name, INTERNAL_SERVICE);
      if fieldLoc.Err? {
        assert !HasRoute(ctx.tum, parentType, "", fields[i]);
        return Err(fieldLoc.reason);
      }
      if fieldLoc.value == loc {
        res := res + [fields[i]];
      }
    }
    assert fields[..|fields|] == fields;
    return Ok(res);
  }

  /** The visited locations that some field goes to. */
  function Visited(tum: TypeURLMap, parentType: string, fields: seq<Sel>, visited: set<string>): map<string, seq<Sel>> {
    map loc | loc in visited && RoutedTo(tum, parentType, "", fields, loc) != [] :: RoutedTo(tum, parentType, "", fields, loc)
  }

  lemma {:induction false} VisitedOneMore(tum: TypeURLMap, parentType: string, fields: seq<Sel>, visited: set<string>,
                                        loc: string)
    ensures var ss := RoutedTo(tum, parentType, "", fields, loc);
            Visited(tum, parentType, fields, visited + {loc})
            == if ss != [] then Visited(tum, parentType, fields, visited)[loc := ss] else Visited(tum, parentType, fields, visited)
  {
  }

  /** The fields of each service, the services visited in any order. */
  method RouteToServices(ctx: Context, parentType: string, input: seq<Sel>, urls: set<string>)
    returns (r: Result<map<string, seq<Sel>>>)
    ensures r.Ok? <==> urls == {} || Routable(ctx.tum, parentType, "", ToFields(input))
    ensures r.Ok? ==> r.value == Visited(ctx.tum, parentType, ToFields(input), urls)
  {
    ghost var fields := ToFields(input);
    var result: map<string, seq<Sel>> := map[];
    var left := urls;
    ghost var visited: set<string> := {};
    while left != {}
      invariant visited + left == urls
      invariant visited == {} || Routable(ctx.tum, parentType, "", fields)
      invariant result == Visited(ctx.tum, parentType, fields, visited)
      decreases left
    {
      var loc :| loc in left;
      var ss := FilterSelectionSetByLoc(ctx, input, loc, parentType);
      if ss.Err? {
        return Err(ss.reason);
      }
      VisitedOneMore(ctx.tum, parentType, fields, visited, loc);
      if |ss.value| > 0 {
        result := result[loc := ss.value];
      }
      visited := visited + {loc};
      left := left - {loc};
    }
    return Ok(result);
  }

  /** The root branch of routeSelectionSet, for root fields other than node. */
  method RouteRoot(ctx: Context, parentType: string, input: seq<Sel>) returns (r: Result<map<string, seq<Sel>>>)
    requires !HasFieldNamed(ToFields(input), NODE)
    ensures Routed(ctx.tum, parentType, "", ToFields(input), r)
  {
    ghost var fields := ToFields(input);
    var urls := URLs(ctx.tum);
    var result := RouteToServices(ctx, parentType, input, urls);
    if result.Err? {
      return result;
    }
    var ss := FilterSelectionSetByLoc(ctx, input, INTERNAL_SERVICE, parentType);
    if ss.Err? {
      return result;
    }
    VisitedOneMore(ctx.tum, parentType, fields, urls, INTERNAL_SERVICE);
    VisitedAll(ctx.tum, parentType, fields, urls + {INTERNAL_SERVICE});
    return Ok(if |ss.value| > 0 then result.value[INTERNAL_SERVICE := ss.value] else result.value);
  }

  lemma RouteIsURL(tum: TypeURLMap, parentType: string, f: Sel, loc: string)
    requires RoutesTo(tum, parentType, "", f, loc)
    ensures loc == INTERNAL_SERVICE || loc in URLs(tum)
  {
  }

  lemma VisitedAll(tum: TypeURLMap, parentType: string, fields: seq<Sel>, visited: set<string>)
    requires visited == URLs(tum) + {INTERNAL_SERVICE}
    ensures IsRouting(tum, parentType, "", fields, Visited(tum, parentType, fields, visited))
  {
    forall loc
      ensures loc in visited || RoutedTo(tum, parentType, "", fields, loc) == []
    {
      var routed := RoutedTo(tum, parentType, "", fields, loc);
      if routed != [] {
        assert routed[0] in routed;
        RouteIsURL(tum, parentType, routed[0], loc);
      }
    }
  }

  /** What routeSelectionSet looks at: at the root fragments are opened first. */
  function Considered(parentLocation: string, input: seq<Sel>): (fields: seq<Sel>)
    ensures Size(fields) <= Size(input)
  {
    if parentLocation == "" then
      FieldsAreSmaller(input);
      ToFields(input)
    else input
  }

  /** routeSelectionSet. */
  method RouteSelectionSet(ctx: Context, parentType: string, parentLocation: string, input: seq<Sel>)
    returns (r: Result<map<string, seq<Sel>>>)
    requires parentLocation == "" ==> !HasFieldNamed(ToFields(input), NODE)
    ensures Routed(ctx.tum, parentType, parentLocation, Considered(parentLocation, input), r)
  {
    if parentLocation == "" {
      r := RouteRoot(ctx, parentType, input);
      return;
    }
    r := RouteNested(ctx, parentType, parentLocation, input);
  }

  /** The other branch: fields are appended to the set of their service. */
  method RouteNested(ctx: Context, parentType: string, parentLocation: string, input: seq<Sel>)
    returns (r: Result<map<string, seq<Sel>>>)
    requires parentLocation != ""
    ensures Routed(ctx.tum, parentType, parentLocation, input, r)
  {
    var result: map<string, seq<Sel>> := map[];
    for i := 0 to |input|
      invariant Routable(ctx.tum, parentType, parentLocation, input[..i])
      invariant IsRouting(ctx.tum, parentType, parentLocation, input[..i], result)
    {
      OneMoreRouted(ctx.tum, parentType, parentLocation, input, i);
      var s := input[i];
      if s.Inline? {
        return Err("unexpected selection type");
      }
      if !IsBuiltin(s.name) {
        var loc := Get(ctx.tum, parentType, s.name);
        if loc.None? {
          assert !HasRoute(ctx.tum, parentType, parentLocation, s);
          return Err("could not find location");
        }
        result := result[loc.value := (if loc.value in result then result[loc.value] else []) + [s]];
      }
    }
    assert input[..|input|] == input;
    return Ok(result);
  }

  /** The step of one location. */
  function StepOf(ctx: Context, ip: seq<string>, parentType: string, group: seq<Sel>, loc: string): Result<Step> {
    var e :- Extract(ctx, ip, parentType, group, loc);
    Ok(Step(loc, parentType, e.sel, ip, e.steps))
  }

  /** One step for each location that owns some of the fields. */
  ghost predicate StepsOf(ctx: Context, ip: seq<string>, parentType: string, parentLocation: string, fields: seq<Sel>,
                          locs: seq<string>, steps: seq<Step>) {
    && Distinct(locs)
    && |steps| == |locs|
    && (forall loc :: loc in locs <==> RoutedTo(ctx.tum, parentType, parentLocation, fields, loc) != [])
    && (forall i :: 0 <= i < |locs| ==>
          StepOf(ctx, ip, parentType, RoutedTo(ctx.tum, parentType, parentLocation, fields, locs[i]), locs[i]) == Ok(steps[i]))
  }

  ghost predicate FailsAt(ctx: Context, ip: seq<string>, parentType: string, parentLocation: string, fields: seq<Sel>,
                          loc: string, reason: string) {
    var group := RoutedTo(ctx.tum, parentType, parentLocation, fields, loc);
    group != [] && StepOf(ctx, ip, parentType, group, loc) == Err(reason)
  }

  /** createQueryPlanSteps: the locations are visited in any order. */
  method CreateQueryPlanSteps(ctx: Context, ip: seq<string>, parentType: string, parentLocation: string, sels: seq<Sel>)
    returns (r: Result<seq<Step>>, ghost locs: seq<string>)
    requires Sound(ctx.tum) && (parentLocation == "" ==> !HasFieldNamed(ToFields(sels), NODE))
    ensures Planned(ctx, ip, parentType, parentLocation, Considered(parentLocation, sels), r, locs)
    decreases Size(sels), 1, 0
  {
    ghost var fields := Considered(parentLocation, sels);
    locs := [];
    var routing := RouteSelectionSet(ctx, parentType, parentLocation, sels);
    if routing.Err? {
      return Err(routing.reason), locs;
    }
    var result: seq<Step> := [];
    var left := routing.value.Keys;
    while left != {}
      invariant left <= routing.value.Keys
      invariant LocationsDone(ctx, ip, parentType, routing.value, left, locs, result)
      decreases left
    {
      var loc :| loc in left;
      assert Routable(ctx.tum, parentType, parentLocation, fields);
      var group := routing.value[loc];
      RoutedElsewhere(ctx, parentType, parentLocation, fields, loc);
      var e := ExtractSelectionSet(ctx, ip, parentType, group, loc);
      if e.Err? {
        assert FailsAt(ctx, ip, parentType, parentLocation, fields, loc, e.reason);
        return Err(e.reason), locs;
      }
      LocationDone(ctx, ip, parentType, routing.value, left, locs, result, loc);
      result := result + [Step(loc, parentType, e.value.sel, ip, e.value.steps)];
      locs := locs + [loc];
      left := left - {loc};
    }
    assert |locs| > 0 ==> locs[0] in routing.value;
    return Ok(result), locs;
  }

  /** What createQueryPlanSteps promises about the fields it considers. */
  ghost predicate Planned(ctx: Context, ip: seq<string>, parentType: string, parentLocation: string, fields: seq<Sel>,
                          r: Result<seq<Step>>, locs: seq<string>) {
    if Routable(ctx.tum, parentType, parentLocation, fields)
    then if r.Ok? then StepsOf(ctx, ip, parentType, parentLocation, fields, locs, r.value)
         else exists loc :: FailsAt(ctx, ip, parentType, parentLocation, fields, loc, r.reason)
    else if parentLocation == "" && URLs(ctx.tum) == {} then r == Ok([]) else r.Err?
  }

  /** The steps of the locations no longer left. */
  ghost predicate LocationsDone(ctx: Context, ip: seq<string>, parentType: string, routing: map<string, seq<Sel>>,
                                left: set<string>,
                                locs: seq<string>, steps: seq<Step>) {
    && Distinct(locs)
    && |steps| == |locs|
    && (forall loc :: loc in locs <==> loc in routing && loc !in left)
    && (forall i :: 0 <= i < |locs| ==> locs[i] in routing && StepOf(ctx, ip, parentType, routing[locs[i]], locs[i]) == Ok(steps[i]))
  }

  lemma LocationDone(ctx: Context, ip: seq<string>, parentType: string, routing: map<string, seq<Sel>>, left: set<string>,
                     locs: seq<string>, steps: seq<Step>, loc: string)
    requires LocationsDone(ctx, ip, parentType, routing, left, locs, steps) && loc in left && loc in routing
    requires StepOf(ctx, ip, parentType, routing[loc], loc).Ok?
    ensures LocationsDone(ctx, ip, parentType, routing, left - {loc}, locs + [loc], steps + [StepOf(ctx, ip, parentType, routing[loc], loc).value])
  {
    assert loc !in locs;
    forall i | 0 <= i < |locs|
      ensures locs[i] in routing && StepOf(ctx, ip, parentType, routing[locs[i]], locs[i]) == Ok(steps[i])
    {
    }
  }

  /** Routed fields are at home where they are sent. */
  lemma {:induction false} RoutedElsewhere(ctx: Context, parentType: string, parentLocation: string, fields: seq<Sel>,
                                        loc: string)
    requires Sound(ctx.tum) && RoutedTo(ctx.tum, parentType, parentLocation, fields, loc) != []
    ensures loc != ""
    ensures Hop(ctx, parentType, RoutedTo(ctx.tum, parentType, parentLocation, fields, loc), loc) == 0
  {
    var group := RoutedTo(ctx.tum, parentType, parentLocation, fields, loc);
    assert group[0] in group;
  }

  /** For one remote field there is one location, whatever the order. */
  lemma {:induction false} AloneSteps(ctx: Context, ip: seq<string>, parentType: string, input: seq<Sel>,
                                      location: string, r: Result<seq<Step>>, locs: seq<string>)
    requires Sound(ctx.tum) && location != "" && input != [] && input[|input| - 1].Field?
    requires var url := GetURL(ctx.tum, parentType, input[|input| - 1].name, location); url.Ok? && url.value != location
    requires Planned(ctx, ip, parentType, location, Considered(location, [input[|input| - 1]]), r, locs)
    ensures r == NewSteps(ctx, ip, parentType, input, location)
  {
    var s := input[|input| - 1];
    var url := Get(ctx.tum, parentType, s.name).value;
    GetURLSettles(ctx.tum, parentType, s.name, location);
    assert [s][..0] == [];
    forall loc
      ensures RoutedTo(ctx.tum, parentType, location, [s], loc) == if loc == url then [s] else []
    {
    }
    if r.Ok? {
      assert |locs| > 1 ==> locs[0] != locs[1];
      assert url in locs;
      forall i | 0 <= i < |locs|
        ensures locs[i] == url
      {
        assert locs[i] in locs;
      }
      assert r.value == [StepOf(ctx, ip, parentType, [s], url).value];
    }
  }
}
