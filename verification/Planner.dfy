/** planner/sequential_planner.go on object types: what splitting a selection tree by owning service computes. */
module Planner {
  import opened Prelude
  import opened Schema
  import opened Selection

  /** A selection answered at one location, and the steps that fetch the rest of it. */
  datatype Extracted = Extracted(sel: seq<Sel>, steps: seq<Step>)

  /** convertSelectionSetToNodeQuery: `node(id: $id) { ... on parentType { sels } }`. */
  function NodeQuery(parentType: string, sels: seq<Sel>): seq<Sel> {
    [Field("", NODE, [ID], TypeRef("", false, false), [Inline(parentType, sels)])]
  }

  function AddFieldToNodeQuery(parentType: string, nodeQuery: seq<Sel>, f: Sel): Option<seq<Sel>> {
    if nodeQuery == [] then None
    else
      var spread := nodeQuery[0];
      if !spread.Field? || spread.sub == [] || spread.name != NODE then None
      else
        var fields := spread.sub[0];
        if !fields.Inline? then None
        else Some(NodeQuery(parentType, fields.sub + [f]))
  }

  function AddToStep(parentType: string, s: Step, f: Sel, more: seq<Step>): Step {
    var thens := s.thens + more;
    match AddFieldToNodeQuery(parentType, s.sel, f)
    case Some(sel) => s.(sel := sel, thens := thens)
    case None => s.(sel := s.sel + [f], thens := thens)
  }

  /** Position of the first step for this service at this insertion point, or the number of steps. */
  function FindStep(steps: seq<Step>, url: string, ip: seq<string>): (i: nat)
    ensures i <= |steps|
    ensures i < |steps| ==> steps[i].url == url && steps[i].ip == ip
    ensures forall j :: 0 <= j < i ==> !(steps[j].url == url && steps[j].ip == ip)
  {
    if steps == [] then 0
    else if steps[0].url == url && steps[0].ip == ip then 0
    else 1 + FindStep(steps[1..], url, ip)
  }

  /** A selection set is embedded in a node query unless it is a root, of a non-Node type, or already has an id. */
  predicate NeedsNodeQuery(ctx: Context, parentType: string, sels: seq<Sel>) {
    !IsRoot(parentType) && ImplementsNode(ctx.tum, parentType) && !HasFieldNamed(sels, ID)
  }

  /** 1 when the set is one field that will be handed on to another service. */
  function Hop(ctx: Context, parentType: string, input: seq<Sel>, location: string): nat {
    if |input| == 1 && input[0].Field? then
      var url := GetURL(ctx.tum, parentType, input[0].name, location);
      if url.Ok? && url.value != location then 1 else 0
    else 0
  }

  function Extract(ctx: Context, ip: seq<string>, parentType: string, input: seq<Sel>, location: string): Result<Extracted>
    decreases Size(input), Hop(ctx, parentType, input, location), 3
  {
    if parentType !in ctx.types then Err("unable to find type in schema")
    else
      var r :- Gather(ctx, ip, parentType, input, location);
      Ok(r.(sel := if NeedsNodeQuery(ctx, parentType, r.sel) then NodeQuery(parentType, r.sel) else r.sel))
  }

  /** The state of extractSelectionSet's loop after all of input. */
  function Gather(ctx: Context, ip: seq<string>, parentType: string, input: seq<Sel>, location: string): Result<Extracted>
    decreases Size(input), Hop(ctx, parentType, input, location), 2
  {
    if input == [] then Ok(Extracted([], []))
    else
      var acc :- Gather(ctx, ip, parentType, input[..|input| - 1], location);
      Visit(ctx, ip, parentType, input, location, acc)
  }

  /** One turn of the loop, for the last element of input. */
  function Visit(ctx: Context, ip: seq<string>, parentType: string, input: seq<Sel>, location: string,
                 acc: Extracted): Result<Extracted>
    requires input != []
    decreases Size(input), Hop(ctx, parentType, input, location), 1
  {
    var s := input[|input| - 1];
    match s
    case Inline(cond, sub) =>
      var r :- Extract(ctx, ip, cond, sub, location);
      Ok(Extracted(acc.sel + [Inline(cond, r.sel)], acc.steps + r.steps))
    case Field(alias, name, _, typ, sub) =>
      match GetURL(ctx.tum, parentType, name, location)
      case Err(_) => Ok(acc.(sel := acc.sel + [s]))
      case Ok(url) =>
        if url == location then
          if sub == [] then Ok(acc.(sel := acc.sel + [s]))
          else
            var r :- Extract(ctx, ip + [alias], typ.name, sub, location);
            Ok(Extracted(acc.sel + [WithSub(s, r.sel)], acc.steps + r.steps))
        else
          var i := FindStep(acc.steps, url, ip);
          if i < |acc.steps| then
            if sub == [] then Ok(acc.(steps := acc.steps[i := AddToStep(parentType, acc.steps[i], s, [])]))
            else
              var r :- Extract(ctx, ip + [alias], typ.name, sub, url);
              Ok(acc.(steps := acc.steps[i := AddToStep(parentType, acc.steps[i], WithSub(s, r.sel), r.steps)]))
          else
            var steps :- NewSteps(ctx, ip, parentType, input, location);
            Ok(acc.(steps := acc.steps + steps))
  }

  /** createQueryPlanSteps for the one remote field that ends input. */
  function NewSteps(ctx: Context, ip: seq<string>, parentType: string, input: seq<Sel>, location: string): Result<seq<Step>>
    requires input != [] && input[|input| - 1].Field?
    requires var url := GetURL(ctx.tum, parentType, input[|input| - 1].name, location); url.Ok? && url.value != location
    decreases Size(input), Hop(ctx, parentType, input, location), 0
  {
    var s := input[|input| - 1];
    match Get(ctx.tum, parentType, s.name)
    case None => Err("could not find location")
    case Some(url) =>
      SizeOfOne(s);
      GetURLSettles(ctx.tum, parentType, s.name, location);
      assert if |input| == 1 then input == [s] else Size(input[..|input| - 1]) > 0;
      var r :- Extract(ctx, ip, parentType, [s], url);
      Ok([Step(url, parentType, r.sel, ip, r.steps)])
  }
}
