/** The division of a query among services, said without loops: which field goes where, and which steps follow. */
module Division {
  import opened Schema
  import opened Selection
  import opened Planner

  /** Where a field is answered when its parent object was answered at location: unlocated fields stay. */
  function Where(tum: TypeURLMap, typename: string, field: string, location: string): string {
    match GetURL(tum, typename, field, location)
    case Err(_) => location
    case Ok(url) => url
  }

  predicate Located(tum: TypeURLMap, typename: string, field: string) {
    && !IsBuiltin(field)
    && typename in tum
    && (tum[typename].implementsNode || IsRoot(typename) ==> field in tum[typename].fields)
  }

  /** Sanitized queries over object types: the queries the division is about. */
  ghost predicate Plannable(ctx: Context, typename: string, sels: seq<Sel>)
    decreases sels, 0
  {
    && typename in ctx.types
    && UniqueKeys(sels)
    && forall i :: 0 <= i < |sels| ==> PlannableField(ctx, typename, sels[i])
  }

  ghost predicate PlannableField(ctx: Context, typename: string, f: Sel)
    decreases f, 1
  {
    f.Field? &&
    (f.sub != [] ==>
       && f.alias != ""
       && Located(ctx.tum, typename, f.name)
       && !IsRoot(f.typ.name)
       && (ImplementsNode(ctx.tum, f.typ.name) ==> HasIdKey(f.sub))
       && Plannable(ctx, f.typ.name, f.sub))
  }

  /** What stays at location, all the way down. */
  function Local(ctx: Context, typename: string, sels: seq<Sel>, location: string): seq<Sel>
    decreases sels
  {
    if sels == [] then []
    else
      var f := sels[|sels| - 1];
      Local(ctx, typename, sels[..|sels| - 1], location) +
      if f.Field? && Where(ctx.tum, typename, f.name, location) == location
      then [WithSub(f, Local(ctx, f.typ.name, f.sub, location))] else []
  }

  /** The fields of one selection set that go to url. */
  function Group(tum: TypeURLMap, typename: string, sels: seq<Sel>, location: string, url: string): (group: seq<Sel>)
    ensures Size(group) <= Size(sels)
    ensures forall f :: f in group <==> f in sels && f.Field? && Where(tum, typename, f.name, location) == url
  {
    if sels == [] then []
    else
      var front, f := sels[..|sels| - 1], sels[|sels| - 1];
      assert sels == front + [f];
      var group := Group(tum, typename, front, location, url);
      if f.Field? && Where(tum, typename, f.name, location) == url then
        assert (group + [f])[..|group|] == group;
        group + [f]
      else group
  }

  /** The selection a step sends: bare at a root, under a node query otherwise. */
  function Sent(typename: string, sels: seq<Sel>): seq<Sel> {
    if IsRoot(typename) then sels else NodeQuery(typename, sels)
  }

  function StepFor(ctx: Context, ip: seq<string>, typename: string, group: seq<Sel>, url: string): Step
    decreases Size(group), 1
  {
    Step(url, typename, Sent(typename, Local(ctx, typename, group, url)), ip, Kids(ctx, ip, group, url))
  }

  /** The steps below the fields of sels, all answered at url. */
  function Kids(ctx: Context, ip: seq<string>, sels: seq<Sel>, url: string): seq<Step>
    decreases Size(sels), 0
  {
    if sels == [] then []
    else
      var f := sels[|sels| - 1];
      Kids(ctx, ip, sels[..|sels| - 1], url) +
      if f.Field? then Children(ctx, ip + [f.alias], f.typ.name, f.sub, url) else []
  }

  /** All steps needed below an object answered at location, in the order the planner lists them. */
  function Children(ctx: Context, ip: seq<string>, typename: string, sels: seq<Sel>, location: string): seq<Step>
    decreases Size(sels), 2
  {
    if sels == [] then []
    else
      var f := sels[|sels| - 1];
      var steps := Children(ctx, ip, typename, sels[..|sels| - 1], location);
      if !f.Field? then steps
      else
        var url := Where(ctx.tum, typename, f.name, location);
        if url == location then steps + Children(ctx, ip + [f.alias], f.typ.name, f.sub, location)
        else
          var s := StepFor(ctx, ip, typename, Group(ctx.tum, typename, sels, location, url), url);
          var i := FindStep(steps, url, ip);
          if i < |steps| then steps[i := s] else steps + [s]
  }
}
