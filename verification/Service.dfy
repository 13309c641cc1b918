/** What a service is: a function of query and variables that evaluates, over the combined data, what it declares. */
module Service {
  import opened Prelude
  import opened Points
  import opened Json
  import opened Schema
  import opened Selection
  import opened Asking
  import opened Planner
  import opened Evaluation
  import opened Division
  import opened Progress
  import opened ProgressProofs
  import opened PlaceProofs
  import opened InsertionPoints
  import opened Stitching
  import opened Requests
  import opened RoundProofs

  /** One request to a service. */
  datatype Call = Call(query: seq<Sel>, variables: Object)

  /** All services: URL and request to response data or error. */
  type Services = (string, Call) -> Result<Object>

  /**
   * Every service answers root queries and node queries over its own fields by direct evaluation; about any other
   * request nothing is assumed.
   */
  ghost predicate Faithful(ctx: Context, store: Store, root: string, services: Services) {
    && (forall url, sels, variables {:trigger services(url, Call(sels, variables))} ::
          root in store.roots && !HasFieldNamed(sels, NODE) && Declares(ctx, url, root, sels) ==>
            services(url, Call(sels, variables)) == Ok(Eval(store, root, store.roots[root], sels)))
    && (forall url, typename, sels, variables: Object, id {:trigger services(url, Call(NodeQuery(typename, sels), variables)), JScalar(id)} ::
          ID in variables && variables[ID] == JScalar(id) && id in store.entities && store.entities[id].typename == typename
          && Declares(ctx, url, typename, sels) ==>
            services(url, Call(NodeQuery(typename, sels), variables))
            == Ok(map[NODE := JObj(Eval(store, typename, store.entities[id].fields, sels))]))
  }

  /** What stays at a location is declared by the service there. */
  lemma {:induction false} LocalDeclared(ctx: Context, typename: string, sels: seq<Sel>, url: string)
    requires ContextOk(ctx) && Plannable(ctx, typename, sels) && Typed(ctx, typename, sels) && url != INTERNAL_SERVICE
    requires IsRoot(typename) ==> !HasFieldNamed(sels, NODE)
    ensures Declares(ctx, url, typename, Local(ctx, typename, sels, url))
    decreases sels
  {
    var kept := Local(ctx, typename, sels, url);
    InLocal(ctx, typename, sels, url);
    forall i | 0 <= i < |kept|
      ensures DeclaresField(ctx, url, typename, kept[i])
    {
      assert kept[i] in kept;
      var f :| f in sels && Where(ctx.tum, typename, f.name, url) == url && kept[i] == WithSub(f, Local(ctx, f.typ.name, f.sub, url));
      FieldDeclared(ctx, typename, sels, f, url);
      if f.sub != [] {
        assert PlannableField(ctx, typename, f) && TypedField(ctx, typename, f);
        LocalDeclared(ctx, f.typ.name, f.sub, url);
      }
    }
  }

  lemma {:induction false} FieldDeclared(ctx: Context, typename: string, sels: seq<Sel>, f: Sel, url: string)
    requires ContextOk(ctx) && Typed(ctx, typename, sels) && f in sels && f.Field? && url != INTERNAL_SERVICE
    requires IsRoot(typename) ==> !HasFieldNamed(sels, NODE)
    requires Where(ctx.tum, typename, f.name, url) == url
    ensures IsBuiltin(f.name) || f.name == ID || (ImplementsNode(ctx.tum, typename) || IsRoot(typename) ==>
              Get(ctx.tum, typename, f.name) == Some(url))
  {
    assert TypedField(ctx, typename, f);
    if f.name != TYPENAME {
      assert FieldOk(ctx, typename, f.name);
    } else {
      assert IsBuiltin(TYPENAME);
    }
  }

  /** common.SelectionSetToFields, the arguments of every field, at every depth: getVariablesList. */
  function VariablesList(sels: seq<Sel>): seq<string>
    decreases Size(sels), 1
  {
    FieldsAreSmaller(sels);
    VariablesOf(ToFields(sels))
  }

  function VariablesOf(fields: seq<Sel>): seq<string>
    requires AllFields(fields)
    decreases Size(fields), 0
  {
    if fields == [] then []
    else
      var last := fields[|fields| - 1];
      VariablesOf(fields[..|fields| - 1]) + last.args + VariablesList(last.sub)
  }

  /** getVariables: the client's variables the step mentions, and the id of the object the step is executed at. */
  function GetVariables(variables: Object, r: Request): Result<Object> {
    var mentioned := VariablesList(r.step.sel);
    var own := map k | k in variables && k in mentioned :: variables[k];
    if r.ip == [] then Ok(own)
    else
      var data :- Decode(r.ip[|r.ip| - 1]);
      if data.id == "" then Err("could not find id in path")
      else Ok(own[ID := JScalar(data.id)])
  }

  /** Some field of the selection, at any depth and inside fragments, has the name among its arguments. */
  ghost predicate Mentions(sels: seq<Sel>, name: string) {
    Names(Asks([], sels), name)
  }

  ghost predicate Names(asks: multiset<Ask>, name: string) {
    exists a :: a in asks && name in a.args
  }

  lemma NamesBoth(a: multiset<Ask>, x: Ask, b: multiset<Ask>, name: string)
    ensures Names(a + (multiset{x} + b), name) <==> Names(a, name) || name in x.args || Names(b, name)
  {
    assert x in a + (multiset{x} + b);
  }

  lemma {:induction false} ListMentions(path: seq<string>, sels: seq<Sel>, name: string)
    ensures name in VariablesList(sels) <==> Names(Asks(path, sels), name)
    decreases Size(sels), 1
  {
    FieldsAreSmaller(sels);
    FieldsMention(path, ToFields(sels), name);
    OpeningAsks(path, sels);
  }

  lemma {:induction false} FieldsMention(path: seq<string>, fields: seq<Sel>, name: string)
    requires AllFields(fields)
    ensures name in VariablesOf(fields) <==> Names(Asks(path, fields), name)
    decreases Size(fields), 0
  {
    if fields != [] {
      var front, last := fields[..|fields| - 1], fields[|fields| - 1];
      var at := path + [if last.alias != "" then last.alias else last.name];
      FieldsMention(path, front, name);
      ListMentions(at, last.sub, name);
      NamesBoth(Asks(path, front), Ask(at, last.alias, last.name, last.args, last.typ, last.sub == []), Asks(at, last.sub), name);
    }
  }

  /**
   * What is sent along: exactly the client's variables that the step mentions somewhere, with their values, and below the
   * first level the id found in the insertion point. It fails only where there is no such id.
   */
  lemma VariablesExact(variables: Object, r: Request)
    ensures var v := GetVariables(variables, r);
            && (v.Ok? <==> r.ip == [] || (Decode(r.ip[|r.ip| - 1]).Ok? && Decode(r.ip[|r.ip| - 1]).value.id != ""))
            && (v.Ok? ==>
                  && (forall k :: k in v.value <==> (k in variables && Mentions(r.step.sel, k)) || (k == ID && r.ip != []))
                  && (forall k :: k in v.value ==>
                        v.value[k] == if k == ID && r.ip != [] then JScalar(Decode(r.ip[|r.ip| - 1]).value.id) else variables[k]))
  {
    forall k
      ensures k in VariablesList(r.step.sel) <==> Mentions(r.step.sel, k)
    {
      ListMentions([], r.step.sel, k);
    }
  }

  /** isNeedToQuery: an object known to be of another type need not be asked for. */
  predicate NeedToQuery(parentTypeOf: Json -> Option<string>, r: Request, variables: Object) {
    IsRoot(r.step.parentType) || ID !in variables ||
    match parentTypeOf(variables[ID])
    case None => true
    case Some(t) => t == r.step.parentType
  }

  /** A request is skipped exactly when it is for an object below the first level that is known to be of another type. */
  lemma NeededExact(parentTypeOf: Json -> Option<string>, variables: Object, r: Request)
    requires GetVariables(variables, r).Ok? && r.ip != []
    ensures var known := parentTypeOf(JScalar(Decode(r.ip[|r.ip| - 1]).value.id));
            !NeedToQuery(parentTypeOf, r, GetVariables(variables, r).value)
            <==> !IsRoot(r.step.parentType) && known.Some? && known.value != r.step.parentType
  {
    assert GetVariables(variables, r).value[ID] == JScalar(Decode(r.ip[|r.ip| - 1]).value.id);
  }

  /** What one request would receive if it were the only one. */
  function Alone(services: Services, parentTypeOf: Json -> Option<string>, variables: Object, r: Request): Result<Object> {
    var v :- GetVariables(variables, r);
    if NeedToQuery(parentTypeOf, r, v) then services(r.step.url, Call(r.step.sel, v)) else Ok(map[NODE := JNull])
  }

  /** parseRespones: the object below `node` unless the step is a root step; a null node counts as empty. */
  function Unwrap(parentType: string, response: Object): Result<Object> {
    if IsRoot(parentType) then Ok(response)
    else if NODE !in response then Err("missing node key when expected")
    else match response[NODE]
      case JNull => Ok(map[])
      case JObj(m) => Ok(m)
      case _ => Err("node is not a map")
  }

  /** One request's contribution to a round: what is stitched, and what is asked next. */
  datatype Outcome = Outcome(result: Object, next: seq<Request>)

  function Single(services: Services, parentTypeOf: Json -> Option<string>, variables: Object, r: Request): Result<Outcome> {
    var response :- Alone(services, parentTypeOf, variables, r);
    var result :- Unwrap(r.step.parentType, response);
    var next :- NextRequests(r.ip, r.step.sel, r.step.thens, result);
    Ok(Outcome(result, next))
  }

  /** A parent-type function that never contradicts the data. */
  ghost predicate Truthful(store: Store, parentTypeOf: Json -> Option<string>) {
    forall id :: id in store.entities && parentTypeOf(JScalar(id)).Some? ==>
      parentTypeOf(JScalar(id)).value == store.entities[id].typename
  }

  /** A waiting request receives the direct evaluation of its fields. */
  lemma {:induction false} WaitingAnswered(ctx: Context, store: Store, root: Place, done: set<Task>, services: Services,
                        parentTypeOf: Json -> Option<string>, variables: Object, r: Request)
    requires Setting(ctx, store, root) && Waiting(ctx, store, root, done, r)
    requires root.typename in store.roots && root.m == store.roots[root.typename] && !HasFieldNamed(root.sels, NODE)
    requires Faithful(ctx, store, root.typename, services) && Truthful(store, parentTypeOf)
    ensures var q := Locate(ctx, store, root, done, AddressOf(r.ip)).value;
            var single := Single(services, parentTypeOf, variables, r);
            && single.Ok?
            && single.value.result == Answer(ctx, store, q, r.step.url)
            && NextRequests(r.ip, r.step.sel, r.step.thens, single.value.result) == Ok(single.value.next)
  {
    var q := Locate(ctx, store, root, done, AddressOf(r.ip)).value;
    var answer := Answer(ctx, store, q, r.step.url);
    LocatedOk(ctx, store, root, done, AddressOf(r.ip));
    if r.ip == [] {
      assert q == root;
      RootAnswered(ctx, store, root, services, parentTypeOf, variables, r);
    } else {
      NodeAnswered(ctx, store, q, services, parentTypeOf, variables, r);
    }
    NextSound(ctx, store, q, r, r.step.thens);
    SingleUnwraps(services, parentTypeOf, variables, r, answer);
  }

  lemma {:induction false} SingleUnwraps(services: Services, parentTypeOf: Json -> Option<string>, variables: Object,
                                        r: Request, answer: Object)
    requires Alone(services, parentTypeOf, variables, r) == Ok(if IsRoot(r.step.parentType) then answer else map[NODE := JObj(answer)])
    requires NextRequests(r.ip, r.step.sel, r.step.thens, answer).Ok?
    ensures Single(services, parentTypeOf, variables, r)
            == Ok(Outcome(answer, NextRequests(r.ip, r.step.sel, r.step.thens, answer).value))
  {
  }

  lemma RootAnswered(ctx: Context, store: Store, root: Place, services: Services,
                     parentTypeOf: Json -> Option<string>, variables: Object, r: Request)
    requires Setting(ctx, store, root) && WaitsAt(ctx, store, root, r) && r.ip == []
    requires root.typename in store.roots && root.m == store.roots[root.typename] && !HasFieldNamed(root.sels, NODE)
    requires Faithful(ctx, store, root.typename, services)
    ensures IsRoot(r.step.parentType)
    ensures Alone(services, parentTypeOf, variables, r) == Ok(Answer(ctx, store, root, r.step.url))
  {
    var g := GroupPlace(ctx, root, r.step.url);
    GroupPlaceOk(ctx, store, root, r.step.url);
    NoNodeIn(ctx, root, r.step.url);
    LocalDeclared(ctx, g.typename, g.sels, r.step.url);
  }

  lemma {:induction false} NoNodeIn(ctx: Context, root: Place, url: string)
    requires !HasFieldNamed(root.sels, NODE) && AllFields(root.sels)
    ensures !HasFieldNamed(GroupPlace(ctx, root, url).sels, NODE)
    ensures !HasFieldNamed(Local(ctx, root.typename, GroupPlace(ctx, root, url).sels, url), NODE)
  {
    var group := GroupPlace(ctx, root, url).sels;
    forall i | 0 <= i < |group|
      ensures group[i].Field? && group[i].name != NODE
    {
      assert group[i] in group;
      var j :| 0 <= j < |root.sels| && root.sels[j] == group[i];
    }
    var kept := Local(ctx, root.typename, group, url);
    InLocal(ctx, root.typename, group, url);
    forall i | 0 <= i < |kept|
      ensures kept[i].Field? && kept[i].name != NODE
    {
      assert kept[i] in kept;
    }
  }

  lemma NodeAnswered(ctx: Context, store: Store, q: Place, services: Services,
                     parentTypeOf: Json -> Option<string>, variables: Object, r: Request)
    requires Asked(ctx, store, q, r) && NodeOk(ctx, store, q) && !IsRoot(q.typename) && r.ip != []
    requires Denotes(r.ip, AddressOf(r.ip))
    requires exists root :: Faithful(ctx, store, root, services)
    requires Truthful(store, parentTypeOf)
    ensures !IsRoot(r.step.parentType)
    ensures Alone(services, parentTypeOf, variables, r) == Ok(map[NODE := JObj(Answer(ctx, store, q, r.step.url))])
  {
    var g, id := GroupPlace(ctx, q, r.step.url), q.m[ID].text;
    GroupPlaceOk(ctx, store, q, r.step.url);
    LocalDeclared(ctx, g.typename, g.sels, r.step.url);
    assert id in store.entities && store.entities[id] == Entity(q.typename, q.m);
    assert DenotesPt(r.ip[|r.ip| - 1], AddressOf(r.ip)[|r.ip| - 1]);
    var v := GetVariables(variables, r).value;
    assert v[ID] == JScalar(id);
    assert r.step.sel == NodeQuery(q.typename, Local(ctx, q.typename, g.sels, r.step.url));
  }
}
