/** The reference meaning: direct evaluation (sections 6.3 and 6.4 of the GraphQL specification, October 2021). */
module Evaluation {
  import opened Prelude
  import opened Text
  import opened Points
  import opened Json
  import opened Schema
  import opened Selection

  /** A field's value: an entity is referred to by its id, an object of a plain type is held in place. */
  datatype Val = Null | Scalar(text: string) | Ref(id: string) | Plain(fields: map<string, Val>) | Many(items: seq<Val>)

  type Fields = map<string, Val>

  datatype Entity = Entity(typename: string, fields: Fields)

  /** All data of all services together. */
  datatype Store = Store(roots: map<string, Fields>, entities: map<string, Entity>)

  function Value(m: Fields, field: string): Val {
    if field in m then m[field] else Null
  }

  function Eval(store: Store, typename: string, m: Fields, sels: seq<Sel>): Object
    decreases sels, 0
  {
    map k | k in Keys(sels) :: EvalField(store, typename, m, At(sels, k))
  }

  function EvalField(store: Store, typename: string, m: Fields, f: Sel): Json
    requires f.Field?
    decreases f, 0
  {
    if f.name == TYPENAME then JScalar(typename) else Complete(store, f.typ.name, Value(m, f.name), f.sub)
  }

  /** CompleteValue: null, a leaf, a list item by item, or an object with the fields asked for. */
  function Complete(store: Store, typename: string, v: Val, sub: seq<Sel>): Json
    decreases sub, 1, v
  {
    match v
    case Null => JNull
    case Scalar(text) => JScalar(text)
    case Many(items) => JList(seq(|items|, i requires 0 <= i < |items| => Complete(store, typename, items[i], sub)))
    case Ref(id) => if id in store.entities then JObj(Eval(store, typename, store.entities[id].fields, sub)) else JNull
    case Plain(m) => JObj(Eval(store, typename, m, sub))
  }

  /** A value without objects: what a scalar or enum type may hold. */
  predicate LeafValue(v: Val) {
    match v
    case Null => true
    case Scalar(_) => true
    case Many(items) => forall i :: 0 <= i < |items| ==> LeafValue(items[i])
    case _ => false
  }

  /** Data conforming to a type: object lists hold no nulls and no lists, and are shorter than 2^31. */
  ghost predicate HasType(ctx: Context, store: Store, typ: TypeRef, v: Val)
    decreases v, 2
  {
    if typ.name !in ctx.types then LeafValue(v)
    else match v
      case Null => !typ.nonNull
      case Many(items) => typ.list && |items| < MAX_INDEX && forall i :: 0 <= i < |items| ==> IsObject(ctx, store, typ.name, items[i])
      case _ => !typ.list && IsObject(ctx, store, typ.name, v)
  }

  ghost predicate IsObject(ctx: Context, store: Store, typename: string, v: Val)
    decreases v, 1
  {
    match v
    case Ref(id) => ImplementsNode(ctx.tum, typename) && id in store.entities && store.entities[id].typename == typename
    case Plain(m) => !ImplementsNode(ctx.tum, typename) && typename in ctx.types && HasFields(ctx, store, typename, m)
    case _ => false
  }

  ghost predicate HasFields(ctx: Context, store: Store, typename: string, m: Fields)
    requires typename in ctx.types
    decreases Plain(m), 0
  {
    forall f :: f in ctx.types[typename] ==> f in m && HasType(ctx, store, ctx.types[typename][f], m[f])
  }

  /** Entities are what they are stored as, carry their own id, and ids are non-empty and free of '#'. */
  ghost predicate StoreOk(ctx: Context, store: Store) {
    && (forall id :: id in store.entities ==>
          && var e := store.entities[id];
          && e.typename in ctx.types
          && HasFields(ctx, store, e.typename, e.fields)
          && ID in e.fields && e.fields[ID] == Scalar(id)
          && id != "" && '#' !in id)
    && (forall r :: r in store.roots ==> r in ctx.types && HasFields(ctx, store, r, store.roots[r]))
  }

  /** The merged schema and its location map fit together as the merger builds them. */
  ghost predicate ContextOk(ctx: Context) {
    && Sound(ctx.tum)
    && (forall t, f :: t in ctx.types && f in ctx.types[t] ==> FieldOk(ctx, t, f))
    && (forall t :: IsRoot(t) ==> !ImplementsNode(ctx.tum, t))
    && (forall t :: t in ctx.types && ImplementsNode(ctx.tum, t) ==> ID in ctx.types[t])
  }

  ghost predicate FieldOk(ctx: Context, t: string, f: string)
    requires t in ctx.types && f in ctx.types[t]
  {
    && IsName(f)
    && !IsBuiltin(f)
    && (ctx.types[t][f].name in ctx.types ==> t in ctx.tum && !IsRoot(ctx.types[t][f].name))
    && (ImplementsNode(ctx.tum, t) && f != ID ==> f in ctx.tum[t].fields)
    && (IsRoot(t) && f != NODE ==> t in ctx.tum && f in ctx.tum[t].fields)
    && (f == ID && ImplementsNode(ctx.tum, t) ==> ctx.types[t][f].name !in ctx.types)
  }

  /** A validated query: argument-free, every field declared, and a selection exactly under the object types. */
  ghost predicate Typed(ctx: Context, typename: string, sels: seq<Sel>)
    decreases sels, 0
  {
    && typename in ctx.types
    && forall i :: 0 <= i < |sels| ==> TypedField(ctx, typename, sels[i])
  }

  ghost predicate TypedField(ctx: Context, typename: string, f: Sel)
    requires typename in ctx.types
    decreases f, 1
  {
    && f.Field?
    && f.args == []
    && IsName(Key(f))
    && if f.name == TYPENAME then f.sub == []
       else
         && f.name in ctx.types[typename]
         && if f.sub == [] then ctx.types[typename][f.name].name !in ctx.types
            else f.typ == ctx.types[typename][f.name] && Typed(ctx, f.typ.name, f.sub)
  }

  /** A service can be asked for what it declares: everything of plain types, its own fields of Node and root types. */
  ghost predicate Declares(ctx: Context, url: string, typename: string, sels: seq<Sel>)
    decreases sels, 0
  {
    forall i :: 0 <= i < |sels| ==> DeclaresField(ctx, url, typename, sels[i])
  }

  ghost predicate DeclaresField(ctx: Context, url: string, typename: string, f: Sel)
    decreases f, 1
  {
    && f.Field?
    && (IsBuiltin(f.name) || f.name == ID || (ImplementsNode(ctx.tum, typename) || IsRoot(typename) ==>
          Get(ctx.tum, typename, f.name) == Some(url)))
    && Declares(ctx, url, f.typ.name, f.sub)
  }
}
