/**
 * The queries the meaning-preservation theorem is about, and what sanitizing makes of them.
 * Sanitizing keeps a query well-typed and plannable, and hides no key that was not hidden before.
 */
module ClientQuery {
  import opened Points
  import opened Json
  import opened Schema
  import opened Selection
  import opened Evaluation
  import opened Division
  import opened Findable
  import opened Sanitizing
  import opened SanitizeProofs
  import opened ScrubProofs

  /**
   * A validated, argument-free query over object types: response keys unique per selection set, and the keys `id` and
   * `__typename` kept for what they name.
   */
  ghost predicate Client(ctx: Context, typename: string, sels: seq<Sel>)
    decreases sels, 0
  {
    && typename in ctx.types
    && UniqueKeys(sels)
    && forall i :: 0 <= i < |sels| ==> ClientField(ctx, typename, sels[i])
  }

  ghost predicate ClientField(ctx: Context, typename: string, f: Sel)
    requires typename in ctx.types
    decreases f, 1
  {
    && f.Field?
    && f.args == []
    && IsName(f.alias)
    && (f.alias == TYPENAME ==> f.name == TYPENAME)
    && (ImplementsNode(ctx.tum, typename) ==> (f.alias == ID <==> f.name == ID))
    && if f.name == TYPENAME then f.sub == []
       else
         && f.name in ctx.types[typename]
         && if f.sub == [] then ctx.types[typename][f.name].name !in ctx.types
            else f.alias != ID && f.typ == ctx.types[typename][f.name] && Client(ctx, f.typ.name, f.sub)
  }

  lemma {:induction false} ClientSub(ctx: Context, typename: string, sels: seq<Sel>, f: Sel)
    requires Client(ctx, typename, sels) && f in sels
    ensures ClientField(ctx, typename, f)
  {
  }

  lemma NameHasNoDot(s: string)
    requires IsName(s)
    ensures '.' !in s && s != ""
  {
    assert !IsNameChar('.');
  }

  /** In a Node type the key `id` is taken exactly by a field named id. */
  lemma {:induction false} IDKey(ctx: Context, typename: string, sels: seq<Sel>)
    requires Client(ctx, typename, sels) && ImplementsNode(ctx.tum, typename)
    ensures ID in Keys(sels) <==> HasFieldNamed(sels, ID)
    ensures HasFieldNamed(sels, ID) ==> HasIdKey(sels)
  {
    if ID in Keys(sels) {
      var f := At(sels, ID);
      ClientSub(ctx, typename, sels, f);
      var i :| 0 <= i < |sels| && sels[i] == f;
    }
    if HasFieldNamed(sels, ID) {
      var i :| 0 <= i < |sels| && sels[i].Field? && sels[i].name == ID;
      assert ClientField(ctx, typename, sels[i]);
      AllKeys(sels, i);
    }
  }

  lemma {:induction false} ClientShape(ctx: Context, typename: string, sels: seq<Sel>)
    requires Client(ctx, typename, sels)
    ensures Parsed(sels) && DeeplyUnique(sels) && PlainIDs(ctx.tum, sels)
    decreases sels
  {
    forall i | 0 <= i < |sels|
      ensures sels[i].Field? && sels[i].alias != "" && '.' !in sels[i].alias
      ensures Parsed(sels[i].sub) && DeeplyUnique(sels[i].sub)
      ensures sels[i].sub != [] ==> Key(sels[i]) != ID && PlainIDs(ctx.tum, sels[i].sub) && (LacksID(ctx.tum, sels[i]) ==> ID !in Keys(sels[i].sub))
    {
      var f := sels[i];
      assert ClientField(ctx, typename, f);
      NameHasNoDot(f.alias);
      if f.sub != [] {
        ClientShape(ctx, f.typ.name, f.sub);
        if LacksID(ctx.tum, f) {
          IDKey(ctx, f.typ.name, f.sub);
        }
      }
    }
  }

  /** An id may be added where the objects are of a Node type and no id is asked for. */
  ghost predicate MayAdd(ctx: Context, typename: string, sels: seq<Sel>, added: bool) {
    added ==> ImplementsNode(ctx.tum, typename) && !HasFieldNamed(sels, ID)
  }

  lemma {:induction false} AddedIDOk(ctx: Context, typename: string)
    requires ContextOk(ctx) && typename in ctx.types && ImplementsNode(ctx.tum, typename)
    ensures TypedField(ctx, typename, ID_FIELD) && PlannableField(ctx, typename, ID_FIELD)
  {
    assert FieldOk(ctx, typename, ID);
    assert IsName(ID);
  }

  lemma AnsweringUnique(tum: TypeURLMap, sels: seq<Sel>, added: bool)
    requires UniqueKeys(sels) && (added ==> ID !in Keys(sels))
    ensures UniqueKeys(Answering(tum, sels, added))
  {
    var w := WithIDs(tum, sels);
    assert forall i :: 0 <= i < |w| ==> Key(w[i]) == Key(sels[i]);
    if added {
      var all := [ID_FIELD] + w;
      forall i, j | 0 <= i < j < |all|
        ensures Key(all[i]) != Key(all[j])
      {
        AllKeys(sels, j - 1);
      }
    }
  }

  /** The sanitized query is well-typed and plannable. */
  lemma {:induction false} AnsweringOk(ctx: Context, typename: string, sels: seq<Sel>, added: bool)
    requires ContextOk(ctx) && Client(ctx, typename, sels) && MayAdd(ctx, typename, sels, added)
    requires IsRoot(typename) ==> !HasFieldNamed(sels, NODE)
    ensures Typed(ctx, typename, Answering(ctx.tum, sels, added))
    ensures Plannable(ctx, typename, Answering(ctx.tum, sels, added))
    decreases sels, 1
  {
    var w, all := WithIDs(ctx.tum, sels), Answering(ctx.tum, sels, added);
    if added {
      IDKey(ctx, typename, sels);
      AddedIDOk(ctx, typename);
    }
    AnsweringUnique(ctx.tum, sels, added);
    forall i | 0 <= i < |sels|
      ensures TypedField(ctx, typename, w[i]) && PlannableField(ctx, typename, w[i])
    {
      WithIDsAt(ctx.tum, sels, i);
      assert ClientField(ctx, typename, sels[i]);
      FieldAnswering(ctx, typename, sels, sels[i]);
    }
    forall i | 0 <= i < |all|
      ensures TypedField(ctx, typename, all[i]) && PlannableField(ctx, typename, all[i])
    {
      if added && i > 0 {
        assert all[i] == w[i - 1];
      }
    }
  }

  lemma {:induction false} FieldAnswering(ctx: Context, typename: string, sels: seq<Sel>, f: Sel)
    requires ContextOk(ctx) && typename in ctx.types && f in sels && ClientField(ctx, typename, f)
    requires IsRoot(typename) ==> !HasFieldNamed(sels, NODE)
    ensures TypedField(ctx, typename, WithID(ctx.tum, f)) && PlannableField(ctx, typename, WithID(ctx.tum, f))
    decreases f, 0
  {
    WithIDSub(ctx.tum, f);
    NameHasNoDot(f.alias);
    if f.sub != [] {
      assert FieldOk(ctx, typename, f.name);
      assert f.name != NODE || !IsRoot(typename);
      AnsweringOk(ctx, f.typ.name, f.sub, LacksID(ctx.tum, f));
      if ImplementsNode(ctx.tum, f.typ.name) {
        AnsweringHasID(ctx, f);
      }
    }
  }

  lemma {:induction false} AnsweringHasID(ctx: Context, f: Sel)
    requires f.Field? && f.sub != [] && Client(ctx, f.typ.name, f.sub) && ImplementsNode(ctx.tum, f.typ.name)
    ensures HasIdKey(WithID(ctx.tum, f).sub)
  {
    WithIDSub(ctx.tum, f);
    var below := WithIDs(ctx.tum, f.sub);
    if LacksID(ctx.tum, f) {
      assert WithID(ctx.tum, f).sub[0] == ID_FIELD;
    } else {
      IDKey(ctx, f.typ.name, f.sub);
      var i :| 0 <= i < |f.sub| && f.sub[i].Field? && f.sub[i].name == ID && Key(f.sub[i]) == ID;
      assert below[i].name == ID && Key(below[i]) == ID;
    }
  }

  /** Sanitizing adds no key but `id`. */
  lemma {:induction false} DeepKeysAnswering(tum: TypeURLMap, sels: seq<Sel>, added: bool)
    requires Parsed(sels)
    ensures DeepKeys(Answering(tum, sels, added)) <= DeepKeys(sels) + {ID}
    decreases sels, 1
  {
    DeepKeysWithIDs(tum, sels);
    if added {
      var w := WithIDs(tum, sels);
      DeepKeysAppend([ID_FIELD], w);
      assert [ID_FIELD][..0] == [];
    }
  }

  lemma {:induction false} DeepKeysWithIDs(tum: TypeURLMap, sels: seq<Sel>)
    requires Parsed(sels)
    ensures DeepKeys(WithIDs(tum, sels)) <= DeepKeys(sels) + {ID}
    decreases sels, 0
  {
    if sels != [] {
      ParsedPrefix(sels);
      var front, last := sels[..|sels| - 1], sels[|sels| - 1];
      DeepKeysWithIDs(tum, front);
      WithIDSub(tum, last);
      if last.sub != [] {
        DeepKeysAnswering(tum, last.sub, LacksID(tum, last));
      }
      var g := WithID(tum, last);
      DeepKeysAppend(WithIDs(tum, front), [g]);
      assert [g][..0] == [];
    }
  }

  /** ... so it hides nothing that was not hidden before. */
  lemma {:induction false} ClearAnswering(tum: TypeURLMap, sels: seq<Sel>, added: bool)
    requires Parsed(sels) && PlainIDs(tum, sels) && Clear(sels)
    ensures Clear(Answering(tum, sels, added))
    decreases sels
  {
    var w, all := WithIDs(tum, sels), Answering(tum, sels, added);
    forall i | 0 <= i < |sels|
      ensures w[i].sub != [] ==> sels[i].sub != [] && Key(w[i]) == Key(sels[i]) != ID
      ensures DeepKeys(w[i].sub) <= DeepKeys(sels[i].sub) + {ID}
      ensures Clear(w[i].sub)
    {
      WithIDsAt(tum, sels, i);
      WithIDSub(tum, sels[i]);
      if sels[i].sub != [] {
        DeepKeysAnswering(tum, sels[i].sub, LacksID(tum, sels[i]));
        ClearAnswering(tum, sels[i].sub, LacksID(tum, sels[i]));
      }
    }
    assert Clear(w);
    if added {
      assert forall i :: 0 < i < |all| ==> all[i] == w[i - 1];
      assert Clear(ID_FIELD.sub);
    }
  }

  /** The data under a well-typed selection has its shape. */
  lemma {:induction false} EvalShaped(ctx: Context, store: Store, typename: string, m: Fields, sels: seq<Sel>)
    requires StoreOk(ctx, store) && typename in ctx.types && HasFields(ctx, store, typename, m)
    requires Typed(ctx, typename, sels) && UniqueBelow(sels)
    ensures Shaped(typename, sels, Eval(store, typename, m, sels))
    decreases sels, 0
  {
    var obj := Eval(store, typename, m, sels);
    forall k | k in Keys(sels)
      ensures ShapedValue(At(sels, k).typ.name, At(sels, k).sub, obj[k])
      ensures k == TYPENAME ==> obj[k] == JScalar(typename)
    {
      var f := At(sels, k);
      var i :| 0 <= i < |sels| && sels[i] == f;
      assert TypedField(ctx, typename, f);
      assert Key(sels[i]) == TYPENAME ==> sels[i].name == TYPENAME;
      assert obj[k] == EvalField(store, typename, m, f);
      if f.sub != [] {
        ValueShaped(ctx, store, f.typ, m[f.name], f.sub);
      }
    }
  }

  /** At every depth the key `__typename` is the type name's. */
  ghost predicate UniqueBelow(sels: seq<Sel>)
    decreases sels
  {
    forall i :: 0 <= i < |sels| ==> sels[i].Field? && (Key(sels[i]) == TYPENAME ==> sels[i].name == TYPENAME) && UniqueBelow(sels[i].sub)
  }

  lemma {:induction false} ValueShaped(ctx: Context, store: Store, typ: TypeRef, v: Val, sub: seq<Sel>)
    requires StoreOk(ctx, store) && HasType(ctx, store, typ, v)
    requires Typed(ctx, typ.name, sub) && UniqueBelow(sub)
    ensures ShapedValue(typ.name, sub, Complete(store, typ.name, v, sub))
    decreases sub, 2
  {
    if v.Many? {
      var items := Complete(store, typ.name, v, sub).items;
      forall i | 0 <= i < |items|
        ensures items[i].JObj? && (sub != [] ==> Shaped(typ.name, sub, items[i].fields))
      {
        ObjectShaped(ctx, store, typ.name, v.items[i], sub);
      }
    } else if v != Null {
      ObjectShaped(ctx, store, typ.name, v, sub);
    }
  }

  lemma {:induction false} ObjectShaped(ctx: Context, store: Store, typename: string, v: Val, sub: seq<Sel>)
    requires StoreOk(ctx, store) && IsObject(ctx, store, typename, v)
    requires Typed(ctx, typename, sub) && UniqueBelow(sub)
    ensures var j := Complete(store, typename, v, sub); j.JObj? && Shaped(typename, sub, j.fields)
    decreases sub, 1
  {
    match v
    case Ref(id) => EvalShaped(ctx, store, typename, store.entities[id].fields, sub);
    case Plain(m) => EvalShaped(ctx, store, typename, m, sub);
    case _ =>
  }

  /** The lists of an evaluation hold objects only. */
  lemma {:induction false} EvalHeld(ctx: Context, store: Store, typename: string, m: Fields, sels: seq<Sel>, p: seq<string>)
    requires StoreOk(ctx, store) && typename in ctx.types && HasFields(ctx, store, typename, m)
    requires Typed(ctx, typename, sels) && Through(sels, p)
    ensures Held(Eval(store, typename, m, sels), p)
    decreases |p|, 1
  {
    if p != [] {
      var f := At(sels, p[0]);
      var i :| 0 <= i < |sels| && sels[i] == f;
      assert TypedField(ctx, typename, f);
      assert Eval(store, typename, m, sels)[p[0]] == EvalField(store, typename, m, f);
      ValueHeld(ctx, store, f.typ, m[f.name], f.sub, p);
    }
  }

  lemma {:induction false} ValueHeld(ctx: Context, store: Store, typ: TypeRef, v: Val, sub: seq<Sel>, p: seq<string>)
    requires StoreOk(ctx, store) && HasType(ctx, store, typ, v) && p != []
    requires Typed(ctx, typ.name, sub) && Through(sub, p[1..])
    ensures HeldValue(Complete(store, typ.name, v, sub), p)
    decreases |p|, 0
  {
    if v.Many? {
      var items := Complete(store, typ.name, v, sub).items;
      forall i | 0 <= i < |items|
        ensures items[i].JObj? && Held(items[i].fields, p[1..])
      {
        ObjectHeld(ctx, store, typ.name, v.items[i], sub, p[1..]);
      }
      assert items != [] ==> items[0].JObj?;
    } else if v != Null {
      ObjectHeld(ctx, store, typ.name, v, sub, p[1..]);
    }
  }

  lemma {:induction false} ObjectHeld(ctx: Context, store: Store, typename: string, v: Val, sub: seq<Sel>, p: seq<string>)
    requires StoreOk(ctx, store) && IsObject(ctx, store, typename, v)
    requires Typed(ctx, typename, sub) && Through(sub, p)
    ensures var j := Complete(store, typename, v, sub); j.JObj? && Held(j.fields, p)
    decreases |p|, 2
  {
    match v
    case Ref(id) => EvalHeld(ctx, store, typename, store.entities[id].fields, sub, p);
    case Plain(m) => EvalHeld(ctx, store, typename, m, sub, p);
    case _ =>
  }

  /** Evaluating the sanitized query and keeping what was asked for is evaluating the query. */
  lemma {:induction false} RestrictEval(ctx: Context, store: Store, typename: string, m: Fields, sels: seq<Sel>, added: bool)
    requires StoreOk(ctx, store) && Client(ctx, typename, sels) && MayAdd(ctx, typename, sels, added)
    requires HasFields(ctx, store, typename, m)
    ensures Restrict(sels, Eval(store, typename, m, Answering(ctx.tum, sels, added))) == Eval(store, typename, m, sels)
    decreases sels, 1
  {
    var all := Answering(ctx.tum, sels, added);
    AnsweringKeys(ctx.tum, sels, added);
    forall k | k in Keys(sels)
      ensures RestrictValue(At(sels, k).sub, EvalField(store, typename, m, At(all, k))) == EvalField(store, typename, m, At(sels, k))
    {
      RestrictField(ctx, store, typename, m, sels, added, k);
    }
  }

  lemma {:induction false} RestrictField(ctx: Context, store: Store, typename: string, m: Fields, sels: seq<Sel>,
                                        added: bool, k: string)
    requires StoreOk(ctx, store) && Client(ctx, typename, sels) && MayAdd(ctx, typename, sels, added)
    requires HasFields(ctx, store, typename, m) && k in Keys(sels) && k in Keys(Answering(ctx.tum, sels, added))
    ensures RestrictValue(At(sels, k).sub, EvalField(store, typename, m, At(Answering(ctx.tum, sels, added), k)))
            == EvalField(store, typename, m, At(sels, k))
    decreases sels, 0
  {
    var f := At(sels, k);
    ClientSub(ctx, typename, sels, f);
    if added {
      IDKey(ctx, typename, sels);
    }
    AnsweringAt(ctx.tum, sels, added, k);
    WithIDSub(ctx.tum, f);
    if f.sub != [] {
      RestrictComplete(ctx, store, f, m[f.name]);
    }
  }

  lemma {:induction false} RestrictComplete(ctx: Context, store: Store, f: Sel, v: Val)
    requires StoreOk(ctx, store) && f.Field? && f.sub != [] && Client(ctx, f.typ.name, f.sub) && HasType(ctx, store, f.typ, v)
    ensures RestrictValue(f.sub, Complete(store, f.typ.name, v, WithID(ctx.tum, f).sub)) == Complete(store, f.typ.name, v, f.sub)
    decreases f, 2
  {
    var sub := WithID(ctx.tum, f).sub;
    match v
    case Many(items) =>
      forall i | 0 <= i < |items|
        ensures RestrictValue(f.sub, Complete(store, f.typ.name, items[i], sub)) == Complete(store, f.typ.name, items[i], f.sub)
        ensures Complete(store, f.typ.name, items[i], sub).JObj?
      {
        RestrictObject(ctx, store, f, items[i]);
      }
      assert RestrictValue(f.sub, Complete(store, f.typ.name, v, sub)).items == Complete(store, f.typ.name, v, f.sub).items;
    case Null =>
    case Scalar(_) =>
    case Ref(_) => RestrictObject(ctx, store, f, v);
    case Plain(_) => RestrictObject(ctx, store, f, v);
  }

  lemma {:induction false} RestrictObject(ctx: Context, store: Store, f: Sel, v: Val)
    requires StoreOk(ctx, store) && f.Field? && f.sub != [] && Client(ctx, f.typ.name, f.sub) && IsObject(ctx, store, f.typ.name, v)
    ensures Complete(store, f.typ.name, v, WithID(ctx.tum, f).sub).JObj?
    ensures RestrictValue(f.sub, Complete(store, f.typ.name, v, WithID(ctx.tum, f).sub)) == Complete(store, f.typ.name, v, f.sub)
    decreases f, 1
  {
    WithIDSub(ctx.tum, f);
    match v
    case Ref(id) => RestrictEval(ctx, store, f.typ.name, store.entities[id].fields, f.sub, LacksID(ctx.tum, f));
    case Plain(m) => RestrictEval(ctx, store, f.typ.name, m, f.sub, LacksID(ctx.tum, f));
    case _ =>
  }

  lemma {:induction false} AnsweringTypenames(ctx: Context, typename: string, sels: seq<Sel>, added: bool)
    requires Client(ctx, typename, sels)
    ensures UniqueBelow(Answering(ctx.tum, sels, added))
    decreases sels
  {
    var w, all := WithIDs(ctx.tum, sels), Answering(ctx.tum, sels, added);
    forall i | 0 <= i < |sels|
      ensures w[i].Field? && (Key(w[i]) == TYPENAME ==> w[i].name == TYPENAME) && UniqueBelow(w[i].sub)
    {
      WithIDsAt(ctx.tum, sels, i);
      assert ClientField(ctx, typename, sels[i]);
      WithIDSub(ctx.tum, sels[i]);
      if sels[i].sub != [] {
        AnsweringTypenames(ctx, sels[i].typ.name, sels[i].sub, LacksID(ctx.tum, sels[i]));
      }
    }
    if added {
      assert forall i :: 0 < i < |all| ==> all[i] == w[i - 1];
    }
  }
}
