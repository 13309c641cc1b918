/**
 * How the partial answer moves: what one service's answer is, what merging it does, and when it is complete.
 * An answer brings only keys that were not there, so merging it anywhere in the tree is doing one task more.
 */
module ProgressProofs {
  import opened Prelude
  import opened Json
  import opened Schema
  import opened Selection
  import opened Evaluation
  import opened Division
  import opened DivisionProofs
  import opened Progress

  /** The fields that stay, one by one. */
  lemma {:induction false} InLocal(ctx: Context, typename: string, sels: seq<Sel>, location: string)
    requires AllFields(sels)
    ensures AllFields(Local(ctx, typename, sels, location))
    ensures forall f :: f in sels && Where(ctx.tum, typename, f.name, location) == location ==>
              WithSub(f, Local(ctx, f.typ.name, f.sub, location)) in Local(ctx, typename, sels, location)
    ensures forall g :: g in Local(ctx, typename, sels, location) ==>
              exists f :: f in sels && Where(ctx.tum, typename, f.name, location) == location
                          && g == WithSub(f, Local(ctx, f.typ.name, f.sub, location))
  {
    if sels != [] {
      var front, last := sels[..|sels| - 1], sels[|sels| - 1];
      assert sels == front + [last];
      InLocal(ctx, typename, front, location);
      forall g | g in Local(ctx, typename, sels, location)
        ensures exists f :: f in sels && Where(ctx.tum, typename, f.name, location) == location
                            && g == WithSub(f, Local(ctx, f.typ.name, f.sub, location))
      {
        if g in Local(ctx, typename, front, location) {
          var f :| f in front && Where(ctx.tum, typename, f.name, location) == location
                   && g == WithSub(f, Local(ctx, f.typ.name, f.sub, location));
          assert f in sels;
        } else {
          assert last in sels;
        }
      }
    }
  }

  lemma {:induction false} LocalUnique(ctx: Context, typename: string, sels: seq<Sel>, location: string)
    requires UniqueKeys(sels)
    ensures UniqueKeys(Local(ctx, typename, sels, location))
  {
    if sels != [] {
      var front, last := sels[..|sels| - 1], sels[|sels| - 1];
      LocalUnique(ctx, typename, front, location);
      InLocal(ctx, typename, front, location);
      var kept := Local(ctx, typename, front, location);
      forall i | 0 <= i < |kept|
        ensures Key(kept[i]) != Key(last)
      {
        assert kept[i] in kept;
        var f :| f in front && Where(ctx.tum, typename, f.name, location) == location
                 && kept[i] == WithSub(f, Local(ctx, f.typ.name, f.sub, location));
        var j :| 0 <= j < |front| && front[j] == f;
        assert sels[j] == f;
      }
      SnocUnique(kept, WithSub(last, Local(ctx, last.typ.name, last.sub, location)));
    }
  }

  lemma SnocUnique(sels: seq<Sel>, f: Sel)
    requires UniqueKeys(sels) && f.Field?
    requires forall i :: 0 <= i < |sels| ==> Key(sels[i]) != Key(f)
    ensures UniqueKeys(sels + [f])
  {
  }

  /** Looking a key up among the fields that stay. */
  lemma {:induction false} LocalAt(ctx: Context, typename: string, sels: seq<Sel>, location: string, k: string)
    requires UniqueKeys(sels)
    ensures k in Keys(Local(ctx, typename, sels, location)) <==>
            k in Keys(sels) && Where(ctx.tum, typename, At(sels, k).name, location) == location
    ensures k in Keys(Local(ctx, typename, sels, location)) ==>
              var f := At(sels, k);
              At(Local(ctx, typename, sels, location), k) == WithSub(f, Local(ctx, f.typ.name, f.sub, location))
  {
    var kept := Local(ctx, typename, sels, location);
    InLocal(ctx, typename, sels, location);
    LocalUnique(ctx, typename, sels, location);
    if k in Keys(sels) && Where(ctx.tum, typename, At(sels, k).name, location) == location {
      var f := At(sels, k);
      AtUnique(kept, WithSub(f, Local(ctx, f.typ.name, f.sub, location)));
    }
    if k in Keys(kept) {
      var g := At(kept, k);
      var f :| f in sels && Where(ctx.tum, typename, f.name, location) == location
               && g == WithSub(f, Local(ctx, f.typ.name, f.sub, location));
      AtUnique(sels, f);
    }
  }

  lemma BelowEmpty(pt: Pt)
    ensures Below({}, pt) == {}
  {
  }

  /** Before any further step, an object answered at location shows the direct evaluation of what stays there. */
  lemma {:induction false} AnswerIsPart(ctx: Context, store: Store, typename: string, m: Fields, sels: seq<Sel>, location: string)
    requires Plannable(ctx, typename, sels)
    ensures Part(ctx, store, typename, m, sels, location, {}) == Eval(store, typename, m, Local(ctx, typename, sels, location))
    decreases sels, 0
  {
    var part := Part(ctx, store, typename, m, sels, location, {});
    var eval := Eval(store, typename, m, Local(ctx, typename, sels, location));
    forall k
      ensures k in part <==> k in eval
      ensures k in part ==> part[k] == eval[k]
    {
      LocalAt(ctx, typename, sels, location, k);
      if k in part {
        var f := At(sels, k);
        PlannableSub(ctx, typename, sels, f);
        FieldAnswerIsPart(ctx, store, typename, m, f, location);
      }
    }
  }

  lemma {:induction false} FieldAnswerIsPart(ctx: Context, store: Store, typename: string, m: Fields, f: Sel, location: string)
    requires PlannableField(ctx, typename, f)
    ensures var url := Where(ctx.tum, typename, f.name, location);
            PartField(ctx, store, typename, m, f, location, {}) == EvalField(store, typename, m, WithSub(f, Local(ctx, f.typ.name, f.sub, url)))
    decreases f, 2
  {
    var url := Where(ctx.tum, typename, f.name, location);
    BelowEmpty(Pt(Key(f), None));
    ItemAnswerIsPart(ctx, store, f, Value(m, f.name), url);
    match Value(m, f.name)
    case Many(items) =>
      forall i | 0 <= i < |items|
        ensures PartItem(ctx, store, f.typ.name, items[i], f.sub, url, Below({}, Pt(Key(f), Some(i))))
                == Complete(store, f.typ.name, items[i], Local(ctx, f.typ.name, f.sub, url))
      {
        BelowEmpty(Pt(Key(f), Some(i)));
        ItemAnswerIsPart(ctx, store, f, items[i], url);
      }
    case _ =>
  }

  lemma {:induction false} ItemAnswerIsPart(ctx: Context, store: Store, f: Sel, v: Val, url: string)
    requires f.Field? && (f.sub != [] ==> Plannable(ctx, f.typ.name, f.sub))
    ensures PartItem(ctx, store, f.typ.name, v, f.sub, url, {}) == Complete(store, f.typ.name, v, Local(ctx, f.typ.name, f.sub, url))
    decreases f, 1, v
  {
    match v
    case Many(items) =>
      forall i | 0 <= i < |items|
        ensures PartItem(ctx, store, f.typ.name, items[i], f.sub, url, {})
                == Complete(store, f.typ.name, items[i], Local(ctx, f.typ.name, f.sub, url))
      {
        ItemAnswerIsPart(ctx, store, f, items[i], url);
      }
    case Ref(id) =>
      if id in store.entities {
        ObjectAnswerIsPart(ctx, store, f, store.entities[id].fields, url);
      }
    case Plain(m) => ObjectAnswerIsPart(ctx, store, f, m, url);
    case _ =>
  }

  lemma {:induction false} ObjectAnswerIsPart(ctx: Context, store: Store, f: Sel, m: Fields, url: string)
    requires f.Field? && (f.sub != [] ==> Plannable(ctx, f.typ.name, f.sub))
    ensures Part(ctx, store, f.typ.name, m, f.sub, url, {}) == Eval(store, f.typ.name, m, Local(ctx, f.typ.name, f.sub, url))
    decreases f, 0
  {
    if f.sub == [] {
      assert Local(ctx, f.typ.name, f.sub, url) == [];
    } else {
      AnswerIsPart(ctx, store, f.typ.name, m, f.sub, url);
    }
  }

  /** Well-typed data under a plannable, well-typed selection. */
  ghost predicate PlaceOk(ctx: Context, store: Store, p: Place) {
    && p.typename in ctx.types
    && HasFields(ctx, store, p.typename, p.m)
    && Typed(ctx, p.typename, p.sels)
    && Plannable(ctx, p.typename, p.sels)
    && p.location != INTERNAL_SERVICE
  }

  lemma {:induction false} PlaceBelowOk(ctx: Context, store: Store, p: Place, pt: Pt)
    requires ContextOk(ctx) && StoreOk(ctx, store) && PlaceOk(ctx, store, p) && PlaceBelow(ctx, store, p, pt).Some?
    ensures var q := PlaceBelow(ctx, store, p, pt).value;
            PlaceOk(ctx, store, q) && At(p.sels, pt.key).sub != []
    ensures var f := At(p.sels, pt.key);
            var v := Item(Value(p.m, f.name), pt.index).value;
            IsObject(ctx, store, f.typ.name, v) && (pt.index.Some? <==> f.typ.list)
  {
    var f := At(p.sels, pt.key);
    assert TypedField(ctx, p.typename, f);
    assert PlannableField(ctx, p.typename, f);
    var typ, v := ctx.types[p.typename][f.name], p.m[f.name];
    assert HasType(ctx, store, typ, v);
    ItemTyped(ctx, store, typ, v, pt.index);
    OnlyNodesSplitSafely(ctx, p.typename, f.name, p.location);
  }

  lemma {:induction false} ItemTyped(ctx: Context, store: Store, typ: TypeRef, v: Val, index: Option<nat>)
    requires StoreOk(ctx, store) && HasType(ctx, store, typ, v)
    requires Item(v, index).Some? && ObjectOf(store, Item(v, index).value).Some?
    ensures typ.name in ctx.types && IsObject(ctx, store, typ.name, Item(v, index).value)
    ensures index.Some? <==> typ.list
    ensures HasFields(ctx, store, typ.name, ObjectOf(store, Item(v, index).value).value)
  {
    if typ.name !in ctx.types {
      assert LeafValue(Item(v, index).value);
    }
  }

  lemma OnlyNodesSplitSafely(ctx: Context, typename: string, field: string, location: string)
    requires ContextOk(ctx) && location != INTERNAL_SERVICE
    ensures Where(ctx.tum, typename, field, location) != INTERNAL_SERVICE
  {
  }

  /** Every task lies where the answer so far reaches. */
  ghost predicate Grounded(ctx: Context, store: Store, p: Place, done: set<Task>) {
    forall t :: t in done ==> Locate(ctx, store, p, done, t.at).Some?
  }

  lemma GroundedBelow(ctx: Context, store: Store, p: Place, done: set<Task>, pt: Pt)
    requires Grounded(ctx, store, p, done) && PlaceBelow(ctx, store, p, pt).Some?
    ensures Grounded(ctx, store, PlaceBelow(ctx, store, p, pt).value, Below(done, pt))
  {
    forall t | t in Below(done, pt)
      ensures Locate(ctx, store, PlaceBelow(ctx, store, p, pt).value, Below(done, pt), t.at).Some?
    {
      InBelow(done, pt, t);
      var full := [pt] + t.at;
      assert full[1..] == t.at;
      assert Locate(ctx, store, p, done, full).Some?;
    }
  }

  /** Below a field that is not there yet nothing has been done. */
  lemma NothingBelowAbsent(ctx: Context, store: Store, p: Place, done: set<Task>, pt: Pt)
    requires Grounded(ctx, store, p, done)
    requires pt.key in Keys(p.sels) && !Present(ctx.tum, p.typename, At(p.sels, pt.key), p.location, done)
    ensures Below(done, pt) == {}
  {
    forall t: Task
      ensures t !in Below(done, pt)
    {
      InBelow(done, pt, t);
      var full := Task([pt] + t.at, t.url);
      assert full in done ==> Locate(ctx, store, p, done, full.at).Some?;
    }
  }

  /** What the service url answers about a place: the fields that go there, and what stays there below them. */
  function Answer(ctx: Context, store: Store, p: Place, url: string): Object {
    Eval(store, p.typename, p.m, Local(ctx, p.typename, Group(ctx.tum, p.typename, p.sels, p.location, url), url))
  }

  lemma {:induction false} GroupAt(tum: TypeURLMap, typename: string, sels: seq<Sel>, location: string, url: string, k: string)
    requires UniqueKeys(sels)
    ensures UniqueKeys(Group(tum, typename, sels, location, url))
    ensures k in Keys(Group(tum, typename, sels, location, url)) <==>
            k in Keys(sels) && Where(tum, typename, At(sels, k).name, location) == url
    ensures k in Keys(Group(tum, typename, sels, location, url)) ==>
              At(Group(tum, typename, sels, location, url), k) == At(sels, k)
  {
    var group := Group(tum, typename, sels, location, url);
    GroupUnique(tum, typename, sels, location, url);
    if k in Keys(sels) && Where(tum, typename, At(sels, k).name, location) == url {
      AtUnique(group, At(sels, k));
    }
    if k in Keys(group) {
      AtUnique(sels, At(group, k));
    }
  }

  lemma {:induction false} GroupUnique(tum: TypeURLMap, typename: string, sels: seq<Sel>, location: string, url: string)
    requires UniqueKeys(sels)
    ensures UniqueKeys(Group(tum, typename, sels, location, url))
  {
    if sels != [] {
      var front, last := sels[..|sels| - 1], sels[|sels| - 1];
      GroupUnique(tum, typename, front, location, url);
      GroupApart(sels, Group(tum, typename, front, location, url));
      SnocUnique(Group(tum, typename, front, location, url), last);
    }
  }

  lemma GroupApart(sels: seq<Sel>, group: seq<Sel>)
    requires UniqueKeys(sels) && sels != [] && sels[|sels| - 1].Field?
    requires forall i :: 0 <= i < |group| ==> group[i].Field? && group[i] in sels[..|sels| - 1]
    ensures forall i :: 0 <= i < |group| ==> Key(group[i]) != Key(sels[|sels| - 1])
  {
    var front := sels[..|sels| - 1];
    forall i | 0 <= i < |group|
      ensures Key(group[i]) != Key(sels[|sels| - 1])
    {
      var j :| 0 <= j < |front| && front[j] == group[i];
      assert sels[j] == group[i];
    }
  }

  /** The fields of an answer, one by one. */
  lemma {:induction false} AnswerAt(ctx: Context, store: Store, p: Place, url: string, k: string)
    requires UniqueKeys(p.sels)
    requires url != p.location && p.location != INTERNAL_SERVICE
    ensures k in Answer(ctx, store, p, url) <==>
            k in Keys(p.sels) && Where(ctx.tum, p.typename, At(p.sels, k).name, p.location) == url
    ensures k in Answer(ctx, store, p, url) ==>
              var f := At(p.sels, k);
              Answer(ctx, store, p, url)[k] == EvalField(store, p.typename, p.m, WithSub(f, Local(ctx, f.typ.name, f.sub, url)))
  {
    var group := Group(ctx.tum, p.typename, p.sels, p.location, url);
    GroupAt(ctx.tum, p.typename, p.sels, p.location, url, k);
    LocalAt(ctx, p.typename, group, url, k);
    if k in Keys(p.sels) && Where(ctx.tum, p.typename, At(p.sels, k).name, p.location) == url {
      OnlyNodesSplit(ctx.tum, p.typename, At(p.sels, k).name, p.location);
    }
  }

  /** Merging an answer at the place itself is doing its task. */
  lemma AddHere(ctx: Context, store: Store, p: Place, done: set<Task>, url: string)
    requires ContextOk(ctx) && StoreOk(ctx, store) && PlaceOk(ctx, store, p) && Grounded(ctx, store, p, done)
    requires url != p.location && Task([], url) !in done
    ensures PartAt(ctx, store, p, done).Keys !! Answer(ctx, store, p, url).Keys
    ensures PartAt(ctx, store, p, done + {Task([], url)}) == PartAt(ctx, store, p, done) + Answer(ctx, store, p, url)
  {
    var before, after, answer :=
      PartAt(ctx, store, p, done), PartAt(ctx, store, p, done + {Task([], url)}), Answer(ctx, store, p, url);
    forall k
      ensures IsSumAt(before, answer, after, k)
    {
      AddHereAt(ctx, store, p, done, url, k);
    }
    IsSum(before, answer, after);
  }

  predicate IsSumAt(a: Object, b: Object, sum: Object, k: string) {
    && !(k in a && k in b)
    && (k in sum <==> k in a || k in b)
    && (k in a ==> sum[k] == a[k])
    && (k in b ==> sum[k] == b[k])
  }

  lemma IsSum(a: Object, b: Object, sum: Object)
    requires forall k :: IsSumAt(a, b, sum, k)
    ensures a.Keys !! b.Keys
    ensures sum == a + b
  {
    assert forall k :: k in a ==> IsSumAt(a, b, sum, k);
    assert forall k :: k in b ==> IsSumAt(a, b, sum, k);
    assert forall k :: k in sum ==> IsSumAt(a, b, sum, k);
  }

  lemma AddHereAt(ctx: Context, store: Store, p: Place, done: set<Task>, url: string, k: string)
    requires ContextOk(ctx) && StoreOk(ctx, store) && PlaceOk(ctx, store, p) && Grounded(ctx, store, p, done)
    requires url != p.location && Task([], url) !in done
    ensures var before, after, answer :=
              PartAt(ctx, store, p, done), PartAt(ctx, store, p, done + {Task([], url)}), Answer(ctx, store, p, url);
            IsSumAt(before, answer, after, k)
  {
    var more := done + {Task([], url)};
    AnswerAt(ctx, store, p, url, k);
    if k in Keys(p.sels) {
      var f := At(p.sels, k);
      if Present(ctx.tum, p.typename, f, p.location, done) {
        OldField(ctx, store, p, done, url, f);
      } else if Where(ctx.tum, p.typename, f.name, p.location) == url {
        NewField(ctx, store, p, done, url, f);
      }
      assert Present(ctx.tum, p.typename, f, p.location, more) <==>
             Present(ctx.tum, p.typename, f, p.location, done) || Where(ctx.tum, p.typename, f.name, p.location) == url;
    }
  }

  lemma {:induction false} OldField(ctx: Context, store: Store, p: Place, done: set<Task>, url: string, f: Sel)
    requires f.Field?
    ensures PartField(ctx, store, p.typename, p.m, f, p.location, done + {Task([], url)})
            == PartField(ctx, store, p.typename, p.m, f, p.location, done)
  {
    BelowUnaffected(done, url);
    PartFieldSame(ctx, store, p, f, done, done + {Task([], url)});
  }

  /** A field just answered shows what the service says about it. */
  lemma {:induction false} NewField(ctx: Context, store: Store, p: Place, done: set<Task>, url: string, f: Sel)
    requires ContextOk(ctx) && StoreOk(ctx, store) && PlaceOk(ctx, store, p) && Grounded(ctx, store, p, done)
    requires f in p.sels && f.Field? && !Present(ctx.tum, p.typename, f, p.location, done)
    requires Where(ctx.tum, p.typename, f.name, p.location) == url
    ensures PartField(ctx, store, p.typename, p.m, f, p.location, done + {Task([], url)})
            == EvalField(store, p.typename, p.m, WithSub(f, Local(ctx, f.typ.name, f.sub, url)))
  {
    BelowUnaffected(done, url);
    NothingBelowField(ctx, store, p, done, f);
    PartFieldSame(ctx, store, p, f, {}, done + {Task([], url)});
    assert PlannableField(ctx, p.typename, f);
    FieldAnswerIsPart(ctx, store, p.typename, p.m, f, p.location);
  }

  lemma BelowUnaffected(done: set<Task>, url: string)
    ensures forall pt :: Below(done + {Task([], url)}, pt) == Below(done, pt)
    ensures forall pt :: Below({}, pt) == {}
  {
  }

  /** A field's partial value depends only on what has been done below it. */
  lemma {:induction false} PartFieldSame(ctx: Context, store: Store, p: Place, f: Sel, a: set<Task>, b: set<Task>)
    requires f.Field?
    requires forall i :: Below(a, Pt(Key(f), i)) == Below(b, Pt(Key(f), i))
    ensures PartField(ctx, store, p.typename, p.m, f, p.location, a) == PartField(ctx, store, p.typename, p.m, f, p.location, b)
  {
  }

  lemma NothingBelowField(ctx: Context, store: Store, p: Place, done: set<Task>, f: Sel)
    requires Grounded(ctx, store, p, done) && UniqueKeys(p.sels) && f in p.sels
    requires !Present(ctx.tum, p.typename, f, p.location, done)
    ensures forall i :: Below(done, Pt(Key(f), i)) == {}
  {
    AtUnique(p.sels, f);
    forall i
      ensures Below(done, Pt(Key(f), i)) == {}
    {
      NothingBelowAbsent(ctx, store, p, done, Pt(Key(f), i));
    }
  }

  /** The answer after merging one result: the tree with the service's answer added to the object at the address. */
  function Merged(ctx: Context, store: Store, tree: Object, at: seq<Pt>, q: Place, url: string): Object
    requires Reach(tree, at).Some?
  {
    WithAt(tree, at, Reach(tree, at).value + Answer(ctx, store, q, url))
  }

  /**
   * One task done anywhere in the tree: the stitched tree is the partial answer of one task more. The answer's keys
   * are new at the place, so nothing is overwritten.
   */
  lemma {:induction false} AddTask(ctx: Context, store: Store, p: Place, done: set<Task>, at: seq<Pt>, url: string)
    requires ContextOk(ctx) && StoreOk(ctx, store) && PlaceOk(ctx, store, p) && Grounded(ctx, store, p, done)
    requires Locate(ctx, store, p, done, at).Some?
    requires url != Locate(ctx, store, p, done, at).value.location && Task(at, url) !in done
    ensures var q := Locate(ctx, store, p, done, at).value;
            var tree := PartAt(ctx, store, p, done);
            && Reach(tree, at).Some?
            && Reach(tree, at).value.Keys !! Answer(ctx, store, q, url).Keys
            && PartAt(ctx, store, p, done + {Task(at, url)}) == Merged(ctx, store, tree, at, q, url)
    decreases |at|
  {
    if at == [] {
      AddHere(ctx, store, p, done, url);
    } else {
      var pt, below := at[0], PlaceBelow(ctx, store, p, at[0]).value;
      PlaceBelowOk(ctx, store, p, pt);
      GroundedBelow(ctx, store, p, done, pt);
      ChildIsPlace(ctx, store, p, done, pt);
      InBelow(done, pt, Task(at[1..], url));
      assert [pt] + at[1..] == at;
      AddTask(ctx, store, below, Below(done, pt), at[1..], url);
      AddBelow(ctx, store, p, done, at, url);
      BelowAdd(done, pt, at, url);
      ChildIsPlace(ctx, store, p, done + {Task(at, url)}, pt);
      SameButIsWithChild(PartAt(ctx, store, p, done), PartAt(ctx, store, p, done + {Task(at, url)}), pt);
    }
  }

  /** A task below pt changes the child at pt and nothing else. */
  lemma AddBelow(ctx: Context, store: Store, p: Place, done: set<Task>, at: seq<Pt>, url: string)
    requires at != []
    ensures SameBut(PartAt(ctx, store, p, done), PartAt(ctx, store, p, done + {Task(at, url)}), at[0])
  {
    var pt, more := at[0], done + {Task(at, url)};
    var tree, after := PartAt(ctx, store, p, done), PartAt(ctx, store, p, more);
    assert after.Keys == tree.Keys;
    forall k | k in tree && k != pt.key
      ensures tree[k] == after[k]
    {
      forall i
        ensures Below(more, Pt(k, i)) == Below(done, Pt(k, i))
      {
        BelowAdd(done, Pt(k, i), at, url);
      }
      PartFieldSame(ctx, store, p, At(p.sels, k), more, done);
    }
    if pt.key in tree && pt.index.Some? {
      SiblingsUnaffected(done, at, url);
      ListFieldChanged(ctx, store, p, At(p.sels, pt.key), done, more, pt.index.value);
    }
  }

  lemma SiblingsUnaffected(done: set<Task>, at: seq<Pt>, url: string)
    requires at != []
    ensures forall i :: i != at[0].index ==> Below(done + {Task(at, url)}, Pt(at[0].key, i)) == Below(done, Pt(at[0].key, i))
  {
    forall i | i != at[0].index
      ensures Below(done + {Task(at, url)}, Pt(at[0].key, i)) == Below(done, Pt(at[0].key, i))
    {
      BelowAdd(done, Pt(at[0].key, i), at, url);
    }
  }

  lemma {:induction false} ListFieldChanged(ctx: Context, store: Store, p: Place, f: Sel, done: set<Task>,
                                        more: set<Task>, n: nat)
    requires f.Field?
    requires forall i :: i != Some(n) ==> Below(more, Pt(Key(f), i)) == Below(done, Pt(Key(f), i))
    ensures var a, b := PartField(ctx, store, p.typename, p.m, f, p.location, done),
                        PartField(ctx, store, p.typename, p.m, f, p.location, more);
            a.JList? && n < |a.items| ==>
              b.JList? && |a.items| == |b.items| && b.items == a.items[n := b.items[n]]
  {
    var a, b := PartField(ctx, store, p.typename, p.m, f, p.location, done), PartField(ctx, store, p.typename, p.m, f, p.location, more);
    if a.JList? && n < |a.items| {
      forall i | 0 <= i < |a.items| && i != n
        ensures i < |b.items| && a.items[i] == b.items[i]
      {
        assert Some(i) != Some(n);
      }
      assert b.items == a.items[n := b.items[n]];
    }
  }

  /** No object that is there waits for a service. */
  ghost predicate AllDone(ctx: Context, store: Store, p: Place, done: set<Task>) {
    forall at: seq<Pt>, f: Sel ::
      Locate(ctx, store, p, done, at).Some? && f in Locate(ctx, store, p, done, at).value.sels && f.Field? ==>
        var q := Locate(ctx, store, p, done, at).value;
        var url := Where(ctx.tum, q.typename, f.name, q.location);
        url == q.location || Task(at, url) in done
  }

  lemma AllDoneBelow(ctx: Context, store: Store, p: Place, done: set<Task>, pt: Pt)
    requires AllDone(ctx, store, p, done) && PlaceBelow(ctx, store, p, pt).Some?
    requires Present(ctx.tum, p.typename, At(p.sels, pt.key), p.location, done)
    ensures AllDone(ctx, store, PlaceBelow(ctx, store, p, pt).value, Below(done, pt))
  {
    var q := PlaceBelow(ctx, store, p, pt).value;
    forall at: seq<Pt>, f: Sel |
      Locate(ctx, store, q, Below(done, pt), at).Some? && f in Locate(ctx, store, q, Below(done, pt), at).value.sels && f.Field?
      ensures var r := Locate(ctx, store, q, Below(done, pt), at).value;
              var url := Where(ctx.tum, r.typename, f.name, r.location);
              url == r.location || Task(at, url) in Below(done, pt)
    {
      var full := [pt] + at;
      assert full[1..] == at;
      var r := Locate(ctx, store, q, Below(done, pt), at).value;
      assert Locate(ctx, store, p, done, full) == Some(r);
      InBelow(done, pt, Task(at, Where(ctx.tum, r.typename, f.name, r.location)));
    }
  }

  /** With every task done the partial answer is the direct evaluation. */
  lemma {:induction false} AllDoneIsEval(ctx: Context, store: Store, p: Place, done: set<Task>)
    requires ContextOk(ctx) && StoreOk(ctx, store) && PlaceOk(ctx, store, p) && AllDone(ctx, store, p, done)
    ensures PartAt(ctx, store, p, done) == Eval(store, p.typename, p.m, p.sels)
    decreases p.sels, 1
  {
    var part, eval := PartAt(ctx, store, p, done), Eval(store, p.typename, p.m, p.sels);
    assert Locate(ctx, store, p, done, []) == Some(p);
    forall k | k in Keys(p.sels)
      ensures k in part && part[k] == eval[k]
    {
      FieldDoneIsEval(ctx, store, p, done, k);
    }
    assert part == eval;
  }

  lemma {:induction false} FieldDoneIsEval(ctx: Context, store: Store, p: Place, done: set<Task>, k: string)
    requires ContextOk(ctx) && StoreOk(ctx, store) && PlaceOk(ctx, store, p) && AllDone(ctx, store, p, done)
    requires k in Keys(p.sels) && Present(ctx.tum, p.typename, At(p.sels, k), p.location, done)
    ensures PartField(ctx, store, p.typename, p.m, At(p.sels, k), p.location, done)
            == EvalField(store, p.typename, p.m, At(p.sels, k))
    decreases p.sels, 0, 1
  {
    var f := At(p.sels, k);
    if f.name != TYPENAME {
      var v := Value(p.m, f.name);
      match v
      case Many(items) =>
        forall i | 0 <= i < |items|
          ensures PartItem(ctx, store, f.typ.name, items[i], f.sub, Where(ctx.tum, p.typename, f.name, p.location), Below(done, Pt(k, Some(i))))
                  == Complete(store, f.typ.name, items[i], f.sub)
        {
          ItemDoneIsEval(ctx, store, p, done, Pt(k, Some(i)), items[i]);
        }
      case _ => ItemDoneIsEval(ctx, store, p, done, Pt(k, None), v);
    }
  }

  lemma {:induction false} ItemDoneIsEval(ctx: Context, store: Store, p: Place, done: set<Task>, pt: Pt, v: Val)
    requires ContextOk(ctx) && StoreOk(ctx, store) && PlaceOk(ctx, store, p) && AllDone(ctx, store, p, done)
    requires pt.key in Keys(p.sels) && Present(ctx.tum, p.typename, At(p.sels, pt.key), p.location, done)
    requires At(p.sels, pt.key).name != TYPENAME && Item(Value(p.m, At(p.sels, pt.key).name), pt.index) == Some(v)
    ensures var f := At(p.sels, pt.key);
            PartItem(ctx, store, f.typ.name, v, f.sub, Where(ctx.tum, p.typename, f.name, p.location), Below(done, pt))
            == Complete(store, f.typ.name, v, f.sub)
    decreases p.sels, 0, 0
  {
    var f := At(p.sels, pt.key);
    if ObjectOf(store, v).Some? {
      PlaceBelowOk(ctx, store, p, pt);
      AllDoneBelow(ctx, store, p, done, pt);
      AllDoneIsEval(ctx, store, PlaceBelow(ctx, store, p, pt).value, Below(done, pt));
    } else {
      assert TypedField(ctx, p.typename, f);
      NoObjectNoPart(ctx, store, p, f, pt, v);
      LeafSame(ctx, store, f.typ.name, v, f.sub, Where(ctx.tum, p.typename, f.name, p.location), Below(done, pt));
    }
  }

  lemma {:induction false} NoObjectNoPart(ctx: Context, store: Store, p: Place, f: Sel, pt: Pt, v: Val)
    requires ContextOk(ctx) && StoreOk(ctx, store) && PlaceOk(ctx, store, p) && f in p.sels && f.name != TYPENAME
    requires Item(Value(p.m, f.name), pt.index) == Some(v) && ObjectOf(store, v).None?
    ensures LeafValue(v)
  {
    assert TypedField(ctx, p.typename, f);
    assert HasType(ctx, store, ctx.types[p.typename][f.name], p.m[f.name]);
  }

  lemma {:induction false} LeafSame(ctx: Context, store: Store, typename: string, v: Val, sub: seq<Sel>,
                                    location: string, done: set<Task>)
    requires LeafValue(v)
    ensures PartItem(ctx, store, typename, v, sub, location, done) == Complete(store, typename, v, sub)
    decreases v
  {
    match v
    case Many(items) =>
      forall i | 0 <= i < |items|
        ensures PartItem(ctx, store, typename, items[i], sub, location, {}) == Complete(store, typename, items[i], sub)
      {
        LeafSame(ctx, store, typename, items[i], sub, location, {});
      }
    case _ =>
  }
}
