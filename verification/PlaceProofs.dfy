/**
 * Places reached one after the other: paths that compose, tasks that accumulate, answers that conform.
 * What is located stays located as tasks are done, and every located place is well-typed.
 */
module PlaceProofs {
  import opened Prelude
  import opened Text
  import opened Points
  import opened Json
  import opened Schema
  import opened Selection
  import opened Evaluation
  import opened Division
  import opened DivisionShape
  import opened Progress
  import opened ProgressProofs
  import opened InsertionPoints
  import opened Findable
  import opened Stitching

  /** The tasks at or below the object at an address, seen from there. */
  function BelowPath(done: set<Task>, at: seq<Pt>): set<Task>
    decreases |at|
  {
    if at == [] then done else BelowPath(Below(done, at[0]), at[1..])
  }

  lemma {:induction false} InBelowPath(done: set<Task>, at: seq<Pt>, t: Task)
    ensures t in BelowPath(done, at) <==> Task(at + t.at, t.url) in done
    decreases |at|
  {
    if at == [] {
      assert at + t.at == t.at;
    } else {
      InBelowPath(Below(done, at[0]), at[1..], t);
      InBelow(done, at[0], Task(at[1..] + t.at, t.url));
      assert [at[0]] + (at[1..] + t.at) == at + t.at;
    }
  }

  lemma {:induction false} LocateAppend(ctx: Context, store: Store, p: Place, done: set<Task>, a: seq<Pt>, b: seq<Pt>)
    ensures Locate(ctx, store, p, done, a + b) ==
            match Locate(ctx, store, p, done, a)
            case None => None
            case Some(q) => Locate(ctx, store, q, BelowPath(done, a), b)
    decreases |a|
  {
    if a == [] {
      assert a + b == b;
    } else {
      assert (a + b)[0] == a[0] && (a + b)[1..] == a[1..] + b;
      var q := PlaceBelow(ctx, store, p, a[0]);
      if q.Some? {
        LocateAppend(ctx, store, q.value, Below(done, a[0]), a[1..], b);
      }
    }
  }

  /** More tasks never lose a place. */
  lemma {:induction false} LocateMonotone(ctx: Context, store: Store, p: Place, done: set<Task>, more: set<Task>, at: seq<Pt>)
    requires done <= more && Locate(ctx, store, p, done, at).Some?
    ensures Locate(ctx, store, p, more, at) == Locate(ctx, store, p, done, at)
    decreases |at|
  {
    if at != [] {
      forall t | t in Below(done, at[0])
        ensures t in Below(more, at[0])
      {
        InBelow(done, at[0], t);
        InBelow(more, at[0], t);
      }
      LocateMonotone(ctx, store, PlaceBelow(ctx, store, p, at[0]).value, Below(done, at[0]), Below(more, at[0]), at[1..]);
    }
  }

  lemma {:induction false} ReachIsPart(ctx: Context, store: Store, p: Place, done: set<Task>, at: seq<Pt>)
    requires Locate(ctx, store, p, done, at).Some?
    ensures Reach(PartAt(ctx, store, p, done), at)
            == Some(PartAt(ctx, store, Locate(ctx, store, p, done, at).value, BelowPath(done, at)))
    decreases |at|
  {
    if at != [] {
      ChildIsPlace(ctx, store, p, done, at[0]);
      ReachIsPart(ctx, store, PlaceBelow(ctx, store, p, at[0]).value, Below(done, at[0]), at[1..]);
    }
  }

  lemma {:induction false} BelowPathEmpty(at: seq<Pt>)
    ensures BelowPath({}, at) == {}
    decreases |at|
  {
    if at != [] {
      BelowEmpty(at[0]);
      BelowPathEmpty(at[1..]);
    }
  }

  /** Without any task done, a place located lies along local fields. */
  lemma {:induction false} LocateIsSelAt(ctx: Context, store: Store, p: Place, at: seq<Pt>)
    requires ContextOk(ctx) && StoreOk(ctx, store) && PlaceOk(ctx, store, p)
    requires Locate(ctx, store, p, {}, at).Some?
    ensures var q := Locate(ctx, store, p, {}, at).value;
            SelAt(ctx, p.typename, p.sels, p.location, KeysOf(at)) == Some((q.typename, q.sels)) && q.location == p.location
    decreases |at|
  {
    if at != [] {
      BelowEmpty(at[0]);
      PlaceBelowOk(ctx, store, p, at[0]);
      LocateIsSelAt(ctx, store, PlaceBelow(ctx, store, p, at[0]).value, at[1..]);
      assert KeysOf(at)[0] == at[0].key && KeysOf(at)[1..] == KeysOf(at[1..]);
    }
  }

  /** An entity seen through a selection that asks for its id. */
  ghost predicate NodeOk(ctx: Context, store: Store, q: Place) {
    ImplementsNode(ctx.tum, q.typename) ==>
      && HasIdKey(q.sels)
      && ID in q.m && q.m[ID].Scalar?
      && q.m[ID].text in store.entities
      && store.entities[q.m[ID].text] == Entity(q.typename, q.m)
  }

  /** Within the steps below a place no key under which objects are stitched is shadowed. */
  ghost predicate UnhiddenAt(ctx: Context, p: Place) {
    Unhidden(ctx, p.typename, p.sels, p.location)
  }

  lemma PlaceBelowNodeOk(ctx: Context, store: Store, p: Place, pt: Pt)
    requires ContextOk(ctx) && StoreOk(ctx, store) && PlaceOk(ctx, store, p) && PlaceBelow(ctx, store, p, pt).Some?
    ensures NodeOk(ctx, store, PlaceBelow(ctx, store, p, pt).value)
    ensures !IsRoot(PlaceBelow(ctx, store, p, pt).value.typename)
    ensures UnhiddenAt(ctx, p) ==> UnhiddenAt(ctx, PlaceBelow(ctx, store, p, pt).value)
    ensures IsName(pt.key) && (pt.index.Some? ==> pt.index.value < MAX_INDEX)
  {
    PlaceBelowOk(ctx, store, p, pt);
    var f := At(p.sels, pt.key);
    assert PlannableField(ctx, p.typename, f);
    assert TypedField(ctx, p.typename, f);
    assert HasType(ctx, store, ctx.types[p.typename][f.name], p.m[f.name]);
    var i :| 0 <= i < |p.sels| && p.sels[i] == f;
    assert UnhiddenAt(ctx, p) ==> Unhidden(ctx, p.sels[i].typ.name, p.sels[i].sub, Where(ctx.tum, p.typename, p.sels[i].name, p.location));
  }

  lemma {:induction false} LocatedOk(ctx: Context, store: Store, p: Place, done: set<Task>, at: seq<Pt>)
    requires ContextOk(ctx) && StoreOk(ctx, store) && PlaceOk(ctx, store, p) && UnhiddenAt(ctx, p)
    requires Locate(ctx, store, p, done, at).Some?
    ensures var q := Locate(ctx, store, p, done, at).value;
            && PlaceOk(ctx, store, q) && UnhiddenAt(ctx, q)
            && (at != [] ==> NodeOk(ctx, store, q) && !IsRoot(q.typename))
    ensures forall i :: 0 <= i < |at| ==> IsName(at[i].key) && (at[i].index.Some? ==> at[i].index.value < MAX_INDEX)
    decreases |at|
  {
    if at != [] {
      var q := PlaceBelow(ctx, store, p, at[0]).value;
      PlaceBelowOk(ctx, store, p, at[0]);
      PlaceBelowNodeOk(ctx, store, p, at[0]);
      LocatedOk(ctx, store, q, Below(done, at[0]), at[1..]);
      LocateBelow(ctx, store, p, done, at);
      forall i | 0 <= i < |at|
        ensures IsName(at[i].key) && (at[i].index.Some? ==> at[i].index.value < MAX_INDEX)
      {
        assert i > 0 ==> at[i] == at[1..][i - 1];
      }
    }
  }

  lemma {:induction false} LocateBelow(ctx: Context, store: Store, p: Place, done: set<Task>, at: seq<Pt>)
    requires at != [] && Locate(ctx, store, p, done, at).Some?
    ensures var q := PlaceBelow(ctx, store, p, at[0]).value;
            Locate(ctx, store, p, done, at) == if at[1..] == [] then Some(q) else Locate(ctx, store, q, Below(done, at[0]), at[1..])
  {
  }

  /** An entity's partial answer carries its id. */
  lemma NodeHasID(ctx: Context, store: Store, q: Place, done: set<Task>)
    requires ContextOk(ctx) && StoreOk(ctx, store) && PlaceOk(ctx, store, q) && NodeOk(ctx, store, q)
    requires ImplementsNode(ctx.tum, q.typename)
    ensures HasID(PartAt(ctx, store, q, done)) && PartAt(ctx, store, q, done)[ID] == JScalar(q.m[ID].text)
    ensures q.m[ID].text != "" && '#' !in q.m[ID].text
  {
    var i :| 0 <= i < |q.sels| && q.sels[i].name == ID && Key(q.sels[i]) == ID;
    var f := q.sels[i];
    AtUnique(q.sels, f);
    assert Where(ctx.tum, q.typename, ID, q.location) == q.location;
    assert PartAt(ctx, store, q, done)[ID] == PartField(ctx, store, q.typename, q.m, f, q.location, done);
    assert |ID| != |TYPENAME|;
    assert f.name != TYPENAME && Value(q.m, f.name) == Scalar(q.m[ID].text);
    assert PartItem(ctx, store, f.typ.name, Value(q.m, f.name), f.sub, q.location, Below(done, Pt(ID, None))) == JScalar(q.m[ID].text);
  }

  /** A composite field that stays keeps something below it. */
  lemma {:induction false} LocalNotEmpty(ctx: Context, typename: string, sels: seq<Sel>, location: string)
    requires ContextOk(ctx) && Plannable(ctx, typename, sels) && sels != [] && !IsRoot(typename)
    requires ImplementsNode(ctx.tum, typename) ==> HasIdKey(sels)
    requires location != INTERNAL_SERVICE
    ensures Local(ctx, typename, sels, location) != []
  {
    InLocal(ctx, typename, sels, location);
    if ImplementsNode(ctx.tum, typename) {
      var i :| 0 <= i < |sels| && sels[i].name == ID && Key(sels[i]) == ID;
      assert sels[i] in sels && Where(ctx.tum, typename, ID, location) == location;
    } else {
      assert sels[0] in sels && Where(ctx.tum, typename, sels[0].name, location) == location;
    }
  }

  /** What stays of a place, found by the executor's search in what was sent. */
  ghost predicate FoundIn(ctx: Context, p: Place, sent: seq<Sel>) {
    forall f :: f in Local(ctx, p.typename, p.sels, p.location) && f.Field? && f.sub != [] ==> FindSelection(Key(f), sent) == Some(f)
  }

  lemma {:induction false} LocalFound(ctx: Context, p: Place)
    requires UniqueKeys(p.sels) && UnhiddenAt(ctx, p)
    ensures FoundIn(ctx, p, Local(ctx, p.typename, p.sels, p.location))
  {
    var kept := Local(ctx, p.typename, p.sels, p.location);
    LocalUnique(ctx, p.typename, p.sels, p.location);
    forall f | f in kept && f.Field? && f.sub != []
      ensures FindSelection(Key(f), kept) == Some(f)
    {
      FindDirect(kept, f);
    }
  }

  /** The same in what a step sends. */
  lemma {:induction false} SentFound(ctx: Context, p: Place)
    requires UniqueKeys(p.sels) && ClearStep(p.typename, Local(ctx, p.typename, p.sels, p.location))
    ensures FoundIn(ctx, p, Sent(p.typename, Local(ctx, p.typename, p.sels, p.location)))
  {
    var kept := Local(ctx, p.typename, p.sels, p.location);
    LocalUnique(ctx, p.typename, p.sels, p.location);
    forall f | f in kept && f.Field? && f.sub != []
      ensures FindSelection(Key(f), Sent(p.typename, kept)) == Some(f)
    {
      FindInSent(p.typename, kept, f);
    }
  }

  /** A service's answer has the shape its selection announces, along every path that ends at a Node type. */
  lemma {:induction false} AnswerConforms(ctx: Context, store: Store, p: Place, sent: seq<Sel>, path: seq<string>)
    requires ContextOk(ctx) && StoreOk(ctx, store) && PlaceOk(ctx, store, p) && UnhiddenAt(ctx, p)
    requires FoundIn(ctx, p, sent)
    requires SelAt(ctx, p.typename, p.sels, p.location, path).Some?
    requires path != [] ==> ImplementsNode(ctx.tum, SelAt(ctx, p.typename, p.sels, p.location, path).value.0)
    ensures Conforms(path, sent, PartAt(ctx, store, p, {}))
    decreases |path|, 1
  {
    if path != [] {
      var f := At(p.sels, path[0]);
      var kept := WithSub(f, Local(ctx, f.typ.name, f.sub, p.location));
      var obj := PartAt(ctx, store, p, {});
      FieldFound(ctx, store, p, sent, f);
      FieldConforms(ctx, store, p, f);
      forall pt: Pt | pt.key == path[0] && Child(obj, pt).Some?
        ensures ConformsBelow(path, kept, Child(obj, pt).value)
      {
        ChildIsPlace(ctx, store, p, {}, pt);
        AnswerConformsBelow(ctx, store, p, path, pt, kept);
      }
      ConformsFromChildren(path, sent, kept, obj);
    }
  }

  /** A composite field that stays is found by the executor's search. */
  lemma {:induction false} FieldFound(ctx: Context, store: Store, p: Place, sent: seq<Sel>, f: Sel)
    requires ContextOk(ctx) && PlaceOk(ctx, store, p)
    requires FoundIn(ctx, p, sent) && f in p.sels && f.sub != []
    requires Where(ctx.tum, p.typename, f.name, p.location) == p.location
    ensures FindSelection(Key(f), sent) == Some(WithSub(f, Local(ctx, f.typ.name, f.sub, p.location)))
  {
    assert PlannableField(ctx, p.typename, f);
    InLocal(ctx, p.typename, p.sels, p.location);
    LocalNotEmpty(ctx, f.typ.name, f.sub, p.location);
  }

  /** The value of a composite field: null where that is allowed, an object, or a list of objects. */
  ghost predicate Shaped(ctx: Context, store: Store, p: Place, f: Sel, v: Json)
    requires f.Field?
  {
    match v
    case JNull => !f.typ.nonNull
    case JScalar(_) => false
    case JObj(m) => !f.typ.list && PlaceBelow(ctx, store, p, Pt(Key(f), None)).Some?
    case JList(items) =>
      && f.typ.list
      && forall i :: 0 <= i < |items| ==> items[i].JObj? && PlaceBelow(ctx, store, p, Pt(Key(f), Some(i))).Some?
  }

  lemma {:induction false} FieldShaped(ctx: Context, store: Store, p: Place, f: Sel)
    requires StoreOk(ctx, store) && UniqueKeys(p.sels) && f in p.sels && f.name != TYPENAME
    requires f.typ.name in ctx.types && f.name in p.m && HasType(ctx, store, f.typ, p.m[f.name])
    ensures Shaped(ctx, store, p, f, PartField(ctx, store, p.typename, p.m, f, p.location, {}))
  {
    AtUnique(p.sels, f);
    var url := Where(ctx.tum, p.typename, f.name, p.location);
    match p.m[f.name]
    case Null =>
      assert PartItem(ctx, store, f.typ.name, Null, f.sub, url, Below({}, Pt(Key(f), None))) == JNull;
    case Many(items) =>
      forall i | 0 <= i < |items|
        ensures PartItem(ctx, store, f.typ.name, items[i], f.sub, url, Below({}, Pt(Key(f), Some(i)))).JObj?
        ensures PlaceBelow(ctx, store, p, Pt(Key(f), Some(i))).Some?
      {
        assert IsObject(ctx, store, f.typ.name, items[i]);
        ItemIsObject(ctx, store, f.typ.name, items[i], f.sub, url, Below({}, Pt(Key(f), Some(i))));
      }
    case Ref(id) => ItemIsObject(ctx, store, f.typ.name, Ref(id), f.sub, url, Below({}, Pt(Key(f), None)));
    case Plain(m) => ItemIsObject(ctx, store, f.typ.name, Plain(m), f.sub, url, Below({}, Pt(Key(f), None)));
    case Scalar(_) =>
  }

  lemma FieldConforms(ctx: Context, store: Store, p: Place, f: Sel)
    requires ContextOk(ctx) && StoreOk(ctx, store) && PlaceOk(ctx, store, p)
    requires f in p.sels && f.sub != []
    requires Where(ctx.tum, p.typename, f.name, p.location) == p.location
    ensures Key(f) in PartAt(ctx, store, p, {}) && Shaped(ctx, store, p, f, PartAt(ctx, store, p, {})[Key(f)])
  {
    AtUnique(p.sels, f);
    assert TypedField(ctx, p.typename, f);
    assert Typed(ctx, f.typ.name, f.sub);
    assert PartAt(ctx, store, p, {})[Key(f)] == PartField(ctx, store, p.typename, p.m, f, p.location, {});
    FieldShaped(ctx, store, p, f);
  }

  lemma {:induction false} AnswerConformsBelow(ctx: Context, store: Store, p: Place, path: seq<string>, pt: Pt, kept: Sel)
    requires ContextOk(ctx) && StoreOk(ctx, store) && PlaceOk(ctx, store, p) && UnhiddenAt(ctx, p)
    requires path != [] && SelAt(ctx, p.typename, p.sels, p.location, path).Some?
    requires ImplementsNode(ctx.tum, SelAt(ctx, p.typename, p.sels, p.location, path).value.0)
    requires pt.key == path[0] && PlaceBelow(ctx, store, p, pt).Some?
    requires var f := At(p.sels, path[0]); kept == WithSub(f, Local(ctx, f.typ.name, f.sub, p.location))
    ensures var child := Child(PartAt(ctx, store, p, {}), pt);
            child.Some? && ConformsBelow(path, kept, child.value)
    decreases |path|, 0
  {
    var q := PlaceBelow(ctx, store, p, pt).value;
    ChildIsPlace(ctx, store, p, {}, pt);
    BelowEmpty(pt);
    PlaceBelowOk(ctx, store, p, pt);
    PlaceBelowNodeOk(ctx, store, p, pt);
    LocalFound(ctx, q);
    AnswerConforms(ctx, store, q, kept.sub, path[1..]);
    if |path| == 1 {
      NodeHasID(ctx, store, q, {});
    }
  }

  /** Points printed for an address denote it, and the last one gives back the id. */
  lemma {:induction false} PrintDenotes(at: seq<Pt>, obj: Object)
    requires at != [] ==> HasID(obj) && '#' !in obj[ID].text
    requires forall i :: 0 <= i < |at| ==> IsName(at[i].key) && (at[i].index.Some? ==> at[i].index.value < MAX_INDEX)
    ensures Denotes(PrintPath(at, obj), at)
    ensures at != [] ==> Decode(PrintPath(at, obj)[|at| - 1]).value.id == obj[ID].text
    decreases |at|
  {
    if at != [] {
      var id := if |at| == 1 then Some(obj[ID].text) else None;
      PrintDenotesPt(at[0], id);
      PrintDenotes(at[1..], obj);
      DenotesFurther(Print(at[0].key, at[0].index, id), PrintPath(at[1..], obj), at);
      LastPrinted(at, obj);
      if |at| > 1 {
        assert at[1..][|at| - 2] == at[|at| - 1];
      }
    }
  }

  lemma {:induction false} LastPrinted(at: seq<Pt>, obj: Object)
    requires at != [] && HasID(obj)
    ensures PrintPath(at, obj)[0] == Print(at[0].key, at[0].index, if |at| == 1 then Some(obj[ID].text) else None)
    ensures PrintPath(at, obj)[1..] == PrintPath(at[1..], obj)
    ensures PrintPath(at, obj)[|at| - 1] == if |at| == 1 then PrintPath(at, obj)[0] else PrintPath(at[1..], obj)[|at| - 2]
  {
  }

  lemma DenotesFurther(point: string, path: seq<string>, at: seq<Pt>)
    requires at != [] && DenotesPt(point, at[0]) && Denotes(path, at[1..])
    ensures Denotes([point] + path, at)
  {
    forall i | 0 <= i < |at|
      ensures DenotesPt(([point] + path)[i], at[i])
    {
      assert i > 0 ==> DenotesPt(path[i - 1], at[1..][i - 1]);
    }
  }

  lemma PrintDenotesPt(pt: Pt, id: Option<string>)
    requires IsName(pt.key) && (pt.index.Some? ==> pt.index.value < MAX_INDEX)
    requires id.Some? ==> '#' !in id.value
    ensures DenotesPt(Print(pt.key, pt.index, id), pt)
    ensures id.Some? ==> Decode(Print(pt.key, pt.index, id)).value.id == id.value
  {
    DecodePrint(pt.key, pt.index, id);
  }

  /** An id that a point can carry. */
  predicate PlainID(obj: Object) {
    HasID(obj) ==> '#' !in obj[ID].text
  }

  predicate SmallIndex(pt: Pt) {
    pt.index.Some? ==> pt.index.value < MAX_INDEX
  }

  /**
   * Reaching what was found: walking an answer along a point that FindInsertionPoints returned for it reaches the very
   * object the point was made for, whose id the point carries, and changes nothing.
   */
  lemma {:induction false} FoundIsReached(targets: seq<string>, sels: seq<Sel>, obj: Object, i: nat)
    requires targets != [] && Conforms(targets, sels, obj)
    requires i < |Reached(obj, targets)| && PlainID(Reached(obj, targets)[i].obj)
    requires forall k :: 0 <= k < |targets| ==> IsName(targets[k])
    requires forall k :: 0 <= k < |Reached(obj, targets)[i].at| ==> SmallIndex(Reached(obj, targets)[i].at[k])
    ensures var points, hit := Find(targets, sels, obj, [[]]), Reached(obj, targets)[i];
            && points.Ok? && i < |points.value| && |points.value[i]| == |targets|
            && ExtractValue(obj, points.value[i]) == Ok(Walked(obj, hit.at, hit.obj))
            && Decode(points.value[i][|targets| - 1]).Ok?
            && HasID(hit.obj) && Decode(points.value[i][|targets| - 1]).value.id == hit.obj[ID].text
  {
    var hits := Reached(obj, targets);
    var start: seq<string> := [];
    assert targets[|start|..] == targets;
    FindIsReached(targets, sels, obj, start);
    assert hits[i] in hits;
    assert PointsOf(start, hits)[i] == PrintPath(hits[i].at, hits[i].obj);
    HitReached(targets, obj, hits[i]);
  }

  lemma {:induction false} HitReached(targets: seq<string>, obj: Object, hit: Hit)
    requires hit in Reached(obj, targets) && hit.at != [] && HasID(hit.obj) && PlainID(hit.obj)
    requires forall k :: 0 <= k < |targets| ==> IsName(targets[k])
    requires forall k :: 0 <= k < |hit.at| ==> SmallIndex(hit.at[k])
    ensures |hit.at| == |targets|
    ensures ExtractValue(obj, PrintPath(hit.at, hit.obj)) == Ok(Walked(obj, hit.at, hit.obj))
    ensures var last := Decode(PrintPath(hit.at, hit.obj)[|targets| - 1]);
            last.Ok? && last.value.id == hit.obj[ID].text
  {
    ReachedSound(obj, targets, hit);
    forall k | 0 <= k < |hit.at|
      ensures IsName(hit.at[k].key) && (hit.at[k].index.Some? ==> hit.at[k].index.value < MAX_INDEX)
    {
      assert hit.at[k].key == KeysOf(hit.at)[k] == targets[k];
      assert SmallIndex(hit.at[k]);
    }
    PrintDenotes(hit.at, hit.obj);
    assert DenotesPt(PrintPath(hit.at, hit.obj)[|targets| - 1], hit.at[|targets| - 1]);
    ReachesWhatIsThere(obj, PrintPath(hit.at, hit.obj), hit.at);
  }
}
