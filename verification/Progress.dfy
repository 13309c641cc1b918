/** The state of a stitched answer: direct evaluation with the fields of unexecuted steps erased. */
module Progress {
  import opened Prelude
  import opened Json
  import opened Schema
  import opened Selection
  import opened Evaluation
  import opened Division

  datatype Task = Task(at: seq<Pt>, url: string)

  /** The tasks at or below the object at pt, seen from there. */
  function Below(done: set<Task>, pt: Pt): set<Task> {
    set t | t in done && t.at != [] && t.at[0] == pt :: Task(t.at[1..], t.url)
  }

  lemma InBelow(done: set<Task>, pt: Pt, t: Task)
    ensures t in Below(done, pt) <==> Task([pt] + t.at, t.url) in done
  {
    var full := Task([pt] + t.at, t.url);
    assert full.at[1..] == t.at;
    if t in Below(done, pt) {
      var s :| s in done && s.at != [] && s.at[0] == pt && Task(s.at[1..], s.url) == t;
      assert [s.at[0]] + s.at[1..] == s.at;
    }
  }

  lemma BelowAdd(done: set<Task>, pt: Pt, at: seq<Pt>, url: string)
    requires at != []
    ensures Below(done + {Task(at, url)}, pt) == if at[0] == pt then Below(done, pt) + {Task(at[1..], url)} else Below(done, pt)
  {
    var more := done + {Task(at, url)};
    forall t: Task
      ensures t in Below(more, pt) <==> t in (if at[0] == pt then Below(done, pt) + {Task(at[1..], url)} else Below(done, pt))
    {
      InBelow(more, pt, t);
      InBelow(done, pt, t);
      if at[0] == pt {
        assert [pt] + at[1..] == at;
        assert [pt] + t.at == at ==> t.at == at[1..];
      } else {
        assert ([pt] + t.at)[0] == pt;
      }
    }
  }

  /** A field is there once its service has answered for the object. */
  predicate Present(tum: TypeURLMap, typename: string, f: Sel, location: string, done: set<Task>)
    requires f.Field?
  {
    var url := Where(tum, typename, f.name, location);
    url == location || Task([], url) in done
  }

  function Part(ctx: Context, store: Store, typename: string, m: Fields, sels: seq<Sel>, location: string,
                done: set<Task>): Object
    decreases sels, 0
  {
    map k | k in Keys(sels) && Present(ctx.tum, typename, At(sels, k), location, done) ::
      PartField(ctx, store, typename, m, At(sels, k), location, done)
  }

  function PartField(ctx: Context, store: Store, typename: string, m: Fields, f: Sel, location: string, done: set<Task>): Json
    requires f.Field?
    decreases f, 0
  {
    if f.name == TYPENAME then JScalar(typename)
    else
      var url := Where(ctx.tum, typename, f.name, location);
      match Value(m, f.name)
      case Many(items) =>
        JList(seq(|items|, i requires 0 <= i < |items| =>
          PartItem(ctx, store, f.typ.name, items[i], f.sub, url, Below(done, Pt(Key(f), Some(i))))))
      case v => PartItem(ctx, store, f.typ.name, v, f.sub, url, Below(done, Pt(Key(f), None)))
  }

  function PartItem(ctx: Context, store: Store, typename: string, v: Val, sub: seq<Sel>, location: string, done: set<Task>): Json
    decreases sub, 1, v
  {
    match v
    case Null => JNull
    case Scalar(text) => JScalar(text)
    case Many(items) =>
      JList(seq(|items|, i requires 0 <= i < |items| => PartItem(ctx, store, typename, items[i], sub, location, {})))
    case Ref(id) =>
      if id in store.entities then JObj(Part(ctx, store, typename, store.entities[id].fields, sub, location, done)) else JNull
    case Plain(m) => JObj(Part(ctx, store, typename, m, sub, location, done))
  }

  /** An object of the data seen through a selection, answered at a location. */
  datatype Place = Place(typename: string, m: Fields, sels: seq<Sel>, location: string)

  function PartAt(ctx: Context, store: Store, p: Place, done: set<Task>): Object {
    Part(ctx, store, p.typename, p.m, p.sels, p.location, done)
  }

  /** The fields of an object value. */
  function ObjectOf(store: Store, v: Val): Option<Fields> {
    match v
    case Ref(id) => if id in store.entities then Some(store.entities[id].fields) else None
    case Plain(m) => Some(m)
    case _ => None
  }

  /** The item of a field's value that a step selects. */
  function Item(v: Val, index: Option<nat>): Option<Val> {
    match (v, index)
    case (Many(items), Some(i)) => if i < |items| then Some(items[i]) else None
    case (Many(items), None) => None
    case (_, None) => Some(v)
    case (_, Some(_)) => None
  }

  /** The place one step below a place, whether or not its field is present yet. */
  function PlaceBelow(ctx: Context, store: Store, p: Place, pt: Pt): Option<Place> {
    if pt.key !in Keys(p.sels) then None
    else
      var f := At(p.sels, pt.key);
      if f.name == TYPENAME then None
      else
        match Item(Value(p.m, f.name), pt.index)
        case None => None
        case Some(v) =>
          match ObjectOf(store, v)
          case None => None
          case Some(m) => Some(Place(f.typ.name, m, f.sub, Where(ctx.tum, p.typename, f.name, p.location)))
  }

  /** The place at an address, through fields that are present. */
  function Locate(ctx: Context, store: Store, p: Place, done: set<Task>, at: seq<Pt>): Option<Place>
    decreases |at|
  {
    if at == [] then Some(p)
    else
      match PlaceBelow(ctx, store, p, at[0])
      case None => None
      case Some(q) =>
        if Present(ctx.tum, p.typename, At(p.sels, at[0].key), p.location, done)
        then Locate(ctx, store, q, Below(done, at[0]), at[1..])
        else None
  }

  /** Children of the partial answer are the partial answers of the places below. */
  lemma ChildIsPlace(ctx: Context, store: Store, p: Place, done: set<Task>, pt: Pt)
    ensures Child(PartAt(ctx, store, p, done), pt) ==
            match PlaceBelow(ctx, store, p, pt)
            case None => None
            case Some(q) =>
              if Present(ctx.tum, p.typename, At(p.sels, pt.key), p.location, done)
              then Some(PartAt(ctx, store, q, Below(done, pt))) else None
  {
    var obj := PartAt(ctx, store, p, done);
    if pt.key in obj {
      var f := At(p.sels, pt.key);
      assert obj[pt.key] == PartField(ctx, store, p.typename, p.m, f, p.location, done);
      if f.name != TYPENAME {
        var url := Where(ctx.tum, p.typename, f.name, p.location);
        match (Value(p.m, f.name), pt.index)
        case (Many(items), Some(i)) =>
          if i < |items| {
            ItemIsObject(ctx, store, f.typ.name, items[i], f.sub, url, Below(done, pt));
            assert obj[pt.key].items[i] == PartItem(ctx, store, f.typ.name, items[i], f.sub, url, Below(done, pt));
          }
        case (Many(items), None) =>
        case (v, _) =>
          assert obj[pt.key] == PartItem(ctx, store, f.typ.name, v, f.sub, url, Below(done, Pt(pt.key, None)));
          ItemIsObject(ctx, store, f.typ.name, v, f.sub, url, Below(done, Pt(pt.key, None)));
      }
    }
  }

  lemma {:induction false} ItemIsObject(ctx: Context, store: Store, typename: string, v: Val, sub: seq<Sel>,
                                        location: string, done: set<Task>)
    ensures var j := PartItem(ctx, store, typename, v, sub, location, done);
            match ObjectOf(store, v)
            case None => !j.JObj? && (j.JList? ==> v.Many?)
            case Some(m) => j == JObj(Part(ctx, store, typename, m, sub, location, done))
  {
  }

  /** What is located is exactly what can be reached in the partial answer. */
  lemma {:induction false} LocateIsReach(ctx: Context, store: Store, p: Place, done: set<Task>, at: seq<Pt>)
    ensures Reach(PartAt(ctx, store, p, done), at).Some? <==> Locate(ctx, store, p, done, at).Some?
    decreases |at|
  {
    if at != [] {
      ChildIsPlace(ctx, store, p, done, at[0]);
      var q := PlaceBelow(ctx, store, p, at[0]);
      if q.Some? {
        LocateIsReach(ctx, store, q.value, Below(done, at[0]), at[1..]);
      }
    }
  }
}
