/** Stitching as it is: walking down the tree, padding it on the way, and merging an answer into the map found there. */
module StitchInPlace {
  import opened Prelude
  import opened Points
  import opened Schema
  import opened Json
  import opened MergeMaps
  import opened Stitching
  import opened Memory
  import opened InPlace

  /** The map below a map, followed by reference. */
  function ChildRef(h: Heap, r: Ref, pt: Pt): Option<Ref> {
    if r in h && h[r].MapCell? && pt.key in h[r].entries then
      match (h[r].entries[pt.key], pt.index)
      case (Ptr(c), None) => Some(c)
      case (Slice(a, n), Some(i)) => if i < n && a in h && h[a].ArrayCell? && i < |h[a].items| && h[a].items[i].Ptr? then Some(h[a].items[i].ref) else None
      case _ => None
    else None
  }

  function RefAt(h: Heap, r: Ref, at: seq<Pt>): Option<Ref>
    decreases |at|
  {
    if at == [] then Some(r)
    else match ChildRef(h, r, at[0])
      case None => None
      case Some(c) => RefAt(h, c, at[1..])
  }

  lemma {:induction false} ChildShown(h: Heap, r: Ref, m: Object, pt: Pt)
    requires Shows(h, Ptr(r), JObj(m)) && Child(m, pt).Some?
    ensures ChildRef(h, r, pt).Some?
    ensures var c := Ptr(ChildRef(h, r, pt).value); var child := JObj(Child(m, pt).value);
            Shows(h, c, child) && Cells(h, c, child) <= Cells(h, Ptr(r), JObj(m)) && r !in Cells(h, c, child)
  {
    EntryIn(h, r, m, pt.key);
    var v := h[r].entries[pt.key];
    if pt.index.Some? {
      ItemIn(h, v, m[pt.key].items, pt.index.value);
    }
  }

  /** What happens below an entry leaves the rest of the map as it was. */
  lemma {:induction false} EntryChanged(h: Heap, g: Heap, r: Ref, m: Object, key: string, j: Json, extra: set<Ref>)
    requires Shows(h, Ptr(r), JObj(m)) && key in m && key != ID && extra !! Cells(h, Ptr(r), JObj(m))
    requires Within(h, g, EntryAt(h, h[r].entries, m, key) + extra) && key in h[r].entries
    requires Shows(g, h[r].entries[key], j) && Owned(h, EntryAt(h, h[r].entries, m, key) + extra, Cells(g, h[r].entries[key], j))
    ensures r in g && g[r] == h[r] && Shows(g, Ptr(r), JObj(m[key := j]))
    ensures Cells(g, Ptr(r), JObj(m[key := j])) <= Cells(h, Ptr(r), JObj(m)) + Cells(g, h[r].entries[key], j)
  {
    var e := h[r].entries;
    EntriesApart(h, r, m, key, extra);
    EntryIn(h, r, m, key);
    Store(h, g, r, m, key, e[key], j, EntryAt(h, e, m, key) + extra);
    assert e[key := e[key]] == e;
    assert g[r := MapCell(e)] == g;
  }

  lemma {:induction false} NotTheID(h: Heap, r: Ref, m: Object, pt: Pt)
    requires Shows(h, Ptr(r), JObj(m)) && Child(m, pt).Some?
    ensures pt.key in m && pt.key != ID
  {
    LeafID(h, r, m);
  }

  /** What happens below a child leaves the rest of the map as it was. */
  lemma {:induction false} ChildChanged(h: Heap, g: Heap, r: Ref, m: Object, pt: Pt, c: Ref, new_: Object, extra: set<Ref>)
    requires Shows(h, Ptr(r), JObj(m)) && Child(m, pt).Some? && ChildRef(h, r, pt) == Some(c)
    requires extra !! Cells(h, Ptr(r), JObj(m))
    requires Within(h, g, Cells(h, Ptr(c), JObj(Child(m, pt).value)) + extra)
    requires Shows(g, Ptr(c), JObj(new_)) && Owned(h, Cells(h, Ptr(c), JObj(Child(m, pt).value)) + extra, Cells(g, Ptr(c), JObj(new_)))
    ensures Shows(g, Ptr(r), JObj(WithChild(m, pt, new_))) && ChildRef(g, r, pt) == Some(c)
    ensures Cells(g, Ptr(r), JObj(WithChild(m, pt, new_))) <= Cells(h, Ptr(r), JObj(m)) + Cells(g, Ptr(c), JObj(new_))
  {
    NotTheID(h, r, m, pt);
    EntryIn(h, r, m, pt.key);
    match pt.index
    case None => EntryChanged(h, g, r, m, pt.key, JObj(new_), extra);
    case Some(i) => ListChildChanged(h, g, r, m, pt.key, i, c, new_, extra);
  }

  lemma {:induction false} ListChildChanged(h: Heap, g: Heap, r: Ref, m: Object, key: string, i: nat, c: Ref,
                                        new_: Object, extra: set<Ref>)
    requires Shows(h, Ptr(r), JObj(m)) && Child(m, Pt(key, Some(i))).Some? && ChildRef(h, r, Pt(key, Some(i))) == Some(c) && key != ID
    requires extra !! Cells(h, Ptr(r), JObj(m))
    requires Within(h, g, Cells(h, Ptr(c), JObj(Child(m, Pt(key, Some(i))).value)) + extra)
    requires Shows(g, Ptr(c), JObj(new_)) && Owned(h, Cells(h, Ptr(c), JObj(Child(m, Pt(key, Some(i))).value)) + extra, Cells(g, Ptr(c), JObj(new_)))
    ensures Shows(g, Ptr(r), JObj(WithChild(m, Pt(key, Some(i)), new_))) && ChildRef(g, r, Pt(key, Some(i))) == Some(c)
    ensures Cells(g, Ptr(r), JObj(WithChild(m, Pt(key, Some(i)), new_))) <= Cells(h, Ptr(r), JObj(m)) + Cells(g, Ptr(c), JObj(new_))
  {
    EntryIn(h, r, m, key);
    var list := h[r].entries[key];
    ItemIn(h, list, m[key].items, i);
    ListChanged(h, g, list, m[key].items, i, c, new_, extra);
    WiderOwned(h, g, Cells(h, Ptr(c), m[key].items[i]) + extra, EntryAt(h, h[r].entries, m, key) + extra, Cells(g, Ptr(c), JObj(new_)), Cells(h, list, m[key]));
    EntryChanged(h, g, r, m, key, JList(m[key].items[i := JObj(new_)]), extra);
  }

  lemma WiderOwned(h: Heap, g: Heap, s: set<Ref>, t: set<Ref>, c: set<Ref>, d: set<Ref>)
    requires s <= t && d <= t && Within(h, g, s) && Owned(h, s, c)
    ensures Within(h, g, t) && forall e :: e <= d + c ==> Owned(h, t, e)
  {
  }

  lemma {:induction false} EntriesApart(h: Heap, r: Ref, m: Object, key: string, extra: set<Ref>)
    requires Shows(h, Ptr(r), JObj(m)) && key in m && extra !! Cells(h, Ptr(r), JObj(m))
    ensures forall k :: k in m && k != key ==> EntryAt(h, h[r].entries, m, k) !! EntryAt(h, h[r].entries, m, key) + extra
    ensures r !in EntryAt(h, h[r].entries, m, key) + extra
  {
    LeftApart(h, r, m, key, extra);
  }

  /** The same for a list and one of its maps. */
  lemma {:induction false} ListChanged(h: Heap, g: Heap, out: Val, items: seq<Json>, i: nat, c: Ref, new_: Object,
                                       extra: set<Ref>)
    requires Shows(h, out, JList(items)) && i < |items| && items[i].JObj?
    requires out.Slice? && out.arr in h && h[out.arr].ArrayCell? && i < |h[out.arr].items| && h[out.arr].items[i] == Ptr(c)
    requires extra !! Cells(h, out, JList(items))
    requires Within(h, g, Cells(h, Ptr(c), items[i]) + extra)
    requires Shows(g, Ptr(c), JObj(new_)) && Owned(h, Cells(h, Ptr(c), items[i]) + extra, Cells(g, Ptr(c), JObj(new_)))
    ensures Shows(g, out, JList(items[i := JObj(new_)]))
    ensures Cells(g, out, JList(items[i := JObj(new_)])) <= Cells(h, out, JList(items)) + Cells(g, Ptr(c), JObj(new_))
    ensures out.arr in g && g[out.arr] == h[out.arr]
  {
    ListApart(h, out, items, i, extra);
    ItemIn(h, out, items, i);
    CellsIn(h, out, JList(items));
    StoreAt(h, g, out, items, i, Ptr(c), JObj(new_), ItemAt(h, h[out.arr].items, items, i) + extra);
    var vs := h[out.arr].items;
    assert vs[i := vs[i]] == vs;
    assert g[out.arr := ArrayCell(vs)] == g;
  }

  /** What happens below an address leaves the rest of the tree as it was. */
  lemma {:induction false} InContext(h: Heap, g: Heap, r: Ref, m: Object, at: seq<Pt>, c: Ref, new_: Object, extra: set<Ref>)
    requires Shows(h, Ptr(r), JObj(m)) && Reach(m, at).Some? && RefAt(h, r, at) == Some(c)
    requires extra !! Cells(h, Ptr(r), JObj(m))
    requires Within(h, g, Cells(h, Ptr(c), JObj(Reach(m, at).value)) + extra)
    requires Shows(g, Ptr(c), JObj(new_)) && Owned(h, Cells(h, Ptr(c), JObj(Reach(m, at).value)) + extra, Cells(g, Ptr(c), JObj(new_)))
    ensures Shows(g, Ptr(r), JObj(WithAt(m, at, new_))) && RefAt(g, r, at) == Some(c)
    ensures Cells(g, Ptr(r), JObj(WithAt(m, at, new_))) <= Cells(h, Ptr(r), JObj(m)) + Cells(g, Ptr(c), JObj(new_))
    decreases |at|
  {
    if at != [] {
      var pt := at[0];
      var child, cr := Child(m, pt).value, ChildRef(h, r, pt).value;
      ChildShown(h, r, m, pt);
      ReachShown(h, cr, child, at[1..]);
      InContext(h, g, cr, child, at[1..], c, new_, extra);
      ChildChanged(h, g, r, m, pt, cr, WithAt(child, at[1..], new_), extra);
    }
  }

  lemma {:induction false} ReachShown(h: Heap, r: Ref, m: Object, at: seq<Pt>)
    requires Shows(h, Ptr(r), JObj(m)) && Reach(m, at).Some?
    ensures RefAt(h, r, at).Some?
    ensures var c := Ptr(RefAt(h, r, at).value);
            Shows(h, c, JObj(Reach(m, at).value)) && Cells(h, c, JObj(Reach(m, at).value)) <= Cells(h, Ptr(r), JObj(m))
    decreases |at|
  {
    if at != [] {
      ChildShown(h, r, m, at[0]);
      ReachShown(h, ChildRef(h, r, at[0]).value, Child(m, at[0]).value, at[1..]);
    }
  }

  /** Two stretches of writing, the second on what the first left. */
  lemma Onward(h0: Heap, h1: Heap, h2: Heap, s: set<Ref>, t: set<Ref>, c: set<Ref>)
    requires Within(h0, h1, s) && Within(h1, h2, t) && Owned(h0, s, t) && Owned(h1, t, c)
    ensures Within(h0, h2, s) && Owned(h0, s, c)
  {
  }

  lemma {:induction false} EmptyMapShown(h: Heap, b: Ref)
    requires b in h && h[b] == MapCell(map[])
    ensures Shows(h, Ptr(b), JObj(map[])) && Cells(h, Ptr(b), JObj(map[])) == {b}
  {
  }

  lemma {:induction false} EmptySliceShown(h: Heap, a: Ref)
    requires a in h && h[a] == ArrayCell([])
    ensures Shows(h, Slice(a, 0), JList([])) && Cells(h, Slice(a, 0), JList([])) == {a}
  {
  }

  /** A new value stored where there was none, or nothing to keep. */
  lemma {:induction false} StoreNew(h: Heap, g: Heap, r: Ref, m: Object, key: string, v: Val, j: Json)
    requires Shows(h, Ptr(r), JObj(m)) && Within(h, g, {}) && key != ID
    requires Shows(g, v, j) && Owned(h, {}, Cells(g, v, j))
    ensures r in g && g[r] == h[r] && h[r].MapCell?
    ensures var g2 := g[r := MapCell(h[r].entries[key := v])];
            && Shows(g2, Ptr(r), JObj(m[key := j]))
            && Within(h, g2, Cells(h, Ptr(r), JObj(m))) && Owned(h, Cells(h, Ptr(r), JObj(m)), Cells(g2, Ptr(r), JObj(m[key := j])))
  {
    LeafID(h, r, m);
    Store(h, g, r, m, key, v, j, {});
    assert r in Cells(h, Ptr(r), JObj(m));
  }

  /** The map under a field, made if there is none. */
  method PadObject(mem: GoHeap, recent: Ref, field: string, ghost m: Object) returns (c: Option<Ref>)
    requires mem.Valid() && Shows(mem.heap, Ptr(recent), JObj(m)) && field != ID
    modifies mem
    ensures mem.Valid() && Within(old(mem.heap), mem.heap, Cells(old(mem.heap), Ptr(recent), JObj(m)))
    ensures c.Some? <==> (field in m ==> m[field].JNull? || m[field].JObj?)
    ensures c.Some? ==>
              && Shows(mem.heap, Ptr(recent), JObj(m[field := JObj(Held(m, field))]))
              && Owned(old(mem.heap), Cells(old(mem.heap), Ptr(recent), JObj(m)), Cells(mem.heap, Ptr(recent), JObj(m[field := JObj(Held(m, field))])))
              && ChildRef(mem.heap, recent, Pt(field, None)) == c
  {
    LeafID(mem.heap, recent, m);
    ghost var h := mem.heap;
    if field in mem.heap[recent].entries {
      EntryIn(h, recent, m, field);
    }
    if field !in mem.heap[recent].entries || mem.heap[recent].entries[field] == Nil {
      var b := mem.Alloc(MapCell(map[]));
      EmptyMapShown(mem.heap, b);
      StoreNew(h, mem.heap, recent, m, field, Ptr(b), JObj(map[]));
      mem.heap := mem.heap[recent := MapCell(mem.heap[recent].entries[field := Ptr(b)])];
      return Some(b);
    }
    if !mem.heap[recent].entries[field].Ptr? {
      return None;
    }
    assert m[field := m[field]] == m;
    return Some(mem.heap[recent].entries[field].ref);
  }

  /** One more empty map. */
  method AppendMap(mem: GoHeap, list: Val, ghost items: seq<Json>) returns (longer: Val)
    requires mem.Valid() && Shows(mem.heap, list, JList(items))
    modifies mem
    ensures mem.Valid() && Shows(mem.heap, longer, JList(items + [JObj(map[])]))
    ensures Within(old(mem.heap), mem.heap, Cells(old(mem.heap), list, JList(items)))
    ensures Owned(old(mem.heap), Cells(old(mem.heap), list, JList(items)), Cells(mem.heap, longer, JList(items + [JObj(map[])])))
  {
    ghost var h := mem.heap;
    ArrayOf(h, list, items);
    CellsIn(h, list, JList(items));
    var b := mem.Alloc(MapCell(map[]));
    ghost var g := mem.heap;
    Framed(h, g, list, JList(items));
    EmptyMapShown(g, b);
    ghost var vs;
    longer, vs := mem.Append(list, Ptr(b));
    StoreEnd(g, list, items, longer.arr, vs, Ptr(b), JObj(map[]));
  }

  /** Empty maps appended until the index is a position. */
  method PadSlice(mem: GoHeap, list: Val, index: nat, ghost items: seq<Json>) returns (padded: Val)
    requires mem.Valid() && Shows(mem.heap, list, JList(items))
    modifies mem
    ensures mem.Valid() && Shows(mem.heap, padded, JList(Padded(items, index)))
    ensures Within(old(mem.heap), mem.heap, Cells(old(mem.heap), list, JList(items)))
    ensures Owned(old(mem.heap), Cells(old(mem.heap), list, JList(items)), Cells(mem.heap, padded, JList(Padded(items, index))))
  {
    padded := list;
    ghost var h0, now := mem.heap, items;
    ghost var s := Cells(h0, list, JList(items));
    ArrayOf(h0, list, items);
    while padded.len <= index
      invariant mem.Valid() && Shows(mem.heap, padded, JList(now)) && padded.Slice? && padded.len == |now|
      invariant Padded(now, index) == Padded(items, index)
      invariant Within(h0, mem.heap, s) && Owned(h0, s, Cells(mem.heap, padded, JList(now)))
      decreases index + 1 - |now|
    {
      ghost var h, before := mem.heap, padded;
      padded := AppendMap(mem, padded, now);
      Onward(h0, h, mem.heap, s, Cells(h, before, JList(now)), Cells(mem.heap, padded, JList(now + [JObj(map[])])));
      now := now + [JObj(map[])];
      ArrayOf(mem.heap, padded, now);
    }
  }

  /** An empty list under a field that is missing. */
  method MakeList(mem: GoHeap, recent: Ref, field: string, ghost m: Object)
    requires mem.Valid() && Shows(mem.heap, Ptr(recent), JObj(m)) && field != ID
    modifies mem
    ensures mem.Valid() && Within(old(mem.heap), mem.heap, Cells(old(mem.heap), Ptr(recent), JObj(m)))
    ensures var now := JObj(if field in m then m else m[field := JList([])]);
            && Shows(mem.heap, Ptr(recent), now)
            && Owned(old(mem.heap), Cells(old(mem.heap), Ptr(recent), JObj(m)), Cells(mem.heap, Ptr(recent), now))
  {
    ghost var h := mem.heap;
    LeafID(h, recent, m);
    if field !in mem.heap[recent].entries {
      var a := mem.Alloc(ArrayCell([]));
      EmptySliceShown(mem.heap, a);
      StoreNew(h, mem.heap, recent, m, field, Slice(a, 0), JList([]));
      mem.heap := mem.heap[recent := MapCell(mem.heap[recent].entries[field := Slice(a, 0)])];
    }
  }

  /** The list under a field, padded. */
  method PadUnder(mem: GoHeap, recent: Ref, field: string, index: nat, ghost m: Object)
    requires mem.Valid() && Shows(mem.heap, Ptr(recent), JObj(m)) && field != ID && field in m && m[field].JList?
    modifies mem
    ensures mem.Valid() && Within(old(mem.heap), mem.heap, Cells(old(mem.heap), Ptr(recent), JObj(m)))
    ensures var p := JObj(m[field := JList(Padded(m[field].items, index))]);
            && Shows(mem.heap, Ptr(recent), p)
            && Owned(old(mem.heap), Cells(old(mem.heap), Ptr(recent), JObj(m)), Cells(mem.heap, Ptr(recent), p))
  {
    ghost var h := mem.heap;
    EntryIn(h, recent, m, field);
    var list := mem.heap[recent].entries[field];
    var padded := PadSlice(mem, list, index, m[field].items);
    PadStored(h, mem.heap, recent, m, field, list, padded, JList(Padded(m[field].items, index)));
    mem.heap := mem.heap[recent := MapCell(mem.heap[recent].entries[field := padded])];
  }

  /** The map at a position of the list under a field, with the list made and padded where it has to be. */
  method PadList(mem: GoHeap, recent: Ref, field: string, index: nat, ghost m: Object) returns (c: Option<Ref>)
    requires mem.Valid() && Shows(mem.heap, Ptr(recent), JObj(m)) && field != ID
    modifies mem
    ensures mem.Valid() && Within(old(mem.heap), mem.heap, Cells(old(mem.heap), Ptr(recent), JObj(m)))
    ensures c.Some? <==> (field in m ==> m[field].JList?) && Padded(HeldList(m, field), index)[index].JObj?
    ensures c.Some? ==>
              var p := m[field := JList(Padded(HeldList(m, field), index))];
              && Shows(mem.heap, Ptr(recent), JObj(p))
              && Owned(old(mem.heap), Cells(old(mem.heap), Ptr(recent), JObj(m)), Cells(mem.heap, Ptr(recent), JObj(p)))
              && ChildRef(mem.heap, recent, Pt(field, Some(index))) == c
  {
    ghost var h0, now := mem.heap, if field in m then m else m[field := JList([])];
    MakeList(mem, recent, field, m);
    ghost var h1 := mem.heap;
    EntryIn(h1, recent, now, field);
    if !mem.heap[recent].entries[field].Slice? {
      return None;
    }
    ghost var p := m[field := JList(Padded(HeldList(m, field), index))];
    assert p == now[field := JList(Padded(now[field].items, index))];
    c := PadAndTake(mem, recent, field, index, now, p);
    Onward(h0, h1, mem.heap, Cells(h0, Ptr(recent), JObj(m)), Cells(h1, Ptr(recent), JObj(now)), Cells(mem.heap, Ptr(recent), JObj(p)));
  }

  method PadAndTake(mem: GoHeap, recent: Ref, field: string, index: nat, ghost m: Object, ghost p: Object)
    returns (c: Option<Ref>)
    requires mem.Valid() && Shows(mem.heap, Ptr(recent), JObj(m)) && field != ID && field in m && m[field].JList?
    requires p == m[field := JList(Padded(m[field].items, index))]
    modifies mem
    ensures mem.Valid() && Within(old(mem.heap), mem.heap, Cells(old(mem.heap), Ptr(recent), JObj(m)))
    ensures Shows(mem.heap, Ptr(recent), JObj(p))
    ensures Owned(old(mem.heap), Cells(old(mem.heap), Ptr(recent), JObj(m)), Cells(mem.heap, Ptr(recent), JObj(p)))
    ensures c.Some? <==> Padded(m[field].items, index)[index].JObj?
    ensures c.Some? ==> ChildRef(mem.heap, recent, Pt(field, Some(index))) == c
  {
    PadUnder(mem, recent, field, index, m);
    c := MapUnder(mem, recent, field, index, p);
  }

  method MapUnder(mem: GoHeap, recent: Ref, field: string, index: nat, ghost m: Object) returns (c: Option<Ref>)
    requires Shows(mem.heap, Ptr(recent), JObj(m)) && field in m && m[field].JList? && index < |m[field].items|
    ensures c.Some? <==> m[field].items[index].JObj?
    ensures c.Some? ==> ChildRef(mem.heap, recent, Pt(field, Some(index))) == c
  {
    EntryIn(mem.heap, recent, m, field);
    LeafID(mem.heap, recent, m);
    var list := mem.heap[recent].entries[field];
    ItemIn(mem.heap, list, m[field].items, index);
    if !mem.heap[list.arr].items[index].Ptr? {
      return None;
    }
    return Some(mem.heap[list.arr].items[index].ref);
  }

  lemma {:induction false} PadStored(h: Heap, g: Heap, r: Ref, m: Object, field: string, list: Val, padded: Val, j: Json)
    requires Shows(h, Ptr(r), JObj(m)) && field in m && field != ID && r in h && h[r].MapCell? && field in h[r].entries && h[r].entries[field] == list
    requires Within(h, g, Cells(h, list, m[field])) && Shows(g, padded, j) && Owned(h, Cells(h, list, m[field]), Cells(g, padded, j))
    ensures r in g && g[r] == h[r]
    ensures var g2 := g[r := MapCell(h[r].entries[field := padded])]; var s := Cells(h, Ptr(r), JObj(m));
            Shows(g2, Ptr(r), JObj(m[field := j])) && Within(h, g2, s) && Owned(h, s, Cells(g2, Ptr(r), JObj(m[field := j])))
  {
    EntryIn(h, r, m, field);
    LeftApart(h, r, m, field, {});
    Store(h, g, r, m, field, padded, j, EntryAt(h, h[r].entries, m, field));
  }

  /** A point that does not lead into an id. */
  predicate LeavesIDs(point: string) {
    Decode(point).Ok? ==> Decode(point).value.field != ID
  }

  /** One point of the walk. */
  method PadInPlace(mem: GoHeap, recent: Ref, point: string, ghost m: Object) returns (r: Result<Ref>)
    requires mem.Valid() && Shows(mem.heap, Ptr(recent), JObj(m)) && LeavesIDs(point)
    modifies mem
    ensures mem.Valid() && Within(old(mem.heap), mem.heap, Cells(old(mem.heap), Ptr(recent), JObj(m)))
    ensures r.Ok? <==> Pad(m, point).Ok?
    ensures r.Ok? ==>
              var step := Pad(m, point).value;
              && Shows(mem.heap, Ptr(recent), JObj(step.0))
              && Owned(old(mem.heap), Cells(old(mem.heap), Ptr(recent), JObj(m)), Cells(mem.heap, Ptr(recent), JObj(step.0)))
              && ChildRef(mem.heap, recent, step.1) == Some(r.value)
  {
    var pointData := Decode(point);
    if pointData.Err? {
      return Err(pointData.reason);
    }
    var data := pointData.value;
    var c: Option<Ref>;
    if IsListElement(point) {
      if data.index < 0 {
        return Err("index out of range");
      }
      c := PadList(mem, recent, data.field, data.index, m);
    } else {
      c := PadObject(mem, recent, data.field, m);
    }
    return if c.Some? then Ok(c.value) else Err("did not encounter a map when expected");
  }

  /** ExtractValueModifyingSource: the source is padded along the path, and the map at its end returned. */
  method ExtractInPlace(mem: GoHeap, source: Ref, path: seq<string>, ghost m: Object) returns (r: Result<Ref>)
    requires mem.Valid() && Shows(mem.heap, Ptr(source), JObj(m)) && forall i :: 0 <= i < |path| ==> LeavesIDs(path[i])
    modifies mem
    ensures mem.Valid() && Within(old(mem.heap), mem.heap, Cells(old(mem.heap), Ptr(source), JObj(m)))
    ensures r.Ok? <==> ExtractValue(m, path).Ok?
    ensures r.Ok? ==>
              var w := ExtractValue(m, path).value;
              && Shows(mem.heap, Ptr(source), JObj(w.source))
              && Owned(old(mem.heap), Cells(old(mem.heap), Ptr(source), JObj(m)), Cells(mem.heap, Ptr(source), JObj(w.source)))
              && RefAt(mem.heap, source, w.at) == Some(r.value)
  {
    var recent := source;
    ghost var h0, s := mem.heap, Cells(mem.heap, Ptr(source), JObj(m));
    ghost var current, at, here := m, [], m;
    assert path[0..] == path;
    ResumedHere(m, ExtractValue(m, path));
    for i := 0 to |path|
      invariant mem.Valid() && Shows(mem.heap, Ptr(source), JObj(current))
      invariant Within(h0, mem.heap, s) && Owned(h0, s, Cells(mem.heap, Ptr(source), JObj(current)))
      invariant Reach(current, at) == Some(here) && RefAt(mem.heap, source, at) == Some(recent)
      invariant ExtractValue(m, path) == Resumed(current, at, ExtractValue(here, path[i..]))
    {
      assert path[i..][0] == path[i] && path[i..][1..] == path[i + 1..];
      ghost var h := mem.heap;
      ReachShown(h, source, current, at);
      var step := PadInPlace(mem, recent, path[i], here);
      if step.Err? {
        WithinMore(h0, h, mem.heap, s, Cells(h, Ptr(recent), JObj(here)), Cells(h, Ptr(source), JObj(current)));
        return step;
      }
      ghost var pad := Pad(here, path[i]).value;
      InContext(h, mem.heap, source, current, at, recent, pad.0, {});
      WithinMore(h0, h, mem.heap, s, Cells(h, Ptr(recent), JObj(here)), Cells(h, Ptr(source), JObj(current)));
      ResumedStep(here, path[i..]);
      ResumedBelow(current, at, pad.0, pad.1, ExtractValue(Child(pad.0, pad.1).value, path[i + 1..]));
      RefFurther(mem.heap, source, at, recent, pad.1, step.value);
      current := WithAt(current, at, pad.0);
      at := at + [pad.1];
      here := Child(pad.0, pad.1).value;
      recent := step.value;
    }
    WithAtSame(current, at);
    assert at + [] == at;
    return Ok(recent);
  }

  lemma WithinMore(h0: Heap, h: Heap, g: Heap, s: set<Ref>, t: set<Ref>, tree: set<Ref>)
    requires Within(h0, h, s) && Within(h, g, t) && t <= tree && Owned(h0, s, tree)
    ensures Within(h0, g, s)
    ensures forall c :: Owned(h, t, c) ==> Owned(h0, s, c)
    ensures forall c, d :: Owned(h, t, c) && d <= tree + c ==> Owned(h0, s, d)
  {
  }

  lemma {:induction false} RefFurther(h: Heap, r: Ref, at: seq<Pt>, c: Ref, pt: Pt, d: Ref)
    requires RefAt(h, r, at) == Some(c) && ChildRef(h, c, pt) == Some(d)
    ensures RefAt(h, r, at + [pt]) == Some(d)
    decreases |at|
  {
    if at == [] {
      assert [] + [pt] == [pt] && [pt][1..] == [];
    } else {
      assert (at + [pt])[1..] == at[1..] + [pt] && (at + [pt])[0] == at[0];
      RefFurther(h, ChildRef(h, r, at[0]).value, at[1..], c, pt, d);
    }
  }

  /** What DepthExecutorManager.merge stores under a key of the answer. */
  function JoinedInto(target: Object, result: Object, key: string): Json
    requires key in result
  {
    if key in target then Settled(target[key], result[key]) else result[key]
  }

  lemma IntoKey(target: Object, result: Object, seen: set<string>, key: string)
    requires key in result && key !in seen
    ensures MergeInto(target, Part(result, seen + {key})) == MergeInto(target, Part(result, seen))[key := JoinedInto(target, result, key)]
    ensures key in MergeInto(target, Part(result, seen)) <==> key in target
    ensures key in target ==> MergeInto(target, Part(result, seen))[key] == target[key]
  {
    var some, more := Part(result, seen), Part(result, seen + {key});
    var after := MergeInto(target, some)[key := JoinedInto(target, result, key)];
    forall k
      ensures k in MergeInto(target, more) <==> k in after
      ensures k in after ==> MergeInto(target, more)[k] == after[k]
    {
      assert k != key ==> (k in more <==> k in some);
    }
  }

  /** The loop of DepthExecutorManager.merge over the keys of one answer. */
  method MergeResultInPlace(mem: GoHeap, target: Ref, result: Ref, ghost t: Object, ghost r: Object)
    requires mem.Valid() && Shows(mem.heap, Ptr(target), JObj(t)) && Shows(mem.heap, Ptr(result), JObj(r))
    requires Cells(mem.heap, Ptr(target), JObj(t)) !! Cells(mem.heap, Ptr(result), JObj(r))
    modifies mem
    ensures mem.Valid() && Shows(mem.heap, Ptr(target), JObj(MergeInto(t, r)))
    ensures var s := Cells(old(mem.heap), Ptr(target), JObj(t)) + Cells(old(mem.heap), Ptr(result), JObj(r));
            Within(old(mem.heap), mem.heap, s) && Owned(old(mem.heap), s, Cells(mem.heap, Ptr(target), JObj(MergeInto(t, r))))
  {
    ghost var h0, s := mem.heap, Cells(mem.heap, Ptr(target), JObj(t)) + Cells(mem.heap, Ptr(result), JObj(r));
    KeysStart(h0, target, result, t, r);
    assert MergeInto(t, Part(r, {})) == t;
    var keys := mem.heap[result].entries.Keys;
    ghost var seen: set<string> := {};
    while keys != {}
      invariant mem.Valid() && seen + keys == r.Keys && seen !! keys
      invariant MidMaps(h0, mem.heap, target, result, MergeInto(t, Part(r, seen)), r, seen, s)
      decreases keys
    {
      var key :| key in keys;
      MergeResultKey(mem, target, result, key, h0, t, r, seen, s);
      keys := keys - {key};
      seen := seen + {key};
    }
    assert Part(r, seen) == r;
  }

  method MergeResultKey(mem: GoHeap, target: Ref, result: Ref, key: string, ghost h0: Heap, ghost t: Object,
                        ghost r: Object, ghost seen: set<string>, ghost s: set<Ref>)
    requires mem.Valid() && MidMaps(h0, mem.heap, target, result, MergeInto(t, Part(r, seen)), r, seen, s) && key in r && key !in seen
    modifies mem
    ensures mem.Valid() && MidMaps(h0, mem.heap, target, result, MergeInto(t, Part(r, seen + {key})), r, seen + {key}, s)
  {
    ghost var h, now := mem.heap, MergeInto(t, Part(r, seen));
    KeyReady(h0, h, target, result, now, r, seen, s, key);
    IntoKey(t, r, seen, key);
    var value := mem.heap[result].entries[key];
    if key in mem.heap[target].entries {
      value := mem.MergeOrRewrite(mem.heap[target].entries[key], value, t[key], r[key]);
    }
    NextKey(h0, h, mem.heap, target, result, now, r, seen, s, key, value, JoinedInto(t, r, key));
    assert mem.heap[target] == h[target];
    mem.heap := mem.heap[target := MapCell(mem.heap[target].entries[key := value])];
  }

  /** One answer stitched into the tree: everything the answer consists of may become part of the tree. */
  method StitchInPlace(mem: GoHeap, source: Ref, path: seq<string>, result: Ref, ghost m: Object, ghost r: Object)
    returns (err: Option<string>)
    requires mem.Valid() && Shows(mem.heap, Ptr(source), JObj(m)) && Shows(mem.heap, Ptr(result), JObj(r))
    requires Cells(mem.heap, Ptr(source), JObj(m)) !! Cells(mem.heap, Ptr(result), JObj(r))
    requires forall i :: 0 <= i < |path| ==> LeavesIDs(path[i])
    modifies mem
    ensures mem.Valid()
    ensures Within(old(mem.heap), mem.heap, Cells(old(mem.heap), Ptr(source), JObj(m)) + Cells(old(mem.heap), Ptr(result), JObj(r)))
    ensures err.None? <==> Stitch(m, path, r).Ok?
    ensures err.None? ==>
              var after := JObj(Stitch(m, path, r).value);
              && Shows(mem.heap, Ptr(source), after)
              && Owned(old(mem.heap), Cells(old(mem.heap), Ptr(source), JObj(m)) + Cells(old(mem.heap), Ptr(result), JObj(r)), Cells(mem.heap, Ptr(source), after))
  {
    ghost var h0, tree, answer := mem.heap, Cells(mem.heap, Ptr(source), JObj(m)), Cells(mem.heap, Ptr(result), JObj(r));
    CellsIn(h0, Ptr(result), JObj(r));
    var target := ExtractInPlace(mem, source, path, m);
    if target.Err? {
      return Some(target.reason);
    }
    ghost var h1, w := mem.heap, ExtractValue(m, path).value;
    LeftAlone(h0, h1, tree, Ptr(result), JObj(r));
    ReachShown(h1, source, w.source, w.at);
    AnswerApart(h0, h1, tree, answer, Cells(h1, Ptr(source), JObj(w.source)));
    MergeResultInPlace(mem, target.value, result, w.target, r);
    InContext(h1, mem.heap, source, w.source, w.at, target.value, MergeInto(w.target, r), answer);
    Stitched(h0, h1, mem.heap, tree, answer, Cells(h1, Ptr(source), JObj(w.source)), Cells(h1, Ptr(target.value), JObj(w.target)),
             Cells(mem.heap, Ptr(target.value), JObj(MergeInto(w.target, r))), Cells(mem.heap, Ptr(source), JObj(WithAt(w.source, w.at, MergeInto(w.target, r)))));
    return None;
  }

  lemma AnswerApart(h0: Heap, h1: Heap, tree: set<Ref>, answer: set<Ref>, after: set<Ref>)
    requires tree !! answer && answer <= h0.Keys && Owned(h0, tree, after)
    ensures answer !! after
  {
  }

  lemma Stitched(h0: Heap, h1: Heap, h2: Heap, tree: set<Ref>, answer: set<Ref>, padded: set<Ref>, here: set<Ref>,
                 merged: set<Ref>, after: set<Ref>)
    requires Within(h0, h1, tree) && Owned(h0, tree, padded) && here <= padded
    requires Within(h1, h2, here + answer) && Owned(h1, here + answer, merged) && after <= padded + merged
    ensures Within(h0, h2, tree + answer) && Owned(h0, tree + answer, after)
  {
  }
}
