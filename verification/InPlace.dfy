/** mergeMaps and mergeSlices as they are: writing into the left tree and moving parts of the right one there. */
module InPlace {
  import opened Schema
  import opened Json
  import opened MergeMaps
  import opened Memory

  /** Some keys of an object. */
  function Part(m: Object, keys: set<string>): Object {
    map k | k in m && k in keys :: m[k]
  }

  /** Merging one more key. */
  lemma {:induction false} MergeKey(l: Object, r: Object, seen: set<string>, key: string)
    requires key in r && key !in seen
    ensures Merge(l, Part(r, seen + {key})) == Merge(l, Part(r, seen))[key := Joined(l, r, key)]
    ensures key in Merge(l, Part(r, seen)) <==> key in l
    ensures key in l ==> Merge(l, Part(r, seen))[key] == l[key]
  {
    var some, more := Part(r, seen), Part(r, seen + {key});
    var after := Merge(l, some)[key := Joined(l, r, key)];
    forall k
      ensures k in Merge(l, more) <==> k in after
      ensures k in after ==> Merge(l, more)[k] == after[k]
    {
      assert k != key ==> (k in more <==> k in some);
    }
  }

  /** What becomes of a key of the right map. */
  function Joined(l: Object, r: Object, key: string): Json
    requires key in r
  {
    if key in l then MergeValue(l[key], r[key]) else r[key]
  }

  /** The cells of an entry. */
  ghost function EntryAt(h: Heap, e: map<string, Val>, m: Object, k: string): set<Ref> {
    if k in e && k in m then Cells(h, e[k], m[k]) else {}
  }

  /** While two maps are merged: the left one shows the keys seen so far, and the others still wait on the right. */
  ghost predicate MidMaps(h0: Heap, h: Heap, left: Ref, right: Ref, now: Object, r: Object, seen: set<string>, s: set<Ref>) {
    && Shows(h0, Ptr(right), JObj(r)) && Cells(h0, Ptr(right), JObj(r)) <= s
    && Shows(h, Ptr(left), JObj(now))
    && Owned(h0, s, Cells(h, Ptr(left), JObj(now))) && Within(h0, h, s)
    && right in h && h[right] == h0[right] && right !in Cells(h, Ptr(left), JObj(now))
    && forall k :: k in r && k !in seen ==> Waits(h0, h, EntryAt(h0, h0[right].entries, r, k), Cells(h, Ptr(left), JObj(now)))
  }

  /** A part of the right tree that is as it was and has no cell among those taken. */
  ghost predicate Waits(h0: Heap, h: Heap, part: set<Ref>, taken: set<Ref>) {
    SameOn(h0, h, part) && part !! taken
  }

  lemma {:induction false} EntryIn(h: Heap, ref: Ref, m: Object, k: string)
    requires Shows(h, Ptr(ref), JObj(m)) && k in m
    ensures EntryAt(h, h[ref].entries, m, k) <= Cells(h, Ptr(ref), JObj(m)) <= h.Keys
    ensures ref !in EntryAt(h, h[ref].entries, m, k) && ref in Cells(h, Ptr(ref), JObj(m))
    ensures k in h[ref].entries && Shows(h, h[ref].entries[k], m[k])
    ensures EntryAt(h, h[ref].entries, m, k) == Cells(h, h[ref].entries[k], m[k])
  {
    CellsIn(h, Ptr(ref), JObj(m));
    var e := h[ref].entries;
    forall x | x in Cells(h, e[k], m[k])
      ensures x in EntryCells(h, e, m)
    {
    }
  }

  /** A new value stored under a key of a map whose other entries were not touched. */
  lemma {:induction false} Store(h: Heap, g: Heap, left: Ref, now: Object, key: string, v: Val, j: Json, s: set<Ref>)
    requires Shows(h, Ptr(left), JObj(now)) && Within(h, g, s) && left !in s
    requires forall k :: k in now && k != key ==> EntryAt(h, h[left].entries, now, k) !! s
    requires Shows(g, v, j) && Owned(h, s, Cells(g, v, j)) && (key == ID ==> IsLeaf(j))
    ensures var g2 := g[left := MapCell(h[left].entries[key := v])];
            && Shows(g2, Ptr(left), JObj(now[key := j]))
            && Cells(g2, Ptr(left), JObj(now[key := j])) <= Cells(h, Ptr(left), JObj(now)) + Cells(g, v, j)
  {
    var e := h[left].entries;
    var g2 := g[left := MapCell(e[key := v])];
    assert left !in Cells(g, v, j);
    Framed(g, g2, v, j);
    forall k | k in now && k != key
      ensures SameOn(h, g2, Cells(h, e[k], now[k])) && Cells(g2, v, j) !! Cells(h, e[k], now[k])
    {
      EntryIn(h, left, now, k);
      assert EntryAt(h, e, now, k) == Cells(h, e[k], now[k]);
    }
    PutEntry(h, g2, e, now, key, v, j);
  }

  /** The sets of cells after one turn: what a step may write, and what the tree is made of then. */
  lemma StillWithin(h0: Heap, h: Heap, g: Heap, s: set<Ref>, tree: set<Ref>, step: set<Ref>, from: set<Ref>, left: Ref,
                    cell: Cell)
    requires Within(h0, h, s) && Owned(h0, s, tree) && from <= s && step <= tree + from && left in tree && left in h
    requires Within(h, g, step)
    ensures Within(h0, g[left := cell], s)
  {
  }

  lemma StillOwned(h0: Heap, h: Heap, s: set<Ref>, tree: set<Ref>, step: set<Ref>, from: set<Ref>, new_: set<Ref>,
                   after: set<Ref>)
    requires Within(h0, h, s) && Owned(h0, s, tree) && from <= s && step <= tree + from
    requires Owned(h, step, new_) && after <= tree + new_
    ensures Owned(h0, s, after)
  {
  }

  lemma StillWaits(h0: Heap, h: Heap, g: Heap, s: set<Ref>, part: set<Ref>, tree: set<Ref>, step: set<Ref>,
                   from: set<Ref>, new_: set<Ref>, after: set<Ref>, left: Ref, cell: Cell)
    requires Waits(h0, h, part, tree) && Within(h0, h, s)
    requires part <= h0.Keys && part !! from && step <= tree + from && left in tree
    requires Within(h, g, step) && Owned(h, step, new_) && after <= tree + new_
    ensures Waits(h0, g[left := cell], part, after)
  {
  }

  lemma {:induction false} ApartFrom(h: Heap, ref: Ref, m: Object, k: string, l: string)
    requires Shows(h, Ptr(ref), JObj(m)) && k in m && l in m && k != l
    ensures EntryAt(h, h[ref].entries, m, k) !! EntryAt(h, h[ref].entries, m, l)
  {
  }

  /** One turn of mergeMaps: whatever is stored comes from the old value, the right one, or new cells. */
  lemma {:induction false} NextKey(h0: Heap, h: Heap, g: Heap, left: Ref, right: Ref, now: Object, r: Object,
                                   seen: set<string>, s: set<Ref>, key: string, v: Val, j: Json)
    requires MidMaps(h0, h, left, right, now, r, seen, s) && key in r && key !in seen
    requires Within(h, g, EntryAt(h, h[left].entries, now, key) + EntryAt(h0, h0[right].entries, r, key))
    requires Shows(g, v, j) && Owned(h, EntryAt(h, h[left].entries, now, key) + EntryAt(h0, h0[right].entries, r, key), Cells(g, v, j))
    requires key == ID ==> IsLeaf(j)
    ensures MidMaps(h0, g[left := MapCell(h[left].entries[key := v])], left, right, now[key := j], r, seen + {key}, s)
  {
    var e, e0, tree := h[left].entries, h0[right].entries, Cells(h, Ptr(left), JObj(now));
    var from, to := EntryAt(h0, e0, r, key), EntryAt(h, e, now, key);
    EntryIn(h0, right, r, key);
    assert Waits(h0, h, from, tree);
    LeftApart(h, left, now, key, from);
    Store(h, g, left, now, key, v, j, to + from);
    var g2 := g[left := MapCell(e[key := v])];
    var after := Cells(g2, Ptr(left), JObj(now[key := j]));
    StillWithin(h0, h, g, s, tree, to + from, from, left, MapCell(e[key := v]));
    StillOwned(h0, h, s, tree, to + from, from, Cells(g, v, j), after);
    forall k | k in r && k !in seen + {key}
      ensures Waits(h0, g2, EntryAt(h0, e0, r, k), after)
    {
      assert Waits(h0, h, EntryAt(h0, e0, r, k), tree);
      EntryIn(h0, right, r, k);
      ApartFrom(h0, right, r, k, key);
      StillWaits(h0, h, g, s, EntryAt(h0, e0, r, k), tree, to + from, from, Cells(g, v, j), after, left, MapCell(e[key := v]));
    }
    RightKept(h, g, right, to + from, tree, Cells(g, v, j), after);
  }

  lemma RightKept(h: Heap, g: Heap, right: Ref, step: set<Ref>, tree: set<Ref>, new_: set<Ref>, after: set<Ref>)
    requires right in h && right !in tree && right !in step && Within(h, g, step) && Owned(h, step, new_) && after <= tree + new_
    ensures right in g && g[right] == h[right] && right !in after
  {
  }

  /** The other entries of the left map are apart from the one merged. */
  lemma {:induction false} LeftApart(h: Heap, left: Ref, now: Object, key: string, from: set<Ref>)
    requires Shows(h, Ptr(left), JObj(now)) && from !! Cells(h, Ptr(left), JObj(now))
    ensures var e := h[left].entries; var to := EntryAt(h, e, now, key);
            && to <= Cells(h, Ptr(left), JObj(now)) && left !in to + from && left in Cells(h, Ptr(left), JObj(now)) && left in h
            && forall k :: k in now && k != key ==> EntryAt(h, e, now, k) !! to + from
  {
    if key in now {
      EntryIn(h, left, now, key);
    }
    forall k | k in now && k != key
      ensures EntryAt(h, h[left].entries, now, k) !! EntryAt(h, h[left].entries, now, key) + from
    {
      EntryIn(h, left, now, k);
      if key in now {
        ApartFrom(h, left, now, k, key);
      }
    }
  }

  /** The cells of an element. */
  ghost function ItemAt(h: Heap, vs: seq<Val>, items: seq<Json>, i: nat): set<Ref> {
    if i < |vs| && i < |items| then Cells(h, vs[i], items[i]) else {}
  }

  lemma {:induction false} ItemIn(h: Heap, out: Val, items: seq<Json>, i: nat)
    requires Shows(h, out, JList(items)) && i < |items|
    ensures out.Slice? && out.len == |items| && out.arr in h && h[out.arr].ArrayCell? && out.len <= |h[out.arr].items|
    ensures ItemAt(h, h[out.arr].items, items, i) == Cells(h, h[out.arr].items[i], items[i]) <= Cells(h, out, JList(items)) <= h.Keys
    ensures out.arr !in ItemAt(h, h[out.arr].items, items, i) && Shows(h, h[out.arr].items[i], items[i])
  {
    CellsIn(h, out, JList(items));
    var vs := h[out.arr].items[..out.len];
    assert vs[i] == h[out.arr].items[i];
    forall x | x in Cells(h, vs[i], items[i])
      ensures x in ItemCells(h, vs, items)
    {
    }
  }

  lemma {:induction false} ItemsApart(h: Heap, out: Val, items: seq<Json>, i: nat, j: nat)
    requires Shows(h, out, JList(items)) && i < |items| && j < |items| && i != j
    ensures out.Slice? && out.arr in h && h[out.arr].ArrayCell? && ItemAt(h, h[out.arr].items, items, i) !! ItemAt(h, h[out.arr].items, items, j)
  {
    var vs := h[out.arr].items[..out.len];
    assert Cells(h, vs[i], items[i]) !! Cells(h, vs[j], items[j]);
  }

  lemma {:induction false} ArrayOf(h: Heap, out: Val, items: seq<Json>)
    requires Shows(h, out, JList(items))
    ensures out.Slice? && out.len == |items| && out.arr in h && h[out.arr].ArrayCell? && out.len <= |h[out.arr].items|
    ensures out.arr in Cells(h, out, JList(items))
    ensures Cells(h, out, JList(items)) == {out.arr} + ItemCells(h, h[out.arr].items[..out.len], items)
  {
  }

  /** While two slices are merged: the first i right elements are in the left list, the others still wait. */
  ghost predicate MidSlices(h0: Heap, h: Heap, out: Val, ra: Ref, now: seq<Json>, y: seq<Json>, i: nat, s: set<Ref>) {
    && Shows(h0, Slice(ra, |y|), JList(y)) && Cells(h0, Slice(ra, |y|), JList(y)) <= s
    && Shows(h, out, JList(now))
    && Owned(h0, s, Cells(h, out, JList(now))) && Within(h0, h, s)
    && ra in h && h[ra] == h0[ra] && ra !in Cells(h, out, JList(now))
    && forall q :: i <= q < |y| ==> Waits(h0, h, ItemAt(h0, h0[ra].items, y, q), Cells(h, out, JList(now)))
  }

  /** A new value stored at a position of a slice whose other elements were not touched. */
  lemma {:induction false} StoreAt(h: Heap, g: Heap, out: Val, now: seq<Json>, p: nat, v: Val, j: Json, s: set<Ref>)
    requires Shows(h, out, JList(now)) && p < |now| && Within(h, g, s)
    requires out.Slice? && out.arr in h && h[out.arr].ArrayCell? && p < |h[out.arr].items| && out.arr !in s
    requires forall q :: 0 <= q < |now| && q != p ==> ItemAt(h, h[out.arr].items, now, q) !! s
    requires Shows(g, v, j) && Owned(h, s, Cells(g, v, j))
    ensures var g2 := g[out.arr := ArrayCell(h[out.arr].items[p := v])];
            && Shows(g2, out, JList(now[p := j]))
            && Cells(g2, out, JList(now[p := j])) <= Cells(h, out, JList(now)) + Cells(g, v, j)
  {
    ArrayOf(h, out, now);
    var vs := h[out.arr].items[..out.len];
    var g2 := g[out.arr := ArrayCell(h[out.arr].items[p := v])];
    Framed(g, g2, v, j);
    forall q | 0 <= q < |vs| && q != p
      ensures SameOn(h, g2, Cells(h, vs[q], now[q])) && Cells(g2, v, j) !! Cells(h, vs[q], now[q])
    {
      ItemIn(h, out, now, q);
      assert ItemAt(h, h[out.arr].items, now, q) !! s;
    }
    PutItem(h, g2, vs, now, p, v, j);
    assert g2[out.arr].items[..out.len] == vs[p := v];
  }

  /** A value appended, to the array itself when it has room and else to a new one. */
  lemma {:induction false} StoreEnd(h: Heap, out: Val, now: seq<Json>, b: Ref, items: seq<Val>, v: Val, j: Json)
    requires Shows(h, out, JList(now)) && out.Slice? && out.arr in h && h[out.arr].ArrayCell? && out.len <= |h[out.arr].items|
    requires b == out.arr || b !in h
    requires out.len < |items| && items[..out.len] == h[out.arr].items[..out.len] && items[out.len] == v
    requires Shows(h, v, j) && Cells(h, v, j) !! Cells(h, out, JList(now))
    ensures var g := h[b := ArrayCell(items)];
            && Shows(g, Slice(b, out.len + 1), JList(now + [j]))
            && Cells(g, Slice(b, out.len + 1), JList(now + [j])) <= Cells(h, out, JList(now)) + Cells(h, v, j) + {b}
  {
    ArrayOf(h, out, now);
    CellsIn(h, v, j);
    CellsIn(h, out, JList(now));
    var vs, g := h[out.arr].items[..out.len], h[b := ArrayCell(items)];
    Framed(h, g, v, j);
    AddItem(h, g, vs, now, v, j);
    assert items[..out.len + 1] == vs + [v];
  }

  lemma {:induction false} ListApart(h: Heap, out: Val, now: seq<Json>, p: nat, from: set<Ref>)
    requires Shows(h, out, JList(now)) && p < |now| && from !! Cells(h, out, JList(now))
    ensures out.Slice? && out.arr in h && h[out.arr].ArrayCell? && p < out.len <= |h[out.arr].items|
    ensures var to := ItemAt(h, h[out.arr].items, now, p);
            && to <= Cells(h, out, JList(now)) && out.arr !in to + from && out.arr in Cells(h, out, JList(now))
            && forall q :: 0 <= q < |now| && q != p ==> ItemAt(h, h[out.arr].items, now, q) !! to + from
  {
    ItemIn(h, out, now, p);
    ArrayOf(h, out, now);
    forall q | 0 <= q < |now| && q != p
      ensures ItemAt(h, h[out.arr].items, now, q) !! ItemAt(h, h[out.arr].items, now, p) + from
    {
      ItemIn(h, out, now, q);
      ItemsApart(h, out, now, q, p);
    }
  }

  /** The right elements that still wait after one turn. */
  lemma {:induction false} RestWaits(h0: Heap, h: Heap, g: Heap, out: Val, ra: Ref, now: seq<Json>, y: seq<Json>,
                                     i: nat, s: set<Ref>, step: set<Ref>, new_: set<Ref>, after: set<Ref>, b: Ref,
                                     cell: Cell)
    requires MidSlices(h0, h, out, ra, now, y, i, s) && i < |y|
    requires h0[ra].ArrayCell? && step <= Cells(h, out, JList(now)) + ItemAt(h0, h0[ra].items, y, i)
    requires Within(h, g, step) && Owned(h, step, new_) && after <= Cells(h, out, JList(now)) + new_
    requires b in Cells(h, out, JList(now)) || b !in h
    ensures forall q :: i + 1 <= q < |y| ==> Waits(h0, g[b := cell], ItemAt(h0, h0[ra].items, y, q), after)
  {
    forall q | i + 1 <= q < |y|
      ensures Waits(h0, g[b := cell], ItemAt(h0, h0[ra].items, y, q), after)
    {
      assert Waits(h0, h, ItemAt(h0, h0[ra].items, y, q), Cells(h, out, JList(now)));
      ItemIn(h0, Slice(ra, |y|), y, q);
      ItemsApart(h0, Slice(ra, |y|), y, q, i);
      WaitsOn(h0, h, g, s, ItemAt(h0, h0[ra].items, y, q), Cells(h, out, JList(now)), step, ItemAt(h0, h0[ra].items, y, i), new_, after, b, cell);
    }
  }

  lemma WaitsOn(h0: Heap, h: Heap, g: Heap, s: set<Ref>, part: set<Ref>, tree: set<Ref>, step: set<Ref>, from: set<Ref>,
                new_: set<Ref>, after: set<Ref>, b: Ref, cell: Cell)
    requires Waits(h0, h, part, tree) && Within(h0, h, s)
    requires part <= h0.Keys && part !! from && step <= tree + from && (b in tree || b !in h)
    requires Within(h, g, step) && Owned(h, step, new_) && after <= tree + new_
    ensures Waits(h0, g[b := cell], part, after)
  {
  }

  /** One turn of mergeSlices that stores at a position. */
  lemma {:induction false} NextAt(h0: Heap, h: Heap, g: Heap, out: Val, ra: Ref, now: seq<Json>, y: seq<Json>, i: nat,
                                  s: set<Ref>, p: nat, v: Val, j: Json)
    requires MidSlices(h0, h, out, ra, now, y, i, s) && i < |y| && p < |now|
    requires out.Slice? && out.arr in h && h[out.arr].ArrayCell? && p < |h[out.arr].items| && h0[ra].ArrayCell?
    requires Within(h, g, ItemAt(h, h[out.arr].items, now, p) + ItemAt(h0, h0[ra].items, y, i))
    requires Shows(g, v, j) && Owned(h, ItemAt(h, h[out.arr].items, now, p) + ItemAt(h0, h0[ra].items, y, i), Cells(g, v, j))
    ensures MidSlices(h0, g[out.arr := ArrayCell(h[out.arr].items[p := v])], out, ra, now[p := j], y, i + 1, s)
  {
    var tree, from, to := Cells(h, out, JList(now)), ItemAt(h0, h0[ra].items, y, i), ItemAt(h, h[out.arr].items, now, p);
    var cell := ArrayCell(h[out.arr].items[p := v]);
    assert Waits(h0, h, from, tree);
    ItemIn(h0, Slice(ra, |y|), y, i);
    ListApart(h, out, now, p, from);
    StoreAt(h, g, out, now, p, v, j, to + from);
    var after := Cells(g[out.arr := cell], out, JList(now[p := j]));
    StillWithin(h0, h, g, s, tree, to + from, from, out.arr, cell);
    StillOwned(h0, h, s, tree, to + from, from, Cells(g, v, j), after);
    RestWaits(h0, h, g, out, ra, now, y, i, s, to + from, Cells(g, v, j), after, out.arr, cell);
    RightKept(h, g, ra, to + from, tree, Cells(g, v, j), after);
  }

  /** One turn of mergeSlices that appends. */
  lemma {:induction false} NextEnd(h0: Heap, h: Heap, out: Val, ra: Ref, now: seq<Json>, y: seq<Json>, i: nat,
                                   s: set<Ref>, b: Ref, items: seq<Val>)
    requires MidSlices(h0, h, out, ra, now, y, i, s) && i < |y|
    requires out.Slice? && out.arr in h && h[out.arr].ArrayCell? && out.len <= |h[out.arr].items|
    requires h0[ra].ArrayCell? && i < |h0[ra].items| && (b == out.arr || b !in h)
    requires out.len < |items| && items[..out.len] == h[out.arr].items[..out.len] && items[out.len] == h0[ra].items[i]
    ensures MidSlices(h0, h[b := ArrayCell(items)], Slice(b, out.len + 1), ra, now + [y[i]], y, i + 1, s)
  {
    var tree, from, v := Cells(h, out, JList(now)), ItemAt(h0, h0[ra].items, y, i), h0[ra].items[i];
    var new_ := from + if b in h then {} else {b};
    assert Waits(h0, h, from, tree);
    ItemIn(h0, Slice(ra, |y|), y, i);
    ArrayOf(h, out, now);
    CellsIn(h, out, JList(now));
    Framed(h0, h, v, y[i]);
    StoreEnd(h, out, now, b, items, v, y[i]);
    var g := h[b := ArrayCell(items)];
    var after := Cells(g, Slice(b, out.len + 1), JList(now + [y[i]]));
    AppendWithin(h0, h, s, tree, b, ArrayCell(items));
    StillOwned(h0, h, s, tree, from, from, new_, after);
    RestWaits(h0, h, h, out, ra, now, y, i, s, from, new_, after, b, ArrayCell(items));
    RightKept(h, h, ra, from, tree, new_, after);
  }

  lemma AppendWithin(h0: Heap, h: Heap, s: set<Ref>, tree: set<Ref>, b: Ref, cell: Cell)
    requires Within(h0, h, s) && Owned(h0, s, tree) && (b in tree || b !in h)
    ensures Within(h0, h[b := cell], s)
  {
  }

  /** What the step for a key finds. */
  lemma {:induction false} KeyReady(h0: Heap, h: Heap, left: Ref, right: Ref, now: Object, r: Object, seen: set<string>,
                                    s: set<Ref>, key: string)
    requires MidMaps(h0, h, left, right, now, r, seen, s) && key in r && key !in seen
    ensures left in h && h[left].MapCell? && h[left].entries.Keys == now.Keys
    ensures right in h && h[right].MapCell? && key in h[right].entries && h[right] == h0[right]
    ensures Shows(h, h[right].entries[key], r[key]) && Cells(h, h[right].entries[key], r[key]) == EntryAt(h0, h0[right].entries, r, key)
    ensures key in now ==>
              && Shows(h, h[left].entries[key], now[key])
              && Cells(h, h[left].entries[key], now[key]) == EntryAt(h, h[left].entries, now, key)
              && Cells(h, h[left].entries[key], now[key]) !! Cells(h, h[right].entries[key], r[key])
    ensures left !in EntryAt(h, h[left].entries, now, key) + EntryAt(h0, h0[right].entries, r, key)
    ensures key == ID ==> IsLeaf(r[key]) && (key in now ==> IsLeaf(now[key]))
  {
    EntryIn(h0, right, r, key);
    assert Waits(h0, h, EntryAt(h0, h0[right].entries, r, key), Cells(h, Ptr(left), JObj(now)));
    Framed(h0, h, h0[right].entries[key], r[key]);
    LeftApart(h, left, now, key, EntryAt(h0, h0[right].entries, r, key));
    LeafID(h0, right, r);
    LeafID(h, left, now);
    if key in now {
      EntryIn(h, left, now, key);
    }
  }

  lemma {:induction false} LeafID(h: Heap, ref: Ref, m: Object)
    requires Shows(h, Ptr(ref), JObj(m))
    ensures ID in m ==> IsLeaf(m[ID])
    ensures ref in h && h[ref].MapCell? && h[ref].entries.Keys == m.Keys
  {
  }

  lemma {:induction false} KeysStart(h: Heap, left: Ref, right: Ref, l: Object, r: Object)
    requires Shows(h, Ptr(left), JObj(l)) && Shows(h, Ptr(right), JObj(r))
    requires Cells(h, Ptr(left), JObj(l)) !! Cells(h, Ptr(right), JObj(r))
    ensures MidMaps(h, h, left, right, l, r, {}, Cells(h, Ptr(left), JObj(l)) + Cells(h, Ptr(right), JObj(r)))
  {
    assert right in Cells(h, Ptr(right), JObj(r));
    forall k | k in r
      ensures Waits(h, h, EntryAt(h, h[right].entries, r, k), Cells(h, Ptr(left), JObj(l)))
    {
      EntryIn(h, right, r, k);
    }
  }

  /** What the step for an element finds. */
  lemma {:induction false} ItemReady(h0: Heap, h: Heap, out: Val, ra: Ref, now: seq<Json>, y: seq<Json>, i: nat, s: set<Ref>)
    requires MidSlices(h0, h, out, ra, now, y, i, s) && i < |y|
    ensures out.Slice? && out.len == |now| && out.arr in h && h[out.arr].ArrayCell? && out.len <= |h[out.arr].items|
    ensures ra in h && h[ra].ArrayCell? && i < |h[ra].items| && h[ra] == h0[ra]
    ensures Shows(h, h[ra].items[i], y[i]) && Cells(h, h[ra].items[i], y[i]) == ItemAt(h0, h0[ra].items, y, i)
    ensures Cells(h, h[ra].items[i], y[i]) !! Cells(h, out, JList(now))
  {
    ItemIn(h0, Slice(ra, |y|), y, i);
    ArrayOf(h, out, now);
    assert Waits(h0, h, ItemAt(h0, h0[ra].items, y, i), Cells(h, out, JList(now)));
    Framed(h0, h, h0[ra].items[i], y[i]);
  }

  lemma {:induction false} ItemsStart(h: Heap, left: Val, right: Val, x: seq<Json>, y: seq<Json>)
    requires Shows(h, left, JList(x)) && Shows(h, right, JList(y))
    requires Cells(h, left, JList(x)) !! Cells(h, right, JList(y))
    ensures right == Slice(right.arr, |y|)
    ensures MidSlices(h, h, left, right.arr, x, y, 0, Cells(h, left, JList(x)) + Cells(h, right, JList(y)))
  {
    ArrayOf(h, right, y);
    forall q | 0 <= q < |y|
      ensures Waits(h, h, ItemAt(h, h[right.arr].items, y, q), Cells(h, left, JList(x)))
    {
      ItemIn(h, right, y, q);
    }
  }

  /** A map with this id. */
  predicate HasIDVal(h: Heap, v: Val, id: Val) {
    v.Ptr? && v.ref in h && h[v.ref].MapCell? && ID in h[v.ref].entries && h[v.ref].entries[ID] == id
  }

  lemma {:induction false} SameID(h: Heap, v: Val, w: Json, id: Val, j: Json)
    requires Shows(h, v, w) && Shows(h, id, j) && IsLeaf(j)
    ensures HasIDVal(h, v, id) <==> w.JObj? && ID in w.fields && w.fields[ID] == j
  {
    if w.JObj? && ID in w.fields {
      assert Shows(h, h[v.ref].entries[ID], w.fields[ID]);
    }
  }

  /** The cells in use, and the next one to allocate. */
  class GoHeap {
    var heap: Heap
    var next: Ref

    ghost predicate Valid()
      reads this
    {
      forall x :: x in heap ==> x < next
    }

    constructor ()
      ensures Valid() && heap == map[]
    {
      heap, next := map[], 0;
    }

    method Alloc(cell: Cell) returns (b: Ref)
      requires Valid()
      modifies this
      ensures Valid() && b !in old(heap) && heap == old(heap)[b := cell]
    {
      b := next;
      heap := heap[b := cell];
      next := next + 1;
    }

    /** append: in place while the array has room. */
    method Append(out: Val, v: Val) returns (longer: Val, ghost items: seq<Val>)
      requires Valid() && out.Slice? && out.arr in heap && heap[out.arr].ArrayCell? && out.len <= |heap[out.arr].items|
      modifies this
      ensures Valid() && longer.Slice? && longer.len == out.len + 1
      ensures longer.arr == out.arr || longer.arr !in old(heap)
      ensures heap == old(heap)[longer.arr := ArrayCell(items)]
      ensures out.len < |items| && items[..out.len] == old(heap[out.arr].items)[..out.len] && items[out.len] == v
    {
      var old_ := heap[out.arr].items;
      if out.len < |old_| {
        items := old_[out.len := v];
        heap := heap[out.arr := ArrayCell(old_[out.len := v])];
        return Slice(out.arr, out.len + 1), items;
      }
      var room: nat :| 0 <= room;
      var grown := old_[..out.len] + [v] + seq(room, i => Nil);
      items := grown;
      var b := Alloc(ArrayCell(grown));
      return Slice(b, out.len + 1), items;
    }

    /** getLeftEntityPosition, with the length of the slice for "none". */
    method GetLeftEntityPosition(out: Val, id: Val, ghost now: seq<Json>, ghost j: Json) returns (p: nat)
      requires Shows(heap, out, JList(now)) && Shows(heap, id, j) && IsLeaf(j)
      ensures p == LeftPosition(now, j)
    {
      ArrayOf(heap, out, now);
      p := 0;
      assert now[0..] == now;
      while p < out.len && !HasIDVal(heap, heap[out.arr].items[p], id)
        invariant p <= out.len && LeftPosition(now, j) == p + LeftPosition(now[p..], j)
      {
        ItemIn(heap, out, now, p);
        SameID(heap, heap[out.arr].items[p], now[p], id, j);
        assert now[p..][1..] == now[p + 1..];
        p := p + 1;
      }
      if p < out.len {
        ItemIn(heap, out, now, p);
        SameID(heap, heap[out.arr].items[p], now[p], id, j);
      }
    }

    /** mergeMaps: the left map becomes the merged one; the right one is used up. */
    method MergeMapInPlace(left: Ref, right: Ref, ghost l: Object, ghost r: Object)
      requires Valid() && Shows(heap, Ptr(left), JObj(l)) && Shows(heap, Ptr(right), JObj(r))
      requires Cells(heap, Ptr(left), JObj(l)) !! Cells(heap, Ptr(right), JObj(r))
      modifies this
      ensures Valid() && Shows(heap, Ptr(left), JObj(Merge(l, r)))
      ensures var s := Cells(old(heap), Ptr(left), JObj(l)) + Cells(old(heap), Ptr(right), JObj(r));
              Within(old(heap), heap, s) && Owned(old(heap), s, Cells(heap, Ptr(left), JObj(Merge(l, r))))
      decreases JObj(r), 0, 1
    {
      ghost var h0, s := heap, Cells(heap, Ptr(left), JObj(l)) + Cells(heap, Ptr(right), JObj(r));
      KeysStart(h0, left, right, l, r);
      assert Merge(l, Part(r, {})) == l;
      var keys := heap[right].entries.Keys;
      ghost var seen: set<string> := {};
      while keys != {}
        invariant Valid() && seen + keys == r.Keys && seen !! keys
        invariant MidMaps(h0, heap, left, right, Merge(l, Part(r, seen)), r, seen, s)
        decreases keys
      {
        var key :| key in keys;
        MergeKeyInPlace(left, right, key, h0, l, r, seen, s);
        keys := keys - {key};
        seen := seen + {key};
      }
      assert Part(r, seen) == r;
    }

    method MergeKeyInPlace(left: Ref, right: Ref, key: string, ghost h0: Heap, ghost l: Object, ghost r: Object,
                           ghost seen: set<string>, ghost s: set<Ref>)
      requires Valid() && MidMaps(h0, heap, left, right, Merge(l, Part(r, seen)), r, seen, s) && key in r && key !in seen
      modifies this
      ensures Valid() && MidMaps(h0, heap, left, right, Merge(l, Part(r, seen + {key})), r, seen + {key}, s)
      decreases JObj(r), 0, 0
    {
      ghost var h, now := heap, Merge(l, Part(r, seen));
      KeyReady(h0, h, left, right, now, r, seen, s, key);
      MergeKey(l, r, seen, key);
      var value := heap[right].entries[key];
      if key in heap[left].entries {
        value := MergeValueInPlace(heap[left].entries[key], value, l[key], r[key]);
      }
      NextKey(h0, h, heap, left, right, now, r, seen, s, key, value, Joined(l, r, key));
      assert heap[left] == h[left];
      heap := heap[left := MapCell(heap[left].entries[key := value])];
    }

    /** What is stored under a key of both: two maps or two slices are merged into the left one, else the right value. */
    method MergeValueInPlace(leftVal: Val, rightVal: Val, ghost l: Json, ghost r: Json) returns (value: Val)
      requires Valid() && Shows(heap, leftVal, l) && Shows(heap, rightVal, r) && Cells(heap, leftVal, l) !! Cells(heap, rightVal, r)
      modifies this
      ensures Valid() && Shows(heap, value, MergeValue(l, r))
      ensures var s := Cells(old(heap), leftVal, l) + Cells(old(heap), rightVal, r);
              Within(old(heap), heap, s) && Owned(old(heap), s, Cells(heap, value, MergeValue(l, r)))
      decreases r, 1
    {
      if leftVal.Ptr? && rightVal.Ptr? {
        MergeMapInPlace(leftVal.ref, rightVal.ref, l.fields, r.fields);
        return leftVal;
      }
      if leftVal.Slice? && rightVal.Slice? {
        value := MergeSliceInPlace(leftVal, rightVal, l.items, r.items);
        return;
      }
      return rightVal;
    }

    /** mergeSlices: the left slice, or a longer copy of it, becomes the merged one. */
    method MergeSliceInPlace(left: Val, right: Val, ghost x: seq<Json>, ghost y: seq<Json>) returns (out: Val)
      requires Valid() && Shows(heap, left, JList(x)) && Shows(heap, right, JList(y))
      requires Cells(heap, left, JList(x)) !! Cells(heap, right, JList(y))
      modifies this
      ensures Valid() && Shows(heap, out, JList(MergeSlices(x, y)))
      ensures var s := Cells(old(heap), left, JList(x)) + Cells(old(heap), right, JList(y));
              Within(old(heap), heap, s) && Owned(old(heap), s, Cells(heap, out, JList(MergeSlices(x, y))))
      decreases JList(y), 0, 1
    {
      ghost var h0, s := heap, Cells(heap, left, JList(x)) + Cells(heap, right, JList(y));
      ItemsStart(h0, left, right, x, y);
      out := left;
      for i := 0 to right.len
        invariant Valid() && |y| == right.len
        invariant MidSlices(h0, heap, out, right.arr, MergeSlices(x, y[..i]), y, i, s)
      {
        assert y[..i + 1][..i] == y[..i];
        out := MergeItemInPlace(out, right.arr, i, h0, MergeSlices(x, y[..i]), y, s);
      }
      assert y[..|y|] == y;
    }

    method MergeItemInPlace(left: Val, ra: Ref, i: nat, ghost h0: Heap, ghost now: seq<Json>, ghost y: seq<Json>,
                            ghost s: set<Ref>) returns (out: Val)
      requires Valid() && MidSlices(h0, heap, left, ra, now, y, i, s) && i < |y|
      modifies this
      ensures Valid() && MidSlices(h0, heap, out, ra, OneMore(now, y[i], i), y, i + 1, s)
      decreases JList(y), 0, 0
    {
      ghost var h := heap;
      out := left;
      ItemReady(h0, h, out, ra, now, y, i, s);
      var rv := heap[ra].items[i];
      var position := out.len;
      if rv.Ptr? {
        position := Position(out, rv, i, now, y[i]);
      }
      if position < out.len {
        ListApart(h, out, now, position, ItemAt(h0, h0[ra].items, y, i));
        ItemIn(h, out, now, position);
        var value := MergeOrRewrite(heap[out.arr].items[position], rv, now[position], y[i]);
        NextAt(h0, h, heap, out, ra, now, y, i, s, position, value, Settled(now[position], y[i]));
        assert heap[out.arr] == h[out.arr];
        heap := heap[out.arr := ArrayCell(heap[out.arr].items[position := value])];
      } else {
        ghost var items;
        out, items := Append(left, rv);
        NextEnd(h0, h, left, ra, now, y, i, s, out.arr, items);
      }
    }

    /** A map is merged into a map and takes the place of anything else, as does every other value. */
    method MergeOrRewrite(lv: Val, rv: Val, ghost l: Json, ghost r: Json) returns (value: Val)
      requires Valid() && Shows(heap, lv, l) && Shows(heap, rv, r) && Cells(heap, lv, l) !! Cells(heap, rv, r)
      modifies this
      ensures Valid() && Shows(heap, value, Settled(l, r))
      ensures var s := Cells(old(heap), lv, l) + Cells(old(heap), rv, r);
              Within(old(heap), heap, s) && Owned(old(heap), s, Cells(heap, value, Settled(l, r)))
      decreases r, 2
    {
      if lv.Ptr? && rv.Ptr? {
        MergeMapInPlace(lv.ref, rv.ref, l.fields, r.fields);
        return lv;
      }
      return rv;
    }

    /** Where a right map belongs. */
    method Position(out: Val, rv: Val, i: nat, ghost now: seq<Json>, ghost r: Json) returns (p: nat)
      requires Shows(heap, out, JList(now)) && Shows(heap, rv, r) && rv.Ptr?
      ensures p == Target(now, r, i)
    {
      ArrayOf(heap, out, now);
      p := out.len;
      if ID in heap[rv.ref].entries {
        assert Shows(heap, heap[rv.ref].entries[ID], r.fields[ID]);
        p := GetLeftEntityPosition(out, heap[rv.ref].entries[ID], now, r.fields[ID]);
      }
      if p == out.len && i < out.len {
        p := i;
      }
    }
  }
}
