/** Payloads as they lie in memory: maps and slices are references to cells, and what is stored twice is shared. */
module Memory {
  import opened Schema
  import opened Json

  type Ref = nat

  /** An interface value: a map is a reference to its cell, a slice a reference to its array with a length. */
  datatype Val = Nil | Text(text: string) | Ptr(ref: Ref) | Slice(arr: Ref, len: nat)

  /** An array may be longer than the slices over it. */
  datatype Cell = MapCell(entries: map<string, Val>) | ArrayCell(items: seq<Val>)

  type Heap = map<Ref, Cell>

  /**
   * A value that shows a JSON value as a tree: no cell is reached twice. Ids are leaves, which is what the executor can
   * compare.
   */
  ghost predicate Shows(h: Heap, v: Val, j: Json)
    decreases j, 1
  {
    match j
    case JNull => v == Nil
    case JScalar(text) => v == Text(text)
    case JObj(m) =>
      && v.Ptr? && v.ref in h && h[v.ref].MapCell?
      && ShowsEntries(h, h[v.ref].entries, m)
      && v.ref !in EntryCells(h, h[v.ref].entries, m)
      && (ID in m ==> IsLeaf(m[ID]))
    case JList(items) =>
      && v.Slice? && v.arr in h && h[v.arr].ArrayCell? && v.len <= |h[v.arr].items|
      && ShowsItems(h, h[v.arr].items[..v.len], items)
      && v.arr !in ItemCells(h, h[v.arr].items[..v.len], items)
  }

  ghost predicate ShowsEntries(h: Heap, e: map<string, Val>, m: Object)
    decreases JObj(m), 0
  {
    && e.Keys == m.Keys
    && (forall k :: k in m ==> Shows(h, e[k], m[k]))
    && (forall k, l :: k in m && l in m && k != l ==> Cells(h, e[k], m[k]) !! Cells(h, e[l], m[l]))
  }

  ghost predicate ShowsItems(h: Heap, vs: seq<Val>, items: seq<Json>)
    decreases JList(items), 0
  {
    && |vs| == |items|
    && (forall i :: 0 <= i < |vs| ==> Shows(h, vs[i], items[i]))
    && (forall i, j :: 0 <= i < |vs| && 0 <= j < |vs| && i != j ==> Cells(h, vs[i], items[i]) !! Cells(h, vs[j], items[j]))
  }

  /** The footprint: all cells a value is made of. */
  ghost function Cells(h: Heap, v: Val, j: Json): set<Ref>
    decreases j, 1
  {
    match j
    case JObj(m) => if v.Ptr? then {v.ref} + (if v.ref in h && h[v.ref].MapCell? then EntryCells(h, h[v.ref].entries, m) else {}) else {}
    case JList(items) =>
      if v.Slice? then {v.arr} + (if v.arr in h && h[v.arr].ArrayCell? && v.len <= |h[v.arr].items| then ItemCells(h, h[v.arr].items[..v.len], items) else {}) else {}
    case _ => {}
  }

  ghost function EntryCells(h: Heap, e: map<string, Val>, m: Object): set<Ref>
    decreases JObj(m), 0
  {
    set k, x | k in m && k in e && x in Cells(h, e[k], m[k]) :: x
  }

  ghost function ItemCells(h: Heap, vs: seq<Val>, items: seq<Json>): set<Ref>
    decreases JList(items), 0
  {
    set i, x | 0 <= i < |items| && i < |vs| && x in Cells(h, vs[i], items[i]) :: x
  }

  /** Some cells are as they were. */
  ghost predicate SameOn(h: Heap, g: Heap, s: set<Ref>) {
    forall x :: x in s && x in h ==> x in g && g[x] == h[x]
  }

  /** What a value shows depends on its footprint only. */
  lemma {:induction false} Framed(h: Heap, g: Heap, v: Val, j: Json)
    requires Shows(h, v, j) && SameOn(h, g, Cells(h, v, j))
    ensures Shows(g, v, j) && Cells(g, v, j) == Cells(h, v, j)
    decreases j, 1
  {
    match j
    case JNull =>
    case JScalar(_) =>
    case JObj(m) =>
      assert v.ref in Cells(h, v, j);
      EntriesFramed(h, g, h[v.ref].entries, m);
    case JList(items) =>
      assert v.arr in Cells(h, v, j);
      ItemsFramed(h, g, h[v.arr].items[..v.len], items);
  }

  lemma {:induction false} EntriesFramed(h: Heap, g: Heap, e: map<string, Val>, m: Object)
    requires ShowsEntries(h, e, m) && SameOn(h, g, EntryCells(h, e, m))
    ensures ShowsEntries(g, e, m) && EntryCells(g, e, m) == EntryCells(h, e, m)
    decreases JObj(m), 0
  {
    forall k | k in m
      ensures Shows(g, e[k], m[k]) && Cells(g, e[k], m[k]) == Cells(h, e[k], m[k])
    {
      Framed(h, g, e[k], m[k]);
    }
  }

  lemma {:induction false} ItemsFramed(h: Heap, g: Heap, vs: seq<Val>, items: seq<Json>)
    requires ShowsItems(h, vs, items) && SameOn(h, g, ItemCells(h, vs, items))
    ensures ShowsItems(g, vs, items) && ItemCells(g, vs, items) == ItemCells(h, vs, items)
    decreases JList(items), 0
  {
    forall i | 0 <= i < |vs|
      ensures Shows(g, vs[i], items[i]) && Cells(g, vs[i], items[i]) == Cells(h, vs[i], items[i])
    {
      Framed(h, g, vs[i], items[i]);
    }
  }

  /** Footprints are allocated. */
  lemma {:induction false} CellsIn(h: Heap, v: Val, j: Json)
    requires Shows(h, v, j)
    ensures Cells(h, v, j) <= h.Keys
    decreases j
  {
    match j
    case JNull =>
    case JScalar(_) =>
    case JObj(m) =>
      forall k | k in m
        ensures Cells(h, h[v.ref].entries[k], m[k]) <= h.Keys
      {
        CellsIn(h, h[v.ref].entries[k], m[k]);
      }
    case JList(items) =>
      forall i | 0 <= i < |items|
        ensures Cells(h, h[v.arr].items[..v.len][i], items[i]) <= h.Keys
      {
        CellsIn(h, h[v.arr].items[..v.len][i], items[i]);
      }
  }

  /** An entry replaced or added: the others are framed, and the new one keeps away from them. */
  lemma {:induction false} PutEntry(h: Heap, g: Heap, e: map<string, Val>, m: Object, k: string, v: Val, j: Json)
    requires ShowsEntries(h, e, m) && Shows(g, v, j)
    requires forall l :: l in m && l != k ==> SameOn(h, g, Cells(h, e[l], m[l])) && Cells(g, v, j) !! Cells(h, e[l], m[l])
    ensures ShowsEntries(g, e[k := v], m[k := j])
    ensures EntryCells(g, e[k := v], m[k := j]) <= EntryCells(h, e, m) + Cells(g, v, j)
  {
    forall l | l in m && l != k
      ensures Shows(g, e[l], m[l]) && Cells(g, e[l], m[l]) == Cells(h, e[l], m[l])
    {
      Framed(h, g, e[l], m[l]);
    }
    forall x | x in EntryCells(g, e[k := v], m[k := j])
      ensures x in EntryCells(h, e, m) + Cells(g, v, j)
    {
      var l :| l in m[k := j] && x in Cells(g, e[k := v][l], m[k := j][l]);
    }
  }

  lemma {:induction false} PutItem(h: Heap, g: Heap, vs: seq<Val>, items: seq<Json>, i: nat, v: Val, j: Json)
    requires ShowsItems(h, vs, items) && i < |vs| && Shows(g, v, j)
    requires forall q :: 0 <= q < |vs| && q != i ==> SameOn(h, g, Cells(h, vs[q], items[q])) && Cells(g, v, j) !! Cells(h, vs[q], items[q])
    ensures ShowsItems(g, vs[i := v], items[i := j])
    ensures ItemCells(g, vs[i := v], items[i := j]) <= ItemCells(h, vs, items) + Cells(g, v, j)
  {
    forall q | 0 <= q < |vs| && q != i
      ensures Shows(g, vs[q], items[q]) && Cells(g, vs[q], items[q]) == Cells(h, vs[q], items[q])
    {
      Framed(h, g, vs[q], items[q]);
    }
    forall x | x in ItemCells(g, vs[i := v], items[i := j])
      ensures x in ItemCells(h, vs, items) + Cells(g, v, j)
    {
      var q :| 0 <= q < |items| && x in Cells(g, vs[i := v][q], items[i := j][q]);
    }
  }

  lemma {:induction false} AddItem(h: Heap, g: Heap, vs: seq<Val>, items: seq<Json>, v: Val, j: Json)
    requires ShowsItems(h, vs, items) && Shows(g, v, j)
    requires SameOn(h, g, ItemCells(h, vs, items)) && Cells(g, v, j) !! ItemCells(h, vs, items)
    ensures ShowsItems(g, vs + [v], items + [j])
    ensures ItemCells(g, vs + [v], items + [j]) <= ItemCells(h, vs, items) + Cells(g, v, j)
  {
    ItemsFramed(h, g, vs, items);
    var ws, all := vs + [v], items + [j];
    forall q | 0 <= q < |vs|
      ensures ws[q] == vs[q] && all[q] == items[q] && Cells(g, vs[q], items[q]) <= ItemCells(g, vs, items)
    {
    }
    forall x | x in ItemCells(g, ws, all)
      ensures x in ItemCells(h, vs, items) + Cells(g, v, j)
    {
      var q :| 0 <= q < |all| && x in Cells(g, ws[q], all[q]);
    }
  }

  /** Only some cells have been written, and new ones allocated. */
  ghost predicate Within(h: Heap, g: Heap, s: set<Ref>) {
    forall x :: x in h ==> x in g && (x !in s ==> g[x] == h[x])
  }

  /** Cells that were of a footprint, or did not exist. */
  ghost predicate Owned(h: Heap, s: set<Ref>, c: set<Ref>) {
    forall x :: x in c && x in h ==> x in s
  }

  /** Whatever has a disjoint footprint is left alone. */
  lemma {:induction false} LeftAlone(h: Heap, g: Heap, s: set<Ref>, v: Val, j: Json)
    requires Within(h, g, s) && Shows(h, v, j) && Cells(h, v, j) !! s
    ensures Shows(g, v, j) && Cells(g, v, j) == Cells(h, v, j)
  {
    Framed(h, g, v, j);
  }
}
