/** Why each request gets its own copy of a shared answer: copies are separate trees, and what is not copied changes twice. */
module Copies {
  import opened Prelude
  import opened Schema
  import opened Json
  import opened MergeMaps
  import opened Stitching
  import opened DepthExecutor
  import opened Scheduler
  import opened Memory
  import opened InPlace
  import opened StitchInPlace

  /** A value copied along with one more. */
  lemma {:induction false} CopiedEntry(h: Heap, g: Heap, e: map<string, Val>, m: Object, k: string, v: Val, j: Json)
    requires ShowsEntries(h, e, m) && Within(h, g, {}) && Shows(g, v, j) && Owned(h, {}, Cells(g, v, j)) && k !in m
    ensures ShowsEntries(g, e[k := v], m[k := j])
    ensures EntryCells(g, e[k := v], m[k := j]) <= EntryCells(h, e, m) + Cells(g, v, j)
  {
    forall l | l in m && l != k
      ensures SameOn(h, g, Cells(h, e[l], m[l])) && Cells(g, v, j) !! Cells(h, e[l], m[l])
    {
      CellsIn(h, e[l], m[l]);
    }
    PutEntry(h, g, e, m, k, v, j);
  }

  lemma {:induction false} CopiedItem(h: Heap, g: Heap, vs: seq<Val>, items: seq<Json>, v: Val, j: Json)
    requires ShowsItems(h, vs, items) && Within(h, g, {}) && Shows(g, v, j) && Owned(h, {}, Cells(g, v, j))
    ensures ShowsItems(g, vs + [v], items + [j])
    ensures ItemCells(g, vs + [v], items + [j]) <= ItemCells(h, vs, items) + Cells(g, v, j)
  {
    forall i | 0 <= i < |items|
      ensures Cells(h, vs[i], items[i]) <= h.Keys
    {
      CellsIn(h, vs[i], items[i]);
    }
    AddItem(h, g, vs, items, v, j);
  }

  lemma {:induction false} MapCopied(g: Heap, b: Ref, e: map<string, Val>, m: Object)
    requires ShowsEntries(g, e, m) && b !in g && (ID in m ==> IsLeaf(m[ID]))
    ensures var h := g[b := MapCell(e)]; Shows(h, Ptr(b), JObj(m)) && Cells(h, Ptr(b), JObj(m)) == {b} + EntryCells(g, e, m)
  {
    forall k | k in m
      ensures Cells(g, e[k], m[k]) <= g.Keys
    {
      CellsIn(g, e[k], m[k]);
    }
    EntriesFramed(g, g[b := MapCell(e)], e, m);
  }

  lemma {:induction false} ListCopied(g: Heap, b: Ref, vs: seq<Val>, items: seq<Json>)
    requires ShowsItems(g, vs, items) && b !in g
    ensures var h := g[b := ArrayCell(vs)]; Shows(h, Slice(b, |vs|), JList(items)) && Cells(h, Slice(b, |vs|), JList(items)) == {b} + ItemCells(g, vs, items)
  {
    forall i | 0 <= i < |items|
      ensures Cells(g, vs[i], items[i]) <= g.Keys
    {
      CellsIn(g, vs[i], items[i]);
    }
    ItemsFramed(g, g[b := ArrayCell(vs)], vs, items);
    assert vs[..|vs|] == vs;
  }

  /** copyMap, below the top: the same JSON value in new cells, and nothing else written. */
  method CopyValue(mem: GoHeap, v: Val, ghost j: Json) returns (w: Val)
    requires mem.Valid() && Shows(mem.heap, v, j)
    modifies mem
    ensures mem.Valid() && Shows(mem.heap, w, j)
    ensures Within(old(mem.heap), mem.heap, {}) && Owned(old(mem.heap), {}, Cells(mem.heap, w, j))
    decreases j, 1
  {
    match v
    case Nil => return v;
    case Text(_) => return v;
    case Ptr(r) =>
      var b := CopyMap(mem, r, j.fields);
      return Ptr(b);
    case Slice(a, n) =>
      w := CopySlice(mem, v, j.items);
  }

  method CopyMap(mem: GoHeap, r: Ref, ghost m: Object) returns (b: Ref)
    requires mem.Valid() && Shows(mem.heap, Ptr(r), JObj(m))
    modifies mem
    ensures mem.Valid() && Shows(mem.heap, Ptr(b), JObj(m))
    ensures Within(old(mem.heap), mem.heap, {}) && Owned(old(mem.heap), {}, Cells(mem.heap, Ptr(b), JObj(m)))
    decreases JObj(m), 0, 1
  {
    ghost var h0 := mem.heap;
    var e: map<string, Val> := map[];
    var keys := mem.heap[r].entries.Keys;
    ghost var seen: set<string> := {};
    while keys != {}
      invariant mem.Valid() && seen + keys == m.Keys && seen !! keys && Within(h0, mem.heap, {})
      invariant ShowsEntries(mem.heap, e, Part(m, seen)) && Owned(h0, {}, EntryCells(mem.heap, e, Part(m, seen)))
      decreases keys
    {
      var key :| key in keys;
      e := CopyEntry(mem, r, key, e, h0, m, seen);
      keys := keys - {key};
      seen := seen + {key};
    }
    assert Part(m, seen) == m;
    ghost var g := mem.heap;
    b := mem.Alloc(MapCell(e));
    MapCopied(g, b, e, m);
  }

  method CopyEntry(mem: GoHeap, r: Ref, key: string, e: map<string, Val>, ghost h0: Heap, ghost m: Object,
                   ghost seen: set<string>) returns (more: map<string, Val>)
    requires mem.Valid() && Shows(h0, Ptr(r), JObj(m)) && Within(h0, mem.heap, {}) && key in m && key !in seen
    requires ShowsEntries(mem.heap, e, Part(m, seen)) && Owned(h0, {}, EntryCells(mem.heap, e, Part(m, seen)))
    modifies mem
    ensures mem.Valid() && Within(h0, mem.heap, {})
    ensures ShowsEntries(mem.heap, more, Part(m, seen + {key})) && Owned(h0, {}, EntryCells(mem.heap, more, Part(m, seen + {key})))
    decreases JObj(m), 0, 0
  {
    ghost var h := mem.heap;
    EntryIn(h0, r, m, key);
    CellsIn(h0, Ptr(r), JObj(m));
    assert r in Cells(h0, Ptr(r), JObj(m));
    var v := mem.heap[r].entries[key];
    LeftAlone(h0, h, {}, v, m[key]);
    var w := CopyValue(mem, v, m[key]);
    CopiedNext(h0, h, mem.heap, e, m, seen, key, w);
    return e[key := w];
  }

  lemma {:induction false} CopiedNext(h0: Heap, h: Heap, g: Heap, e: map<string, Val>, m: Object, seen: set<string>,
                                      key: string, w: Val)
    requires ShowsEntries(h, e, Part(m, seen)) && Owned(h0, {}, EntryCells(h, e, Part(m, seen))) && key in m && key !in seen
    requires Within(h0, h, {}) && Within(h, g, {}) && Shows(g, w, m[key]) && Owned(h, {}, Cells(g, w, m[key]))
    ensures Within(h0, g, {})
    ensures ShowsEntries(g, e[key := w], Part(m, seen + {key})) && Owned(h0, {}, EntryCells(g, e[key := w], Part(m, seen + {key})))
  {
    CopiedEntry(h, g, e, Part(m, seen), key, w, m[key]);
    assert Part(m, seen + {key}) == Part(m, seen)[key := m[key]];
    Onward(h0, h, g, {}, {}, Cells(g, w, m[key]));
  }

  method CopySlice(mem: GoHeap, v: Val, ghost items: seq<Json>) returns (w: Val)
    requires mem.Valid() && Shows(mem.heap, v, JList(items))
    modifies mem
    ensures mem.Valid() && Shows(mem.heap, w, JList(items))
    ensures Within(old(mem.heap), mem.heap, {}) && Owned(old(mem.heap), {}, Cells(mem.heap, w, JList(items)))
    decreases JList(items), 0
  {
    ghost var h0 := mem.heap;
    ArrayOf(h0, v, items);
    var old_ := mem.heap[v.arr].items;
    var vs: seq<Val> := [];
    for i := 0 to v.len
      invariant mem.Valid() && Within(h0, mem.heap, {}) && |vs| == i
      invariant ShowsItems(mem.heap, vs, items[..i]) && Owned(h0, {}, ItemCells(mem.heap, vs, items[..i]))
    {
      ghost var h := mem.heap;
      ItemIn(h0, v, items, i);
      LeftAlone(h0, h, {}, old_[i], items[i]);
      var x := CopyValue(mem, old_[i], items[i]);
      CopiedNextItem(h0, h, mem.heap, vs, items, i, x);
      vs := vs + [x];
    }
    assert items[..|items|] == items;
    ghost var g := mem.heap;
    var b := mem.Alloc(ArrayCell(vs));
    ListCopied(g, b, vs, items);
    return Slice(b, |vs|);
  }

  lemma {:induction false} CopiedNextItem(h0: Heap, h: Heap, g: Heap, vs: seq<Val>, items: seq<Json>, i: nat, w: Val)
    requires i < |items| && ShowsItems(h, vs, items[..i]) && Owned(h0, {}, ItemCells(h, vs, items[..i]))
    requires Within(h0, h, {}) && Within(h, g, {}) && Shows(g, w, items[i]) && Owned(h, {}, Cells(g, w, items[i]))
    ensures Within(h0, g, {})
    ensures ShowsItems(g, vs + [w], items[..i + 1]) && Owned(h0, {}, ItemCells(g, vs + [w], items[..i + 1]))
  {
    CopiedItem(h, g, vs, items[..i], w, items[i]);
    assert items[..i + 1] == items[..i] + [items[i]];
    Onward(h0, h, g, {}, {}, Cells(g, w, items[i]));
  }

  /** Trees that show the same answer and have no cell in common. */
  ghost predicate Separate(h: Heap, copies: seq<Ref>, m: Object) {
    && (forall i :: 0 <= i < |copies| ==> Shows(h, Ptr(copies[i]), JObj(m)))
    && (forall i, j :: 0 <= i < j < |copies| ==> Cells(h, Ptr(copies[i]), JObj(m)) !! Cells(h, Ptr(copies[j]), JObj(m)))
  }

  /** The fan-out of executeRequests: every request of the answer's index list gets a copy of its own. */
  method FanOutCopies(mem: GoHeap, answer: Ref, n: nat, ghost m: Object) returns (copies: seq<Ref>)
    requires mem.Valid() && Shows(mem.heap, Ptr(answer), JObj(m))
    modifies mem
    ensures mem.Valid() && |copies| == n && Separate(mem.heap, copies, m)
    ensures Within(old(mem.heap), mem.heap, {})
    ensures forall i :: 0 <= i < n ==> Owned(old(mem.heap), {}, Cells(mem.heap, Ptr(copies[i]), JObj(m)))
  {
    ghost var h0 := mem.heap;
    copies := [];
    for k := 0 to n
      invariant mem.Valid() && |copies| == k && Separate(mem.heap, copies, m) && Within(h0, mem.heap, {})
      invariant forall i :: 0 <= i < k ==> Owned(h0, {}, Cells(mem.heap, Ptr(copies[i]), JObj(m)))
    {
      ghost var h := mem.heap;
      LeftAlone(h0, h, {}, Ptr(answer), JObj(m));
      var copy := CopyMap(mem, answer, m);
      OneMoreCopy(h, mem.heap, copies, copy, m);
      copies := copies + [copy];
    }
  }

  lemma {:induction false} OneMoreCopy(h: Heap, g: Heap, copies: seq<Ref>, copy: Ref, m: Object)
    requires Separate(h, copies, m) && Within(h, g, {}) && Shows(g, Ptr(copy), JObj(m)) && Owned(h, {}, Cells(g, Ptr(copy), JObj(m)))
    ensures Separate(g, copies + [copy], m)
    ensures forall i :: 0 <= i < |copies| ==> Cells(g, Ptr(copies[i]), JObj(m)) == Cells(h, Ptr(copies[i]), JObj(m))
  {
    forall i | 0 <= i < |copies|
      ensures Shows(g, Ptr(copies[i]), JObj(m)) && Cells(g, Ptr(copies[i]), JObj(m)) == Cells(h, Ptr(copies[i]), JObj(m)) <= h.Keys
    {
      CellsIn(h, Ptr(copies[i]), JObj(m));
      LeftAlone(h, g, {}, Ptr(copies[i]), JObj(m));
    }
  }

  /** Answers that wait to be stitched: as they were, apart from each other, and apart from the tree. */
  ghost predicate Waiting(h0: Heap, h: Heap, answers: seq<Ref>, results: seq<ExecutionResult>, n: nat, tree: set<Ref>)
    requires |answers| == |results|
  {
    && (forall i :: 0 <= i < |answers| ==> Shows(h0, Ptr(answers[i]), JObj(results[i].result)))
    && (forall i, j :: 0 <= i < j < |answers| ==> Cells(h0, Ptr(answers[i]), JObj(results[i].result)) !! Cells(h0, Ptr(answers[j]), JObj(results[j].result)))
    && forall i :: n <= i < |answers| ==> Waits(h0, h, Cells(h0, Ptr(answers[i]), JObj(results[i].result)), tree)
  }

  /**
   * The merge of a level as it is, in place: with answers that are separate trees, the tree of the manager ends up showing
   * what stitching the values one after the other gives.
   */
  method MergeInPlace(mem: GoHeap, source: Ref, answers: seq<Ref>, paths: seq<seq<string>>, ghost m: Object,
                      ghost results: seq<ExecutionResult>) returns (err: Option<string>)
    requires mem.Valid() && Shows(mem.heap, Ptr(source), JObj(m)) && |answers| == |paths| == |results|
    requires forall i :: 0 <= i < |paths| ==> paths[i] == results[i].ip && forall k :: 0 <= k < |paths[i]| ==> LeavesIDs(paths[i][k])
    requires Waiting(mem.heap, mem.heap, answers, results, 0, Cells(mem.heap, Ptr(source), JObj(m)))
    modifies mem
    ensures mem.Valid()
    ensures err.None? <==> MergeAll(m, results).Ok?
    ensures err.None? ==> Shows(mem.heap, Ptr(source), JObj(MergeAll(m, results).value))
  {
    ghost var h0, now := mem.heap, m;
    assert results[..0] == [];
    for i := 0 to |answers|
      invariant mem.Valid() && MergeAll(m, results[..i]) == Ok(now)
      invariant Shows(mem.heap, Ptr(source), JObj(now))
      invariant Waiting(h0, mem.heap, answers, results, i, Cells(mem.heap, Ptr(source), JObj(now)))
    {
      MergeAllNext(m, results, i);
      ghost var h := mem.heap;
      assert Waits(h0, h, Cells(h0, Ptr(answers[i]), JObj(results[i].result)), Cells(h, Ptr(source), JObj(now)));
      Framed(h0, h, Ptr(answers[i]), JObj(results[i].result));
      err := StitchInPlace.StitchInPlace(mem, source, paths[i], answers[i], now, results[i].result);
      if err.Some? {
        FirstMergeError(m, results, i + 1);
        return;
      }
      ghost var next := Stitch(now, paths[i], results[i].result).value;
      StillWaiting(h0, h, mem.heap, answers, results, i, Cells(h, Ptr(source), JObj(now)), Cells(mem.heap, Ptr(source), JObj(next)));
      now := next;
    }
    assert results[..|results|] == results;
    return None;
  }

  lemma {:induction false} StillWaiting(h0: Heap, h: Heap, g: Heap, answers: seq<Ref>, results: seq<ExecutionResult>,
                                        n: nat, tree: set<Ref>, after: set<Ref>)
    requires |answers| == |results| && n < |answers| && Waiting(h0, h, answers, results, n, tree)
    requires var step := tree + Cells(h0, Ptr(answers[n]), JObj(results[n].result)); Within(h, g, step) && Owned(h, step, after)
    ensures Waiting(h0, g, answers, results, n + 1, after)
  {
    forall i | n + 1 <= i < |answers|
      ensures Waits(h0, g, Cells(h0, Ptr(answers[i]), JObj(results[i].result)), after)
    {
      assert Waits(h0, h, Cells(h0, Ptr(answers[i]), JObj(results[i].result)), tree);
      CellsIn(h0, Ptr(answers[i]), JObj(results[i].result));
    }
  }

  /** What fanning out one more answer gives waits together with what was waiting, whatever cells the answer itself shares. */
  lemma {:induction false} CopiesWait(h0: Heap, h: Heap, source: Ref, tree: Object, answers: seq<Ref>,
                                      results: seq<ExecutionResult>,
                                      copies: seq<Ref>, m: Object, more: seq<ExecutionResult>)
    requires Shows(h0, Ptr(source), JObj(tree)) && |answers| == |results|
    requires Waiting(h0, h0, answers, results, 0, Cells(h0, Ptr(source), JObj(tree)))
    requires Separate(h, copies, m) && Within(h0, h, {})
    requires forall i :: 0 <= i < |copies| ==> Owned(h0, {}, Cells(h, Ptr(copies[i]), JObj(m)))
    requires |more| == |copies| && forall i :: 0 <= i < |more| ==> more[i].result == m
    ensures Shows(h, Ptr(source), JObj(tree))
    ensures Waiting(h, h, answers + copies, results + more, 0, Cells(h, Ptr(source), JObj(tree)))
  {
    var all, shown, n := answers + copies, results + more, |answers|;
    LeftAlone(h0, h, {}, Ptr(source), JObj(tree));
    CellsIn(h0, Ptr(source), JObj(tree));
    var taken := Cells(h, Ptr(source), JObj(tree));
    forall i | 0 <= i < |all|
      ensures Shows(h, Ptr(all[i]), JObj(shown[i].result)) && Cells(h, Ptr(all[i]), JObj(shown[i].result)) !! taken
      ensures i < n ==> Cells(h, Ptr(all[i]), JObj(shown[i].result)) == Cells(h0, Ptr(answers[i]), JObj(results[i].result)) <= h0.Keys
      ensures i >= n ==> Cells(h, Ptr(all[i]), JObj(shown[i].result)) == Cells(h, Ptr(copies[i - n]), JObj(m))
      ensures i >= n ==> Cells(h, Ptr(all[i]), JObj(shown[i].result)) !! h0.Keys
    {
      if i < n {
        LeftAlone(h0, h, {}, Ptr(answers[i]), JObj(results[i].result));
        CellsIn(h0, Ptr(answers[i]), JObj(results[i].result));
        assert Waits(h0, h0, Cells(h0, Ptr(answers[i]), JObj(results[i].result)), taken);
      } else {
        assert Owned(h0, {}, Cells(h, Ptr(copies[i - n]), JObj(m)));
      }
    }
    forall i, j | 0 <= i < j < |all|
      ensures Cells(h, Ptr(all[i]), JObj(shown[i].result)) !! Cells(h, Ptr(all[j]), JObj(shown[j].result))
    {
    }
  }

  /** One answer for many requests, fanned out and merged into the tree at every path, as if each had been a value of its own. */
  method FanOutAndMerge(mem: GoHeap, source: Ref, answer: Ref, paths: seq<seq<string>>, ghost m: Object, ghost a: Object,
                        ghost results: seq<ExecutionResult>) returns (err: Option<string>)
    requires mem.Valid() && Shows(mem.heap, Ptr(source), JObj(m)) && Shows(mem.heap, Ptr(answer), JObj(a))
    requires |results| == |paths| && forall i :: 0 <= i < |paths| ==> results[i] == ExecutionResult(paths[i], a)
    requires forall i :: 0 <= i < |paths| ==> forall k :: 0 <= k < |paths[i]| ==> LeavesIDs(paths[i][k])
    modifies mem
    ensures mem.Valid()
    ensures err.None? <==> MergeAll(m, results).Ok?
    ensures err.None? ==> Shows(mem.heap, Ptr(source), JObj(MergeAll(m, results).value))
  {
    ghost var h0 := mem.heap;
    var copies := FanOutCopies(mem, answer, |paths|, a);
    CopiesWait(h0, mem.heap, source, m, [], [], copies, a, results);
    assert [] + copies == copies && [] + results == results;
    err := MergeInPlace(mem, source, copies, paths, m, results);
  }

  /** A map that holds one composite value twice is no tree. */
  lemma {:induction false} SharingIsNoTree(h: Heap, r: Ref, m: Object, k: string, l: string)
    requires Shows(h, Ptr(r), JObj(m)) && k in m && l in m && k != l && !IsLeaf(m[k])
    ensures k in h[r].entries && l in h[r].entries && h[r].entries[k] != h[r].entries[l]
  {
    EntryIn(h, r, m, k);
    EntryIn(h, r, m, l);
    ApartFrom(h, r, m, k, l);
    TopCell(h, h[r].entries[k], m[k]);
    TopCell(h, h[r].entries[l], m[l]);
  }

  lemma {:induction false} TopCell(h: Heap, v: Val, j: Json)
    requires Shows(h, v, j)
    ensures if IsLeaf(j) then v.Nil? || v.Text? else (v.Ptr? && v.ref in Cells(h, v, j)) || (v.Slice? && v.arr in Cells(h, v, j))
  {
  }

  /** Two objects that were given the same answer `{friend: {}}`, not copies of it. */
  ghost predicate SameFriend(h: Heap, root: Ref, friend: Ref) {
    && RefAt(h, root, [Pt("a", None), Pt("friend", None)]) == Some(friend)
    && RefAt(h, root, [Pt("b", None), Pt("friend", None)]) == Some(friend)
    && friend in h && h[friend].MapCell?
  }

  method ShareAnswer() returns (mem: GoHeap, root: Ref, a: Ref, b: Ref, friend: Ref)
    ensures fresh(mem) && mem.Valid() && {root, a, b} !! {friend}
    ensures root in mem.heap && mem.heap[root] == MapCell(map["a" := Ptr(a), "b" := Ptr(b)])
    ensures a in mem.heap && b in mem.heap && mem.heap[a] == mem.heap[b] == MapCell(map["friend" := Ptr(friend)])
    ensures friend in mem.heap && mem.heap[friend] == MapCell(map[])
  {
    mem := new GoHeap();
    friend := mem.Alloc(MapCell(map[]));
    var answer := mem.Alloc(MapCell(map["friend" := Ptr(friend)]));
    a := mem.Alloc(MapCell(map[]));
    b := mem.Alloc(MapCell(map[]));
    root := mem.Alloc(MapCell(map["a" := Ptr(a), "b" := Ptr(b)]));
    var shared := mem.heap[answer];
    assert shared == MapCell(map["friend" := Ptr(friend)]);
    assert friend in mem.heap && a in mem.heap && b in mem.heap;
    mem.heap := mem.heap[a := shared];
    mem.heap := mem.heap[b := shared];
  }

  /** Without the copy: merging `{name: "x"}` at the friend of the one object changes the friend of the other. */
  method WithoutCopy() returns (mem: GoHeap, root: Ref, friend: Ref, before: Heap)
    ensures fresh(mem)
    ensures SameFriend(before, root, friend) && before[friend].entries == map[]
    ensures SameFriend(mem.heap, root, friend) && "name" in mem.heap[friend].entries
  {
    var a, b;
    mem, root, a, b, friend := ShareAnswer();
    before := mem.heap;
    FriendKept(before, root, a, b, friend);
    var next := mem.Alloc(MapCell(map["name" := Text("x")]));
    EmptyMapShown(mem.heap, friend);
    NameShown(mem.heap, next);
    ghost var name: Object := map["name" := JScalar("x")];
    MergeResultInPlace(mem, friend, next, map[], name);
    LeafID(mem.heap, friend, MergeInto(map[], name));
    FriendKept(mem.heap, root, a, b, friend);
  }

  lemma {:induction false} NameShown(h: Heap, b: Ref)
    requires b in h && h[b] == MapCell(map["name" := Text("x")])
    ensures Shows(h, Ptr(b), JObj(map["name" := JScalar("x")])) && Cells(h, Ptr(b), JObj(map["name" := JScalar("x")])) == {b}
  {
    var m: Object := map["name" := JScalar("x")];
    assert Cells(h, Text("x"), JScalar("x")) == {};
    assert EntryCells(h, h[b].entries, m) == {};
    assert ShowsEntries(h, h[b].entries, m);
  }

  lemma FriendKept(h: Heap, root: Ref, a: Ref, b: Ref, friend: Ref)
    requires root in h && h[root] == MapCell(map["a" := Ptr(a), "b" := Ptr(b)])
    requires a in h && b in h && h[a] == h[b] == MapCell(map["friend" := Ptr(friend)])
    requires friend in h && h[friend].MapCell?
    ensures SameFriend(h, root, friend)
  {
    var p, q := [Pt("a", None), Pt("friend", None)], [Pt("b", None), Pt("friend", None)];
    assert p[1..] == q[1..] == [Pt("friend", None)] && p[1..][1..] == [];
  }
}
