/** When merging something with itself changes nothing: never for a list that holds anything but objects. */
module SelfMerge {
  import opened Prelude
  import opened Schema
  import opened Json
  import opened MergeMaps
  import opened MergeAlgebra

  predicate AllObjects(ls: seq<Json>) {
    forall v :: v in ls ==> v.JObj?
  }

  /** Ids, where there are any, are leaves. */
  predicate LeafIDs(ls: seq<Json>) {
    forall v :: v in ls && v.JObj? ==> IsEntry(v)
  }

  /** The position of the entity that the n-th element is about: the first with its id, or its own. */
  function Home(ls: seq<Json>, n: nat): nat
    requires n < |ls| && ls[n].JObj?
  {
    if ID in ls[n].fields then LeftPosition(ls, ls[n].fields[ID]) else n
  }

  /** An element into which those of the first n that are about the same entity have been merged. */
  function Collected(ls: seq<Json>, p: nat, n: nat): Json
    requires AllObjects(ls) && p < |ls| && n <= |ls|
  {
    if n == 0 then ls[p]
    else if Home(ls, n - 1) == p then MergeValue(Collected(ls, p, n - 1), ls[n - 1])
    else Collected(ls, p, n - 1)
  }

  lemma {:induction false} MergedID(l: Json, r: Json)
    requires IsEntry(l) && IsEntry(r) && (ID in r.fields ==> SameID(l, r))
    ensures IsEntry(MergeValue(l, r)) && forall id :: HasThisID(MergeValue(l, r), id) <==> HasThisID(l, id)
  {
    var m := Merge(l.fields, r.fields);
    assert MergeValue(l, r) == JObj(m);
    if ID in r.fields {
      assert m[ID] == MergeValue(l.fields[ID], r.fields[ID]) == r.fields[ID];
    }
  }

  lemma {:induction false} CollectedID(ls: seq<Json>, p: nat, n: nat)
    requires AllObjects(ls) && LeafIDs(ls) && p < |ls| && n <= |ls|
    ensures IsEntry(Collected(ls, p, n)) && forall id :: HasThisID(Collected(ls, p, n), id) <==> HasThisID(ls[p], id)
  {
    assert ls[p] in ls;
    if n > 0 {
      CollectedID(ls, p, n - 1);
      assert ls[n - 1] in ls;
      if Home(ls, n - 1) == p {
        var before, r := Collected(ls, p, n - 1), ls[n - 1];
        if ID in r.fields {
          assert HasThisID(ls[p], r.fields[ID]);
        }
        MergedID(before, r);
      }
    }
  }

  /** The list after its first n elements have been merged into it. */
  function Half(ls: seq<Json>, n: nat): seq<Json>
    requires AllObjects(ls) && n <= |ls|
  {
    seq(|ls|, p requires 0 <= p < |ls| => Collected(ls, p, n))
  }

  /** The same ids at the same positions. */
  ghost predicate SameIDs(a: seq<Json>, b: seq<Json>) {
    |a| == |b| && forall p, id :: 0 <= p < |a| ==> (HasThisID(a[p], id) <==> HasThisID(b[p], id))
  }

  lemma {:induction false} SamePosition(a: seq<Json>, b: seq<Json>, id: Json)
    requires SameIDs(a, b)
    ensures LeftPosition(a, id) == LeftPosition(b, id)
  {
    var i, j := LeftPosition(a, id), LeftPosition(b, id);
    if i < j {
      assert HasThisID(a[i], id);
    } else if j < i {
      assert HasThisID(b[j], id);
    }
  }

  lemma {:induction false} HalfTarget(ls: seq<Json>, n: nat)
    requires AllObjects(ls) && LeafIDs(ls) && n < |ls|
    ensures Target(Half(ls, n), ls[n], n) == Home(ls, n) < |ls|
  {
    forall p, id | 0 <= p < |ls|
      ensures HasThisID(Half(ls, n)[p], id) <==> HasThisID(ls[p], id)
    {
      CollectedID(ls, p, n);
    }
    assert ls[n] in ls;
    if ID in ls[n].fields {
      SamePosition(Half(ls, n), ls, ls[n].fields[ID]);
      assert HasThisID(ls[n], ls[n].fields[ID]);
    }
  }

  lemma {:induction false} SlicesCollect(ls: seq<Json>, n: nat)
    requires AllObjects(ls) && LeafIDs(ls) && n <= |ls|
    ensures MergeSlices(ls, ls[..n]) == Half(ls, n)
  {
    if n == 0 {
      assert Half(ls, 0) == ls;
    } else {
      SlicesCollect(ls, n - 1);
      assert ls[..n][..n - 1] == ls[..n - 1];
      HalfTarget(ls, n - 1);
      HalfNext(ls, n - 1);
      assert MergeSlices(ls, ls[..n]) == OneMore(Half(ls, n - 1), ls[n - 1], n - 1);
    }
  }

  lemma {:induction false} HalfNext(ls: seq<Json>, n: nat)
    requires AllObjects(ls) && LeafIDs(ls) && n < |ls| && Home(ls, n) < |ls|
    ensures var p := Home(ls, n);
            && Half(ls, n)[p].JObj?
            && Half(ls, n + 1) == Half(ls, n)[p := JObj(Merge(Half(ls, n)[p].fields, ls[n].fields))]
  {
    CollectedID(ls, Home(ls, n), n);
    assert MergeValue(Collected(ls, Home(ls, n), n), ls[n]) == JObj(Merge(Collected(ls, Home(ls, n), n).fields, ls[n].fields));
  }

  /** Whatever is no object is appended, and nothing ever shortens the list. */
  lemma {:induction false} SlicesGrow(ls: seq<Json>, rs: seq<Json>)
    ensures |MergeSlices(ls, rs)| >= |ls|
    ensures !AllObjects(rs) ==> |MergeSlices(ls, rs)| > |ls|
  {
    if rs != [] {
      SlicesGrow(ls, rs[..|rs| - 1]);
      InSnoc(rs);
    }
  }

  /**
   * Merging a list with itself changes nothing exactly when it holds objects only and each element already has all that
   * the elements about the same entity have.
   */
  lemma {:induction false} SelfSlices(ls: seq<Json>)
    requires LeafIDs(ls)
    ensures MergeSlices(ls, ls) == ls <==> AllObjects(ls) && forall p :: 0 <= p < |ls| ==> Collected(ls, p, |ls|) == ls[p]
  {
    SlicesGrow(ls, ls);
    if AllObjects(ls) {
      SlicesCollect(ls, |ls|);
      assert ls[..|ls|] == ls;
      var after := Half(ls, |ls|);
      assert after == ls <==> forall p :: 0 <= p < |ls| ==> after[p] == ls[p];
    }
  }

  /** Objects that hold leaves only. */
  predicate FlatObjects(ls: seq<Json>) {
    forall v :: v in ls ==> v.JObj? && forall k :: k in v.fields ==> IsLeaf(v.fields[k])
  }

  /** The last of the first n elements about the entity at p that has a key; the element at p when there is none. */
  function LastWith(ls: seq<Json>, p: nat, k: string, n: nat): (last: nat)
    requires AllObjects(ls) && p < |ls| && n <= |ls|
    ensures last < |ls| && (last == p || k in ls[last].fields)
  {
    if n == 0 then p
    else if Home(ls, n - 1) == p && k in ls[n - 1].fields then n - 1
    else LastWith(ls, p, k, n - 1)
  }

  /** The element at p has what the last element about its entity with the key has. */
  predicate Agrees(ls: seq<Json>, p: nat, k: string)
    requires AllObjects(ls) && p < |ls|
  {
    var last := LastWith(ls, p, k, |ls|);
    k in ls[last].fields ==> k in ls[p].fields && ls[p].fields[k] == ls[last].fields[k]
  }

  lemma {:induction false} FlatCollected(ls: seq<Json>, p: nat, n: nat, k: string)
    requires AllObjects(ls) && FlatObjects(ls) && p < |ls| && n <= |ls|
    ensures var c, last := Collected(ls, p, n), LastWith(ls, p, k, n);
            c.JObj? && (k in c.fields <==> k in ls[last].fields) && (k in c.fields ==> c.fields[k] == ls[last].fields[k])
  {
    assert ls[p] in ls;
    if n > 0 {
      FlatCollected(ls, p, n - 1, k);
      assert ls[n - 1] in ls;
      if Home(ls, n - 1) == p {
        assert Collected(ls, p, n) == JObj(Merge(Collected(ls, p, n - 1).fields, ls[n - 1].fields));
      }
    }
  }

  /**
   * With repeated ids, on objects of leaves, a condition on the elements alone: the first element about an entity has, for
   * every key, what the last element about it with that key has.
   */
  lemma {:induction false} FlatSlices(ls: seq<Json>)
    requires FlatObjects(ls)
    ensures MergeSlices(ls, ls) == ls <==> forall p, k :: 0 <= p < |ls| ==> Agrees(ls, p, k)
  {
    SelfSlices(ls);
    forall p: nat | p < |ls|
      ensures Collected(ls, p, |ls|) == ls[p] <==> forall k :: Agrees(ls, p, k)
    {
      FlatElement(ls, p);
    }
  }

  lemma {:induction false} FlatElement(ls: seq<Json>, p: nat)
    requires AllObjects(ls) && FlatObjects(ls) && p < |ls|
    ensures Collected(ls, p, |ls|) == ls[p] <==> forall k :: Agrees(ls, p, k)
  {
    var c := Collected(ls, p, |ls|);
    forall k
      ensures c.JObj? && (Agrees(ls, p, k) <==> (k in c.fields ==> k in ls[p].fields && ls[p].fields[k] == c.fields[k]))
      ensures k in ls[p].fields ==> k in c.fields
    {
      FlatCollected(ls, p, |ls|, k);
      assert ls[LastWith(ls, p, k, |ls|)] in ls;
    }
  }

  /** No list, at any depth, has two elements with the same id. */
  ghost predicate UniqueBelow(v: Json)
    decreases v
  {
    match v
    case JObj(m) => forall k :: k in m ==> UniqueBelow(m[k])
    case JList(ls) => LeafIDs(ls) && UniqueIDs(ls) && forall i :: 0 <= i < |ls| ==> UniqueBelow(ls[i])
    case _ => true
  }

  /** Every list, at every depth, holds objects only. */
  ghost predicate ObjectLists(v: Json)
    decreases v
  {
    match v
    case JObj(m) => forall k :: k in m ==> ObjectLists(m[k])
    case JList(ls) => forall i :: 0 <= i < |ls| ==> ls[i].JObj? && ObjectLists(ls[i])
    case _ => true
  }

  lemma {:induction false} OwnHome(ls: seq<Json>, n: nat)
    requires UniqueIDs(ls) && n < |ls| && ls[n].JObj?
    ensures Home(ls, n) == n
  {
  }

  lemma {:induction false} CollectedOnce(ls: seq<Json>, p: nat, n: nat)
    requires AllObjects(ls) && UniqueIDs(ls) && p < |ls| && n <= |ls|
    ensures Collected(ls, p, n) == if p < n then MergeValue(ls[p], ls[p]) else ls[p]
  {
    if n > 0 {
      CollectedOnce(ls, p, n - 1);
      OwnHome(ls, n - 1);
    }
  }

  /** Where ids are unique, merging with itself changes nothing exactly when every list holds objects only. */
  lemma {:induction false} SelfMergeExact(v: Json)
    requires UniqueBelow(v)
    ensures MergeValue(v, v) == v <==> ObjectLists(v)
    decreases v
  {
    match v
    case JObj(m) =>
      forall k | k in m
        ensures MergeValue(m[k], m[k]) == m[k] <==> ObjectLists(m[k])
      {
        SelfMergeExact(m[k]);
      }
      var after := Merge(m, m);
      assert after == m <==> forall k :: k in m ==> after[k] == m[k];
    case JList(ls) =>
      SelfSlices(ls);
      assert AllObjects(ls) <==> forall i :: 0 <= i < |ls| ==> ls[i].JObj?;
      forall i | 0 <= i < |ls|
        ensures AllObjects(ls) ==> (Collected(ls, i, |ls|) == ls[i] <==> ObjectLists(ls[i]))
      {
        if AllObjects(ls) {
          CollectedOnce(ls, i, |ls|);
        }
        SelfMergeExact(ls[i]);
      }
    case _ =>
  }
}
