/** The laws of merging: an overlay that prefers the right side, with list elements matched by id wherever they are. */
module MergeAlgebra {
  import opened Prelude
  import opened Schema
  import opened Json
  import opened MergeMaps

  predicate SameID(l: Json, r: Json) {
    l.JObj? && r.JObj? && ID in l.fields && ID in r.fields && l.fields[ID] == r.fields[ID]
  }

  /** Some element has the id of r. */
  ghost predicate Matches(ls: seq<Json>, r: Json) {
    exists l :: l in ls && SameID(l, r)
  }

  /** The first element with the id of x. */
  function FindLike(rs: seq<Json>, x: Json): (r: Option<Json>)
    ensures r.Some? ==> r.value in rs && SameID(x, r.value)
    ensures r.None? ==> forall y :: y in rs ==> !SameID(x, y)
  {
    if rs == [] then None
    else
      var front, last := rs[..|rs| - 1], rs[|rs| - 1];
      assert rs == front + [last];
      match FindLike(front, x)
      case Some(r) => Some(r)
      case None => if SameID(x, last) then Some(last) else None
  }

  /** What of the right list belongs to a left element: the element with its id, else the one at its position that belongs nowhere else. */
  ghost function Counterpart(ls: seq<Json>, rs: seq<Json>, i: nat): (r: Option<Json>)
    requires i < |ls|
    ensures r.Some? ==> r.value in rs
  {
    match FindLike(rs, ls[i])
    case Some(r) => Some(r)
    case None => if i < |rs| && !Matches(ls, rs[i]) then Some(rs[i]) else None
  }

  /** The right elements that belong to no left element. */
  ghost function Rest(ls: seq<Json>, rs: seq<Json>): seq<Json> {
    if rs == [] then []
    else
      var last := rs[|rs| - 1];
      Rest(ls, rs[..|rs| - 1]) + if |rs| - 1 < |ls| || Matches(ls, last) then [] else [last]
  }

  /**
   * The reference: the keys of both sides, and the left list's order. The right side wins on everything but objects and
   * lists; a right element is overlaid on the left one of its id, else on the one at its position, else it comes last.
   */
  ghost function Overlay(l: Json, r: Json): Json
    decreases r, 1
  {
    match (l, r)
    case (JObj(lm), JObj(rm)) =>
      JObj(map k | k in lm.Keys + rm.Keys ::
             if k !in rm then lm[k] else if k !in lm then rm[k] else Overlay(lm[k], rm[k]))
    case (JList(ls), JList(rs)) => JList(seq(|ls|, i requires 0 <= i < |ls| => OverlaidAt(ls, rs, i)) + Rest(ls, rs))
    case _ => r
  }

  ghost function OverlaidAt(ls: seq<Json>, rs: seq<Json>, i: nat): Json
    requires i < |ls|
    decreases rs, 0
  {
    match Counterpart(ls, rs, i)
    case None => ls[i]
    case Some(r) => assert r in rs; Overlay(ls[i], r)
  }

  ghost function Overlaid(ls: seq<Json>, rs: seq<Json>): seq<Json> {
    seq(|ls|, i requires 0 <= i < |ls| => OverlaidAt(ls, rs, i)) + Rest(ls, rs)
  }

  /** An object whose id, if it has one, is a leaf. */
  predicate IsEntry(v: Json) {
    v.JObj? && (ID in v.fields ==> IsLeaf(v.fields[ID]))
  }

  ghost predicate UniqueIDs(ls: seq<Json>) {
    forall i, j :: 0 <= i < j < |ls| ==> !SameID(ls[i], ls[j])
  }

  /**
   * Lists of objects whose ids are unique on either side; a right element without a match neither takes the place of one
   * that has a match nor overwrites an id.
   */
  ghost predicate Fitting(ls: seq<Json>, rs: seq<Json>) {
    && (forall i :: 0 <= i < |ls| ==> IsEntry(ls[i]))
    && (forall i :: 0 <= i < |rs| ==> IsEntry(rs[i]))
    && UniqueIDs(ls) && UniqueIDs(rs)
    && forall i :: 0 <= i < |ls| && i < |rs| && !Matches(ls, rs[i]) ==>
         FindLike(rs, ls[i]).None? && !(ID in ls[i].fields && ID in rs[i].fields)
  }

  /** Shared lists fit at every depth. */
  ghost predicate Fits(l: Json, r: Json)
    decreases r
  {
    match (l, r)
    case (JObj(lm), JObj(rm)) => forall k :: k in lm && k in rm ==> Fits(lm[k], rm[k])
    case (JList(ls), JList(rs)) => Fitting(ls, rs) && forall i :: 0 <= i < |ls| ==> FitsAt(ls, rs, i)
    case _ => true
  }

  ghost predicate FitsAt(ls: seq<Json>, rs: seq<Json>, i: nat)
    requires i < |ls|
    decreases rs, 0
  {
    match Counterpart(ls, rs, i)
    case None => true
    case Some(r) => assert r in rs; Fits(ls[i], r)
  }

  /** Merging is overlaying. */
  lemma {:induction false} MergeIsOverlay(l: Json, r: Json)
    requires Fits(l, r)
    ensures MergeValue(l, r) == Overlay(l, r)
    decreases r
  {
    match (l, r)
    case (JObj(lm), JObj(rm)) =>
      forall k | k in lm && k in rm
        ensures MergeValue(lm[k], rm[k]) == Overlay(lm[k], rm[k])
      {
        MergeIsOverlay(lm[k], rm[k]);
      }
    case (JList(ls), JList(rs)) =>
      forall i | 0 <= i < |ls|
        ensures MergedAt(ls, rs, i)
      {
        assert FitsAt(ls, rs, i);
        var r := Counterpart(ls, rs, i);
        if r.Some? {
          assert r.value in rs;
          MergeIsOverlay(ls[i], r.value);
        }
      }
      SlicesAreOverlay(ls, rs, |rs|);
      assert rs[..|rs|] == rs;
    case _ =>
  }

  ghost predicate MergedAt(ls: seq<Json>, rs: seq<Json>, i: nat)
    requires i < |ls|
  {
    var r := Counterpart(ls, rs, i);
    r.Some? ==> MergeValue(ls[i], r.value) == Overlay(ls[i], r.value)
  }

  lemma {:induction false} SlicesAreOverlay(ls: seq<Json>, rs: seq<Json>, n: nat)
    requires Fitting(ls, rs) && n <= |rs| && forall i :: 0 <= i < |ls| ==> MergedAt(ls, rs, i)
    ensures MergeSlices(ls, rs[..n]) == Overlaid(ls, rs[..n])
  {
    if n == 0 {
      assert rs[..0] == [];
      assert Overlaid(ls, []) == ls;
    } else {
      SlicesAreOverlay(ls, rs, n - 1);
      assert rs[..n][..n - 1] == rs[..n - 1];
      SliceStep(ls, rs, n - 1);
    }
  }

  lemma {:induction false} SliceStep(ls: seq<Json>, rs: seq<Json>, n: nat)
    requires Fitting(ls, rs) && n < |rs| && forall i :: 0 <= i < |ls| ==> MergedAt(ls, rs, i)
    ensures OneMore(Overlaid(ls, rs[..n]), rs[n], n) == Overlaid(ls, rs[..n + 1])
  {
    if Matches(ls, rs[n]) {
      var l :| l in ls && SameID(l, rs[n]);
      var i :| 0 <= i < |ls| && ls[i] == l;
      InPlace(ls, rs, n, i);
    } else if n < |ls| {
      InPlace(ls, rs, n, n);
    } else {
      AtEnd(ls, rs, n);
    }
  }

  lemma {:induction false} RestSize(ls: seq<Json>, rs: seq<Json>)
    ensures |Rest(ls, rs)| <= if |rs| < |ls| then 0 else |rs| - |ls|
    ensures forall r :: r in Rest(ls, rs) ==> r in rs && !Matches(ls, r)
  {
    if rs != [] {
      RestSize(ls, rs[..|rs| - 1]);
      InSnoc(rs);
    }
  }

  /** What more of the right list adds to the counterpart of a left element. */
  lemma {:induction false} FindMore(rs: seq<Json>, n: nat, x: Json)
    requires n < |rs|
    ensures FindLike(rs[..n + 1], x) == if FindLike(rs[..n], x).Some? then FindLike(rs[..n], x) else if SameID(x, rs[n]) then Some(rs[n]) else None
  {
    assert rs[..n + 1][..n] == rs[..n];
  }

  lemma {:induction false} RestMore(ls: seq<Json>, rs: seq<Json>, n: nat)
    requires n < |rs|
    ensures Rest(ls, rs[..n + 1]) == Rest(ls, rs[..n]) + if n < |ls| || Matches(ls, rs[n]) then [] else [rs[n]]
  {
    assert rs[..n + 1][..n] == rs[..n];
  }

  lemma {:induction false} InPrefix(rs: seq<Json>, n: nat, x: Json)
    requires n <= |rs|
    ensures FindLike(rs[..n], x).Some? ==> FindLike(rs, x) == FindLike(rs[..n], x)
    decreases |rs| - n
  {
    if n < |rs| {
      FindMore(rs, n, x);
      InPrefix(rs, n + 1, x);
    } else {
      assert rs[..n] == rs;
    }
  }

  lemma PrefixCounterpart(ls: seq<Json>, rs: seq<Json>, n: nat, i: nat)
    requires n < |rs| && i < |ls|
    ensures Counterpart(ls, rs[..n + 1], i) ==
            if FindLike(rs[..n], ls[i]).Some? then FindLike(rs[..n], ls[i])
            else if SameID(ls[i], rs[n]) then Some(rs[n])
            else if i <= n && !Matches(ls, rs[i]) then Some(rs[i])
            else None
  {
    FindMore(rs, n, ls[i]);
  }

  predicate HasThisID(v: Json, id: Json) {
    v.JObj? && ID in v.fields && v.fields[ID] == id
  }

  lemma {:induction false} OverlaidID(l: Json, r: Json)
    requires IsEntry(l) && IsEntry(r)
    ensures IsEntry(Overlay(l, r))
    ensures forall id :: HasThisID(Overlay(l, r), id) <==> if ID in r.fields then HasThisID(r, id) else HasThisID(l, id)
  {
  }

  /** An id of the merged list is one of either list. */
  lemma {:induction false} WhoHas(ls: seq<Json>, rs: seq<Json>, n: nat, q: nat, id: Json)
    requires Fitting(ls, rs) && n <= |rs| && q < |Overlaid(ls, rs[..n])| && HasThisID(Overlaid(ls, rs[..n])[q], id)
    ensures (q < |ls| && ls[q] in ls && HasThisID(ls[q], id)) || exists r :: r in rs[..n] && HasThisID(r, id)
  {
    if q < |ls| {
      var r := Counterpart(ls, rs[..n], q);
      if r.Some? {
        OverlaidID(ls[q], r.value);
        if !HasThisID(ls[q], id) {
          assert HasThisID(r.value, id);
        }
      }
    } else {
      var r := Rest(ls, rs[..n])[q - |ls|];
      RestSize(ls, rs[..n]);
      assert r in Rest(ls, rs[..n]);
    }
  }

  /** Where the n-th right element goes is not where an earlier one went. */
  lemma {:induction false} Untaken(ls: seq<Json>, rs: seq<Json>, n: nat, i: nat)
    requires Fitting(ls, rs) && n < |rs| && i < |ls|
    requires Belongs(ls, rs, n, i)
    ensures OverlaidAt(ls, rs[..n], i) == ls[i]
  {
    InPrefix(rs, n, ls[i]);
    Newcomer(rs, n);
    assert FindLike(rs[..n], ls[i]).None?;
    if Matches(ls, rs[n]) {
      TakesIt(ls, rs, n, i);
    }
  }

  /** Where the n-th right element belongs. */
  ghost predicate Belongs(ls: seq<Json>, rs: seq<Json>, n: nat, i: nat)
    requires n < |rs|
  {
    i < |ls| && if Matches(ls, rs[n]) then SameID(ls[i], rs[n]) else i == n
  }

  lemma {:induction false} Elsewhere(ls: seq<Json>, rs: seq<Json>, n: nat, q: nat)
    requires Fitting(ls, rs) && n < |rs| && q < |ls| && !Belongs(ls, rs, n, q)
    ensures OverlaidAt(ls, rs[..n + 1], q) == OverlaidAt(ls, rs[..n], q)
  {
    PrefixCounterpart(ls, rs, n, q);
    assert ls[q] in ls;
    assert q < n ==> rs[..n][q] == rs[q];
  }

  lemma {:induction false} Here(ls: seq<Json>, rs: seq<Json>, n: nat, i: nat)
    requires Fitting(ls, rs) && n < |rs| && Belongs(ls, rs, n, i)
    ensures OverlaidAt(ls, rs[..n + 1], i) == Overlay(ls[i], rs[n])
  {
    PrefixCounterpart(ls, rs, n, i);
    assert ls[i] in ls;
    if FindLike(rs[..n], ls[i]).Some? {
      InPrefix(rs, n, ls[i]);
    }
    if Matches(ls, rs[n]) {
      TakesIt(ls, rs, n, i);
    }
  }

  lemma {:induction false} Placed(ls: seq<Json>, rs: seq<Json>, n: nat, i: nat)
    requires Fitting(ls, rs) && n < |rs| && Belongs(ls, rs, n, i)
    ensures Overlaid(ls, rs[..n + 1]) == Overlaid(ls, rs[..n])[i := Overlay(ls[i], rs[n])]
  {
    RestMore(ls, rs, n);
    forall q | 0 <= q < |ls|
      ensures OverlaidAt(ls, rs[..n + 1], q) == if q == i then Overlay(ls[i], rs[n]) else OverlaidAt(ls, rs[..n], q)
    {
      if q == i {
        Here(ls, rs, n, i);
      } else {
        OnePlace(ls, rs, n, i, q);
        Elsewhere(ls, rs, n, q);
      }
    }
  }

  lemma OnePlace(ls: seq<Json>, rs: seq<Json>, n: nat, i: nat, q: nat)
    requires UniqueIDs(ls) && n < |rs| && Belongs(ls, rs, n, i) && q < |ls| && q != i
    ensures !Belongs(ls, rs, n, q)
  {
    if q < i {
      assert !SameID(ls[q], ls[i]);
    } else if i < q {
      assert !SameID(ls[i], ls[q]);
    }
  }

  lemma {:induction false} Hit(ls: seq<Json>, rs: seq<Json>, n: nat, i: nat)
    requires Fitting(ls, rs) && n < |rs| && Belongs(ls, rs, n, i)
    ensures Target(Overlaid(ls, rs[..n]), rs[n], n) == i
  {
    var before := Overlaid(ls, rs[..n]);
    if Matches(ls, rs[n]) {
      var id := rs[n].fields[ID];
      Untaken(ls, rs, n, i);
      assert before[i] == ls[i];
      var p := LeftPosition(before, id);
      if p < i {
        WhoHas(ls, rs, n, p, id);
        assert !SameID(ls[p], ls[i]);
        Newcomer(rs, n);
        assert false;
      }
    } else if ID in rs[n].fields {
      Unseen(ls, rs, n);
    }
  }

  lemma {:induction false} InPlace(ls: seq<Json>, rs: seq<Json>, n: nat, i: nat)
    requires Fitting(ls, rs) && n < |rs| && Belongs(ls, rs, n, i) && MergedAt(ls, rs, i)
    ensures OneMore(Overlaid(ls, rs[..n]), rs[n], n) == Overlaid(ls, rs[..n + 1])
  {
    Hit(ls, rs, n, i);
    Untaken(ls, rs, n, i);
    assert Overlaid(ls, rs[..n])[i] == ls[i];
    MergedHere(ls, rs, n, i);
    Placed(ls, rs, n, i);
  }

  /** No earlier right element has the id of the n-th. */
  lemma Newcomer(rs: seq<Json>, n: nat)
    requires UniqueIDs(rs) && n < |rs|
    ensures forall r :: r in rs[..n] ==> !SameID(r, rs[n])
  {
  }

  lemma {:induction false} TakesIt(ls: seq<Json>, rs: seq<Json>, n: nat, i: nat)
    requires Fitting(ls, rs) && n < |rs| && i < |ls| && SameID(ls[i], rs[n])
    ensures FindLike(rs[..n], ls[i]).None? && FindLike(rs, ls[i]) == Some(rs[n])
  {
    Newcomer(rs, n);
    FindMore(rs, n, ls[i]);
    InPrefix(rs, n + 1, ls[i]);
  }

  lemma {:induction false} MergedHere(ls: seq<Json>, rs: seq<Json>, n: nat, i: nat)
    requires Fitting(ls, rs) && n < |rs| && i < |ls| && MergedAt(ls, rs, i)
    requires Belongs(ls, rs, n, i)
    ensures JObj(Merge(ls[i].fields, rs[n].fields)) == Overlay(ls[i], rs[n])
  {
    if Matches(ls, rs[n]) {
      TakesIt(ls, rs, n, i);
    }
    assert Counterpart(ls, rs, i) == Some(rs[n]);
    assert MergeValue(ls[i], rs[n]) == JObj(Merge(ls[i].fields, rs[n].fields));
  }

  lemma {:induction false} Unseen(ls: seq<Json>, rs: seq<Json>, n: nat)
    requires Fitting(ls, rs) && n < |rs| && !Matches(ls, rs[n]) && ID in rs[n].fields
    ensures var before := Overlaid(ls, rs[..n]); LeftPosition(before, rs[n].fields[ID]) == |before|
  {
    var before, id := Overlaid(ls, rs[..n]), rs[n].fields[ID];
    var p := LeftPosition(before, id);
    if p < |before| {
      WhoHas(ls, rs, n, p, id);
      Newcomer(rs, n);
      assert false;
    }
  }

  lemma {:induction false} Appended(ls: seq<Json>, rs: seq<Json>, n: nat)
    requires Fitting(ls, rs) && |ls| <= n < |rs| && !Matches(ls, rs[n])
    ensures Overlaid(ls, rs[..n + 1]) == Overlaid(ls, rs[..n]) + [rs[n]]
  {
    RestMore(ls, rs, n);
    forall q | 0 <= q < |ls|
      ensures OverlaidAt(ls, rs[..n + 1], q) == OverlaidAt(ls, rs[..n], q)
    {
      assert ls[q] in ls;
      Elsewhere(ls, rs, n, q);
    }
  }

  lemma {:induction false} AtEnd(ls: seq<Json>, rs: seq<Json>, n: nat)
    requires Fitting(ls, rs) && |ls| <= n < |rs| && !Matches(ls, rs[n])
    ensures OneMore(Overlaid(ls, rs[..n]), rs[n], n) == Overlaid(ls, rs[..n + 1])
  {
    RestSize(ls, rs[..n]);
    if ID in rs[n].fields {
      Unseen(ls, rs, n);
    }
    Appended(ls, rs, n);
  }

  /**
   * Merging a result into the object it belongs to: no key of either is lost, an object is overlaid on an object, and in
   * every other case the result wins.
   */
  lemma {:induction false} ResultWins(target: Object, result: Object)
    requires forall k :: k in target && k in result && target[k].JObj? && result[k].JObj? ==> Fits(target[k], result[k])
    ensures var m := MergeInto(target, result);
            && m.Keys == target.Keys + result.Keys
            && (forall k :: k in target && k !in result ==> m[k] == target[k])
            && forall k :: k in result ==>
                 m[k] == if k in target && target[k].JObj? && result[k].JObj? then Overlay(target[k], result[k]) else result[k]
  {
    forall k | k in target && k in result && target[k].JObj? && result[k].JObj?
      ensures MergeInto(target, result)[k] == Overlay(target[k], result[k])
    {
      MergeIsOverlay(target[k], result[k]);
    }
  }
}
