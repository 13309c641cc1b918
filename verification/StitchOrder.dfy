/** Stitching is order independent: results that stay out of each other's way may be merged in any order. */
module StitchOrder {
  import opened Prelude
  import opened Json
  import opened MergeMaps
  import opened Stitching
  import opened DepthExecutor
  import opened Scheduler

  /** A result merged into the object at an address. */
  function Put(source: Object, at: seq<Pt>, result: Object): Object
    requires Reach(source, at).Some?
  {
    WithAt(source, at, MergeInto(Reach(source, at).value, result))
  }

  /** Two results that do not get in each other's way. */
  ghost predicate Separate(at: seq<Pt>, a: Object, bt: seq<Pt>, b: Object) {
    && (at == bt ==> a.Keys !! b.Keys)
    && (at < bt ==> bt[|at|].key !in a)
    && (bt < at ==> at[|bt|].key !in b)
  }

  lemma SeparateBelow(at: seq<Pt>, a: Object, bt: seq<Pt>, b: Object)
    requires at != [] && bt != [] && at[0] == bt[0] && Separate(at, a, bt, b)
    ensures Separate(at[1..], a, bt[1..], b)
  {
    assert at == [at[0]] + at[1..] && bt == [bt[0]] + bt[1..];
    assert at[1..] < bt[1..] ==> at < bt;
    assert bt[1..] < at[1..] ==> bt < at;
  }

  lemma ChildOfWithChild(obj: Object, pt: Pt, child: Object, other: Pt)
    requires Child(obj, pt).Some?
    ensures Child(WithChild(obj, pt, child), other) == if other == pt then Some(child) else Child(obj, other)
  {
    if pt.index.Some? && other.index.Some? && pt.key == other.key {
      var items, i := obj[pt.key].items, pt.index.value;
      assert forall j :: 0 <= j < |items| && j != i ==> items[i := JObj(child)][j] == items[j];
    }
  }

  lemma WithChildrenCommute(obj: Object, p: Pt, x: Object, q: Pt, y: Object)
    requires Child(obj, p).Some? && Child(obj, q).Some? && p != q
    ensures Child(WithChild(obj, p, x), q).Some? && Child(WithChild(obj, q, y), p).Some?
    ensures WithChild(WithChild(obj, p, x), q, y) == WithChild(WithChild(obj, q, y), p, x)
  {
    ChildOfWithChild(obj, p, x, q);
    ChildOfWithChild(obj, q, y, p);
    if p.key == q.key {
      var items := obj[p.key].items;
      assert items[p.index.value := JObj(x)][q.index.value := JObj(y)] == items[q.index.value := JObj(y)][p.index.value := JObj(x)];
    }
  }

  /** Merging into an object leaves the child at a key that is not written. */
  lemma ChildOfMerged(obj: Object, a: Object, pt: Pt)
    requires pt.key !in a
    ensures Child(MergeInto(obj, a), pt) == Child(obj, pt)
    ensures forall child :: Child(obj, pt).Some? ==> MergeInto(WithChild(obj, pt, child), a) == WithChild(MergeInto(obj, a), pt, child)
  {
    forall child | Child(obj, pt).Some?
      ensures MergeInto(WithChild(obj, pt, child), a) == WithChild(MergeInto(obj, a), pt, child)
    {
      assert MergeInto(obj, a)[pt.key] == obj[pt.key];
    }
  }

  /** What the other result is merged into is still there. */
  lemma {:induction false} StillThere(source: Object, at: seq<Pt>, a: Object, bt: seq<Pt>, b: Object)
    requires Reach(source, at).Some? && Reach(source, bt).Some? && Separate(at, a, bt, b)
    ensures Reach(Put(source, at, a), bt).Some?
    decreases |at|
  {
    if at != [] && bt != [] {
      var child := Child(source, at[0]).value;
      ChildOfWithChild(source, at[0], Put(child, at[1..], a), bt[0]);
      if at[0] == bt[0] {
        SeparateBelow(at, a, bt, b);
        StillThere(child, at[1..], a, bt[1..], b);
      }
    } else if bt != [] {
      assert at < bt;
      ChildOfMerged(source, a, bt[0]);
    }
  }

  lemma {:induction false} PutsCommute(source: Object, at: seq<Pt>, a: Object, bt: seq<Pt>, b: Object)
    requires Reach(source, at).Some? && Reach(source, bt).Some? && Separate(at, a, bt, b)
    ensures Reach(Put(source, at, a), bt).Some? && Reach(Put(source, bt, b), at).Some?
    ensures Put(Put(source, at, a), bt, b) == Put(Put(source, bt, b), at, a)
    decreases |at| + |bt|
  {
    StillThere(source, at, a, bt, b);
    StillThere(source, bt, b, at, a);
    if at == [] && bt == [] {
      assert MergeInto(MergeInto(source, a), b) == MergeInto(MergeInto(source, b), a);
    } else if at == [] {
      HereAndBelow(source, a, bt, b);
    } else if bt == [] {
      HereAndBelow(source, b, at, a);
    } else if at[0] == bt[0] {
      var pt, child := at[0], Child(source, at[0]).value;
      SeparateBelow(at, a, bt, b);
      PutsCommute(child, at[1..], a, bt[1..], b);
      SameChild(source, at, a, bt, b);
      SameChild(source, bt, b, at, a);
    } else {
      ApartChildren(source, at, a, bt, b);
    }
  }

  /** Two results below different children. */
  lemma {:induction false} ApartChildren(source: Object, at: seq<Pt>, a: Object, bt: seq<Pt>, b: Object)
    requires at != [] && bt != [] && at[0] != bt[0] && Reach(source, at).Some? && Reach(source, bt).Some?
    requires Reach(Put(source, at, a), bt).Some? && Reach(Put(source, bt, b), at).Some?
    ensures Put(Put(source, at, a), bt, b) == Put(Put(source, bt, b), at, a)
  {
    var x, y := Put(Child(source, at[0]).value, at[1..], a), Put(Child(source, bt[0]).value, bt[1..], b);
    ChildOfWithChild(source, at[0], x, bt[0]);
    ChildOfWithChild(source, bt[0], y, at[0]);
    WithChildrenCommute(source, at[0], x, bt[0], y);
  }

  lemma {:induction false} HereAndBelow(source: Object, a: Object, bt: seq<Pt>, b: Object)
    requires bt != [] && Reach(source, bt).Some? && bt[0].key !in a
    ensures Reach(MergeInto(source, a), bt).Some?
    ensures Put(Put(source, [], a), bt, b) == Put(Put(source, bt, b), [], a)
  {
    ChildOfMerged(source, a, bt[0]);
  }

  /** Two results below the same child. */
  lemma {:induction false} SameChild(source: Object, at: seq<Pt>, a: Object, bt: seq<Pt>, b: Object)
    requires at != [] && bt != [] && at[0] == bt[0] && Reach(source, at).Some? && Reach(source, bt).Some?
    requires Reach(Put(Child(source, at[0]).value, at[1..], a), bt[1..]).Some?
    requires Reach(Put(source, at, a), bt).Some?
    ensures Put(Put(source, at, a), bt, b)
            == WithChild(source, at[0], Put(Put(Child(source, at[0]).value, at[1..], a), bt[1..], b))
  {
    var child := Child(source, at[0]).value;
    var x := Put(child, at[1..], a);
    ChildOfWithChild(source, at[0], x, bt[0]);
    WithChildTwice(source, at[0], x, Put(x, bt[1..], b));
  }

  /** A result with the address its insertion point denotes. */
  datatype Piece = Piece(result: ExecutionResult, at: seq<Pt>)

  ghost predicate Fits(source: Object, pieces: seq<Piece>) {
    && (forall i :: 0 <= i < |pieces| ==> Denotes(pieces[i].result.ip, pieces[i].at) && Reach(source, pieces[i].at).Some?)
    && (forall i, j :: 0 <= i < |pieces| && 0 <= j < |pieces| && i != j ==>
          Separate(pieces[i].at, pieces[i].result.result, pieces[j].at, pieces[j].result.result))
  }

  function Results(pieces: seq<Piece>): (results: seq<ExecutionResult>)
    ensures |results| == |pieces|
  {
    seq(|pieces|, i requires 0 <= i < |pieces| => pieces[i].result)
  }

  lemma {:induction false} StitchIsPut(source: Object, piece: Piece)
    requires Denotes(piece.result.ip, piece.at) && Reach(source, piece.at).Some?
    ensures Stitch(source, piece.result.ip, piece.result.result) == Ok(Put(source, piece.at, piece.result.result))
  {
    ReachesWhatIsThere(source, piece.result.ip, piece.at);
  }

  /** Separate results can all be stitched, and what another result goes to stays there. */
  lemma {:induction false} AllStitched(source: Object, pieces: seq<Piece>, n: nat)
    requires Fits(source, pieces) && n <= |pieces|
    ensures MergeAll(source, Results(pieces)[..n]).Ok?
    ensures forall i :: n <= i < |pieces| ==> Reach(MergeAll(source, Results(pieces)[..n]).value, pieces[i].at).Some?
  {
    var results := Results(pieces);
    if n > 0 {
      AllStitched(source, pieces, n - 1);
      MergeAllNext(source, results, n - 1);
      var before := MergeAll(source, results[..n - 1]).value;
      StitchIsPut(before, pieces[n - 1]);
      forall i | n <= i < |pieces|
        ensures Reach(MergeAll(source, results[..n]).value, pieces[i].at).Some?
      {
        StillThere(before, pieces[n - 1].at, pieces[n - 1].result.result, pieces[i].at, pieces[i].result.result);
      }
    }
  }

  lemma {:induction false} MergeSnoc(source: Object, pieces: seq<Piece>, last: Piece)
    requires Fits(source, pieces + [last])
    ensures Fits(source, pieces)
    ensures MergeAll(source, Results(pieces)).Ok? && MergeAll(source, Results(pieces + [last])).Ok?
    ensures var before := MergeAll(source, Results(pieces)).value;
            && Reach(before, last.at).Some?
            && MergeAll(source, Results(pieces + [last])).value == Put(before, last.at, last.result.result)
  {
    var all, n := pieces + [last], |pieces|;
    assert forall i :: 0 <= i < n ==> pieces[i] == all[i];
    AllStitched(source, all, n);
    ResultsFront(pieces, last);
    MergeAllSnoc(source, Results(pieces), last.result);
    StitchIsPut(MergeAll(source, Results(pieces)).value, all[n]);
  }

  lemma ResultsFront(pieces: seq<Piece>, last: Piece)
    ensures Results(pieces + [last])[..|pieces|] == Results(pieces)
    ensures Results(pieces + [last]) == Results(pieces) + [last.result]
  {
  }

  lemma FitsPermuted(source: Object, a: seq<Piece>, k: nat)
    requires Fits(source, a) && k < |a|
    ensures Fits(source, Without(a, k)) && Fits(source, Without(a, k) + [a[k]])
  {
    var b := Without(a, k) + [a[k]];
    forall i | 0 <= i < |b|
      ensures b[i] == a[if i < k then i else if i < |a| - 1 then i + 1 else k]
    {
    }
    assert Fits(source, b);
    assert Without(a, k) == b[..|b| - 1];
    FitsFront(source, b);
  }

  lemma {:induction false} SameSnoc(source: Object, p: seq<Piece>, q: seq<Piece>, last: Piece)
    requires MergeAll(source, Results(p)) == MergeAll(source, Results(q))
    ensures MergeAll(source, Results(p + [last])) == MergeAll(source, Results(q + [last]))
  {
    ResultsFront(p, last);
    ResultsFront(q, last);
    MergeAllSnoc(source, Results(p), last.result);
    MergeAllSnoc(source, Results(q), last.result);
  }

  lemma {:induction false} SwapLast(source: Object, rest: seq<Piece>, x: Piece, last: Piece)
    requires Fits(source, rest + [x] + [last]) && Fits(source, rest + [last] + [x])
    ensures MergeAll(source, Results(rest + [x] + [last])) == MergeAll(source, Results(rest + [last] + [x]))
  {
    MergeSnoc(source, rest + [x], last);
    MergeSnoc(source, rest + [last], x);
    MergeSnoc(source, rest, x);
    MergeSnoc(source, rest, last);
    var all := rest + [last] + [x];
    assert all[|rest|] == last && all[|rest| + 1] == x;
    PutsCommute(MergeAll(source, Results(rest)).value, x.at, x.result.result, last.at, last.result.result);
  }

  /** A result may as well be stitched last. */
  lemma {:induction false} StitchLast(source: Object, a: seq<Piece>, k: nat)
    requires Fits(source, a) && k < |a|
    ensures MergeAll(source, Results(a)) == MergeAll(source, Results(Without(a, k) + [a[k]]))
    decreases |a|
  {
    var front, last, x := a[..|a| - 1], a[|a| - 1], a[k];
    assert a == front + [last];
    if k == |a| - 1 {
      assert Without(a, k) == front;
    } else {
      FitsFront(source, a);
      StitchLast(source, front, k);
      FitsPermuted(source, a, k);
      WithoutFront(a, k);
      LaterLast(source, front, Without(front, k), last, x);
    }
  }

  lemma FitsFront(source: Object, a: seq<Piece>)
    requires Fits(source, a) && a != []
    ensures Fits(source, a[..|a| - 1])
  {
    var front := a[..|a| - 1];
    assert forall i :: 0 <= i < |front| ==> front[i] == a[i];
  }

  lemma {:induction false} LaterLast(source: Object, front: seq<Piece>, rest: seq<Piece>, last: Piece, x: Piece)
    requires Fits(source, rest + [last] + [x])
    requires MergeAll(source, Results(front)) == MergeAll(source, Results(rest + [x]))
    ensures MergeAll(source, Results(front + [last])) == MergeAll(source, Results(rest + [last] + [x]))
  {
    SameSnoc(source, front, rest + [x], last);
    FitsSwapped(source, rest, last, x);
    SwapLast(source, rest, x, last);
  }

  lemma FitsSwapped(source: Object, rest: seq<Piece>, x: Piece, y: Piece)
    requires Fits(source, rest + [x] + [y])
    ensures Fits(source, rest + [y] + [x])
  {
    var a, b, n := rest + [x] + [y], rest + [y] + [x], |rest|;
    forall i | 0 <= i < |b|
      ensures b[i] == a[if i < n then i else if i == n then n + 1 else n]
    {
    }
  }

  lemma {:induction false} CanBeStitched(source: Object, a: seq<Piece>)
    requires Fits(source, a)
    ensures MergeAll(source, Results(a)).Ok?
  {
    AllStitched(source, a, |a|);
    assert Results(a)[..|a|] == Results(a);
  }

  /** The results of a level, pairwise separate, give the same tree in every order of completion. */
  lemma {:induction false} OrderIndependent(source: Object, a: seq<Piece>, b: seq<Piece>)
    requires Fits(source, a) && Fits(source, b) && multiset(a) == multiset(b)
    ensures MergeAll(source, Results(a)).Ok?
    ensures MergeAll(source, Results(a)) == MergeAll(source, Results(b))
    decreases |a|
  {
    CanBeStitched(source, a);
    if a == [] {
      assert |multiset(b)| == 0;
    } else {
      var front, last := a[..|a| - 1], a[|a| - 1];
      assert a == front + [last];
      var k := LastIn(a, b);
      FitsFront(source, a);
      FitsPermuted(source, b, k);
      OrderIndependent(source, front, Without(b, k));
      SameSnoc(source, front, Without(b, k), last);
      StitchLast(source, b, k);
    }
  }
}
