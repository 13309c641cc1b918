/** mergeMaps is idempotent, associative and, up to the order of lists, commutative on trees whose lists go together. */
module MergeLaws {
  import opened Prelude
  import opened Schema
  import opened Json
  import opened MergeMaps
  import opened MergeAlgebra

  /** Objects that all have an id, and no two the same. */
  ghost predicate Keyed(ls: seq<Json>) {
    (forall x :: x in ls ==> x.JObj? && ID in x.fields && IsLeaf(x.fields[ID])) && UniqueIDs(ls)
  }

  /** Objects without ids. */
  ghost predicate Plain(ls: seq<Json>) {
    forall x :: x in ls ==> x.JObj? && ID !in x.fields
  }

  /** The right list reorders the left one, or a part of it, and may go on with new entries. */
  ghost predicate KeyedPair(ls: seq<Json>, rs: seq<Json>) {
    Keyed(ls) && Keyed(rs) && forall j :: 0 <= j < |ls| && j < |rs| ==> Matches(ls, rs[j])
  }

  /** The same kind of value wherever both sides have one, and shared lists with ids throughout or nowhere. */
  ghost predicate Regular(l: Json, r: Json)
    decreases r, 1
  {
    match (l, r)
    case (JObj(lm), JObj(rm)) => forall k :: k in lm && k in rm ==> Regular(lm[k], rm[k])
    case (JList(ls), JList(rs)) => (KeyedPair(ls, rs) || (Plain(ls) && Plain(rs))) && forall i :: 0 <= i < |ls| ==> RegularAt(ls, rs, i)
    case _ => IsLeaf(l) && IsLeaf(r)
  }

  ghost predicate RegularAt(ls: seq<Json>, rs: seq<Json>, i: nat)
    requires i < |ls|
    decreases rs, 0
  {
    match Counterpart(ls, rs, i)
    case None => true
    case Some(r) => assert r in rs; Regular(ls[i], r)
  }

  /** Whatever has the same id is regular. */
  ghost predicate PairsRegular(ls: seq<Json>, rs: seq<Json>) {
    forall x, y {:trigger SameID(x, y)} :: x in ls && y in rs && SameID(x, y) ==> Regular(x, y)
  }

  lemma {:induction false} OnlyOneLike(rs: seq<Json>, x: Json, y: Json)
    requires Keyed(rs) && y in rs && SameID(x, y)
    ensures FindLike(rs, x) == Some(y)
  {
    var r := FindLike(rs, x).value;
    var i :| 0 <= i < |rs| && rs[i] == r;
    var j :| 0 <= j < |rs| && rs[j] == y;
    assert SameID(rs[i], rs[j]) && SameID(rs[j], rs[i]);
  }

  /** In lists with ids the counterpart is the element with the id. */
  lemma {:induction false} KeyedCounterpart(ls: seq<Json>, rs: seq<Json>, i: nat)
    requires KeyedPair(ls, rs) && i < |ls|
    ensures Counterpart(ls, rs, i) == FindLike(rs, ls[i])
  {
  }

  lemma {:induction false} KeyedRegular(ls: seq<Json>, rs: seq<Json>)
    requires KeyedPair(ls, rs) && forall i :: 0 <= i < |ls| ==> RegularAt(ls, rs, i)
    ensures PairsRegular(ls, rs)
  {
    forall x, y | x in ls && y in rs && SameID(x, y)
      ensures Regular(x, y)
    {
      var i :| 0 <= i < |ls| && ls[i] == x;
      KeyedCounterpart(ls, rs, i);
      OnlyOneLike(rs, x, y);
      assert RegularAt(ls, rs, i);
    }
  }

  lemma {:induction false} RegularKeyed(ls: seq<Json>, rs: seq<Json>)
    requires KeyedPair(ls, rs) && PairsRegular(ls, rs)
    ensures Regular(JList(ls), JList(rs))
  {
    forall i | 0 <= i < |ls|
      ensures RegularAt(ls, rs, i)
    {
      KeyedCounterpart(ls, rs, i);
      var r := FindLike(rs, ls[i]);
      assert ls[i] in ls;
      assert r.Some? ==> SameID(ls[i], r.value);
    }
  }

  lemma {:induction false} PlainCounterpart(ls: seq<Json>, rs: seq<Json>, i: nat)
    requires Plain(ls) && Plain(rs) && i < |ls|
    ensures Counterpart(ls, rs, i) == if i < |rs| then Some(rs[i]) else None
  {
    assert ls[i] in ls;
  }

  lemma {:induction false} RegularFits(l: Json, r: Json)
    requires Regular(l, r)
    ensures Fits(l, r)
    decreases r
  {
    match (l, r)
    case (JObj(lm), JObj(rm)) =>
      forall k | k in lm && k in rm
        ensures Fits(lm[k], rm[k])
      {
        RegularFits(lm[k], rm[k]);
      }
    case (JList(ls), JList(rs)) =>
      RegularFitting(ls, rs);
      forall i | 0 <= i < |ls|
        ensures FitsAt(ls, rs, i)
      {
        assert RegularAt(ls, rs, i);
        var r := Counterpart(ls, rs, i);
        if r.Some? {
          assert r.value in rs;
          RegularFits(ls[i], r.value);
        }
      }
    case _ =>
  }

  lemma {:induction false} RegularFitting(ls: seq<Json>, rs: seq<Json>)
    requires KeyedPair(ls, rs) || (Plain(ls) && Plain(rs))
    ensures Fitting(ls, rs)
  {
    forall i | 0 <= i < |ls|
      ensures IsEntry(ls[i])
    {
      assert ls[i] in ls;
    }
    forall i | 0 <= i < |rs|
      ensures IsEntry(rs[i])
    {
      assert rs[i] in rs;
    }
    if Plain(ls) && Plain(rs) {
      assert forall i :: 0 <= i < |ls| ==> ls[i] in ls;
      assert forall i :: 0 <= i < |rs| ==> rs[i] in rs;
    }
  }

  /** An element overlaid with what has its id. */
  ghost function With(x: Json, rs: seq<Json>): Json {
    var r := FindLike(rs, x);
    if r.Some? then Overlay(x, r.value) else x
  }

  ghost function AllWith(xs: seq<Json>, rs: seq<Json>): (r: seq<Json>)
    ensures |r| == |xs|
  {
    seq(|xs|, i requires 0 <= i < |xs| => With(xs[i], rs))
  }

  /** The elements whose id is new. */
  ghost function New(ls: seq<Json>, rs: seq<Json>): seq<Json> {
    if rs == [] then []
    else New(ls, rs[..|rs| - 1]) + if Matches(ls, rs[|rs| - 1]) then [] else [rs[|rs| - 1]]
  }

  lemma {:induction false} InNew(ls: seq<Json>, rs: seq<Json>)
    ensures forall x :: x in New(ls, rs) <==> x in rs && !Matches(ls, x)
  {
    if rs != [] {
      InNew(ls, rs[..|rs| - 1]);
      InSnoc(rs);
    }
  }

  lemma {:induction false} NewSnoc(ls: seq<Json>, rs: seq<Json>, r: Json)
    ensures New(ls, rs + [r]) == New(ls, rs) + if Matches(ls, r) then [] else [r]
  {
    assert (rs + [r])[..|rs|] == rs;
  }

  lemma {:induction false} FindSnoc(rs: seq<Json>, r: Json, x: Json)
    ensures FindLike(rs + [r], x) == if FindLike(rs, x).Some? then FindLike(rs, x) else if SameID(x, r) then Some(r) else None
  {
    assert (rs + [r])[..|rs|] == rs;
  }

  /** Overlaying lists with ids. */
  lemma {:induction false} KeyedOverlaid(ls: seq<Json>, rs: seq<Json>)
    requires KeyedPair(ls, rs)
    ensures Overlaid(ls, rs) == AllWith(ls, rs) + New(ls, rs)
  {
    forall i | 0 <= i < |ls|
      ensures OverlaidAt(ls, rs, i) == With(ls[i], rs)
    {
      KeyedCounterpart(ls, rs, i);
    }
    RestIsNew(ls, rs);
  }

  lemma {:induction false} RestIsNew(ls: seq<Json>, rs: seq<Json>)
    requires forall j :: 0 <= j < |ls| && j < |rs| ==> Matches(ls, rs[j])
    ensures Rest(ls, rs) == New(ls, rs)
  {
    if rs != [] {
      RestIsNew(ls, rs[..|rs| - 1]);
    }
  }

  lemma NoIDNoMatch(ls: seq<Json>, r: Json)
    requires r.JObj? && ID !in r.fields
    ensures !Matches(ls, r)
  {
  }

  lemma {:induction false} PlainRest(ls: seq<Json>, rs: seq<Json>, n: nat)
    requires n <= |rs| && forall i :: 0 <= i < |rs| ==> rs[i].JObj? && ID !in rs[i].fields
    ensures Rest(ls, rs[..n]) == if n <= |ls| then [] else rs[|ls|..n]
  {
    if n == 0 {
      assert rs[..0] == [];
    } else {
      PlainRest(ls, rs, n - 1);
      NoIDNoMatch(ls, rs[n - 1]);
      RestMore(ls, rs, n - 1);
    }
  }

  /** An overlaid entry keeps the id. */
  lemma {:induction false} WithKeepsID(x: Json, rs: seq<Json>)
    requires IsEntry(x) && Keyed(rs)
    ensures IsEntry(With(x, rs)) && forall id :: HasThisID(With(x, rs), id) <==> HasThisID(x, id)
  {
    var r := FindLike(rs, x);
    if r.Some? {
      OverlaidID(x, r.value);
    }
  }

  /** Entries with the same id are found by the same search. */
  lemma {:induction false} FindAlike(rs: seq<Json>, x: Json, y: Json)
    requires SameID(x, y)
    ensures FindLike(rs, x) == FindLike(rs, y)
  {
    if rs != [] {
      FindAlike(rs[..|rs| - 1], x, y);
    }
  }

  lemma {:induction false} FindAppend(p: seq<Json>, q: seq<Json>, x: Json)
    ensures FindLike(p + q, x) == if FindLike(p, x).Some? then FindLike(p, x) else FindLike(q, x)
  {
    if q == [] {
      assert p + q == p;
    } else {
      var front, last := q[..|q| - 1], q[|q| - 1];
      FindAppend(p, front, x);
      assert p + q == p + front + [last];
      FindSnoc(p + front, last, x);
    }
  }

  lemma {:induction false} FindInWith(bs: seq<Json>, cs: seq<Json>, x: Json)
    requires (forall b :: b in bs ==> IsEntry(b)) && Keyed(cs)
    ensures FindLike(AllWith(bs, cs), x) == if FindLike(bs, x).Some? then Some(With(FindLike(bs, x).value, cs)) else None
  {
    if bs != [] {
      var front, last := bs[..|bs| - 1], bs[|bs| - 1];
      InSnoc(bs);
      FindInWith(front, cs, x);
      assert AllWith(bs, cs) == AllWith(front, cs) + [With(last, cs)];
      FindSnoc(AllWith(front, cs), With(last, cs), x);
      assert last in bs;
      WithKeepsID(last, cs);
      SameByID(x, last, With(last, cs));
    }
  }

  lemma SameByID(x: Json, y: Json, z: Json)
    requires forall id :: HasThisID(y, id) <==> HasThisID(z, id)
    ensures SameID(x, y) <==> SameID(x, z)
    ensures SameID(y, x) <==> SameID(z, x)
  {
    if x.JObj? && ID in x.fields {
      assert HasThisID(y, x.fields[ID]) <==> HasThisID(z, x.fields[ID]);
    }
  }

  lemma {:induction false} FindInNew(bs: seq<Json>, cs: seq<Json>, x: Json)
    requires FindLike(bs, x).None?
    ensures FindLike(New(bs, cs), x) == FindLike(cs, x)
  {
    if cs != [] {
      var front, last := cs[..|cs| - 1], cs[|cs| - 1];
      assert cs == front + [last];
      FindInNew(bs, front, x);
      NotBoth(bs, x, last);
      FindInOneMore(New(bs, front), front, last, x, Matches(bs, last));
      NewSnoc(bs, front, last);
    }
  }

  lemma {:induction false} FindInOneMore(p: seq<Json>, q: seq<Json>, last: Json, x: Json, skip: bool)
    requires FindLike(p, x) == FindLike(q, x) && (skip ==> !SameID(x, last))
    ensures FindLike(p + if skip then [] else [last], x) == FindLike(q + [last], x)
  {
    FindSnoc(q, last, x);
    FindSnoc(p, last, x);
    assert p + [] == p;
  }

  lemma {:induction false} NotBoth(bs: seq<Json>, x: Json, y: Json)
    requires FindLike(bs, x).None?
    ensures Matches(bs, y) ==> !SameID(x, y)
  {
    if Matches(bs, y) {
      var l :| l in bs && SameID(l, y);
      assert !SameID(x, l);
    }
  }

  lemma {:induction false} NewAppend(a: seq<Json>, p: seq<Json>, q: seq<Json>)
    ensures New(a, p + q) == New(a, p) + New(a, q)
  {
    if q == [] {
      assert p + q == p;
    } else {
      var front, last := q[..|q| - 1], q[|q| - 1];
      NewAppend(a, p, front);
      assert p + q == p + front + [last];
      NewSnoc(a, p + front, last);
      Regroup(New(a, p), New(a, front), if Matches(a, last) then [] else [last]);
    }
  }

  lemma {:induction false} MatchesByID(a: seq<Json>, y: Json, z: Json)
    requires forall id :: HasThisID(y, id) <==> HasThisID(z, id)
    ensures Matches(a, y) <==> Matches(a, z)
  {
    forall x | x in a
      ensures SameID(x, y) <==> SameID(x, z)
    {
      SameByID(x, y, z);
    }
  }

  /** Overlaying and picking the new ones can be done in either order. */
  lemma {:induction false} NewOfWith(a: seq<Json>, bs: seq<Json>, cs: seq<Json>)
    requires (forall b :: b in bs ==> IsEntry(b)) && Keyed(cs)
    ensures New(a, AllWith(bs, cs)) == AllWith(New(a, bs), cs)
  {
    if bs != [] {
      var front, last := bs[..|bs| - 1], bs[|bs| - 1];
      InSnoc(bs);
      NewOfWith(a, front, cs);
      assert AllWith(bs, cs) == AllWith(front, cs) + [With(last, cs)];
      NewSnoc(a, AllWith(front, cs), With(last, cs));
      assert last in bs;
      WithKeepsID(last, cs);
      MatchesByID(a, last, With(last, cs));
      AllWithAppend(New(a, front), if Matches(a, last) then [] else [last], cs);
    }
  }

  lemma AllWithAppend(p: seq<Json>, q: seq<Json>, cs: seq<Json>)
    ensures AllWith(p + q, cs) == AllWith(p, cs) + AllWith(q, cs)
  {
  }

  /** The merged list has the ids of both. */
  lemma {:induction false} MatchesMerged(a: seq<Json>, b: seq<Json>, c: Json)
    requires Keyed(a) && Keyed(b)
    ensures Matches(AllWith(a, b) + New(a, b), c) <==> Matches(a, c) || Matches(b, c)
  {
    var x := AllWith(a, b) + New(a, b);
    InNew(a, b);
    if Matches(a, c) {
      var l :| l in a && SameID(l, c);
      var i :| 0 <= i < |a| && a[i] == l;
      WithKeepsID(l, b);
      SameByID(c, l, With(l, b));
      assert x[i] in x;
    } else if Matches(b, c) {
      var l :| l in b && SameID(l, c);
      assert !Matches(a, l);
      assert l in x;
    }
    if Matches(x, c) {
      var l :| l in x && SameID(l, c);
      if l !in New(a, b) {
        var i :| 0 <= i < |a| && AllWith(a, b)[i] == l;
        assert a[i] in a;
        WithKeepsID(a[i], b);
        SameByID(c, a[i], l);
      }
    }
  }

  /** A list with the ids of two others. */
  ghost predicate Unites(x: seq<Json>, a: seq<Json>, b: seq<Json>) {
    forall c :: Matches(x, c) <==> Matches(a, c) || Matches(b, c)
  }

  lemma {:induction false} MergedUnites(a: seq<Json>, b: seq<Json>)
    requires Keyed(a) && Keyed(b)
    ensures Unites(AllWith(a, b) + New(a, b), a, b)
  {
    forall c
      ensures Matches(AllWith(a, b) + New(a, b), c) <==> Matches(a, c) || Matches(b, c)
    {
      MatchesMerged(a, b, c);
    }
  }

  lemma {:induction false} NewOfMerged(x: seq<Json>, a: seq<Json>, b: seq<Json>, cs: seq<Json>)
    requires Unites(x, a, b)
    ensures New(x, cs) == New(a, New(b, cs))
  {
    if cs != [] {
      var front, last := cs[..|cs| - 1], cs[|cs| - 1];
      NewOfMerged(x, a, b, front);
      NewSnoc(a, New(b, front), last);
      if Matches(b, last) {
        assert New(b, cs) == New(b, front);
      }
    }
  }

  ghost predicate AssocAt(a: Json, b: Json, c: Json) {
    Overlay(Overlay(a, b), c) == Overlay(a, Overlay(b, c))
  }

  ghost predicate AllAssoc(a: seq<Json>, b: seq<Json>, c: seq<Json>) {
    forall x, y, z {:trigger AssocAt(x, y, z)} :: x in a && y in b && z in c && SameID(x, y) && SameID(y, z) ==> AssocAt(x, y, z)
  }

  lemma {:induction false} WithTwice(x: Json, a: seq<Json>, b: seq<Json>, c: seq<Json>)
    requires Keyed(a) && Keyed(b) && Keyed(c) && x in a && AllAssoc(a, b, c)
    ensures With(With(x, b), c) == With(x, AllWith(b, c) + New(b, c))
  {
    var r := FindLike(b, x);
    FindAppend(AllWith(b, c), New(b, c), x);
    FindInWith(b, c, x);
    if r.Some? {
      WithKeepsID(x, b);
      SameByID(x, x, With(x, b));
      FindAlike(c, x, With(x, b));
      FindAlike(c, x, r.value);
      var s := FindLike(c, x);
      if s.Some? {
        assert SameID(r.value, s.value);
        assert AssocAt(x, r.value, s.value);
      }
    } else {
      FindInNew(b, c, x);
    }
  }

  lemma {:induction false} KeyedAssociative(a: seq<Json>, b: seq<Json>, c: seq<Json>)
    requires Keyed(a) && Keyed(b) && Keyed(c) && AllAssoc(a, b, c)
    ensures var x, y := AllWith(a, b) + New(a, b), AllWith(b, c) + New(b, c);
            AllWith(x, c) + New(x, c) == AllWith(a, y) + New(a, y)
  {
    var x, y := AllWith(a, b) + New(a, b), AllWith(b, c) + New(b, c);
    AllWithAppend(AllWith(a, b), New(a, b), c);
    forall i | 0 <= i < |a|
      ensures With(With(a[i], b), c) == With(a[i], y)
    {
      assert a[i] in a;
      WithTwice(a[i], a, b, c);
    }
    assert AllWith(AllWith(a, b), c) == AllWith(a, y);
    MergedUnites(a, b);
    NewOfMerged(x, a, b, c);
    NewAppend(a, AllWith(b, c), New(b, c));
    NewOfWith(a, b, c);
    Regroup(AllWith(a, y), AllWith(New(a, b), c), New(x, c));
  }

  /** The overlay of lists without ids, position by position. */
  ghost function Zip(ls: seq<Json>, rs: seq<Json>): seq<Json> {
    seq(if |ls| < |rs| then |rs| else |ls|, i requires 0 <= i < (if |ls| < |rs| then |rs| else |ls|) => Pick(ls, rs, i))
  }

  ghost function Pick(ls: seq<Json>, rs: seq<Json>, i: nat): Json
    requires i < |ls| || i < |rs|
  {
    if i >= |rs| then ls[i] else if i >= |ls| then rs[i] else Overlay(ls[i], rs[i])
  }

  lemma {:induction false} PlainIsZip(ls: seq<Json>, rs: seq<Json>)
    requires Plain(ls) && Plain(rs)
    ensures Overlaid(ls, rs) == Zip(ls, rs) && Plain(Zip(ls, rs))
  {
    forall i | 0 <= i < |ls|
      ensures OverlaidAt(ls, rs, i) == Pick(ls, rs, i)
    {
      PlainCounterpart(ls, rs, i);
    }
    assert forall i :: 0 <= i < |rs| ==> rs[i] in rs;
    PlainRest(ls, rs, |rs|);
    assert rs[..|rs|] == rs;
    var rest := Rest(ls, rs);
    assert forall i :: 0 <= i < |rest| ==> rest[i] == Pick(ls, rs, |ls| + i);
    ZipIsPlain(ls, rs);
  }

  lemma {:induction false} ZipIsPlain(ls: seq<Json>, rs: seq<Json>)
    requires Plain(ls) && Plain(rs)
    ensures Plain(Zip(ls, rs))
  {
    forall i | 0 <= i < |Zip(ls, rs)|
      ensures var x := Zip(ls, rs)[i]; x.JObj? && ID !in x.fields
    {
      assert i < |ls| ==> ls[i] in ls;
      assert i < |rs| ==> rs[i] in rs;
    }
  }

  lemma {:induction false} ZipAssociative(a: seq<Json>, b: seq<Json>, c: seq<Json>)
    requires forall i :: 0 <= i < |a| && i < |b| && i < |c| ==> AssocAt(a[i], b[i], c[i])
    ensures Zip(Zip(a, b), c) == Zip(a, Zip(b, c))
  {
    var x, y := Zip(Zip(a, b), c), Zip(a, Zip(b, c));
    forall i | 0 <= i < |x|
      ensures x[i] == y[i]
    {
      if i < |a| && i < |b| && i < |c| {
        assert AssocAt(a[i], b[i], c[i]);
      }
    }
  }

  lemma {:induction false} UniqueNew(ls: seq<Json>, rs: seq<Json>)
    requires UniqueIDs(rs)
    ensures UniqueIDs(New(ls, rs))
  {
    if rs != [] {
      var front, last := rs[..|rs| - 1], rs[|rs| - 1];
      UniqueNew(ls, front);
      InNew(ls, front);
      var n := New(ls, front);
      forall i | 0 <= i < |n|
        ensures !SameID(n[i], last)
      {
        assert n[i] in n;
        var j :| 0 <= j < |front| && front[j] == n[i];
        assert rs[j] == n[i];
      }
    }
  }

  lemma {:induction false} KeyedStays(a: seq<Json>, b: seq<Json>)
    requires Keyed(a) && Keyed(b)
    ensures Keyed(AllWith(a, b) + New(a, b))
  {
    var x := AllWith(a, b) + New(a, b);
    InNew(a, b);
    UniqueNew(a, b);
    forall i | 0 <= i < |a|
      ensures SameID(x[i], a[i]) && IsEntry(x[i])
    {
      assert a[i] in a;
      WithKeepsID(a[i], b);
      assert HasThisID(x[i], a[i].fields[ID]);
    }
    forall v | v in x
      ensures v.JObj? && ID in v.fields && IsLeaf(v.fields[ID])
    {
      if v !in New(a, b) {
        var i :| 0 <= i < |a| && x[i] == v;
      }
    }
    forall i, j | 0 <= i < j < |x|
      ensures !SameID(x[i], x[j])
    {
      if j < |a| {
        assert !SameID(a[i], a[j]);
      } else if i < |a| {
        assert New(a, b)[j - |a|] in New(a, b) && a[i] in a;
        assert !SameID(a[i], x[j]);
      } else {
        assert x[i] == New(a, b)[i - |a|] && x[j] == New(a, b)[j - |a|];
      }
    }
  }

  /** Positions of b whose id occurs in cs. */
  ghost function Taken(b: seq<Json>, cs: seq<Json>): set<nat> {
    set i: nat | i < |b| && Matches(cs, b[i])
  }

  function Below(n: nat): (s: set<nat>)
    ensures |s| == n && forall i: nat :: i in s <==> i < n
  {
    if n == 0 then {} else Below(n - 1) + {n - 1}
  }

  lemma SubsetSize<T>(a: set<T>, b: set<T>)
    requires a <= b
    ensures |a| <= |b|
  {
    assert b == a + (b - a);
  }

  lemma {:induction false} TakenSize(b: seq<Json>, cs: seq<Json>)
    requires UniqueIDs(cs)
    ensures |cs| <= |New(b, cs)| + |Taken(b, cs)|
  {
    if cs != [] {
      var front, last := cs[..|cs| - 1], cs[|cs| - 1];
      TakenSize(b, front);
      InSnoc(cs);
      if Matches(b, last) {
        var l :| l in b && SameID(l, last);
        var i :| 0 <= i < |b| && b[i] == l;
        assert !Matches(front, b[i]);
        assert SameID(last, b[i]);
        assert i in Taken(b, cs);
        SubsetSize(Taken(b, front) + {i}, Taken(b, cs));
      } else {
        SubsetSize(Taken(b, front), Taken(b, cs));
      }
    }
  }

  /** Among entries with different ids, no more than b has are not new to it. */
  lemma {:induction false} FewKnown(b: seq<Json>, cs: seq<Json>)
    requires UniqueIDs(cs)
    ensures |cs| <= |New(b, cs)| + |b|
  {
    TakenSize(b, cs);
    SubsetSize(Taken(b, cs), Below(|b|));
  }

  lemma {:induction false} WhereNew(b: seq<Json>, cs: seq<Json>, m: nat) returns (k: nat)
    requires m < |New(b, cs)|
    ensures k < |cs| && New(b, cs)[m] == cs[k] && |New(b, cs[..k])| == m
  {
    var front := cs[..|cs| - 1];
    if m < |New(b, front)| {
      k := WhereNew(b, front, m);
      assert cs[..k] == front[..k];
    } else {
      k := |cs| - 1;
    }
  }

  lemma {:induction false} KeyedPairLeft(a: seq<Json>, b: seq<Json>, c: seq<Json>)
    requires KeyedPair(a, b) && KeyedPair(b, c) && KeyedPair(a, c)
    ensures KeyedPair(AllWith(a, b) + New(a, b), c)
  {
    var x := AllWith(a, b) + New(a, b);
    KeyedStays(a, b);
    RestIsNew(a, b);
    RestSize(a, b);
    MergedUnites(a, b);
  }

  lemma {:induction false} KeyedPairRight(a: seq<Json>, b: seq<Json>, c: seq<Json>)
    requires KeyedPair(a, b) && KeyedPair(b, c) && KeyedPair(a, c)
    ensures KeyedPair(a, AllWith(b, c) + New(b, c))
  {
    var y := AllWith(b, c) + New(b, c);
    KeyedStays(b, c);
    forall j | 0 <= j < |a| && j < |y|
      ensures Matches(a, y[j])
    {
      if j < |b| {
        assert b[j] in b;
        WithKeepsID(b[j], c);
        MatchesByID(a, b[j], y[j]);
      } else {
        var k := WhereNew(b, c, j - |b|);
        FewKnown(b, c[..k]);
      }
    }
  }

  lemma {:induction false} InMerged(a: seq<Json>, b: seq<Json>, x: Json)
    requires x in AllWith(a, b) + New(a, b)
    ensures x in b || exists v :: v in a && x == With(v, b)
  {
    InNew(a, b);
    if x !in New(a, b) {
      var i :| 0 <= i < |a| && AllWith(a, b)[i] == x;
      assert a[i] in a;
    }
  }

  /** Three lists, each pair of which goes together, have ids throughout or nowhere. */
  lemma OneKind(a: seq<Json>, b: seq<Json>, c: seq<Json>)
    requires KeyedPair(a, b) || (Plain(a) && Plain(b))
    requires KeyedPair(b, c) || (Plain(b) && Plain(c))
    requires KeyedPair(a, c) || (Plain(a) && Plain(c))
    ensures (KeyedPair(a, b) && KeyedPair(b, c) && KeyedPair(a, c)) || (Plain(a) && Plain(b) && Plain(c))
  {
    assert a != [] ==> a[0] in a;
    assert b != [] ==> b[0] in b;
    assert c != [] ==> c[0] in c;
  }

  lemma PlainRegular(a: seq<Json>, b: seq<Json>)
    requires Plain(a) && Plain(b)
    ensures Regular(JList(a), JList(b)) <==> forall i :: 0 <= i < |a| && i < |b| ==> Regular(a[i], b[i])
  {
    forall i | 0 <= i < |a|
      ensures RegularAt(a, b, i) <==> (i < |b| ==> Regular(a[i], b[i]))
    {
      PlainCounterpart(a, b, i);
    }
    if a != [] && b != [] {
      assert a[0] in a && b[0] in b;
    }
  }

  /** What is merged on the left of c goes together with c if both parts do. */
  lemma {:induction false} RegularLeft(a: Json, b: Json, c: Json)
    requires Regular(a, b) && Regular(b, c) && Regular(a, c)
    ensures Regular(Overlay(a, b), c)
    decreases c
  {
    match (a, b, c)
    case (JObj(x), JObj(y), JObj(z)) =>
      forall k | k in x && k in y && k in z
        ensures Regular(Overlay(x[k], y[k]), z[k])
      {
        RegularLeft(x[k], y[k], z[k]);
      }
    case (JList(x), JList(y), JList(z)) =>
      OneKind(x, y, z);
      if KeyedPair(x, y) && KeyedPair(y, z) && KeyedPair(x, z) {
        KeyedRegular(x, y);
        KeyedRegular(y, z);
        KeyedRegular(x, z);
        forall u, v, w | u in x && v in y && w in z && SameID(u, v) && SameID(v, w)
          ensures Regular(Overlay(u, v), w)
        {
          assert SameID(u, w);
          RegularLeft(u, v, w);
        }
        KeyedRegularLeft(x, y, z);
      } else {
        PlainIsZip(x, y);
        PlainRegular(x, y);
        PlainRegular(y, z);
        PlainRegular(x, z);
        forall i | 0 <= i < |Zip(x, y)| && i < |z|
          ensures Regular(Zip(x, y)[i], z[i])
        {
          if i < |x| && i < |y| {
            RegularLeft(x[i], y[i], z[i]);
          }
        }
        PlainRegular(Zip(x, y), z);
      }
    case _ =>
  }

  lemma {:induction false} KeyedRegularLeft(x: seq<Json>, y: seq<Json>, z: seq<Json>)
    requires KeyedPair(x, y) && KeyedPair(y, z) && KeyedPair(x, z)
    requires PairsRegular(y, z) && PairsRegular(x, z)
    requires forall u, v, w {:trigger SameID(u, v), SameID(v, w)} :: u in x && v in y && w in z && SameID(u, v) && SameID(v, w) ==> Regular(Overlay(u, v), w)
    ensures Regular(JList(Overlaid(x, y)), JList(z))
  {
    var o := AllWith(x, y) + New(x, y);
    KeyedOverlaid(x, y);
    KeyedPairLeft(x, y, z);
    forall u, w | u in o && w in z && SameID(u, w)
      ensures Regular(u, w)
    {
      InMerged(x, y, u);
      if u !in y {
        var v :| v in x && u == With(v, y);
        WithKeepsID(v, y);
        SameByID(w, v, u);
        var r := FindLike(y, v);
        if r.Some? {
          assert SameID(v, r.value) && SameID(r.value, w);
        }
      }
    }
    RegularKeyed(o, z);
  }

  /** ... and so does what is merged on the right of a. */
  lemma {:induction false} RegularRight(a: Json, b: Json, c: Json)
    requires Regular(a, b) && Regular(b, c) && Regular(a, c)
    ensures Regular(a, Overlay(b, c))
    decreases c
  {
    match (a, b, c)
    case (JObj(x), JObj(y), JObj(z)) =>
      forall k | k in x && k in y && k in z
        ensures Regular(x[k], Overlay(y[k], z[k]))
      {
        RegularRight(x[k], y[k], z[k]);
      }
    case (JList(x), JList(y), JList(z)) =>
      OneKind(x, y, z);
      if KeyedPair(x, y) && KeyedPair(y, z) && KeyedPair(x, z) {
        KeyedRegular(x, y);
        KeyedRegular(y, z);
        KeyedRegular(x, z);
        forall u, v, w | u in x && v in y && w in z && SameID(u, v) && SameID(v, w)
          ensures Regular(u, Overlay(v, w))
        {
          assert SameID(u, w);
          RegularRight(u, v, w);
        }
        KeyedRegularRight(x, y, z);
      } else {
        PlainIsZip(y, z);
        PlainRegular(x, y);
        PlainRegular(y, z);
        PlainRegular(x, z);
        forall i | 0 <= i < |x| && i < |Zip(y, z)|
          ensures Regular(x[i], Zip(y, z)[i])
        {
          if i < |y| && i < |z| {
            RegularRight(x[i], y[i], z[i]);
          }
        }
        PlainRegular(x, Zip(y, z));
      }
    case _ =>
  }

  lemma {:induction false} KeyedRegularRight(x: seq<Json>, y: seq<Json>, z: seq<Json>)
    requires KeyedPair(x, y) && KeyedPair(y, z) && KeyedPair(x, z)
    requires PairsRegular(x, y) && PairsRegular(x, z)
    requires forall u, v, w {:trigger SameID(u, v), SameID(v, w)} :: u in x && v in y && w in z && SameID(u, v) && SameID(v, w) ==> Regular(u, Overlay(v, w))
    ensures Regular(JList(x), JList(Overlaid(y, z)))
  {
    var o := AllWith(y, z) + New(y, z);
    KeyedOverlaid(y, z);
    KeyedPairRight(x, y, z);
    forall u, w | u in x && w in o && SameID(u, w)
      ensures Regular(u, w)
    {
      InMerged(y, z, w);
      if w !in z {
        var v :| v in y && w == With(v, z);
        WithKeepsID(v, z);
        SameByID(u, v, w);
        var r := FindLike(z, v);
        if r.Some? {
          assert SameID(u, v) && SameID(v, r.value);
        }
      }
    }
    RegularKeyed(x, o);
  }

  /** Overlaying something on itself changes nothing. */
  lemma {:induction false} OverlayIdempotent(a: Json)
    requires Fits(a, a)
    ensures Overlay(a, a) == a
    decreases a
  {
    match a
    case JObj(m) =>
      forall k | k in m
        ensures Overlay(m[k], m[k]) == m[k]
      {
        OverlayIdempotent(m[k]);
      }
    case JList(items) =>
      forall i | 0 <= i < |items|
        ensures OverlaidAt(items, items, i) == items[i]
      {
        SelfCounterpart(items, i);
        assert FitsAt(items, items, i);
        OverlayIdempotent(items[i]);
      }
      NothingNew(items, items);
      assert Overlaid(items, items) == items;
    case _ =>
  }

  lemma SelfCounterpart(ls: seq<Json>, i: nat)
    requires Fitting(ls, ls) && i < |ls|
    ensures Counterpart(ls, ls, i) == Some(ls[i])
  {
    var r := FindLike(ls, ls[i]);
    if r.Some? {
      var j :| 0 <= j < |ls| && ls[j] == r.value;
      assert SameID(ls[i], ls[j]) && SameID(ls[j], ls[i]);
    }
  }

  lemma {:induction false} NothingNew(ls: seq<Json>, rs: seq<Json>)
    requires |rs| <= |ls|
    ensures Rest(ls, rs) == []
  {
    RestSize(ls, rs);
  }

  /** Overlaying is associative on trees that go together. */
  lemma {:induction false} OverlayAssociative(a: Json, b: Json, c: Json)
    requires Regular(a, b) && Regular(b, c) && Regular(a, c)
    ensures AssocAt(a, b, c)
    decreases c
  {
    match (a, b, c)
    case (JObj(x), JObj(y), JObj(z)) =>
      forall k | k in x && k in y && k in z
        ensures AssocAt(x[k], y[k], z[k])
      {
        OverlayAssociative(x[k], y[k], z[k]);
      }
      ObjectsAssociative(x, y, z);
    case (JList(x), JList(y), JList(z)) =>
      OneKind(x, y, z);
      if KeyedPair(x, y) && KeyedPair(y, z) && KeyedPair(x, z) {
        KeyedRegular(x, y);
        KeyedRegular(y, z);
        KeyedRegular(x, z);
        forall u, v, w | u in x && v in y && w in z && SameID(u, v) && SameID(v, w)
          ensures AssocAt(u, v, w)
        {
          assert SameID(u, w);
          OverlayAssociative(u, v, w);
        }
        KeyedListsAssociative(x, y, z);
      } else {
        PlainRegular(x, y);
        PlainRegular(y, z);
        PlainRegular(x, z);
        forall i | 0 <= i < |x| && i < |y| && i < |z|
          ensures AssocAt(x[i], y[i], z[i])
        {
          OverlayAssociative(x[i], y[i], z[i]);
        }
        PlainListsAssociative(x, y, z);
      }
    case _ =>
  }

  lemma {:induction false} ObjectsAssociative(x: Object, y: Object, z: Object)
    requires forall k :: k in x && k in y && k in z ==> AssocAt(x[k], y[k], z[k])
    ensures AssocAt(JObj(x), JObj(y), JObj(z))
  {
    var p, q := Overlay(Overlay(JObj(x), JObj(y)), JObj(z)).fields, Overlay(JObj(x), Overlay(JObj(y), JObj(z))).fields;
    assert p.Keys == q.Keys;
    forall k | k in p
      ensures p[k] == q[k]
    {
      assert k in x && k in y && k in z ==> AssocAt(x[k], y[k], z[k]);
    }
  }

  lemma {:induction false} KeyedListsAssociative(x: seq<Json>, y: seq<Json>, z: seq<Json>)
    requires KeyedPair(x, y) && KeyedPair(y, z) && KeyedPair(x, z) && AllAssoc(x, y, z)
    ensures AssocAt(JList(x), JList(y), JList(z))
  {
    KeyedOverlaid(x, y);
    KeyedOverlaid(y, z);
    KeyedPairLeft(x, y, z);
    KeyedPairRight(x, y, z);
    KeyedOverlaid(Overlaid(x, y), z);
    KeyedOverlaid(x, Overlaid(y, z));
    KeyedAssociative(x, y, z);
  }

  lemma {:induction false} PlainListsAssociative(x: seq<Json>, y: seq<Json>, z: seq<Json>)
    requires Plain(x) && Plain(y) && Plain(z) && forall i :: 0 <= i < |x| && i < |y| && i < |z| ==> AssocAt(x[i], y[i], z[i])
    ensures AssocAt(JList(x), JList(y), JList(z))
  {
    PlainIsZip(x, y);
    PlainIsZip(y, z);
    PlainIsZip(Zip(x, y), z);
    PlainIsZip(x, Zip(y, z));
    ZipAssociative(x, y, z);
  }

  /** Equal wherever both sides have a leaf. */
  ghost predicate Agree(l: Json, r: Json)
    decreases r, 1
  {
    match (l, r)
    case (JObj(lm), JObj(rm)) => forall k :: k in lm && k in rm ==> Agree(lm[k], rm[k])
    case (JList(ls), JList(rs)) => forall i :: 0 <= i < |ls| ==> AgreeAt(ls, rs, i)
    case _ => l == r
  }

  ghost predicate AgreeAt(ls: seq<Json>, rs: seq<Json>, i: nat)
    requires i < |ls|
    decreases rs, 0
  {
    match Counterpart(ls, rs, i)
    case None => true
    case Some(r) => assert r in rs; Agree(ls[i], r)
  }

  /** The same up to the order of lists whose entries all have ids. */
  ghost predicate Same(v: Json, w: Json)
    decreases v, 1
  {
    match (v, w)
    case (JObj(x), JObj(y)) => x.Keys == y.Keys && forall k :: k in x ==> Same(x[k], y[k])
    case (JList(x), JList(y)) =>
      if Keyed(x) && Keyed(y) then (forall i :: 0 <= i < |x| ==> SameAt(x, i, y)) && forall e :: e in y ==> FindLike(x, e).Some?
      else |x| == |y| && forall i :: 0 <= i < |x| ==> Same(x[i], y[i])
    case _ => v == w
  }

  ghost predicate SameAt(x: seq<Json>, i: nat, y: seq<Json>)
    requires i < |x|
    decreases x, 0
  {
    FindLike(y, x[i]).Some? && Same(x[i], FindLike(y, x[i]).value)
  }

  lemma {:induction false} SameSelf(v: Json)
    ensures Same(v, v)
    decreases v
  {
    match v
    case JObj(x) =>
      forall k | k in x
        ensures Same(x[k], x[k])
      {
        SameSelf(x[k]);
      }
    case JList(x) =>
      forall i | 0 <= i < |x|
        ensures Same(x[i], x[i]) && (Keyed(x) ==> SameAt(x, i, x))
      {
        SameSelf(x[i]);
        if Keyed(x) {
          assert x[i] in x;
          OnlyOneLike(x, x[i], x[i]);
        }
      }
      if Keyed(x) {
        forall e | e in x
          ensures FindLike(x, e).Some?
        {
          OnlyOneLike(x, e, e);
        }
      }
    case _ =>
  }

  /** ... and commutative, up to the order of lists, where the two sides agree. */
  lemma {:induction false} OverlayCommutative(a: Json, b: Json)
    requires Regular(a, b) && Regular(b, a) && Agree(a, b)
    ensures Same(Overlay(a, b), Overlay(b, a))
    decreases b
  {
    match (a, b)
    case (JObj(x), JObj(y)) =>
      forall k | k in x && k in y
        ensures Same(Overlay(x[k], y[k]), Overlay(y[k], x[k]))
      {
        OverlayCommutative(x[k], y[k]);
      }
      ObjectsCommutative(x, y);
    case (JList(x), JList(y)) =>
      if KeyedPair(x, y) && KeyedPair(y, x) {
        KeyedRegular(x, y);
        KeyedRegular(y, x);
        forall u, v | u in x && v in y && SameID(u, v)
          ensures Same(Overlay(u, v), Overlay(v, u))
        {
          assert SameID(v, u);
          OnlyOneLike(y, u, v);
          var i :| 0 <= i < |x| && x[i] == u;
          KeyedCounterpart(x, y, i);
          assert AgreeAt(x, y, i);
          OverlayCommutative(u, v);
        }
        KeyedCommutative(x, y);
      } else {
        PlainPair(x, y);
        PlainRegular(x, y);
        PlainRegular(y, x);
        forall i | 0 <= i < |x| && i < |y|
          ensures Same(Overlay(x[i], y[i]), Overlay(y[i], x[i]))
        {
          PlainCounterpart(x, y, i);
          assert AgreeAt(x, y, i);
          OverlayCommutative(x[i], y[i]);
        }
        PlainCommutative(x, y);
      }
    case _ =>
  }

  lemma {:induction false} ObjectsCommutative(x: Object, y: Object)
    requires forall k :: k in x && k in y ==> Same(Overlay(x[k], y[k]), Overlay(y[k], x[k]))
    ensures Same(Overlay(JObj(x), JObj(y)), Overlay(JObj(y), JObj(x)))
  {
    forall k | k in x.Keys + y.Keys
      ensures Same(Overlay(JObj(x), JObj(y)).fields[k], Overlay(JObj(y), JObj(x)).fields[k])
    {
      SameSelf(if k in x then x[k] else y[k]);
    }
  }

  lemma {:induction false} PlainCommutative(x: seq<Json>, y: seq<Json>)
    requires Plain(x) && Plain(y) && forall i :: 0 <= i < |x| && i < |y| ==> Same(Overlay(x[i], y[i]), Overlay(y[i], x[i]))
    ensures Same(JList(Overlaid(x, y)), JList(Overlaid(y, x)))
  {
    PlainIsZip(x, y);
    PlainIsZip(y, x);
    forall i | 0 <= i < |Zip(x, y)|
      ensures Same(Zip(x, y)[i], Zip(y, x)[i])
    {
      SameSelf(if i < |x| then x[i] else y[i]);
    }
    PlainSame(Zip(x, y), Zip(y, x));
  }

  lemma PlainPair(x: seq<Json>, y: seq<Json>)
    requires KeyedPair(x, y) || (Plain(x) && Plain(y))
    requires KeyedPair(y, x) || (Plain(y) && Plain(x))
    ensures (KeyedPair(x, y) && KeyedPair(y, x)) || (Plain(x) && Plain(y))
  {
  }

  lemma PlainSame(x: seq<Json>, y: seq<Json>)
    requires Plain(x) && Plain(y) && |x| == |y| && forall i :: 0 <= i < |x| ==> Same(x[i], y[i])
    ensures Same(JList(x), JList(y))
  {
    if x != [] {
      assert x[0] in x;
      assert !Keyed(x);
    }
  }

  ghost predicate AllSame(x: seq<Json>, y: seq<Json>) {
    forall u, v {:trigger SameID(u, v)} :: u in x && v in y && SameID(u, v) ==> Same(Overlay(u, v), Overlay(v, u))
  }

  lemma {:induction false} KeyedCommutative(x: seq<Json>, y: seq<Json>)
    requires KeyedPair(x, y) && KeyedPair(y, x) && AllSame(x, y)
    ensures Same(JList(Overlaid(x, y)), JList(Overlaid(y, x)))
  {
    var p, q := AllWith(x, y) + New(x, y), AllWith(y, x) + New(y, x);
    KeyedOverlaid(x, y);
    KeyedOverlaid(y, x);
    KeyedStays(x, y);
    KeyedStays(y, x);
    forall i | 0 <= i < |p|
      ensures SameAt(p, i, q)
    {
      CounterpartSame(x, y, i);
    }
    MergedUnites(x, y);
    MergedUnites(y, x);
    forall e | e in q
      ensures FindLike(p, e).Some?
    {
      assert SameID(e, e);
      assert Matches(q, e);
      assert Matches(p, e);
      var l :| l in p && SameID(l, e);
      assert SameID(e, l);
    }
  }

  lemma {:induction false} CounterpartSame(x: seq<Json>, y: seq<Json>, i: nat)
    requires Keyed(x) && Keyed(y) && AllSame(x, y) && i < |AllWith(x, y) + New(x, y)|
    ensures SameAt(AllWith(x, y) + New(x, y), i, AllWith(y, x) + New(y, x))
  {
    var p, q := AllWith(x, y) + New(x, y), AllWith(y, x) + New(y, x);
    var e := p[i];
    FindAppend(AllWith(y, x), New(y, x), e);
    FindInWith(y, x, e);
    if i < |x| {
      var u := x[i];
      assert u in x && e == With(u, y);
      WithKeepsID(u, y);
      SameByID(u, u, e);
      FindAlike(y, u, e);
      var r := FindLike(y, u);
      if r.Some? {
        assert SameID(r.value, u);
        OnlyOneLike(x, r.value, u);
      } else {
        FindInNew(y, x, e);
        OnlyOneLike(x, u, u);
        SameSelf(u);
      }
    } else {
      var v := New(x, y)[i - |x|];
      assert v in New(x, y);
      InNew(x, y);
      OnlyOneLike(y, v, v);
      NotMatched(x, v);
      SameSelf(v);
    }
  }

  lemma {:induction false} NotMatched(x: seq<Json>, v: Json)
    requires !Matches(x, v)
    ensures FindLike(x, v).None?
  {
    var r := FindLike(x, v);
    assert r.Some? ==> SameID(r.value, v);
  }

  lemma {:induction false} MergedIs(a: Object, b: Object)
    requires Fits(JObj(a), JObj(b))
    ensures JObj(Merge(a, b)) == Overlay(JObj(a), JObj(b))
  {
    MergeIsOverlay(JObj(a), JObj(b));
  }

  /**
   * mergeMaps is idempotent; commutative up to the order of lists where the two sides agree; and associative. Each holds
   * of all maps whose own lists go together pairwise: nothing is asked of what has been merged already.
   */
  lemma {:induction false} Laws(a: Object, b: Object, c: Object)
    ensures Fits(JObj(a), JObj(a)) ==> Merge(a, a) == a
    ensures Regular(JObj(a), JObj(b)) && Regular(JObj(b), JObj(a)) && Agree(JObj(a), JObj(b)) ==> Same(JObj(Merge(a, b)), JObj(Merge(b, a)))
    ensures Regular(JObj(a), JObj(b)) && Regular(JObj(b), JObj(c)) && Regular(JObj(a), JObj(c)) ==> Merge(Merge(a, b), c) == Merge(a, Merge(b, c))
  {
    if Fits(JObj(a), JObj(a)) {
      MergedIs(a, a);
      OverlayIdempotent(JObj(a));
    }
    if Regular(JObj(a), JObj(b)) && Regular(JObj(b), JObj(a)) && Agree(JObj(a), JObj(b)) {
      RegularFits(JObj(a), JObj(b));
      RegularFits(JObj(b), JObj(a));
      MergedIs(a, b);
      MergedIs(b, a);
      OverlayCommutative(JObj(a), JObj(b));
    }
    if Regular(JObj(a), JObj(b)) && Regular(JObj(b), JObj(c)) && Regular(JObj(a), JObj(c)) {
      MergeAssociative(a, b, c);
    }
  }

  lemma {:induction false} MergeAssociative(a: Object, b: Object, c: Object)
    requires Regular(JObj(a), JObj(b)) && Regular(JObj(b), JObj(c)) && Regular(JObj(a), JObj(c))
    ensures Merge(Merge(a, b), c) == Merge(a, Merge(b, c))
  {
    RegularFits(JObj(a), JObj(b));
    RegularFits(JObj(b), JObj(c));
    MergedIs(a, b);
    MergedIs(b, c);
    RegularLeft(JObj(a), JObj(b), JObj(c));
    RegularRight(JObj(a), JObj(b), JObj(c));
    RegularFits(JObj(Merge(a, b)), JObj(c));
    RegularFits(JObj(a), JObj(Merge(b, c)));
    MergedIs(Merge(a, b), c);
    MergedIs(a, Merge(b, c));
    OverlayAssociative(JObj(a), JObj(b), JObj(c));
  }
}
