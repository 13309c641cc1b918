/** What the callers of common.AsyncMapReduce rely on: the reduce function folded over all results in some order. */
module Async {
  import opened Prelude
  import opened AsyncMapReduce

  /** The value at some position arrives with that position's tag. */
  ghost predicate ArrivedFrom<P, Q>(mapped: seq<Result<P>>, tags: seq<Q>, value: P, tag: Q) {
    exists j :: 0 <= j < |mapped| && j < |tags| && mapped[j] == Ok(value) && tags[j] == tag
  }

  function Pick<Q>(tags: seq<Q>, order: seq<nat>): (picked: seq<Q>)
    requires forall i :: 0 <= i < |order| ==> order[i] < |tags|
    ensures |picked| == |order|
  {
    seq(|order|, i requires 0 <= i < |order| => tags[order[i]])
  }

  lemma {:induction false} PickPermuted<Q>(tags: seq<Q>, a: seq<nat>, b: seq<nat>)
    requires forall i :: 0 <= i < |a| ==> a[i] < |tags|
    requires forall i :: 0 <= i < |b| ==> b[i] < |tags|
    requires multiset(a) == multiset(b)
    ensures multiset(Pick(tags, a)) == multiset(Pick(tags, b))
    decreases |a|
  {
    if a == [] {
      assert |multiset(b)| == 0;
    } else {
      var front, last := a[..|a| - 1], a[|a| - 1];
      assert a == front + [last];
      var k := LastIn(a, b);
      PickPermuted(tags, front, Without(b, k));
      assert Pick(tags, a) == Pick(tags, front) + [tags[last]];
      assert Pick(tags, Without(b, k)) == Without(Pick(tags, b), k);
    }
  }

  /** Every position once, in any order, picks every tag once. */
  lemma {:induction false} PickAll<Q>(tags: seq<Q>, order: seq<nat>)
    requires Distinct(order) && forall i :: 0 <= i < |order| ==> order[i] < |tags|
    requires forall i: nat :: i < |tags| ==> i in order
    ensures multiset(Pick(tags, order)) == multiset(tags)
  {
    var all: seq<nat> := seq(|tags|, i requires 0 <= i < |tags| => i);
    forall x
      ensures x in order <==> x in all
    {
      if x in order {
        var i :| 0 <= i < |order| && order[i] == x;
        assert all[x] == x;
      }
    }
    SameBag(order, all);
    PickPermuted(tags, order, all);
    assert Pick(tags, all) == tags;
  }

  /**
   * AsyncMapReduce as its callers see it: it fails exactly when some item does; otherwise it returns the reduce function
   * folded over all mapped values, each once, in their order of arrival. The tags say which item each arrival came from.
   */
  method Gather<P, A, Q>(mapped: seq<Result<P>>, init: A, reduce: (A, P) -> A, ghost tags: seq<Q>)
    returns (r: Result<A>, ghost values: seq<P>, ghost arrived: seq<Q>)
    requires |tags| == |mapped|
    ensures r.Ok? <==> forall j :: 0 <= j < |mapped| ==> mapped[j].Ok?
    ensures r.Ok? ==> r.value == Folded(init, reduce, values)
    ensures r.Ok? ==> multiset(arrived) == multiset(tags)
    ensures r.Ok? ==> |values| == |arrived| && forall i :: 0 <= i < |arrived| ==> ArrivedFrom(mapped, tags, values[i], arrived[i])
  {
    var p := Problem(mapped, init, reduce, reason => [reason]);
    var acc, errs;
    ghost var events, states;
    acc, errs, events, states := Run(p);
    Returns(p, events, states);
    ghost var order := states[|events|].received;
    ErrorsExact(p, order);
    values, arrived := [], [];
    if |errs| > 0 {
      return Err("some item failed"), values, arrived;
    }
    forall j | 0 <= j < |mapped|
      ensures mapped[j].Ok?
    {
      assert j in order;
    }
    FoldIsFolded(p, order);
    values, arrived := ValuesOf(p, order), Pick(tags, order);
    PickAll(tags, order);
    forall i | 0 <= i < |arrived|
      ensures ArrivedFrom(mapped, tags, values[i], arrived[i])
    {
      assert mapped[order[i]] == Ok(values[i]) && tags[order[i]] == arrived[i];
    }
    return Ok(acc), values, arrived;
  }
}
