/** Results that can fail, and facts about finite sequences used by every other module. */
module Prelude {

  datatype Option<+T> = None | Some(value: T)

  /** A Go function's `(value, error)` pair. Only the kind of failure is kept, as a short text. */
  datatype Result<+T> = Ok(value: T) | Err(reason: string) {
    predicate IsFailure() {
      Err?
    }

    function PropagateFailure<U>(): Result<U>
      requires Err?
    {
      Err(reason)
    }

    function Extract(): T
      requires Ok?
    {
      value
    }
  }

  ghost predicate Distinct<T>(s: seq<T>) {
    forall i, j :: 0 <= i < j < |s| ==> s[i] != s[j]
  }

  lemma Regroup<T>(a: seq<T>, b: seq<T>, c: seq<T>)
    ensures a + b + c == a + (b + c)
  {
  }

  lemma InSnoc<T>(s: seq<T>)
    requires s != []
    ensures forall x :: x in s <==> x in s[..|s| - 1] || x == s[|s| - 1]
  {
    assert s == s[..|s| - 1] + [s[|s| - 1]];
  }

  lemma DistinctSnoc<T>(s: seq<T>, x: T)
    requires Distinct(s) && x !in s
    ensures Distinct(s + [x])
  {
    var t := s + [x];
    forall i, j | 0 <= i < j < |t|
      ensures t[i] != t[j]
    {
      assert s[i] in s;
    }
  }

  function Flatten<T>(s: seq<seq<T>>): seq<T> {
    if s == [] then [] else Flatten(s[..|s| - 1]) + s[|s| - 1]
  }

  lemma {:induction false} FlattenAppend<T>(s: seq<seq<T>>, x: seq<T>)
    ensures Flatten(s + [x]) == Flatten(s) + x
  {
    assert (s + [x])[..|s|] == s;
  }

  lemma {:induction false} InFlatten<T>(s: seq<seq<T>>, x: T)
    ensures x in Flatten(s) <==> exists i :: 0 <= i < |s| && x in s[i]
  {
    if s != [] {
      var front, last := s[..|s| - 1], s[|s| - 1];
      InFlatten(front, x);
      assert x in Flatten(s) <==> x in Flatten(front) || x in last;
      if x in Flatten(front) {
        var i :| 0 <= i < |front| && x in front[i];
        assert x in s[i];
      }
      if x !in Flatten(front) {
        assert forall i :: 0 <= i < |front| ==> x !in front[i] && front[i] == s[i];
      }
    }
  }

  /** A sequence without its element at k. */
  function Without<T>(s: seq<T>, k: nat): (r: seq<T>)
    requires k < |s|
    ensures |r| == |s| - 1
    ensures multiset(s) == multiset(r) + multiset{s[k]}
  {
    assert s == s[..k] + [s[k]] + s[k + 1..];
    s[..k] + s[k + 1..]
  }

  lemma InWithout<T>(s: seq<T>, k: nat)
    requires k < |s|
    ensures forall x :: x in s <==> x in Without(s, k) || x == s[k]
  {
    forall x
      ensures x in s <==> x in Without(s, k) || x == s[k]
    {
      assert x in s <==> x in multiset(s);
      assert x in Without(s, k) <==> x in multiset(Without(s, k));
    }
  }

  lemma PrefixBag<T>(s: seq<T>, n: nat)
    requires n < |s|
    ensures s[..n + 1] == s[..n] + [s[n]]
    ensures multiset(s[..n + 1]) == multiset(s[..n]) + multiset{s[n]}
  {
  }

  /** Taking an element out before the last one. */
  lemma WithoutFront<T>(s: seq<T>, k: nat)
    requires k < |s| - 1
    ensures Without(s, k) == Without(s[..|s| - 1], k) + [s[|s| - 1]]
  {
  }

  /** The last element of a sequence, found in a permutation of it. */
  lemma LastIn<T>(a: seq<T>, b: seq<T>) returns (k: nat)
    requires a != [] && multiset(a) == multiset(b)
    ensures k < |b| && b[k] == a[|a| - 1]
    ensures multiset(a[..|a| - 1]) == multiset(Without(b, k))
  {
    var front, last := a[..|a| - 1], a[|a| - 1];
    assert a == front + [last];
    assert last in multiset(b);
    k :| 0 <= k < |b| && b[k] == last;
    assert multiset(front) == multiset(a) - multiset{last};
    assert multiset(Without(b, k)) == multiset(b) - multiset{last};
  }

  lemma WithoutDistinct<T>(s: seq<T>, k: nat)
    requires Distinct(s) && k < |s|
    ensures Distinct(Without(s, k)) && s[k] !in Without(s, k)
  {
    var rest := Without(s, k);
    assert forall i :: 0 <= i < |rest| ==> rest[i] == s[if i < k then i else i + 1];
  }

  lemma {:induction false} FlattenBag<T>(s: seq<seq<T>>, x: seq<T>)
    ensures multiset(Flatten(s + [x])) == multiset(Flatten(s)) + multiset(x)
  {
    FlattenAppend(s, x);
  }

  lemma {:induction false} FlattenWithout<T>(s: seq<seq<T>>, k: nat)
    requires k < |s|
    ensures multiset(Flatten(s)) == multiset(Flatten(Without(s, k))) + multiset(s[k])
  {
    var front, last := s[..|s| - 1], s[|s| - 1];
    assert s == front + [last];
    FlattenBag(front, last);
    if k == |s| - 1 {
      assert Without(s, k) == front;
    } else {
      FlattenWithout(front, k);
      var rest := Without(front, k);
      WithoutFront(s, k);
      FlattenBag(rest, last);
    }
  }

  /** Flattening in another order gives the same elements. */
  lemma {:induction false} FlattenPermuted<T>(a: seq<seq<T>>, b: seq<seq<T>>)
    requires multiset(a) == multiset(b)
    ensures multiset(Flatten(a)) == multiset(Flatten(b))
    decreases |a|
  {
    if a == [] {
      assert |multiset(b)| == 0;
    } else {
      var front, last := a[..|a| - 1], a[|a| - 1];
      assert a == front + [last];
      var k := LastIn(a, b);
      FlattenWithout(b, k);
      FlattenPermuted(front, Without(b, k));
    }
  }

  function ToSet<T>(s: seq<T>): set<T> {
    set x | x in s
  }

  /** lo.Uniq: the first of equal elements is kept. */
  function Uniq<T(==, !new)>(s: seq<T>): (r: seq<T>)
    ensures Distinct(r)
    ensures forall x :: x in r <==> x in s
  {
    if s == [] then []
    else
      var front, last := Uniq(s[..|s| - 1]), s[|s| - 1];
      assert s == s[..|s| - 1] + [last];
      if last in front then front else front + [last]
  }

  lemma {:induction false} DistinctBag<T>(s: seq<T>)
    requires Distinct(s)
    ensures multiset(s) == multiset(ToSet(s))
  {
    if s != [] {
      var front, last := s[..|s| - 1], s[|s| - 1];
      DistinctBag(front);
      assert s == front + [last];
      assert ToSet(s) == ToSet(front) + {last};
      assert last !in ToSet(front);
    }
  }

  lemma SameBag<T>(a: seq<T>, b: seq<T>)
    requires Distinct(a) && Distinct(b) && forall x :: x in a <==> x in b
    ensures multiset(a) == multiset(b)
  {
    DistinctBag(a);
    DistinctBag(b);
    assert ToSet(a) == ToSet(b);
  }

  lemma BagDistinct<T>(s: seq<T>, t: set<T>)
    requires multiset(s) == multiset(t)
    ensures Distinct(s) && ToSet(s) == t
  {
    forall i, j | 0 <= i < j < |s|
      ensures s[i] != s[j]
    {
      assert s == s[..i] + [s[i]] + s[i + 1..j] + [s[j]] + s[j + 1..];
      assert multiset(s)[s[i]] <= 1;
    }
    forall x
      ensures x in ToSet(s) <==> x in t
    {
      assert x in s <==> x in multiset(s);
    }
  }
}
