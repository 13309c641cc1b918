/** When no order in which Clean visits its entries, or tries their candidate types, makes any difference. */
module ScrubConfluence {
  import opened Prelude
  import opened Text
  import opened Json
  import opened Schema
  import opened Scrubbing
  import opened ScrubChoice
  import opened ScrubCommute

  /** A payload in whose lists no erasure can leave an object empty: if a list holds objects, one has a key nothing touches. */
  ghost predicate Anchored(v: Json, touched: set<string>)
    decreases v
  {
    match v
    case JNull => true
    case JScalar(_) => true
    case JList(items) =>
      && (forall i :: 0 <= i < |items| ==> Anchored(items[i], touched))
      && ((exists i :: 0 <= i < |items| && items[i].JObj?) ==> exists i :: 0 <= i < |items| && Stable(items[i], touched))
    case JObj(m) => (TYPENAME in m ==> m[TYPENAME].JScalar?) && forall k :: k in m ==> Anchored(m[k], touched)
  }

  ghost predicate Stable(v: Json, touched: set<string>) {
    v.JObj? && exists k :: k in v.fields && k !in touched
  }

  /** An erasure that goes through and erases only touched keys. */
  ghost predicate Within(p: seq<string>, f: map<string, seq<string>>, touched: set<string>) {
    (forall i :: 0 <= i < |p| ==> p[i] in touched) && forall t :: t in f ==> ToSet(f[t]) <= touched
  }

  /** Payloads without lists are anchored whatever is touched. */
  ghost predicate ListFree(v: Json)
    decreases v
  {
    match v
    case JNull => true
    case JScalar(_) => true
    case JList(_) => false
    case JObj(m) => (TYPENAME in m ==> m[TYPENAME].JScalar?) && forall k :: k in m ==> ListFree(m[k])
  }

  lemma {:induction false} ListFreeAnchored(v: Json, touched: set<string>)
    requires ListFree(v)
    ensures Anchored(v, touched)
    decreases v
  {
    if v.JObj? {
      forall k | k in v.fields
        ensures Anchored(v.fields[k], touched)
      {
        ListFreeAnchored(v.fields[k], touched);
      }
    }
  }

  lemma {:induction false} AnchoredNames(v: Json, touched: set<string>)
    requires Anchored(v, touched)
    ensures NamesTypes(v)
    decreases v
  {
    match v
    case JNull =>
    case JScalar(_) =>
    case JList(items) =>
      forall i | 0 <= i < |items|
        ensures NamesTypes(items[i])
      {
        AnchoredNames(items[i], touched);
      }
    case JObj(m) =>
      forall k | k in m
        ensures NamesTypes(m[k])
      {
        AnchoredNames(m[k], touched);
      }
  }

  /** A key that nothing touches stays, with its value. */
  lemma {:induction false} StableStays(payload: Object, p: seq<string>, f: map<string, seq<string>>,
                                       touched: set<string>, k: string)
    requires Within(p, f, touched) && k in payload && k !in touched
    ensures k in CleanAt(payload, p, f).payload && CleanAt(payload, p, f).payload[k] == payload[k] && !CleanAt(payload, p, f).empty
  {
    if p == [] {
      assert Doomed(payload, f) <= touched;
    } else {
      assert p[0] in touched;
    }
  }

  lemma {:induction false} AnchoredStays(payload: Object, p: seq<string>, f: map<string, seq<string>>, touched: set<string>)
    requires Anchored(JObj(payload), touched) && Within(p, f, touched)
    ensures Anchored(JObj(CleanAt(payload, p, f).payload), touched)
    decreases |p|, 1
  {
    if p != [] && p[0] in payload {
      assert Anchored(payload[p[0]], touched);
      ValueStays(payload[p[0]], p, f, touched);
      if p[0] == TYPENAME {
        Untouched(payload, p, f);
      }
    }
  }

  lemma {:induction false} ValueStays(v: Json, p: seq<string>, f: map<string, seq<string>>, touched: set<string>)
    requires p != [] && Anchored(v, touched) && Within(p, f, touched)
    ensures Anchored(CleanValue(v, p, f).0, touched)
    decreases |p|, 0
  {
    assert Within(p[1..], f, touched);
    match v
    case JObj(m) => AnchoredStays(m, p[1..], f, touched);
    case JList(items) =>
      var after := CleanItems(items, p, f);
      assert CleanValue(v, p, f).0 == JList(after);
      forall i | 0 <= i < |items|
        ensures Anchored(after[i], touched) && after[i].JObj? == items[i].JObj?
        ensures Stable(items[i], touched) ==> Stable(after[i], touched)
      {
        assert after[i] == CleanItem(items[i], p, f) && Anchored(items[i], touched);
        if items[i].JObj? {
          AnchoredStays(items[i].fields, p[1..], f, touched);
          if Stable(items[i], touched) {
            var k :| k in items[i].fields && k !in touched;
            StableStays(items[i].fields, p[1..], f, touched, k);
          }
        }
      }
      if exists i :: 0 <= i < |after| && after[i].JObj? {
        var i :| 0 <= i < |after| && after[i].JObj?;
        assert items[i].JObj?;
        var j :| 0 <= j < |items| && Stable(items[j], touched);
        assert Stable(after[j], touched);
      }
    case JScalar(_) =>
    case JNull =>
  }

  /** Erasures are harmless to each other in an anchored payload. */
  lemma {:induction false} AnchoredHarmless(payload: Object, p: seq<string>, f: map<string, seq<string>>,
                                        q: seq<string>, g: map<string, seq<string>>, touched: set<string>)
    requires Anchored(JObj(payload), touched) && Within(p, f, touched) && Within(q, g, touched)
    ensures Harmless(payload, p, f, q, g)
    decreases |p|
  {
    if p != [] && q != [] && p[0] == q[0] && p[0] in payload {
      assert Within(p[1..], f, touched) && Within(q[1..], g, touched);
      assert Anchored(payload[p[0]], touched);
      match payload[p[0]]
      case JObj(m) => AnchoredHarmless(m, p[1..], f, q[1..], g, touched);
      case JList(items) =>
        forall i | 0 <= i < |items| && items[i].JObj?
          ensures Harmless(items[i].fields, p[1..], f, q[1..], g)
        {
          assert Anchored(items[i], touched);
          AnchoredHarmless(items[i].fields, p[1..], f, q[1..], g, touched);
        }
        ListStays(items, p, f, q, g, touched);
      case JScalar(_) =>
      case JNull =>
    }
  }

  lemma {:induction false} ListStays(items: seq<Json>, p: seq<string>, f: map<string, seq<string>>, q: seq<string>,
                                     g: map<string, seq<string>>, touched: set<string>)
    requires p != [] && q != [] && Anchored(JList(items), touched) && Within(p[1..], f, touched) && Within(q[1..], g, touched)
    ensures AllTogether(items, p, f, q, g) ==> Evenly(items, p, f, q) && Evenly(items, q, g, p)
  {
    if exists i :: 0 <= i < |items| && items[i].JObj? {
      var j :| 0 <= j < |items| && Stable(items[j], touched);
      StableKeeps(items[j].fields, p[1..], f, q[1..], g, touched);
    }
  }

  /** An object with a key that nothing touches is not emptied. */
  lemma {:induction false} StableKeeps(payload: Object, p: seq<string>, f: map<string, seq<string>>, q: seq<string>,
                                       g: map<string, seq<string>>, touched: set<string>)
    requires Stable(JObj(payload), touched) && Within(p, f, touched) && Within(q, g, touched)
    ensures !Together(payload, p, f, q, g)
  {
    var k :| k in payload && k !in touched;
    assert k !in KeyTaken(payload, p, f) && k !in KeyTaken(payload, q, g);
    assert (forall t :: t in f ==> k !in ToSet(f[t])) && (forall t :: t in g ==> k !in ToSet(g[t]));
    assert k in payload.Keys;
  }

  /** Two entries on an anchored payload leave the same in either order. */
  lemma {:induction false} CommuteAnchored(payload: Object, p: seq<string>, f: map<string, seq<string>>, q: seq<string>,
                                        g: map<string, seq<string>>, touched: set<string>, x: Object, y: Object)
    requires Anchored(JObj(payload), touched) && Within(p, f, touched) && Within(q, g, touched) && p != q
    requires Settled(payload, p, f) && Settled(payload, q, g)
    requires MayCleanBoth(payload, p, f, q, g, x) && MayCleanBoth(payload, q, g, p, f, y)
    ensures x == y
  {
    AnchoredNames(JObj(payload), touched);
    AnchoredHarmless(payload, p, f, q, g, touched);
    CommuteExact(payload, p, f, q, g, x, y);
  }

  /** No entry goes through or erases a key that is not touched. */
  ghost predicate AllWithin(entries: Entries, touched: set<string>) {
    forall key :: key in entries ==> Within(Unhash(key), entries[key], touched)
  }

  /** The keys that entries go through or erase. */
  function Touched(entries: Entries): set<string> {
    (set key, x | key in entries && x in Unhash(key) :: x)
    + (set key, t, x | key in entries && t in entries[key] && x in entries[key][t] :: x)
  }

  lemma TouchedWithin(entries: Entries)
    ensures AllWithin(entries, Touched(entries))
  {
    var touched := Touched(entries);
    forall key | key in entries
      ensures Within(Unhash(key), entries[key], touched)
    {
      forall x | x in Unhash(key)
        ensures x in touched
      {
      }
      forall t | t in entries[key]
        ensures ToSet(entries[key][t]) <= touched
      {
      }
    }
  }

  lemma {:induction false} AllAnchored(payload: Object, keys: seq<string>, entries: Entries, touched: set<string>)
    requires Anchored(JObj(payload), touched) && AllWithin(entries, touched) && Known(keys, entries)
    ensures Anchored(JObj(CleanAll(payload, keys, entries)), touched)
  {
    if keys != [] {
      var front, last := keys[..|keys| - 1], keys[|keys| - 1];
      AllAnchored(payload, front, entries, touched);
      AnchoredStays(CleanAll(payload, front, entries), Unhash(last), entries[last], touched);
    }
  }

  /** Different keys are different paths. */
  lemma {:induction false} JoinSplit(s: string)
    ensures Join(Split(s, '.'), '.') == s
    decreases |s|
  {
    var i := Position(s, '.');
    if i < |s| {
      JoinSplit(s[i + 1..]);
      assert Split(s, '.')[1..] == Split(s[i + 1..], '.');
      assert s == s[..i] + ['.'] + s[i + 1..];
    }
  }

  /** One entry erased. */
  ghost function Erase(payload: Object, key: string, entries: Entries): Object
    requires key in entries
  {
    CleanAt(payload, Unhash(key), entries[key]).payload
  }

  lemma {:induction false} CleanSnoc(payload: Object, keys: seq<string>, key: string, entries: Entries)
    requires key in entries && forall i :: 0 <= i < |keys| ==> keys[i] in entries
    ensures CleanAll(payload, keys + [key], entries) == Erase(CleanAll(payload, keys, entries), key, entries)
  {
    assert (keys + [key])[..|keys|] == keys;
  }

  /** The candidate types of every entry agree on every object that the entry ends at. */
  ghost predicate SettledEach(payload: Object, entries: Entries) {
    forall key :: key in entries ==> Settled(payload, Unhash(key), entries[key])
  }

  ghost predicate Known(keys: seq<string>, entries: Entries) {
    forall i :: 0 <= i < |keys| ==> keys[i] in entries
  }

  /** Agreed at the start is agreed throughout, in every order. */
  lemma {:induction false} SettledThroughout(payload: Object, keys: seq<string>, entries: Entries, touched: set<string>)
    requires Anchored(JObj(payload), touched) && AllWithin(entries, touched) && SettledEach(payload, entries)
    requires Distinct(keys) && Known(keys, entries)
    ensures SettledAll(payload, keys, entries)
    ensures forall key :: key in entries && key !in keys ==> Settled(CleanAll(payload, keys, entries), Unhash(key), entries[key])
  {
    if keys != [] {
      var front, last := keys[..|keys| - 1], keys[|keys| - 1];
      SettledThroughout(payload, front, entries, touched);
      var before := CleanAll(payload, front, entries);
      AllAnchored(payload, front, entries, touched);
      AnchoredNames(JObj(before), touched);
      assert last !in front;
      forall key | key in entries && key !in keys
        ensures Settled(CleanAll(payload, keys, entries), Unhash(key), entries[key])
      {
        assert last in keys && forall x :: x in front ==> x in keys;
        JoinSplit(key);
        JoinSplit(last);
        SettledStays(before, Unhash(last), entries[last], Unhash(key), entries[key]);
      }
    }
  }

  lemma {:induction false} Swap(payload: Object, k: string, l: string, entries: Entries, touched: set<string>)
    requires Anchored(JObj(payload), touched) && AllWithin(entries, touched) && k != l && k in entries && l in entries
    requires Settled(payload, Unhash(k), entries[k]) && Settled(payload, Unhash(l), entries[l])
    ensures Erase(Erase(payload, k, entries), l, entries) == Erase(Erase(payload, l, entries), k, entries)
  {
    JoinSplit(k);
    JoinSplit(l);
    var p, f, q, g := Unhash(k), entries[k], Unhash(l), entries[l];
    SomeBoth(payload, p, f, q, g);
    SomeBoth(payload, q, g, p, f);
    CommuteAnchored(payload, p, f, q, g, touched, Erase(Erase(payload, k, entries), l, entries), Erase(Erase(payload, l, entries), k, entries));
  }

  /** One more entry after both. */
  lemma {:induction false} SwapLast(payload: Object, rest: seq<string>, k: string, last: string, entries: Entries,
                                    touched: set<string>)
    requires Anchored(JObj(payload), touched) && AllWithin(entries, touched) && SettledEach(payload, entries)
    requires k != last && k in entries && last in entries && Known(rest, entries)
    requires Distinct(rest) && k !in rest && last !in rest
    ensures Erase(CleanAll(payload, rest + [last], entries), k, entries)
            == Erase(Erase(CleanAll(payload, rest, entries), k, entries), last, entries)
  {
    CleanSnoc(payload, rest, last, entries);
    AllAnchored(payload, rest, entries, touched);
    SettledThroughout(payload, rest, entries, touched);
    Swap(CleanAll(payload, rest, entries), k, last, entries, touched);
  }

  lemma KnownWithout(keys: seq<string>, k: nat, entries: Entries)
    requires Known(keys, entries) && k < |keys|
    ensures Known(Without(keys, k), entries)
  {
  }

  lemma ApartFromRest(keys: seq<string>, k: nat)
    requires Distinct(keys) && k < |keys| - 1
    ensures var rest, last := Without(keys[..|keys| - 1], k), keys[|keys| - 1];
            Distinct(rest) && keys[k] !in rest && last !in rest && keys[k] != last
  {
    var front := keys[..|keys| - 1];
    WithoutDistinct(front, k);
    InWithout(front, k);
  }

  /** An entry may as well be visited last. */
  lemma {:induction false} VisitLast(payload: Object, keys: seq<string>, k: nat, entries: Entries, touched: set<string>)
    requires Anchored(JObj(payload), touched) && AllWithin(entries, touched) && SettledEach(payload, entries)
    requires Distinct(keys) && k < |keys| && Known(keys, entries)
    ensures Known(Without(keys, k), entries)
    ensures CleanAll(payload, keys, entries) == Erase(CleanAll(payload, Without(keys, k), entries), keys[k], entries)
    decreases |keys|
  {
    var front, last := keys[..|keys| - 1], keys[|keys| - 1];
    KnownWithout(keys, k, entries);
    if k == |keys| - 1 {
      assert Without(keys, k) == front;
    } else {
      VisitLast(payload, front, k, entries, touched);
      WithoutFront(keys, k);
      ApartFromRest(keys, k);
      SwapLast(payload, Without(front, k), keys[k], last, entries, touched);
    }
  }

  /** On anchored payloads any two orders of the entries leave the same payload, cascaded removal of parents included. */
  lemma {:induction false} AnyOrder(payload: Object, a: seq<string>, b: seq<string>, entries: Entries, touched: set<string>)
    requires Anchored(JObj(payload), touched) && AllWithin(entries, touched) && SettledEach(payload, entries)
    requires Distinct(a) && multiset(a) == multiset(b) && Known(a, entries) && Known(b, entries)
    ensures CleanAll(payload, a, entries) == CleanAll(payload, b, entries)
    decreases |a|
  {
    if a == [] {
      assert |multiset(b)| == 0;
    } else {
      var front, last := a[..|a| - 1], a[|a| - 1];
      assert a == front + [last];
      var k := LastIn(a, b);
      DistinctBag(a);
      BagDistinct(b, ToSet(a));
      CleanSnoc(payload, front, last, entries);
      VisitLast(payload, b, k, entries, touched);
      KnownWithout(b, k, entries);
      AnyOrder(payload, front, Without(b, k), entries, touched);
    }
  }

  /**
   * Scrubbing is confluent: on an anchored payload on whose objects the candidate types agree, any two runs of Clean,
   * whatever their orders of entries and of candidate types, leave the same payload.
   */
  lemma {:induction false} CleanConfluent(payload: Object, entries: Entries, touched: set<string>, a: seq<string>,
                                        x: Object, b: seq<string>, y: Object)
    requires Anchored(JObj(payload), touched) && AllWithin(entries, touched) && SettledEach(payload, entries)
    requires OrderOf(a, entries) && MayCleanAll(payload, a, entries, x)
    requires OrderOf(b, entries) && MayCleanAll(payload, b, entries, y)
    ensures x == y
  {
    SettledThroughout(payload, a, entries, touched);
    SettledThroughout(payload, b, entries, touched);
    SettledAllOnce(payload, a, entries, x);
    SettledAllOnce(payload, b, entries, y);
    SameBag(a, b);
    AnyOrder(payload, a, b, entries, touched);
  }

  /** The same for payloads without lists, whatever the entries are. */
  lemma {:induction false} ListFreeConfluent(payload: Object, entries: Entries, a: seq<string>, x: Object,
                                        b: seq<string>, y: Object)
    requires ListFree(JObj(payload)) && SettledEach(payload, entries)
    requires OrderOf(a, entries) && MayCleanAll(payload, a, entries, x)
    requires OrderOf(b, entries) && MayCleanAll(payload, b, entries, y)
    ensures x == y
  {
    var touched := Touched(entries);
    TouchedWithin(entries);
    ListFreeAnchored(JObj(payload), touched);
    CleanConfluent(payload, entries, touched, a, x, b, y);
  }
}
