/** JSON payloads, and addresses inside them. */
module Json {
  import opened Prelude

  type Object = map<string, Json>

  /** A scalar is kept as the text the `%v` verb prints for it. */
  datatype Json = JNull | JScalar(text: string) | JList(items: seq<Json>) | JObj(fields: Object)

  predicate IsLeaf(v: Json) {
    v.JScalar? || v.JNull?
  }

  /** One step from an object to an object below it: a key, and a position when the key holds a list. */
  datatype Pt = Pt(key: string, index: Option<nat>)

  /** The object below obj at pt, if there is one. */
  function Child(obj: Object, pt: Pt): Option<Object> {
    if pt.key !in obj then None
    else match (obj[pt.key], pt.index)
      case (JObj(m), None) => Some(m)
      case (JList(items), Some(i)) => if i < |items| && items[i].JObj? then Some(items[i].fields) else None
      case _ => None
  }

  /** obj with the object at pt replaced. */
  function WithChild(obj: Object, pt: Pt, child: Object): Object
    requires Child(obj, pt).Some?
  {
    match pt.index
    case None => obj[pt.key := JObj(child)]
    case Some(i) => obj[pt.key := JList(obj[pt.key].items[i := JObj(child)])]
  }

  function Reach(obj: Object, at: seq<Pt>): Option<Object>
    decreases |at|
  {
    if at == [] then Some(obj)
    else match Child(obj, at[0])
      case None => None
      case Some(m) => Reach(m, at[1..])
  }

  /** obj with the object at an address replaced. */
  function WithAt(obj: Object, at: seq<Pt>, new_: Object): Object
    requires Reach(obj, at).Some?
    decreases |at|
  {
    if at == [] then new_
    else WithChild(obj, at[0], WithAt(Child(obj, at[0]).value, at[1..], new_))
  }

  function KeysOf(at: seq<Pt>): (keys: seq<string>)
    ensures |keys| == |at|
  {
    seq(|at|, i requires 0 <= i < |at| => at[i].key)
  }

  lemma WithChildSame(obj: Object, pt: Pt)
    requires Child(obj, pt).Some?
    ensures WithChild(obj, pt, Child(obj, pt).value) == obj
  {
    var v := obj[pt.key];
    assert obj[pt.key := v] == obj;
    if pt.index.Some? {
      var i := pt.index.value;
      assert v.items[i := v.items[i]] == v.items;
    }
  }

  lemma {:induction false} WithAtSame(obj: Object, at: seq<Pt>)
    requires Reach(obj, at).Some?
    ensures WithAt(obj, at, Reach(obj, at).value) == obj
    decreases |at|
  {
    if at != [] {
      WithAtSame(Child(obj, at[0]).value, at[1..]);
      WithChildSame(obj, at[0]);
    }
  }

  lemma WithChildTwice(obj: Object, pt: Pt, x: Object, y: Object)
    requires Child(obj, pt).Some?
    ensures Child(WithChild(obj, pt, x), pt) == Some(x)
    ensures WithChild(WithChild(obj, pt, x), pt, y) == WithChild(obj, pt, y)
  {
    if pt.index.Some? {
      var items, i := obj[pt.key].items, pt.index.value;
      assert items[i := JObj(x)][i := JObj(y)] == items[i := JObj(y)];
    }
  }

  /** Two objects that differ at most in the child at pt. */
  predicate SameBut(a: Object, b: Object, pt: Pt) {
    && a.Keys == b.Keys
    && (forall k :: k in a && k != pt.key ==> a[k] == b[k])
    && (pt.key in a && pt.index.Some? && a[pt.key].JList? && pt.index.value < |a[pt.key].items| ==>
          && b[pt.key].JList? && |b[pt.key].items| == |a[pt.key].items|
          && b[pt.key].items == a[pt.key].items[pt.index.value := b[pt.key].items[pt.index.value]])
  }

  lemma SameButIsWithChild(a: Object, b: Object, pt: Pt)
    requires SameBut(a, b, pt) && Child(a, pt).Some? && Child(b, pt).Some?
    ensures b == WithChild(a, pt, Child(b, pt).value)
  {
    assert b[pt.key] == WithChild(a, pt, Child(b, pt).value)[pt.key];
  }
}
