/** Selection sets and query plan steps: the planner's input and output. */
module Selection {
  import opened Schema

  /** A field with its response alias ("" when it has none) and the raw text of its arguments, or an inline fragment. */
  datatype Sel =
    | Field(alias: string, name: string, args: seq<string>, typ: TypeRef, sub: seq<Sel>)
    | Inline(cond: string, sub: seq<Sel>)

  datatype Step = Step(url: string, parentType: string, sel: seq<Sel>, ip: seq<string>, thens: seq<Step>)

  function Size(sels: seq<Sel>): (n: nat)
    ensures sels != [] ==> n > 0
  {
    if sels == [] then 0 else Size(sels[..|sels| - 1]) + 1 + Size(sels[|sels| - 1].sub)
  }

  lemma SizeOfOne(s: Sel)
    ensures Size([s]) == 1 + Size(s.sub)
  {
    assert [s][..0] == [];
  }

  /** The key under which a field's value appears in a response. */
  function Key(f: Sel): string
    requires f.Field?
  {
    if f.alias != "" then f.alias else f.name
  }

  function WithSub(f: Sel, sub: seq<Sel>): (g: Sel)
    requires f.Field?
    ensures g.Field? && Key(g) == Key(f)
  {
    Field(f.alias, f.name, f.args, f.typ, sub)
  }

  predicate AllFields(sels: seq<Sel>) {
    forall i :: 0 <= i < |sels| ==> sels[i].Field?
  }

  ghost predicate UniqueKeys(sels: seq<Sel>) {
    && AllFields(sels)
    && forall i, j :: 0 <= i < j < |sels| ==> Key(sels[i]) != Key(sels[j])
  }

  function Keys(sels: seq<Sel>): (keys: set<string>)
    ensures AllFields(sels) ==> forall i :: 0 <= i < |sels| ==> Key(sels[i]) in keys
    ensures forall k :: k in keys ==> exists i :: 0 <= i < |sels| && sels[i].Field? && Key(sels[i]) == k
  {
    set i | 0 <= i < |sels| && sels[i].Field? :: Key(sels[i])
  }

  /** The first field answering under a key. */
  function At(sels: seq<Sel>, key: string): (f: Sel)
    requires key in Keys(sels)
    ensures f in sels && f.Field? && Key(f) == key
  {
    if sels[0].Field? && Key(sels[0]) == key then sels[0]
    else
      var i :| 0 <= i < |sels| && sels[i].Field? && Key(sels[i]) == key;
      assert sels[1..][i - 1] == sels[i];
      At(sels[1..], key)
  }

  lemma {:induction false} AtUnique(sels: seq<Sel>, f: Sel)
    requires UniqueKeys(sels) && f in sels
    ensures Key(f) in Keys(sels) && At(sels, Key(f)) == f
  {
    var i :| 0 <= i < |sels| && sels[i] == f;
    var g := At(sels, Key(f));
    var j :| 0 <= j < |sels| && sels[j] == g;
    assert i == j;
  }

  predicate HasFieldNamed(sels: seq<Sel>, name: string) {
    exists i :: 0 <= i < |sels| && sels[i].Field? && sels[i].name == name
  }

  /** The id asked for under its own name, so that it can be found in the answer. */
  predicate HasIdKey(sels: seq<Sel>) {
    exists i :: 0 <= i < |sels| && sels[i].Field? && sels[i].name == ID && Key(sels[i]) == ID
  }

  /** common.SelectionSetToFields without a parent definition: fragments are opened in place. */
  function ToFields(sels: seq<Sel>): (fields: seq<Sel>)
    ensures AllFields(fields)
    decreases Size(sels)
  {
    if sels == [] then []
    else
      var last := sels[|sels| - 1];
      ToFields(sels[..|sels| - 1]) + if last.Field? then [last] else ToFields(last.sub)
  }

  lemma {:induction false} ToFieldsOfFields(sels: seq<Sel>)
    requires AllFields(sels)
    ensures ToFields(sels) == sels
  {
    if sels != [] {
      ToFieldsOfFields(sels[..|sels| - 1]);
      assert sels == sels[..|sels| - 1] + [sels[|sels| - 1]];
    }
  }
}
