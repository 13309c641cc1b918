/** What a selection asks for, field by field: the measure by which nothing of a query is lost, doubled or changed. */
module Asking {
  import opened Prelude
  import opened Schema
  import opened Selection

  /** A field with all its parts but the selections below it, and where its value appears in the response. */
  datatype Ask = Ask(path: seq<string>, alias: string, name: string, args: seq<string>, typ: TypeRef, leaf: bool)

  /** The fields of a selection whose object appears at a path, at every depth, fragments opened. */
  function Asks(path: seq<string>, sels: seq<Sel>): multiset<Ask>
    decreases sels
  {
    if sels == [] then multiset{} else Asks(path, sels[..|sels| - 1]) + AsksOf(path, sels[|sels| - 1])
  }

  function AsksOf(path: seq<string>, s: Sel): multiset<Ask>
    decreases s, 0
  {
    match s
    case Field(alias, name, args, typ, sub) =>
      var at := path + [if alias != "" then alias else name];
      multiset{Ask(at, alias, name, args, typ, sub == [])} + Asks(at, sub)
    case Inline(_, sub) => Asks(path, sub)
  }

  lemma {:induction false} AsksSnoc(path: seq<string>, sels: seq<Sel>, s: Sel)
    ensures Asks(path, sels + [s]) == Asks(path, sels) + AsksOf(path, s)
  {
    assert (sels + [s])[..|sels|] == sels;
  }

  lemma {:induction false} AsksAppend(path: seq<string>, a: seq<Sel>, b: seq<Sel>)
    ensures Asks(path, a + b) == Asks(path, a) + Asks(path, b)
  {
    if b == [] {
      assert a + b == a;
    } else {
      assert (a + b)[..|a + b| - 1] == a + b[..|b| - 1];
      AsksAppend(path, a, b[..|b| - 1]);
    }
  }

  lemma {:induction false} AsksOne(path: seq<string>, s: Sel)
    ensures Asks(path, [s]) == AsksOf(path, s)
  {
    assert [s][..0] == [];
  }

  /** Opening fragments in place changes nothing that is asked, and leaves fields only. */
  lemma {:induction false} OpeningAsks(path: seq<string>, sels: seq<Sel>)
    ensures Asks(path, ToFields(sels)) == Asks(path, sels)
    decreases Size(sels)
  {
    if sels != [] {
      var front, last := sels[..|sels| - 1], sels[|sels| - 1];
      OpeningAsks(path, front);
      if last.Field? {
        AsksSnoc(path, ToFields(front), last);
      } else {
        OpeningAsks(path, last.sub);
        AsksAppend(path, ToFields(front), ToFields(last.sub));
      }
    }
  }
}
