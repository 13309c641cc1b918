/** Splitting any selection set, fragments and unlocated fields included, loses, doubles and changes nothing. */
module Splitting {
  import opened Prelude
  import opened Schema
  import opened Selection
  import opened Planner
  import opened SequentialPlanner

  /** A field with its place in the response. */
  datatype Part = Part(path: seq<string>, alias: string, name: string, args: seq<string>, typ: TypeRef)

  /** The wrapping of what is asked of a node: `node(id: $id) { ... on typename { ... } }`. */
  predicate Wrapped(sels: seq<Sel>) {
    && |sels| == 1 && sels[0].Field? && sels[0].alias == "" && sels[0].name == "node" && sels[0].args == ["id"]
    && |sels[0].sub| == 1 && sels[0].sub[0].Inline?
  }

  /** The fields of a selection at every depth, through fragments and the wrapping of node queries. */
  function Parts(path: seq<string>, sels: seq<Sel>): multiset<Part>
    decreases sels, 1
  {
    if Wrapped(sels) then Parts(path, sels[0].sub[0].sub) else PartsEach(path, sels)
  }

  function PartsEach(path: seq<string>, sels: seq<Sel>): multiset<Part>
    decreases sels, 0
  {
    if sels == [] then multiset{} else PartsEach(path, sels[..|sels| - 1]) + PartsOf(path, sels[|sels| - 1])
  }

  function PartsOf(path: seq<string>, s: Sel): multiset<Part>
    decreases s
  {
    match s
    case Field(alias, name, args, typ, sub) =>
      var at := path + [if alias != "" then alias else name];
      multiset{Part(at, alias, name, args, typ)} + Parts(at, sub)
    case Inline(_, sub) => Parts(path, sub)
  }

  /** What a step and all steps after it ask, at their places. */
  function StepParts(s: Step): multiset<Part>
    decreases s, 1
  {
    Parts(s.ip, s.sel) + AllParts(s.thens)
  }

  function AllParts(steps: seq<Step>): multiset<Part>
    decreases steps, 0
  {
    if steps == [] then multiset{} else AllParts(steps[..|steps| - 1]) + StepParts(steps[|steps| - 1])
  }

  /** A client's selections: no lookup of a node, and fields with fields of their own have an alias, as the parser gives it. */
  ghost predicate Ready(sels: seq<Sel>)
    decreases sels
  {
    forall i :: 0 <= i < |sels| ==> ReadyOne(sels[i]) && Ready(sels[i].sub)
  }

  predicate ReadyOne(s: Sel) {
    s.Field? ==> s.name != NODE && (s.sub != [] ==> s.alias != "")
  }

  /** No element is called `node`. */
  predicate NoNode(sels: seq<Sel>) {
    forall i :: 0 <= i < |sels| ==> sels[i].Field? ==> sels[i].name != NODE
  }

  lemma {:induction false} PartsAre(path: seq<string>, sels: seq<Sel>)
    requires NoNode(sels)
    ensures Parts(path, sels) == PartsEach(path, sels)
  {
  }

  lemma {:induction false} PartsSnoc(path: seq<string>, sels: seq<Sel>, s: Sel)
    requires NoNode(sels) && NoNode([s])
    ensures NoNode(sels + [s])
    ensures Parts(path, sels + [s]) == Parts(path, sels) + PartsOf(path, s)
  {
    var all := sels + [s];
    assert s == [s][0];
    assert forall i :: 0 <= i < |all| ==> all[i] == if i < |sels| then sels[i] else s;
    PartsAre(path, sels);
    PartsAre(path, all);
    assert all[..|sels|] == sels;
  }

  lemma {:induction false} PartsWrapped(path: seq<string>, typename: string, sels: seq<Sel>)
    ensures Parts(path, NodeQuery(typename, sels)) == Parts(path, sels)
  {
    assert Wrapped(NodeQuery(typename, sels));
  }

  lemma {:induction false} AllAppend(a: seq<Step>, b: seq<Step>)
    ensures AllParts(a + b) == AllParts(a) + AllParts(b)
  {
    if b == [] {
      assert a + b == a;
    } else {
      assert (a + b)[..|a + b| - 1] == a + b[..|b| - 1];
      AllAppend(a, b[..|b| - 1]);
    }
  }

  lemma {:induction false} AllOne(s: Step)
    ensures AllParts([s]) == StepParts(s)
  {
    assert [s][..0] == [];
  }

  /** One step given more to ask. */
  lemma {:induction false} AllUpdate(steps: seq<Step>, i: nat, s: Step, more: multiset<Part>)
    requires i < |steps| && StepParts(s) == StepParts(steps[i]) + more
    ensures AllParts(steps[i := s]) == AllParts(steps) + more
  {
    var a, b := steps[..i], steps[i + 1..];
    assert steps == a + [steps[i]] + b && steps[i := s] == a + [s] + b;
    AllAppend(a + [steps[i]], b);
    AllAppend(a + [s], b);
    AllAppend(a, [steps[i]]);
    AllAppend(a, [s]);
    AllOne(steps[i]);
    AllOne(s);
    Later(AllParts(a), StepParts(steps[i]), more, AllParts(b));
  }

  lemma Later(a: multiset<Part>, b: multiset<Part>, c: multiset<Part>, d: multiset<Part>)
    ensures a + (b + c) + d == (a + b + d) + c
  {
  }

  /** A selection as splitting makes it: wrapped, or with nothing called `node`. */
  predicate Made(sels: seq<Sel>) {
    NoNode(sels) ||
    (Wrapped(sels) && NoNode(sels[0].sub[0].sub) && sels == NodeQuery(sels[0].sub[0].cond, sels[0].sub[0].sub))
  }

  predicate AllMade(steps: seq<Step>) {
    forall i :: 0 <= i < |steps| ==> Made(steps[i].sel)
  }

  /** What was asked is what stays and what the steps fetch. */
  ghost predicate Splits(ip: seq<string>, input: seq<Sel>, r: Extracted) {
    Made(r.sel) && AllMade(r.steps) && Parts(ip, input) == Parts(ip, r.sel) + AllParts(r.steps)
  }

  lemma {:induction false} Stays(ip: seq<string>, front: seq<Sel>, s: Sel, acc: Extracted, kept: Sel, steps: seq<Step>)
    requires NoNode(front) && NoNode([s]) && NoNode(acc.sel) && NoNode([kept]) && Splits(ip, front, acc) && AllMade(steps)
    requires PartsOf(ip, s) == PartsOf(ip, kept) + AllParts(steps)
    ensures NoNode(acc.sel + [kept]) && Splits(ip, front + [s], Extracted(acc.sel + [kept], acc.steps + steps))
  {
    PartsSnoc(ip, front, s);
    PartsSnoc(ip, acc.sel, kept);
    AllAppend(acc.steps, steps);
    Four(Parts(ip, acc.sel), AllParts(acc.steps), PartsOf(ip, kept), AllParts(steps));
  }

  lemma Four(a: multiset<Part>, b: multiset<Part>, c: multiset<Part>, d: multiset<Part>)
    ensures (a + b) + (c + d) == (a + c) + (b + d)
  {
  }

  lemma {:induction false} Goes(ip: seq<string>, front: seq<Sel>, s: Sel, acc: Extracted, steps: seq<Step>)
    requires NoNode(front) && NoNode([s]) && Splits(ip, front, acc) && AllMade(steps)
    requires AllParts(steps) == AllParts(acc.steps) + PartsOf(ip, s)
    ensures Splits(ip, front + [s], Extracted(acc.sel, steps))
  {
    PartsSnoc(ip, front, s);
    Four(Parts(ip, acc.sel), AllParts(acc.steps), PartsOf(ip, s), multiset{});
  }

  /** A field that joins a step is asked once more, there and nowhere else. */
  lemma {:induction false} JoinsStep(parentType: string, s: Step, f: Sel, more: seq<Step>)
    requires Made(s.sel) && f.Field? && f.name != NODE
    ensures var joined := AddToStep(parentType, s, f, more);
            joined.ip == s.ip && Made(joined.sel) && StepParts(joined) == StepParts(s) + (PartsOf(s.ip, f) + AllParts(more))
  {
    var joined := AddToStep(parentType, s, f, more);
    AllAppend(s.thens, more);
    assert [f][0] == f;
    if NoNode(s.sel) {
      assert s.sel != [] && s.sel[0].Field? ==> s.sel[0].name != NODE;
      PartsSnoc(s.ip, s.sel, f);
      assert joined.sel == s.sel + [f];
    } else {
      var inner := s.sel[0].sub[0].sub;
      assert joined.sel == NodeQuery(parentType, inner + [f]);
      PartsSnoc(s.ip, inner, f);
      PartsWrapped(s.ip, parentType, inner + [f]);
      PartsWrapped(s.ip, s.sel[0].sub[0].cond, inner);
    }
    assert Parts(s.ip, joined.sel) == Parts(s.ip, s.sel) + PartsOf(s.ip, f);
    Four(Parts(s.ip, s.sel), AllParts(s.thens), PartsOf(s.ip, f), AllParts(more));
  }

  lemma ReadySnoc(input: seq<Sel>)
    requires Ready(input) && input != []
    ensures Ready(input[..|input| - 1]) && ReadyOne(input[|input| - 1]) && Ready(input[|input| - 1].sub)
    ensures NoNode(input[..|input| - 1]) && NoNode([input[|input| - 1]]) && Ready([input[|input| - 1]])
    ensures input == input[..|input| - 1] + [input[|input| - 1]]
  {
    var front := input[..|input| - 1];
    assert forall i :: 0 <= i < |front| ==> front[i] == input[i] && ReadyOne(input[i]);
  }

  /**
   * Splitting conserves: whenever it succeeds, for any selections, fragments and fields without a place included, what
   * stays with the step and what the steps after it fetch are exactly the fields asked for, each once, at its place, with
   * its alias, arguments and type.
   */
  lemma {:induction false} ExtractSplits(ctx: Context, ip: seq<string>, parentType: string, input: seq<Sel>, location: string)
    requires Ready(input) && Extract(ctx, ip, parentType, input, location).Ok?
    ensures Splits(ip, input, Extract(ctx, ip, parentType, input, location).value)
    decreases Size(input), Hop(ctx, parentType, input, location), 3
  {
    GatherSplits(ctx, ip, parentType, input, location);
    var r := Gather(ctx, ip, parentType, input, location).value;
    if NeedsNodeQuery(ctx, parentType, r.sel) {
      PartsWrapped(ip, parentType, r.sel);
    }
  }

  lemma {:induction false} GatherSplits(ctx: Context, ip: seq<string>, parentType: string, input: seq<Sel>, location: string)
    requires Ready(input) && Gather(ctx, ip, parentType, input, location).Ok?
    ensures NoNode(Gather(ctx, ip, parentType, input, location).value.sel)
    ensures Splits(ip, input, Gather(ctx, ip, parentType, input, location).value)
    decreases Size(input), Hop(ctx, parentType, input, location), 2
  {
    if input != [] {
      ReadySnoc(input);
      var front := input[..|input| - 1];
      GatherSplits(ctx, ip, parentType, front, location);
      VisitSplits(ctx, ip, parentType, input, location, Gather(ctx, ip, parentType, front, location).value);
    }
  }

  lemma {:induction false} VisitSplits(ctx: Context, ip: seq<string>, parentType: string, input: seq<Sel>, location: string,
                                       acc: Extracted)
    requires input != [] && Ready(input) && Visit(ctx, ip, parentType, input, location, acc).Ok?
    requires NoNode(acc.sel) && Splits(ip, input[..|input| - 1], acc)
    ensures NoNode(Visit(ctx, ip, parentType, input, location, acc).value.sel)
    ensures Splits(ip, input, Visit(ctx, ip, parentType, input, location, acc).value)
    decreases Size(input), Hop(ctx, parentType, input, location), 1
  {
    var front, s := input[..|input| - 1], input[|input| - 1];
    ReadySnoc(input);
    SubSize(input);
    var r := Visit(ctx, ip, parentType, input, location, acc).value;
    if s.Inline? {
      ExtractSplits(ctx, ip, s.cond, s.sub, location);
      var inner := Extract(ctx, ip, s.cond, s.sub, location).value;
      Stays(ip, front, s, acc, Inline(s.cond, inner.sel), inner.steps);
    } else {
      var url := GetURL(ctx.tum, parentType, s.name, location);
      if url.Err? || (url.value == location && s.sub == []) {
        Stays(ip, front, s, acc, s, []);
        assert acc.steps + [] == acc.steps;
      } else if url.value == location {
        BelowSplits(ctx, ip, s, location);
        var inner := Extract(ctx, ip + [s.alias], s.typ.name, s.sub, location).value;
        Stays(ip, front, s, acc, WithSub(s, inner.sel), inner.steps);
      } else {
        RemoteSplits(ctx, ip, parentType, input, location, acc, url.value);
      }
    }
  }

  /** A field with fields of its own, split at a location. */
  lemma {:induction false} BelowSplits(ctx: Context, ip: seq<string>, s: Sel, location: string)
    requires s.Field? && s.sub != [] && ReadyOne(s) && Ready(s.sub) && Extract(ctx, ip + [s.alias], s.typ.name, s.sub, location).Ok?
    ensures var inner := Extract(ctx, ip + [s.alias], s.typ.name, s.sub, location).value;
            AllMade(inner.steps) && PartsOf(ip, s) == PartsOf(ip, WithSub(s, inner.sel)) + AllParts(inner.steps)
    decreases Size(s.sub), 2, 3
  {
    ExtractSplits(ctx, ip + [s.alias], s.typ.name, s.sub, location);
    var inner := Extract(ctx, ip + [s.alias], s.typ.name, s.sub, location).value;
    var at := ip + [s.alias];
    var here := multiset{Part(at, s.alias, s.name, s.args, s.typ)};
    assert PartsOf(ip, s) == here + Parts(at, s.sub);
    assert PartsOf(ip, WithSub(s, inner.sel)) == here + Parts(at, inner.sel);
  }

  lemma {:induction false} RemoteSplits(ctx: Context, ip: seq<string>, parentType: string, input: seq<Sel>, location: string,
                                        acc: Extracted, url: string)
    requires input != [] && Ready(input) && Visit(ctx, ip, parentType, input, location, acc).Ok?
    requires NoNode(acc.sel) && Splits(ip, input[..|input| - 1], acc)
    requires input[|input| - 1].Field? && GetURL(ctx.tum, parentType, input[|input| - 1].name, location) == Ok(url) && url != location
    ensures NoNode(Visit(ctx, ip, parentType, input, location, acc).value.sel)
    ensures Splits(ip, input, Visit(ctx, ip, parentType, input, location, acc).value)
    decreases Size(input), Hop(ctx, parentType, input, location), 0
  {
    var front, s := input[..|input| - 1], input[|input| - 1];
    ReadySnoc(input);
    SubSize(input);
    var i := FindStep(acc.steps, url, ip);
    if i < |acc.steps| {
      if s.sub == [] {
        Joins(ip, parentType, front, s, acc, i, s, []);
      } else {
        BelowSplits(ctx, ip, s, url);
        var inner := Extract(ctx, ip + [s.alias], s.typ.name, s.sub, url).value;
        Joins(ip, parentType, front, s, acc, i, WithSub(s, inner.sel), inner.steps);
      }
    } else {
      NewSplits(ctx, ip, parentType, input, location);
      AddsSteps(ip, front, s, acc, NewSteps(ctx, ip, parentType, input, location).value);
    }
  }

  lemma {:induction false} Joins(ip: seq<string>, parentType: string, front: seq<Sel>, s: Sel, acc: Extracted, i: nat,
                                 kept: Sel, more: seq<Step>)
    requires NoNode(front) && NoNode([s]) && Splits(ip, front, acc) && i < |acc.steps| && acc.steps[i].ip == ip
    requires kept.Field? && kept.name != NODE && AllMade(more) && PartsOf(ip, s) == PartsOf(ip, kept) + AllParts(more)
    ensures Splits(ip, front + [s], acc.(steps := acc.steps[i := AddToStep(parentType, acc.steps[i], kept, more)]))
  {
    JoinsStep(parentType, acc.steps[i], kept, more);
    var joined := AddToStep(parentType, acc.steps[i], kept, more);
    AllUpdate(acc.steps, i, joined, PartsOf(ip, kept) + AllParts(more));
    Goes(ip, front, s, acc, acc.steps[i := joined]);
  }

  lemma {:induction false} AddsSteps(ip: seq<string>, front: seq<Sel>, s: Sel, acc: Extracted, steps: seq<Step>)
    requires NoNode(front) && NoNode([s]) && Splits(ip, front, acc) && AllMade(steps) && AllParts(steps) == PartsOf(ip, s)
    ensures Splits(ip, front + [s], acc.(steps := acc.steps + steps))
  {
    AllAppend(acc.steps, steps);
    Goes(ip, front, s, acc, acc.steps + steps);
  }

  lemma {:induction false} NewSplits(ctx: Context, ip: seq<string>, parentType: string, input: seq<Sel>, location: string)
    requires input != [] && input[|input| - 1].Field? && Ready([input[|input| - 1]])
    requires var url := GetURL(ctx.tum, parentType, input[|input| - 1].name, location); url.Ok? && url.value != location
    requires NewSteps(ctx, ip, parentType, input, location).Ok?
    ensures var steps := NewSteps(ctx, ip, parentType, input, location).value;
            AllMade(steps) && AllParts(steps) == PartsOf(ip, input[|input| - 1])
    decreases Size(input), Hop(ctx, parentType, input, location), 0, 0
  {
    var s := input[|input| - 1];
    var url := Get(ctx.tum, parentType, s.name).value;
    SizeOfOne(s);
    GetURLSettles(ctx.tum, parentType, s.name, location);
    assert if |input| == 1 then input == [s] else Size(input[..|input| - 1]) > 0;
    ExtractSplits(ctx, ip, parentType, [s], url);
    var r := Extract(ctx, ip, parentType, [s], url).value;
    AllOne(Step(url, parentType, r.sel, ip, r.steps));
    assert [s][0] == s;
    PartsAre(ip, [s]);
    assert [s][..0] == [];
  }
}
