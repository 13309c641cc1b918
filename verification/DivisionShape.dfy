/** The shape of a division: exactly one step for each place along local fields and each other service needed there. */
module DivisionShape {
  import opened Prelude
  import opened Schema
  import opened Selection
  import opened Division
  import opened DivisionProofs

  /** The selection set at the end of a path of local fields, with its type. */
  function SelAt(ctx: Context, typename: string, sels: seq<Sel>, location: string, path: seq<string>): Option<(string, seq<Sel>)>
    decreases |path|
  {
    if path == [] then Some((typename, sels))
    else if path[0] !in Keys(sels) then None
    else
      var f := At(sels, path[0]);
      if f.sub == [] || Where(ctx.tum, typename, f.name, location) != location then None
      else SelAt(ctx, f.typ.name, f.sub, location, path[1..])
  }

  lemma {:induction false} SelAtOfFront(ctx: Context, typename: string, sels: seq<Sel>, location: string, path: seq<string>)
    requires UniqueKeys(sels) && sels != [] && path != []
    ensures path[0] in Keys(sels[..|sels| - 1]) ==>
              SelAt(ctx, typename, sels, location, path) == SelAt(ctx, typename, sels[..|sels| - 1], location, path)
    ensures path[0] !in Keys(sels[..|sels| - 1]) && path[0] in Keys(sels) ==> At(sels, path[0]) == sels[|sels| - 1]
  {
    var front := sels[..|sels| - 1];
    if path[0] in Keys(front) {
      AtUnique(sels, At(front, path[0]));
    } else if path[0] in Keys(sels) {
      var f := At(sels, path[0]);
      assert forall i :: 0 <= i < |front| ==> front[i] == sels[i] && Key(front[i]) in Keys(front);
    }
  }

  lemma {:induction false} ThroughField(ctx: Context, typename: string, sels: seq<Sel>, location: string, f: Sel,
                                        below: seq<string>)
    requires UniqueKeys(sels) && f in sels && f.alias != "" && f.sub != []
    requires Where(ctx.tum, typename, f.name, location) == location
    ensures SelAt(ctx, typename, sels, location, [f.alias] + below) == SelAt(ctx, f.typ.name, f.sub, location, below)
  {
    AtUnique(sels, f);
    assert ([f.alias] + below)[1..] == below;
  }

  /** The step for the fields at the end of a path that go to url. */
  function StepAt(ctx: Context, ip: seq<string>, at: (string, seq<Sel>), location: string, url: string): Step {
    StepFor(ctx, ip, at.0, Group(ctx.tum, at.0, at.1, location, url), url)
  }

  /** A step made for a selection set, for a service needed there. */
  ghost predicate IsStepOf(ctx: Context, s: Step, at: Option<(string, seq<Sel>)>, location: string) {
    && s.url != location
    && at.Some?
    && Group(ctx.tum, at.value.0, at.value.1, location, s.url) != []
    && s == StepAt(ctx, s.ip, at.value, location, s.url)
  }

  /** A step that is the one of the place at the end of a path. */
  ghost predicate IsStepAt(ctx: Context, ip: seq<string>, typename: string, sels: seq<Sel>, location: string,
                           path: seq<string>, s: Step) {
    s.ip == ip + path && IsStepOf(ctx, s, SelAt(ctx, typename, sels, location, path), location)
  }

  lemma {:induction false} StepHasPlaceHere(ctx: Context, ip: seq<string>, typename: string, sels: seq<Sel>,
                                        location: string, s: Step)
    requires s in Children(ctx, ip, typename, sels, location) && s.ip == ip
    ensures IsStepAt(ctx, ip, typename, sels, location, [], s)
  {
    JoinedStep(ctx, ip, typename, sels, location, s);
    StepNotEmpty(ctx, ip, typename, sels, location, s);
    assert ip + [] == ip;
  }

  lemma StepOfFront(ctx: Context, ip: seq<string>, typename: string, sels: seq<Sel>, location: string, path: seq<string>, s: Step)
    requires UniqueKeys(sels) && sels != [] && s.ip != ip
    requires IsStepAt(ctx, ip, typename, sels[..|sels| - 1], location, path, s)
    ensures IsStepAt(ctx, ip, typename, sels, location, path, s)
  {
    NotHere(ip, path, s);
    SelAtOfFront(ctx, typename, sels, location, path);
  }

  lemma StepOfLast(ctx: Context, ip: seq<string>, typename: string, sels: seq<Sel>, location: string, f: Sel,
                   below: seq<string>, s: Step)
    requires UniqueKeys(sels) && f in sels && f.Field? && f.alias != "" && f.sub != []
    requires Where(ctx.tum, typename, f.name, location) == location
    requires IsStepAt(ctx, ip + [f.alias], f.typ.name, f.sub, location, below, s)
    ensures IsStepAt(ctx, ip, typename, sels, location, [f.alias] + below, s)
  {
    ThroughField(ctx, typename, sels, location, f, below);
    PathThrough(ip, f.alias, below);
  }

  lemma PathThrough(ip: seq<string>, key: string, below: seq<string>)
    ensures ip + [key] + below == ip + ([key] + below)
  {
  }

  /** Every step of a division is the step of some place along local fields, for another service needed there. */
  lemma {:induction false} StepHasPlace(ctx: Context, ip: seq<string>, typename: string, sels: seq<Sel>,
                                        location: string, s: Step)
    returns (path: seq<string>)
    requires Plannable(ctx, typename, sels) && s in Children(ctx, ip, typename, sels, location)
    ensures IsStepAt(ctx, ip, typename, sels, location, path, s)
    decreases Size(sels)
  {
    var front, f := sels[..|sels| - 1], sels[|sels| - 1];
    if s.ip == ip {
      path := [];
      StepHasPlaceHere(ctx, ip, typename, sels, location, s);
    } else if s in Children(ctx, ip, typename, front, location) {
      PlannablePrefix(ctx, typename, sels);
      path := StepHasPlace(ctx, ip, typename, front, location, s);
      StepOfFront(ctx, ip, typename, sels, location, path, s);
    } else {
      BelowLast(ctx, ip, typename, sels, location, s);
      var below := StepHasPlace(ctx, ip + [f.alias], f.typ.name, f.sub, location, s);
      path := [f.alias] + below;
      StepOfLast(ctx, ip, typename, sels, location, f, below, s);
    }
  }

  lemma NotHere(ip: seq<string>, path: seq<string>, s: Step)
    requires s.ip == ip + path && s.ip != ip
    ensures path != []
  {
    assert ip + [] == ip;
  }

  /** A step that is new with the last field, and not at ip, comes from below that field. */
  lemma BelowLast(ctx: Context, ip: seq<string>, typename: string, sels: seq<Sel>, location: string, s: Step)
    requires Plannable(ctx, typename, sels) && s in Children(ctx, ip, typename, sels, location) && s.ip != ip
    requires sels != [] && s !in Children(ctx, ip, typename, sels[..|sels| - 1], location)
    ensures var f := sels[|sels| - 1];
            && f in sels && f.alias != "" && f.sub != []
            && Plannable(ctx, f.typ.name, f.sub)
            && Where(ctx.tum, typename, f.name, location) == location
            && s in Children(ctx, ip + [f.alias], f.typ.name, f.sub, location)
  {
    PlannableSub(ctx, typename, sels, sels[|sels| - 1]);
  }

  /** A step at ip itself has at least one field. */
  lemma {:induction false} StepNotEmpty(ctx: Context, ip: seq<string>, typename: string, sels: seq<Sel>,
                                        location: string, s: Step)
    requires s in Children(ctx, ip, typename, sels, location) && s.ip == ip
    ensures Group(ctx.tum, typename, sels, location, s.url) != []
    decreases Size(sels)
  {
    var front, f := sels[..|sels| - 1], sels[|sels| - 1];
    var steps := Children(ctx, ip, typename, front, location);
    if s in steps {
      StepNotEmpty(ctx, ip, typename, front, location, s);
    } else if f.Field? && Where(ctx.tum, typename, f.name, location) == location {
      ChildrenBelow(ctx, ip + [f.alias], f.typ.name, f.sub, location, s);
    }
  }

  /** Every place along local fields has its step for every other service needed there. */
  lemma {:induction false} PlaceHasStep(ctx: Context, ip: seq<string>, typename: string, sels: seq<Sel>,
                                        location: string, path: seq<string>, url: string)
    requires Plannable(ctx, typename, sels)
    requires SelAt(ctx, typename, sels, location, path).Some? && url != location
    requires var at := SelAt(ctx, typename, sels, location, path).value; Group(ctx.tum, at.0, at.1, location, url) != []
    ensures StepAt(ctx, ip + path, SelAt(ctx, typename, sels, location, path).value, location, url)
            in Children(ctx, ip, typename, sels, location)
    decreases Size(sels)
  {
    var at := SelAt(ctx, typename, sels, location, path).value;
    if path == [] {
      var group := Group(ctx.tum, typename, sels, location, url);
      assert group[0] in group;
      var k := HasStep(ctx, ip, typename, sels, location, group[0]);
      var s := Children(ctx, ip, typename, sels, location)[k];
      JoinedStep(ctx, ip, typename, sels, location, s);
      assert ip + path == ip;
    } else {
      var front, f := sels[..|sels| - 1], sels[|sels| - 1];
      PlannablePrefix(ctx, typename, sels);
      PlannableSub(ctx, typename, sels, f);
      SelAtOfFront(ctx, typename, sels, location, path);
      if path[0] in Keys(front) {
        PlaceHasStep(ctx, ip, typename, front, location, path, url);
        StepStays(ctx, ip, typename, sels, location, StepAt(ctx, ip + path, at, location, url));
      } else {
        assert At(sels, path[0]) == f;
        PlaceHasStep(ctx, ip + [f.alias], f.typ.name, f.sub, location, path[1..], url);
        assert ip + [f.alias] + path[1..] == ip + path;
      }
    }
  }

  /** Later fields do not touch the steps below other fields. */
  lemma {:induction false} StepStays(ctx: Context, ip: seq<string>, typename: string, sels: seq<Sel>, location: string, s: Step)
    requires sels != [] && s in Children(ctx, ip, typename, sels[..|sels| - 1], location) && s.ip != ip
    ensures s in Children(ctx, ip, typename, sels, location)
  {
    var steps := Children(ctx, ip, typename, sels[..|sels| - 1], location);
    var k :| 0 <= k < |steps| && steps[k] == s;
    var all := Children(ctx, ip, typename, sels, location);
    assert k < |all| && all[k] == s;
  }

  /** Steps of one division never share both service and insertion point. */
  lemma {:induction false} StepsDiffer(ctx: Context, ip: seq<string>, typename: string, sels: seq<Sel>,
                                       location: string, i: nat, j: nat)
    requires Plannable(ctx, typename, sels)
    requires i < j < |Children(ctx, ip, typename, sels, location)|
    ensures var steps := Children(ctx, ip, typename, sels, location);
            steps[i].ip != steps[j].ip || steps[i].url != steps[j].url
    decreases Size(sels)
  {
    var front, f := sels[..|sels| - 1], sels[|sels| - 1];
    var n := |Children(ctx, ip, typename, front, location)|;
    PlannablePrefix(ctx, typename, sels);
    PlannableSub(ctx, typename, sels, f);
    if j < n {
      StepsDiffer(ctx, ip, typename, front, location, i, j);
      AfterOneMore(ctx, ip, typename, sels, location, i);
      AfterOneMore(ctx, ip, typename, sels, location, j);
    } else if Where(ctx.tum, typename, f.name, location) != location {
      NewStepHere(ctx, ip, typename, sels, location, j);
      if Children(ctx, ip, typename, sels, location)[i].ip == ip && Children(ctx, ip, typename, sels, location)[i].url == Children(ctx, ip, typename, sels, location)[j].url {
        OneStepEach(ctx, ip, typename, sels, location, i, j);
      }
    } else if i < n {
      LastDiffer(ctx, ip, typename, sels, location, i, j);
    } else {
      LocalChildren(ctx, ip, typename, sels, location);
      StepsDiffer(ctx, ip + [f.alias], f.typ.name, f.sub, location, i - n, j - n);
    }
  }

  /** A step that is new with a field of another service is at the insertion point itself. */
  lemma {:induction false} NewStepHere(ctx: Context, ip: seq<string>, typename: string, sels: seq<Sel>, location: string, j: nat)
    requires sels != [] && sels[|sels| - 1].Field? && Where(ctx.tum, typename, sels[|sels| - 1].name, location) != location
    requires |Children(ctx, ip, typename, sels[..|sels| - 1], location)| <= j < |Children(ctx, ip, typename, sels, location)|
    ensures Children(ctx, ip, typename, sels, location)[j].ip == ip
  {
  }

  /** A step of the earlier fields and one below the last field. */
  lemma {:induction false} LastDiffer(ctx: Context, ip: seq<string>, typename: string, sels: seq<Sel>, location: string,
                                      i: nat, j: nat)
    requires Plannable(ctx, typename, sels) && sels != [] && sels[|sels| - 1].Field?
    requires Where(ctx.tum, typename, sels[|sels| - 1].name, location) == location
    requires i < |Children(ctx, ip, typename, sels[..|sels| - 1], location)| <= j < |Children(ctx, ip, typename, sels, location)|
    ensures Children(ctx, ip, typename, sels, location)[i].ip != Children(ctx, ip, typename, sels, location)[j].ip
  {
    var f := sels[|sels| - 1];
    var steps := Children(ctx, ip, typename, sels[..|sels| - 1], location);
    var more := Children(ctx, ip + [f.alias], f.typ.name, f.sub, location);
    LocalChildren(ctx, ip, typename, sels, location);
    ElsewhereBelow(ctx, ip, typename, sels, location, steps[i], more[j - |steps|]);
  }

  /** The steps below a local field come after those of the fields before it. */
  lemma LocalChildren(ctx: Context, ip: seq<string>, typename: string, sels: seq<Sel>, location: string)
    requires sels != [] && sels[|sels| - 1].Field? && Where(ctx.tum, typename, sels[|sels| - 1].name, location) == location
    ensures var f := sels[|sels| - 1];
            Children(ctx, ip, typename, sels, location)
            == Children(ctx, ip, typename, sels[..|sels| - 1], location) + Children(ctx, ip + [f.alias], f.typ.name, f.sub, location)
  {
  }

  /** Steps below one field are not at the insertion points of steps below the others. */
  lemma ElsewhereBelow(ctx: Context, ip: seq<string>, typename: string, sels: seq<Sel>, location: string, s: Step, t: Step)
    requires Plannable(ctx, typename, sels) && sels != []
    requires s in Children(ctx, ip, typename, sels[..|sels| - 1], location)
    requires var f := sels[|sels| - 1]; f.Field? && t in Children(ctx, ip + [f.alias], f.typ.name, f.sub, location)
    ensures s.ip != t.ip
  {
    var front, f := sels[..|sels| - 1], sels[|sels| - 1];
    PlannablePrefix(ctx, typename, sels);
    PlannableSub(ctx, typename, sels, f);
    var path := StepHasPlace(ctx, ip, typename, front, location, s);
    ChildrenBelow(ctx, ip + [f.alias], f.typ.name, f.sub, location, t);
    assert f.sub != [];
    assert t.ip[|ip|] == f.alias;
    assert path != [] ==> s.ip[|ip|] == path[0] && path[0] in Keys(front);
    assert f.alias == Key(f) && Key(f) !in Keys(front);
  }
}
