/**
 * The invariant of the depth executor's run, and what one request leads to. The stitched tree is the partial answer of
 * the tasks done, every pending request waits at a place that is there, no two of them are the same task, and no needed
 * task is forgotten.
 */
module RoundProofs {
  import opened Prelude
  import opened Text
  import opened Points
  import opened Json
  import opened Schema
  import opened Selection
  import opened Evaluation
  import opened Division
  import opened DivisionProofs
  import opened DivisionShape
  import opened Progress
  import opened ProgressProofs
  import opened PlaceProofs
  import opened InsertionPoints
  import opened Findable
  import opened Stitching
  import opened Requests

  function DecodedPt(point: string): Pt {
    match Decode(point)
    case Err(_) => Pt("", None)
    case Ok(data) => Pt(data.field, if IsListElement(point) && data.index >= 0 then Some(data.index) else None)
  }

  function DecodedID(point: string): string {
    match Decode(point)
    case Err(_) => ""
    case Ok(data) => data.id
  }

  /** The address a realized insertion point stands for. */
  function AddressOf(ip: seq<string>): (at: seq<Pt>)
    ensures |at| == |ip|
  {
    seq(|ip|, i requires 0 <= i < |ip| => DecodedPt(ip[i]))
  }

  lemma DenotedIsAddress(ip: seq<string>, at: seq<Pt>)
    requires Denotes(ip, at)
    ensures AddressOf(ip) == at
  {
    forall i | 0 <= i < |at|
      ensures DecodedPt(ip[i]) == at[i]
    {
      assert DenotesPt(ip[i], at[i]);
    }
  }

  function TaskOf(r: Request): Task {
    Task(AddressOf(r.ip), r.step.url)
  }

  /** The request of a step that can be executed now: its object is there and its fields are not. */
  ghost predicate Waiting(ctx: Context, store: Store, root: Place, done: set<Task>, r: Request) {
    var at := AddressOf(r.ip);
    && Denotes(r.ip, at)
    && Locate(ctx, store, root, done, at).Some?
    && TaskOf(r) !in done
    && WaitsAt(ctx, store, Locate(ctx, store, root, done, at).value, r)
  }

  ghost predicate WaitsAt(ctx: Context, store: Store, q: Place, r: Request) {
    && r.step.url != q.location
    && Group(ctx.tum, q.typename, q.sels, q.location, r.step.url) != []
    && r.step == StepAt(ctx, KeysOf(AddressOf(r.ip)), (q.typename, q.sels), q.location, r.step.url)
    && (r.ip != [] ==> ID in q.m && q.m[ID].Scalar? && DecodedID(r.ip[|r.ip| - 1]) == q.m[ID].text)
  }

  /** Nothing that is needed is forgotten. */
  ghost predicate Remembered(ctx: Context, store: Store, root: Place, done: set<Task>, pending: set<Request>) {
    forall at: seq<Pt>, f: Sel ::
      Locate(ctx, store, root, done, at).Some? && f in Locate(ctx, store, root, done, at).value.sels && f.Field? ==>
        var q := Locate(ctx, store, root, done, at).value;
        var url := Where(ctx.tum, q.typename, f.name, q.location);
        url == q.location || Task(at, url) in done || exists r :: r in pending && TaskOf(r) == Task(at, url)
  }

  ghost predicate Inv(ctx: Context, store: Store, root: Place, done: set<Task>, tree: Object, pending: set<Request>) {
    && tree == PartAt(ctx, store, root, done)
    && Grounded(ctx, store, root, done)
    && (forall r :: r in pending ==> Waiting(ctx, store, root, done, r))
    && (forall r, s :: r in pending && s in pending && TaskOf(r) == TaskOf(s) ==> r == s)
    && Remembered(ctx, store, root, done, pending)
  }

  /** What a run assumes of its schema, data and sanitized query. */
  ghost predicate Setting(ctx: Context, store: Store, root: Place) {
    && ContextOk(ctx) && StoreOk(ctx, store)
    && PlaceOk(ctx, store, root) && UnhiddenAt(ctx, root)
    && IsRoot(root.typename) && root.location == ""
  }

  /** With nothing pending the tree is the direct evaluation. */
  lemma {:induction false} NothingPending(ctx: Context, store: Store, root: Place, done: set<Task>, tree: Object)
    requires Setting(ctx, store, root) && Inv(ctx, store, root, done, tree, {})
    ensures tree == Eval(store, root.typename, root.m, root.sels)
  {
    assert AllDone(ctx, store, root, done);
    AllDoneIsEval(ctx, store, root, done);
  }

  /** The fields a service is asked for at a place, as a place of their own. */
  function GroupPlace(ctx: Context, q: Place, url: string): Place {
    Place(q.typename, q.m, Group(ctx.tum, q.typename, q.sels, q.location, url), url)
  }

  lemma {:induction false} GroupPlaceOk(ctx: Context, store: Store, q: Place, url: string)
    requires ContextOk(ctx) && PlaceOk(ctx, store, q) && UnhiddenAt(ctx, q) && url != q.location
    requires Group(ctx.tum, q.typename, q.sels, q.location, url) != []
    ensures var g := GroupPlace(ctx, q, url);
            && PlaceOk(ctx, store, g) && UnhiddenAt(ctx, g)
            && ClearStep(q.typename, Local(ctx, q.typename, g.sels, url))
            && AllAt(ctx.tum, q.typename, g.sels, url)
            && PartAt(ctx, store, g, {}) == Answer(ctx, store, q, url)
    ensures IsRoot(q.typename) || ImplementsNode(ctx.tum, q.typename)
  {
    var g := GroupPlace(ctx, q, url);
    GroupUnique(ctx.tum, q.typename, q.sels, q.location, url);
    forall i | 0 <= i < |g.sels|
      ensures PlannableField(ctx, q.typename, g.sels[i]) && TypedField(ctx, q.typename, g.sels[i])
      ensures Where(ctx.tum, q.typename, g.sels[i].name, url) == url && url != INTERNAL_SERVICE
      ensures IsRoot(q.typename) || ImplementsNode(ctx.tum, q.typename)
    {
      assert g.sels[i] in q.sels;
      OnlyNodesSplit(ctx.tum, q.typename, g.sels[i].name, q.location);
    }
    assert g.sels[0] in g.sels;
    UnhiddenGroup(ctx, q.typename, q.sels, q.location, url);
    AnswerIsPart(ctx, store, g.typename, g.m, g.sels, url);
  }

  /** The requests that follow from an answer: one for each step below and each object its path reaches. */
  ghost predicate Follows(r: Request, answer: Object, n: Request, h: Hit) {
    && n.step in r.step.thens
    && |r.ip| <= |n.step.ip|
    && h in Reached(answer, n.step.ip[|r.ip|..])
    && h.at != [] && HasID(h.obj)
    && n.ip == r.ip + PrintPath(h.at, h.obj)
  }

  /** The steps below a step, place by place along its local fields. */
  lemma ThenHasPlace(ctx: Context, store: Store, q: Place, r: Request, child: Step) returns (path: seq<string>)
    requires ContextOk(ctx) && StoreOk(ctx, store) && PlaceOk(ctx, store, q) && UnhiddenAt(ctx, q)
    requires WaitsAt(ctx, store, q, r) && child in r.step.thens
    ensures var g := GroupPlace(ctx, q, r.step.url);
            && path != []
            && child.ip == KeysOf(AddressOf(r.ip)) + path
            && |child.ip| > |r.ip| && child.ip[|r.ip|..] == path
            && child.url != r.step.url
            && SelAt(ctx, g.typename, g.sels, g.location, path).Some?
            && var at := SelAt(ctx, g.typename, g.sels, g.location, path).value;
               && Group(ctx.tum, at.0, at.1, g.location, child.url) != []
               && child == StepAt(ctx, child.ip, at, g.location, child.url)
               && ImplementsNode(ctx.tum, at.0)
  {
    var g, ip := GroupPlace(ctx, q, r.step.url), KeysOf(AddressOf(r.ip));
    GroupPlaceOk(ctx, store, q, r.step.url);
    ChildrenOfGroup(ctx, ip, g.typename, g.sels, g.location);
    path := StepHasPlace(ctx, ip, g.typename, g.sels, g.location, child);
    var at := SelAt(ctx, g.typename, g.sels, g.location, path).value;
    var group := Group(ctx.tum, at.0, at.1, g.location, child.url);
    assert group[0] in group;
    OnlyNodesSplit(ctx.tum, at.0, group[0].name, g.location);
    assert path != [];
    SelAtNotRoot(ctx, g.typename, g.sels, g.location, path);
  }

  lemma {:induction false} SelAtNotRoot(ctx: Context, typename: string, sels: seq<Sel>, location: string, path: seq<string>)
    requires Plannable(ctx, typename, sels) && path != [] && SelAt(ctx, typename, sels, location, path).Some?
    ensures !IsRoot(SelAt(ctx, typename, sels, location, path).value.0)
    decreases |path|
  {
    var f := At(sels, path[0]);
    PlannableSub(ctx, typename, sels, f);
    if path[1..] != [] {
      SelAtNotRoot(ctx, f.typ.name, f.sub, location, path[1..]);
    }
  }

  /** A place asked for by a waiting request. */
  ghost predicate Asked(ctx: Context, store: Store, q: Place, r: Request) {
    && ContextOk(ctx) && StoreOk(ctx, store)
    && PlaceOk(ctx, store, q) && UnhiddenAt(ctx, q)
    && WaitsAt(ctx, store, q, r)
  }

  lemma ChildPoints(ctx: Context, store: Store, q: Place, r: Request, child: Step)
    requires Asked(ctx, store, q, r) && child in r.step.thens
    ensures |child.ip| > |r.ip|
    ensures var hits := Reached(Answer(ctx, store, q, r.step.url), child.ip[|r.ip|..]);
            && (forall h :: h in hits ==> HasID(h.obj) && h.at != [])
            && Find(child.ip, r.step.sel, Answer(ctx, store, q, r.step.url), [r.ip]) == Ok(PointsOf(r.ip, hits))
  {
    var g := GroupPlace(ctx, q, r.step.url);
    GroupPlaceOk(ctx, store, q, r.step.url);
    var path := ThenHasPlace(ctx, store, q, r, child);
    SentFound(ctx, g);
    AnswerConforms(ctx, store, g, r.step.sel, path);
    FindIsReached(child.ip, r.step.sel, Answer(ctx, store, q, r.step.url), r.ip);
  }

  /** The following requests are found without error, and each follows from an object that is reached. */
  lemma {:induction false} NextSound(ctx: Context, store: Store, q: Place, r: Request, thens: seq<Step>)
    requires Asked(ctx, store, q, r) && forall c :: c in thens ==> c in r.step.thens
    ensures var next := NextRequests(r.ip, r.step.sel, thens, Answer(ctx, store, q, r.step.url));
            next.Ok? && forall n :: n in next.value ==> n.step in thens && exists h :: Follows(r, Answer(ctx, store, q, r.step.url), n, h)
  {
    if thens != [] {
      var answer, child := Answer(ctx, store, q, r.step.url), thens[|thens| - 1];
      var before := thens[..|thens| - 1];
      NextSound(ctx, store, q, r, before);
      ChildPoints(ctx, store, q, r, child);
      HitsFollow(r, child, answer, Reached(answer, child.ip[|r.ip|..]));
    }
  }

  lemma {:induction false} HitsFollow(r: Request, child: Step, answer: Object, hits: seq<Hit>)
    requires child in r.step.thens && |child.ip| > |r.ip| && hits == Reached(answer, child.ip[|r.ip|..])
    requires forall h :: h in hits ==> HasID(h.obj) && h.at != []
    ensures forall n :: n in RequestsAt(child, PointsOf(r.ip, hits)) ==> n.step == child && exists h :: Follows(r, answer, n, h)
  {
    var new_ := RequestsAt(child, PointsOf(r.ip, hits));
    forall n | n in new_
      ensures n.step == child && exists h :: Follows(r, answer, n, h)
    {
      var i :| 0 <= i < |new_| && new_[i] == n;
      assert hits[i] in hits;
      assert Follows(r, answer, n, hits[i]);
    }
  }

  /** No object that is reached is left out. */
  lemma NextComplete(ctx: Context, store: Store, q: Place, r: Request, child: Step, h: Hit)
    requires Asked(ctx, store, q, r)
    requires child in r.step.thens && |child.ip| > |r.ip|
    requires h in Reached(Answer(ctx, store, q, r.step.url), child.ip[|r.ip|..]) && HasID(h.obj)
    ensures var next := NextRequests(r.ip, r.step.sel, r.step.thens, Answer(ctx, store, q, r.step.url));
            next.Ok? && Request(child, r.ip + PrintPath(h.at, h.obj)) in next.value
  {
    var answer := Answer(ctx, store, q, r.step.url);
    NextSound(ctx, store, q, r, r.step.thens);
    ChildPoints(ctx, store, q, r, child);
    var hits := Reached(answer, child.ip[|r.ip|..]);
    var i :| 0 <= i < |hits| && hits[i] == h;
    InNext(r.ip, r.step.sel, r.step.thens, answer, child, PointsOf(r.ip, hits), i);
  }

  /** A following request waits below the place that was asked, at a place that was not there before. */
  lemma FollowerPlace(ctx: Context, store: Store, q: Place, r: Request, n: Request, h: Hit) returns (below: Place)
    requires Asked(ctx, store, q, r) && Follows(r, Answer(ctx, store, q, r.step.url), n, h)
    ensures var g := GroupPlace(ctx, q, r.step.url);
            && Locate(ctx, store, g, {}, h.at) == Some(below)
            && PlaceOk(ctx, store, below) && UnhiddenAt(ctx, below)
            && below.location == r.step.url
            && n.step.url != below.location
            && Group(ctx.tum, below.typename, below.sels, below.location, n.step.url) != []
            && n.step == StepAt(ctx, n.step.ip, (below.typename, below.sels), below.location, n.step.url)
            && n.step.ip == KeysOf(AddressOf(r.ip)) + KeysOf(h.at)
            && ID in below.m && below.m[ID].Scalar? && h.obj[ID] == JScalar(below.m[ID].text) && '#' !in below.m[ID].text
    ensures forall i :: 0 <= i < |h.at| ==> IsName(h.at[i].key) && (h.at[i].index.Some? ==> h.at[i].index.value < MAX_INDEX)
  {
    var g := GroupPlace(ctx, q, r.step.url);
    GroupPlaceOk(ctx, store, q, r.step.url);
    var path := ThenHasPlace(ctx, store, q, r, n.step);
    ReachedSound(Answer(ctx, store, q, r.step.url), path, h);
    LocateIsReach(ctx, store, g, {}, h.at);
    below := Locate(ctx, store, g, {}, h.at).value;
    LocateIsSelAt(ctx, store, g, h.at);
    LocatedOk(ctx, store, g, {}, h.at);
    ReachIsPart(ctx, store, g, {}, h.at);
    BelowPathEmpty(h.at);
    NodeHasID(ctx, store, below, {});
  }

  /** What a following request's points say. */
  lemma FollowerPoints(ctx: Context, store: Store, q: Place, r: Request, n: Request, h: Hit)
    requires Asked(ctx, store, q, r) && Follows(r, Answer(ctx, store, q, r.step.url), n, h)
    requires Denotes(r.ip, AddressOf(r.ip))
    ensures AddressOf(n.ip) == AddressOf(r.ip) + h.at && Denotes(n.ip, AddressOf(n.ip))
    ensures n.ip != [] && DecodedID(n.ip[|n.ip| - 1]) == h.obj[ID].text
  {
    var below := FollowerPlace(ctx, store, q, r, n, h);
    var points, at := PrintPath(h.at, h.obj), AddressOf(r.ip);
    PrintDenotes(h.at, h.obj);
    forall i | 0 <= i < |at + h.at|
      ensures DenotesPt(n.ip[i], (at + h.at)[i])
    {
      if i < |at| {
        assert DenotesPt(r.ip[i], at[i]);
      } else {
        assert DenotesPt(points[i - |at|], h.at[i - |at|]);
      }
    }
    DenotedIsAddress(n.ip, at + h.at);
  }
}
