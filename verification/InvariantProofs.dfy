/**
 * The run's invariant is kept by executing and merging any pending request, and it holds at the start.
 * Three things are shown of the requests that follow from an answer: they wait at places that were not there,
 * no two of them are the same task, and no field that still needs a service is forgotten.
 */
module InvariantProofs {
  import opened Prelude
  import opened Json
  import opened Schema
  import opened Selection
  import opened Evaluation
  import opened Division
  import opened DivisionProofs
  import opened DivisionShape
  import opened Progress
  import opened ProgressProofs
  import opened PlaceProofs
  import opened InsertionPoints
  import opened Stitching
  import opened MergeMaps
  import opened Requests
  import opened RoundProofs

  /** A place inside a service's answer is there exactly when the service has answered. */
  lemma {:induction false} ThroughGroup(ctx: Context, store: Store, q: Place, url: string, done: set<Task>, b: seq<Pt>)
    requires ContextOk(ctx) && PlaceOk(ctx, store, q) && url != q.location && b != []
    requires Locate(ctx, store, GroupPlace(ctx, q, url), {}, b).Some?
    ensures Task([], url) in done ==> Locate(ctx, store, q, done, b) == Locate(ctx, store, GroupPlace(ctx, q, url), {}, b)
    ensures Task([], url) !in done ==> Locate(ctx, store, q, done, b).None?
  {
    var g := GroupPlace(ctx, q, url);
    GroupAt(ctx.tum, q.typename, q.sels, q.location, url, b[0].key);
    var f := At(g.sels, b[0].key);
    OnlyNodesSplit(ctx.tum, q.typename, f.name, q.location);
    assert PlaceBelow(ctx, store, q, b[0]) == PlaceBelow(ctx, store, g, b[0]);
    BelowEmpty(b[0]);
    if Task([], url) in done {
      LocateMonotone(ctx, store, PlaceBelow(ctx, store, g, b[0]).value, {}, Below(done, b[0]), b[1..]);
    }
  }

  /** A place inside the answer to a request is there once, and not before, the answer is merged. */
  lemma {:induction false} InsideAnswer(ctx: Context, store: Store, root: Place, done: set<Task>, at: seq<Pt>,
                                        url: string, b: seq<Pt>)
    requires ContextOk(ctx)
    requires Locate(ctx, store, root, done, at).Some? && Task(at, url) !in done && b != []
    requires var q := Locate(ctx, store, root, done, at).value;
             PlaceOk(ctx, store, q) && url != q.location && Locate(ctx, store, GroupPlace(ctx, q, url), {}, b).Some?
    ensures Locate(ctx, store, root, done + {Task(at, url)}, at + b)
            == Locate(ctx, store, GroupPlace(ctx, Locate(ctx, store, root, done, at).value, url), {}, b)
    ensures Locate(ctx, store, root, done, at + b).None?
  {
    var more := done + {Task(at, url)};
    var q := Locate(ctx, store, root, done, at).value;
    LocateAppend(ctx, store, root, done, at, b);
    LocateAppend(ctx, store, root, more, at, b);
    LocateMonotone(ctx, store, root, done, more, at);
    InBelowPath(done, at, Task([], url));
    InBelowPath(more, at, Task([], url));
    assert at + [] == at;
    ThroughGroup(ctx, store, q, url, BelowPath(done, at), b);
    ThroughGroup(ctx, store, q, url, BelowPath(more, at), b);
  }

  /** Where a following request waits, and what for. */
  lemma FollowerAsks(ctx: Context, store: Store, q: Place, r: Request, n: Request, h: Hit) returns (below: Place)
    requires Asked(ctx, store, q, r) && Denotes(r.ip, AddressOf(r.ip))
    requires Follows(r, Answer(ctx, store, q, r.step.url), n, h)
    ensures Locate(ctx, store, GroupPlace(ctx, q, r.step.url), {}, h.at) == Some(below)
    ensures WaitsAt(ctx, store, below, n)
    ensures AddressOf(n.ip) == AddressOf(r.ip) + h.at && Denotes(n.ip, AddressOf(n.ip))
  {
    below := FollowerPlace(ctx, store, q, r, n, h);
    FollowerPoints(ctx, store, q, r, n, h);
    KeysOfAppend(AddressOf(r.ip), h.at);
    WaitsBelow(ctx, store, below, r.step.url, n, h.obj);
  }

  lemma KeysOfAppend(a: seq<Pt>, b: seq<Pt>)
    ensures KeysOf(a + b) == KeysOf(a) + KeysOf(b)
  {
  }

  lemma WaitsBelow(ctx: Context, store: Store, below: Place, url: string, n: Request, obj: Object)
    requires below.location == url && n.step.url != url
    requires Group(ctx.tum, below.typename, below.sels, below.location, n.step.url) != []
    requires n.step == StepAt(ctx, n.step.ip, (below.typename, below.sels), below.location, n.step.url)
    requires n.step.ip == KeysOf(AddressOf(n.ip))
    requires ID in below.m && below.m[ID].Scalar? && HasID(obj) && obj[ID] == JScalar(below.m[ID].text)
    requires n.ip != [] && DecodedID(n.ip[|n.ip| - 1]) == obj[ID].text
    ensures WaitsAt(ctx, store, below, n)
  {
  }

  lemma {:induction false} NotDoneYet(ctx: Context, store: Store, root: Place, done: set<Task>, t: Task, n: Task)
    requires Grounded(ctx, store, root, done) && Locate(ctx, store, root, done, n.at).None? && n.at != t.at
    ensures n !in done + {t}
  {
    assert n in done ==> Locate(ctx, store, root, done, n.at).Some?;
  }

  /** A following request waits once the answer it comes from is merged, at a place that was not there before. */
  lemma {:induction false} FollowerWaits(ctx: Context, store: Store, root: Place, done: set<Task>, r: Request, n: Request, h: Hit)
    requires Setting(ctx, store, root) && Grounded(ctx, store, root, done) && Waiting(ctx, store, root, done, r)
    requires Follows(r, Answer(ctx, store, Locate(ctx, store, root, done, AddressOf(r.ip)).value, r.step.url), n, h)
    ensures Waiting(ctx, store, root, done + {TaskOf(r)}, n)
    ensures Locate(ctx, store, root, done, AddressOf(n.ip)).None?
  {
    var at := AddressOf(r.ip);
    var q := Locate(ctx, store, root, done, at).value;
    LocatedOk(ctx, store, root, done, at);
    var below := FollowerAsks(ctx, store, q, r, n, h);
    InsideAnswer(ctx, store, root, done, at, r.step.url, h.at);
    assert |at + h.at| > |at|;
    NotDoneYet(ctx, store, root, done, TaskOf(r), TaskOf(n));
  }

  /** Two following requests of one request for the same task are the same request. */
  lemma FollowersDiffer(ctx: Context, store: Store, q: Place, r: Request, n1: Request, h1: Hit, n2: Request, h2: Hit)
    requires Asked(ctx, store, q, r) && Denotes(r.ip, AddressOf(r.ip))
    requires Follows(r, Answer(ctx, store, q, r.step.url), n1, h1)
    requires Follows(r, Answer(ctx, store, q, r.step.url), n2, h2)
    requires TaskOf(n1) == TaskOf(n2)
    ensures n1 == n2
  {
    FollowerPoints(ctx, store, q, r, n1, h1);
    FollowerPoints(ctx, store, q, r, n2, h2);
    var at := AddressOf(r.ip);
    assert h1.at == (at + h1.at)[|at|..] == (at + h2.at)[|at|..] == h2.at;
    var b1 := FollowerPlace(ctx, store, q, r, n1, h1);
    var b2 := FollowerPlace(ctx, store, q, r, n2, h2);
    var answer := Answer(ctx, store, q, r.step.url);
    ReachedSound(answer, n1.step.ip[|r.ip|..], h1);
    ReachedSound(answer, n2.step.ip[|r.ip|..], h2);
  }

  /** A place that appears with a task lies inside the answer to that task. */
  lemma {:induction false} NewlyLocated(ctx: Context, store: Store, p: Place, done: set<Task>, at: seq<Pt>, url: string,
                                        new_: seq<Pt>)
    returns (b: seq<Pt>)
    requires ContextOk(ctx) && Grounded(ctx, store, p, done)
    requires Locate(ctx, store, p, done, at).Some? && Locate(ctx, store, p, done, at).value.location != url
    requires PlaceOk(ctx, store, Locate(ctx, store, p, done, at).value)
    requires Locate(ctx, store, p, done, new_).None? && Locate(ctx, store, p, done + {Task(at, url)}, new_).Some?
    ensures b != [] && new_ == at + b
    ensures Locate(ctx, store, GroupPlace(ctx, Locate(ctx, store, p, done, at).value, url), {}, b)
            == Locate(ctx, store, p, done + {Task(at, url)}, new_)
    decreases |new_|
  {
    if at == [] {
      b := new_;
      NewlyHere(ctx, store, p, done, url, new_);
    } else {
      var pt, q := at[0], PlaceBelow(ctx, store, p, at[0]).value;
      NewlyBelow(ctx, store, p, done, at, url, new_);
      GroundedBelow(ctx, store, p, done, pt);
      var inner, rest, newRest := Below(done, pt), at[1..], new_[1..];
      b := NewlyLocated(ctx, store, q, inner, rest, url, newRest);
      SamePrefix(pt, at, b, new_);
    }
  }

  lemma SamePrefix(pt: Pt, at: seq<Pt>, b: seq<Pt>, new_: seq<Pt>)
    requires at != [] && new_ != [] && at[0] == pt == new_[0] && new_[1..] == at[1..] + b
    ensures new_ == at + b
  {
    assert at + b == [pt] + (at[1..] + b);
    assert new_ == [pt] + new_[1..];
  }

  /** A task below pt only makes places below pt appear. */
  lemma {:induction false} NewlyBelow(ctx: Context, store: Store, p: Place, done: set<Task>, at: seq<Pt>, url: string,
                                      new_: seq<Pt>)
    requires at != [] && Locate(ctx, store, p, done, at).Some?
    requires Locate(ctx, store, p, done, new_).None? && Locate(ctx, store, p, done + {Task(at, url)}, new_).Some?
    ensures new_ != [] && new_[0] == at[0]
    ensures PlaceBelow(ctx, store, p, at[0]).Some?
    ensures var q := PlaceBelow(ctx, store, p, at[0]).value;
            var inner := Below(done, at[0]);
            && Locate(ctx, store, p, done, at) == Locate(ctx, store, q, inner, at[1..])
            && Locate(ctx, store, q, inner, new_[1..]).None?
            && Locate(ctx, store, p, done + {Task(at, url)}, new_) == Locate(ctx, store, q, inner + {Task(at[1..], url)}, new_[1..])
  {
    BelowAdd(done, new_[0], at, url);
    BelowAdd(done, at[0], at, url);
    assert Present(ctx.tum, p.typename, At(p.sels, new_[0].key), p.location, done + {Task(at, url)})
        == Present(ctx.tum, p.typename, At(p.sels, new_[0].key), p.location, done);
  }

  lemma {:induction false} NewlyHere(ctx: Context, store: Store, p: Place, done: set<Task>, url: string, new_: seq<Pt>)
    requires ContextOk(ctx) && PlaceOk(ctx, store, p) && Grounded(ctx, store, p, done) && p.location != url
    requires Locate(ctx, store, p, done, new_).None? && Locate(ctx, store, p, done + {Task([], url)}, new_).Some?
    ensures Locate(ctx, store, GroupPlace(ctx, p, url), {}, new_) == Locate(ctx, store, p, done + {Task([], url)}, new_)
  {
    var pt, g := new_[0], GroupPlace(ctx, p, url);
    var f := At(p.sels, pt.key);
    BelowUnaffected(done, url);
    assert !Present(ctx.tum, p.typename, f, p.location, done);
    assert Where(ctx.tum, p.typename, f.name, p.location) == url;
    NothingBelowAbsent(ctx, store, p, done, pt);
    GroupAt(ctx.tum, p.typename, p.sels, p.location, url, pt.key);
    OnlyNodesSplit(ctx.tum, p.typename, f.name, p.location);
    assert PlaceBelow(ctx, store, g, pt) == PlaceBelow(ctx, store, p, pt);
  }

  /** The place a waiting request asks about. */
  function PlaceOf(ctx: Context, store: Store, root: Place, done: set<Task>, r: Request): Place {
    match Locate(ctx, store, root, done, AddressOf(r.ip))
    case None => root
    case Some(q) => q
  }

  /** The answer to a waiting request, and the requests that follow from it. */
  function AnswerTo(ctx: Context, store: Store, root: Place, done: set<Task>, r: Request): Object {
    Answer(ctx, store, PlaceOf(ctx, store, root, done, r), r.step.url)
  }

  ghost predicate FollowersOf(ctx: Context, store: Store, root: Place, done: set<Task>, r: Request, next: set<Request>) {
    var requests := NextRequests(r.ip, r.step.sel, r.step.thens, AnswerTo(ctx, store, root, done, r));
    requests.Ok? && forall n :: n in next <==> n in requests.value
  }

  lemma FollowerHit(ctx: Context, store: Store, root: Place, done: set<Task>, r: Request, next: set<Request>,
                    n: Request) returns (h: Hit)
    requires Setting(ctx, store, root) && Waiting(ctx, store, root, done, r)
    requires FollowersOf(ctx, store, root, done, r, next) && n in next
    ensures Follows(r, AnswerTo(ctx, store, root, done, r), n, h)
    ensures Asked(ctx, store, PlaceOf(ctx, store, root, done, r), r)
  {
    var q := PlaceOf(ctx, store, root, done, r);
    LocatedOk(ctx, store, root, done, AddressOf(r.ip));
    NextSound(ctx, store, q, r, r.step.thens);
    h :| Follows(r, AnswerTo(ctx, store, root, done, r), n, h);
  }

  /** Requests already waiting go on waiting. */
  lemma StillWaiting(ctx: Context, store: Store, root: Place, done: set<Task>, t: Task, s: Request)
    requires Waiting(ctx, store, root, done, s) && TaskOf(s) != t
    ensures Waiting(ctx, store, root, done + {t}, s)
  {
    LocateMonotone(ctx, store, root, done, done + {t}, AddressOf(s.ip));
  }

  lemma {:induction false} StillGrounded(ctx: Context, store: Store, root: Place, done: set<Task>, t: Task)
    requires Grounded(ctx, store, root, done) && Locate(ctx, store, root, done, t.at).Some?
    ensures Grounded(ctx, store, root, done + {t})
  {
    forall s | s in done + {t}
      ensures Locate(ctx, store, root, done + {t}, s.at).Some?
    {
      LocateMonotone(ctx, store, root, done, done + {t}, s.at);
    }
  }

  /** What is needed inside a new answer is asked for by a following request. */
  lemma {:induction false} NewNeedFollowed(ctx: Context, store: Store, root: Place, done: set<Task>, r: Request,
                                        next: set<Request>, at: seq<Pt>, f: Sel)
    requires Setting(ctx, store, root) && Grounded(ctx, store, root, done) && Waiting(ctx, store, root, done, r)
    requires FollowersOf(ctx, store, root, done, r, next)
    requires Locate(ctx, store, root, done, at).None? && Locate(ctx, store, root, done + {TaskOf(r)}, at).Some?
    requires f in Locate(ctx, store, root, done + {TaskOf(r)}, at).value.sels && f.Field?
    requires var p := Locate(ctx, store, root, done + {TaskOf(r)}, at).value;
             Where(ctx.tum, p.typename, f.name, p.location) != p.location
    ensures var p := Locate(ctx, store, root, done + {TaskOf(r)}, at).value;
            exists n :: n in next && TaskOf(n) == Task(at, Where(ctx.tum, p.typename, f.name, p.location))
  {
    var q, url := PlaceOf(ctx, store, root, done, r), r.step.url;
    LocatedOk(ctx, store, root, done, AddressOf(r.ip));
    var b := NewlyLocated(ctx, store, root, done, AddressOf(r.ip), url, at);
    var p := Locate(ctx, store, root, done + {TaskOf(r)}, at).value;
    var n := NeedFollowed(ctx, store, q, r, b, f);
    assert TaskOf(n) == Task(at, Where(ctx.tum, p.typename, f.name, p.location));
  }

  lemma NeedFollowed(ctx: Context, store: Store, q: Place, r: Request, b: seq<Pt>, f: Sel) returns (n: Request)
    requires Asked(ctx, store, q, r) && Denotes(r.ip, AddressOf(r.ip)) && b != []
    requires Locate(ctx, store, GroupPlace(ctx, q, r.step.url), {}, b).Some?
    requires var p := Locate(ctx, store, GroupPlace(ctx, q, r.step.url), {}, b).value;
             f in p.sels && f.Field? && Where(ctx.tum, p.typename, f.name, p.location) != p.location
    ensures var next := NextRequests(r.ip, r.step.sel, r.step.thens, Answer(ctx, store, q, r.step.url));
            next.Ok? && n in next.value
    ensures var p := Locate(ctx, store, GroupPlace(ctx, q, r.step.url), {}, b).value;
            TaskOf(n) == Task(AddressOf(r.ip) + b, Where(ctx.tum, p.typename, f.name, p.location))
  {
    var g, ip, answer := GroupPlace(ctx, q, r.step.url), KeysOf(AddressOf(r.ip)), Answer(ctx, store, q, r.step.url);
    var p := Locate(ctx, store, g, {}, b).value;
    var to := Where(ctx.tum, p.typename, f.name, p.location);
    GroupPlaceOk(ctx, store, q, r.step.url);
    LocateIsSelAt(ctx, store, g, b);
    LocatedOk(ctx, store, g, {}, b);
    assert f in Group(ctx.tum, p.typename, p.sels, p.location, to);
    PlaceHasStep(ctx, ip, g.typename, g.sels, g.location, KeysOf(b), to);
    ChildrenOfGroup(ctx, ip, g.typename, g.sels, g.location);
    var child := StepAt(ctx, ip + KeysOf(b), (p.typename, p.sels), g.location, to);
    assert child in r.step.thens;
    LocateIsReach(ctx, store, g, {}, b);
    var h := Hit(b, Reach(answer, b).value);
    ReachedComplete(answer, b);
    assert child.ip[|r.ip|..] == KeysOf(b);
    ChildPoints(ctx, store, q, r, child);
    NextComplete(ctx, store, q, r, child, h);
    n := Request(child, r.ip + PrintPath(h.at, h.obj));
    FollowerPoints(ctx, store, q, r, n, h);
  }

  lemma MergeIntoDisjoint(target: Object, result: Object)
    requires target.Keys !! result.Keys
    ensures MergeInto(target, result) == target + result
  {
  }

  /** Stitching the answer to a waiting request gives the partial answer of one task more. */
  lemma StitchedIsPart(ctx: Context, store: Store, root: Place, done: set<Task>, r: Request)
    requires Setting(ctx, store, root) && Grounded(ctx, store, root, done) && Waiting(ctx, store, root, done, r)
    ensures Stitch(PartAt(ctx, store, root, done), r.ip, AnswerTo(ctx, store, root, done, r))
            == Ok(PartAt(ctx, store, root, done + {TaskOf(r)}))
  {
    var at, tree := AddressOf(r.ip), PartAt(ctx, store, root, done);
    AddTask(ctx, store, root, done, at, r.step.url);
    ReachesWhatIsThere(tree, r.ip, at);
    MergeIntoDisjoint(Reach(tree, at).value, AnswerTo(ctx, store, root, done, r));
  }

  lemma StillRemembered(ctx: Context, store: Store, root: Place, done: set<Task>, pending: set<Request>, r: Request,
                        next: set<Request>)
    requires Setting(ctx, store, root) && Grounded(ctx, store, root, done) && Waiting(ctx, store, root, done, r)
    requires Remembered(ctx, store, root, done, pending)
    requires FollowersOf(ctx, store, root, done, r, next)
    ensures Remembered(ctx, store, root, done + {TaskOf(r)}, pending - {r} + next)
  {
    var more := done + {TaskOf(r)};
    forall at: seq<Pt>, f: Sel |
      Locate(ctx, store, root, more, at).Some? && f in Locate(ctx, store, root, more, at).value.sels && f.Field?
      ensures var q := Locate(ctx, store, root, more, at).value;
              var url := Where(ctx.tum, q.typename, f.name, q.location);
              url == q.location || Task(at, url) in more || exists s :: s in pending - {r} + next && TaskOf(s) == Task(at, url)
    {
      StillRememberedAt(ctx, store, root, done, pending, r, next, at, f);
    }
  }

  lemma {:induction false} StillRememberedAt(ctx: Context, store: Store, root: Place, done: set<Task>,
                                        pending: set<Request>, r: Request, next: set<Request>,
                                             at: seq<Pt>, f: Sel)
    requires Setting(ctx, store, root) && Grounded(ctx, store, root, done) && Waiting(ctx, store, root, done, r)
    requires Remembered(ctx, store, root, done, pending)
    requires FollowersOf(ctx, store, root, done, r, next)
    requires Locate(ctx, store, root, done + {TaskOf(r)}, at).Some?
    requires f in Locate(ctx, store, root, done + {TaskOf(r)}, at).value.sels && f.Field?
    ensures var q := Locate(ctx, store, root, done + {TaskOf(r)}, at).value;
            var url := Where(ctx.tum, q.typename, f.name, q.location);
            url == q.location || Task(at, url) in done + {TaskOf(r)} || exists s :: s in pending - {r} + next && TaskOf(s) == Task(at, url)
  {
    var more := done + {TaskOf(r)};
    var q := Locate(ctx, store, root, more, at).value;
    var url := Where(ctx.tum, q.typename, f.name, q.location);
    if url != q.location {
      if Locate(ctx, store, root, done, at).Some? {
        LocateMonotone(ctx, store, root, done, more, at);
        if Task(at, url) !in done {
          var s :| s in pending && TaskOf(s) == Task(at, url);
          assert s == r || s in pending - {r} + next;
        }
      } else {
        NewNeedFollowed(ctx, store, root, done, r, next, at, f);
        var n :| n in next && TaskOf(n) == Task(at, url);
        assert n in pending - {r} + next;
      }
    }
  }

  lemma NoTwoTasks(ctx: Context, store: Store, root: Place, done: set<Task>, pending: set<Request>, r: Request,
                   next: set<Request>)
    requires Setting(ctx, store, root) && Grounded(ctx, store, root, done)
    requires forall s :: s in pending ==> Waiting(ctx, store, root, done, s)
    requires forall s, t :: s in pending && t in pending && TaskOf(s) == TaskOf(t) ==> s == t
    requires r in pending && FollowersOf(ctx, store, root, done, r, next)
    ensures forall s, t :: s in pending + next && t in pending + next && TaskOf(s) == TaskOf(t) ==> s == t
    ensures pending !! next
  {
    forall n | n in next
      ensures forall s :: s in pending ==> TaskOf(s) != TaskOf(n)
      ensures forall m :: m in next && TaskOf(m) == TaskOf(n) ==> m == n
    {
      var h := FollowerHit(ctx, store, root, done, r, next, n);
      FollowerWaits(ctx, store, root, done, r, n, h);
      forall m | m in next && TaskOf(m) == TaskOf(n)
        ensures m == n
      {
        var g := FollowerHit(ctx, store, root, done, r, next, m);
        FollowersDiffer(ctx, store, PlaceOf(ctx, store, root, done, r), r, m, g, n, h);
      }
    }
  }

  /**
   * Executing and merging any pending request keeps the invariant: the tree becomes the partial answer of one task
   * more, and the requests that follow take the executed one's place.
   */
  lemma StepKeepsInv(ctx: Context, store: Store, root: Place, done: set<Task>, tree: Object, pending: set<Request>,
                     r: Request, next: set<Request>)
    requires Setting(ctx, store, root) && Inv(ctx, store, root, done, tree, pending)
    requires r in pending && FollowersOf(ctx, store, root, done, r, next)
    ensures var stitched := Stitch(tree, r.ip, AnswerTo(ctx, store, root, done, r));
            stitched.Ok? && Inv(ctx, store, root, done + {TaskOf(r)}, stitched.value, pending - {r} + next)
    ensures pending !! next
  {
    var more := done + {TaskOf(r)};
    StitchedIsPart(ctx, store, root, done, r);
    StillGrounded(ctx, store, root, done, TaskOf(r));
    NoTwoTasks(ctx, store, root, done, pending, r, next);
    StillRemembered(ctx, store, root, done, pending, r, next);
    forall s | s in pending - {r} + next
      ensures Waiting(ctx, store, root, more, s)
    {
      if s in next {
        var h := FollowerHit(ctx, store, root, done, r, next, s);
        FollowerWaits(ctx, store, root, done, r, s, h);
      } else {
        StillWaiting(ctx, store, root, done, TaskOf(r), s);
      }
    }
  }

  /** The requests of the root steps: one for each service that owns some of the root fields. */
  ghost predicate RootRequests(ctx: Context, root: Place, pending: set<Request>) {
    forall r :: r in pending <==>
      && r.ip == []
      && r.step.url != root.location
      && Group(ctx.tum, root.typename, root.sels, root.location, r.step.url) != []
      && r.step == StepAt(ctx, [], (root.typename, root.sels), root.location, r.step.url)
  }

  /** Before anything is executed the invariant holds of the empty tree. */
  lemma StartInv(ctx: Context, store: Store, root: Place, pending: set<Request>)
    requires Setting(ctx, store, root) && RootRequests(ctx, root, pending)
    requires forall f :: f in root.sels && f.Field? ==> Where(ctx.tum, root.typename, f.name, root.location) != root.location
    ensures Inv(ctx, store, root, {}, map[], pending)
  {
    forall k
      ensures k !in PartAt(ctx, store, root, {})
    {
    }
    assert PartAt(ctx, store, root, {}) == map[];
    forall at: seq<Pt>, f: Sel |
      Locate(ctx, store, root, {}, at).Some? && f in Locate(ctx, store, root, {}, at).value.sels && f.Field?
      ensures var q := Locate(ctx, store, root, {}, at).value;
              var url := Where(ctx.tum, q.typename, f.name, q.location);
              exists r :: r in pending && TaskOf(r) == Task(at, url)
    {
      assert at == [];
      var url := Where(ctx.tum, root.typename, f.name, root.location);
      var r := Request(StepAt(ctx, [], (root.typename, root.sels), root.location, url), []);
      assert f in Group(ctx.tum, root.typename, root.sels, root.location, url);
      assert r in pending && TaskOf(r) == Task(at, url);
    }
    forall r | r in pending
      ensures Waiting(ctx, store, root, {}, r)
    {
      assert AddressOf(r.ip) == [];
      assert KeysOf(AddressOf(r.ip)) == [];
    }
  }
}
