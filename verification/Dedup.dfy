/** executor/depth_executor_query.go: requests for one object and query are sent once and fanned out. */
module Dedup {
  import opened Prelude
  import opened Text
  import opened Json
  import opened Schema
  import opened Selection
  import opened InsertionPoints
  import opened Requests
  import opened Service

  /** The SHA-256 of a step's query text. */
  type Digest = d: seq<nat> | |d| == 32 && forall i :: 0 <= i < 32 ==> d[i] < 256
    witness seq(32, i => 0)

  /** The `%v` text of a byte array. */
  function PrintDigest(d: Digest): string {
    "[" + Join(Numbers(d), ' ') + "]"
  }

  function Numbers(d: seq<nat>): (r: seq<string>)
    ensures |r| == |d|
    ensures forall i :: 0 <= i < |r| ==> r[i] == PrintNat(d[i])
  {
    seq(|d|, i requires 0 <= i < |d| => PrintNat(d[i]))
  }

  function VariablesOrEmpty(variables: Object, r: Request): Object {
    var v := GetVariables(variables, r);
    if v.Ok? then v.value else map[]
  }

  /** The de-duplication key of setIMap: object and query for node queries with no other variable, else the position. */
  function KeyOf(digest: seq<Sel> -> Digest, index: nat, r: Request, v: Object): string {
    if !IsRoot(r.step.parentType) && |v| == 1 && ID in v
    then "!" + Printed(v[ID]) + PrintDigest(digest(r.step.sel))
    else PrintNat(index)
  }

  lemma {:induction false} JoinedDigits(parts: seq<string>)
    requires forall i :: 0 <= i < |parts| ==> forall j :: 0 <= j < |parts[i]| ==> IsDigit(parts[i][j])
    ensures forall i :: 0 <= i < |Join(parts, ' ')| ==> Join(parts, ' ')[i] == ' ' || IsDigit(Join(parts, ' ')[i])
  {
    if |parts| > 1 {
      JoinedDigits(parts[1..]);
    }
  }

  lemma DigestText(d: Digest)
    ensures PrintDigest(d)[0] == '['
    ensures forall i :: 0 < i < |PrintDigest(d)| ==> PrintDigest(d)[i] != '['
  {
    JoinedDigits(Numbers(d));
    var text := Join(Numbers(d), ' ');
    assert forall i :: 0 < i < |PrintDigest(d)| ==> PrintDigest(d)[i] == (text + "]")[i - 1];
  }

  lemma JoinNumbersInjective(x: seq<nat>, y: seq<nat>)
    requires x != [] && y != []
    requires Join(Numbers(x), ' ') == Join(Numbers(y), ' ')
    ensures x == y
  {
    forall d: seq<nat>, i | 0 <= i < |d|
      ensures ' ' !in Numbers(d)[i]
    {
      assert forall j :: 0 <= j < |PrintNat(d[i])| ==> IsDigit(PrintNat(d[i])[j]);
    }
    SplitJoin(Numbers(x), ' ');
    SplitJoin(Numbers(y), ' ');
    assert Numbers(x) == Numbers(y);
    forall i | 0 <= i < |x|
      ensures x[i] == y[i]
    {
      assert Numbers(x)[i] == Numbers(y)[i];
      PrintNatInjective(x[i], y[i]);
    }
  }

  lemma PrintDigestInjective(x: Digest, y: Digest)
    requires PrintDigest(x) == PrintDigest(y)
    ensures x == y
  {
    var a, b := Join(Numbers(x), ' '), Join(Numbers(y), ' ');
    assert a == PrintDigest(x)[1..|PrintDigest(x)| - 1];
    assert b == PrintDigest(y)[1..|PrintDigest(y)| - 1];
    JoinNumbersInjective(x, y);
  }

  /** The digest starts at the last bracket of a node key. */
  lemma LastBracket(a: string, x: Digest)
    ensures var k := "!" + a + PrintDigest(x);
            && k[1 + |a|] == '['
            && (forall i :: 1 + |a| < i < |k| ==> k[i] != '[')
            && k[1..1 + |a|] == a && k[1 + |a|..] == PrintDigest(x)
  {
    var k := "!" + a + PrintDigest(x);
    DigestText(x);
    assert forall i :: 1 + |a| <= i < |k| ==> k[i] == PrintDigest(x)[i - 1 - |a|];
  }

  /** A node key determines the id and the digest, whatever characters the id holds. */
  lemma NodeKeyInjective(a: string, x: Digest, b: string, y: Digest)
    requires "!" + a + PrintDigest(x) == "!" + b + PrintDigest(y)
    ensures a == b && x == y
  {
    LastBracket(a, x);
    LastBracket(b, y);
    assert |a| == |b|;
    PrintDigestInjective(x, y);
  }

  lemma OnlyEntry(v: Object, w: Object)
    requires |v| == 1 == |w| && ID in v && ID in w && v[ID] == w[ID]
    ensures v == w
  {
    OnlyKey(v);
    OnlyKey(w);
  }

  lemma OnlyKey(v: Object)
    requires |v| == 1 && ID in v
    ensures v.Keys == {ID}
  {
    assert |v.Keys - {ID}| == 0;
  }

  datatype IndexMapValue = IndexMapValue(targetIndex: nat, indexes: seq<nat>)

  /** indexMap: which slots share a key, and which sent request answers them. */
  class IndexMap {
    var entries: map<string, IndexMapValue>

    constructor ()
      ensures entries == map[]
    {
      entries := map[];
    }

    /** True when the key is new. */
    method Set(index: nat, targetIndex: nat, key: string) returns (isNew: bool)
      modifies this
      ensures isNew == (key !in old(entries))
      ensures entries == old(entries)[key :=
        if isNew then IndexMapValue(targetIndex, [index])
        else old(entries)[key].(indexes := old(entries)[key].indexes + [index])]
    {
      if key !in entries {
        entries := entries[key := IndexMapValue(targetIndex, [index])];
        return true;
      }
      entries := entries[key := entries[key].(indexes := entries[key].indexes + [index])];
      return false;
    }

    /** The slots of a sent request, searching the entries in any order. */
    method GetSameIndexes(targetIndex: nat) returns (indexes: seq<nat>)
      ensures (forall k :: k in entries ==> entries[k].targetIndex != targetIndex) ==> indexes == []
      ensures (exists k :: k in entries && entries[k].targetIndex == targetIndex) ==>
                exists k :: k in entries && entries[k] == IndexMapValue(targetIndex, indexes)
    {
      var left := entries.Keys;
      while left != {}
        invariant left <= entries.Keys
        invariant forall k :: k in entries && k !in left ==> entries[k].targetIndex != targetIndex
        decreases left
      {
        var k :| k in left;
        if entries[k].targetIndex == targetIndex {
          return entries[k].indexes;
        }
        left := left - {k};
      }
      return [];
    }
  }

  datatype QueryerResponse = QueryerResponse(request: Request, response: Object)

  /** The client of one service: a batch is answered call by call, or fails; the log holds every call ever sent. */
  class Queryer {
    const url: string
    const services: Services
    var log: seq<Call>

    constructor (url: string, services: Services)
      ensures this.url == url && this.services == services && log == []
    {
      this.url := url;
      this.services := services;
      log := [];
    }

    method Query(batch: seq<Call>) returns (r: Result<seq<Object>>)
      modifies this`log
      ensures log == old(log) + batch
      ensures r.Ok? <==> forall i :: 0 <= i < |batch| ==> services(url, batch[i]).Ok?
      ensures r.Ok? ==> |r.value| == |batch| && forall i :: 0 <= i < |batch| ==> services(url, batch[i]) == Ok(r.value[i])
    {
      log := log + batch;
      var resps := [];
      for i := 0 to |batch|
        invariant |resps| == i
        invariant forall j :: 0 <= j < i ==> services(url, batch[j]) == Ok(resps[j])
      {
        var resp := services(url, batch[i]);
        if resp.Err? {
          return Err(resp.reason);
        }
        resps := resps + [resp.value];
      }
      return Ok(resps);
    }
  }

  /** What executeRequests works out for one slot before anything is sent. */
  datatype Slot = Slot(needed: bool, key: string, call: Call)

  function SlotOf(parentTypeOf: Json -> Option<string>, digest: seq<Sel> -> Digest, variables: Object, index: nat,
                  r: Request): Slot {
    var v := VariablesOrEmpty(variables, r);
    Slot(NeedToQuery(parentTypeOf, r, v), KeyOf(digest, index, r, v), Call(r.step.sel, v))
  }

  function Slots(parentTypeOf: Json -> Option<string>, digest: seq<Sel> -> Digest, variables: Object,
                 ers: seq<Request>): (slots: seq<Slot>)
    ensures |slots| == |ers|
  {
    seq(|ers|, i requires 0 <= i < |ers| => SlotOf(parentTypeOf, digest, variables, i, ers[i]))
  }

  /** Requests as plans produce them: for one service, bare only at a root, and told apart by their digests. */
  ghost predicate Batchable(digest: seq<Sel> -> Digest, ers: seq<Request>) {
    && (forall i, j :: 0 <= i < |ers| && 0 <= j < |ers| ==> ers[i].step.url == ers[j].step.url)
    && (forall i :: 0 <= i < |ers| ==> IsRoot(ers[i].step.parentType) || ers[i].ip != [])
    && (forall i, j :: 0 <= i < |ers| && 0 <= j < |ers| && digest(ers[i].step.sel) == digest(ers[j].step.sel) ==>
          ers[i].step.sel == ers[j].step.sel)
  }

  /** Slots with the same key make the same call. */
  ghost predicate KeysMean(slots: seq<Slot>) {
    forall i, j :: 0 <= i < |slots| && 0 <= j < |slots| && slots[i].key == slots[j].key ==> slots[i].call == slots[j].call
  }

  lemma SlotKeysMean(parentTypeOf: Json -> Option<string>, digest: seq<Sel> -> Digest, variables: Object, ers: seq<Request>)
    requires Batchable(digest, ers)
    ensures KeysMean(Slots(parentTypeOf, digest, variables, ers))
  {
    var slots := Slots(parentTypeOf, digest, variables, ers);
    forall i, j | 0 <= i < |slots| && 0 <= j < |slots| && slots[i].key == slots[j].key
      ensures slots[i].call == slots[j].call
    {
      if i != j {
        KeyMeansNode(digest, i, ers[i], VariablesOrEmpty(variables, ers[i]), j, ers[j], VariablesOrEmpty(variables, ers[j]));
      }
    }
  }

  /** Equal keys of different slots mean the same call: positional keys and node keys never meet. */
  lemma KeyMeansNode(digest: seq<Sel> -> Digest, i: nat, r: Request, v: Object, j: nat, s: Request, w: Object)
    requires i != j && KeyOf(digest, i, r, v) == KeyOf(digest, j, s, w)
    requires digest(r.step.sel) == digest(s.step.sel) ==> r.step.sel == s.step.sel
    requires !IsRoot(r.step.parentType) && ID in v ==> v[ID].JScalar?
    requires !IsRoot(s.step.parentType) && ID in w ==> w[ID].JScalar?
    ensures Call(r.step.sel, v) == Call(s.step.sel, w)
  {
    var k, l := KeyOf(digest, i, r, v), KeyOf(digest, j, s, w);
    var nodeR := !IsRoot(r.step.parentType) && |v| == 1 && ID in v;
    var nodeS := !IsRoot(s.step.parentType) && |w| == 1 && ID in w;
    assert nodeR ==> k[0] == '!';
    assert nodeS ==> l[0] == '!';
    if nodeR {
      NodeKeyInjective(Printed(v[ID]), digest(r.step.sel), Printed(w[ID]), digest(s.step.sel));
      OnlyEntry(v, w);
    } else {
      PrintNatInjective(i, j);
    }
  }

  /** The distinct keys of the slots that need a query, in the order they first occur. */
  function LeaderKeys(slots: seq<Slot>): seq<string> {
    if slots == [] then []
    else
      var keys, last := LeaderKeys(slots[..|slots| - 1]), slots[|slots| - 1];
      if last.needed && last.key !in keys then keys + [last.key] else keys
  }

  /** For each of them, the slot that has it first. */
  function Leaders(slots: seq<Slot>): seq<nat> {
    if slots == [] then []
    else
      var front, last := slots[..|slots| - 1], slots[|slots| - 1];
      if last.needed && last.key !in LeaderKeys(front) then Leaders(front) + [|front|] else Leaders(front)
  }

  /** ... and that slot's call: what is sent. */
  function Batch(slots: seq<Slot>): seq<Call> {
    if slots == [] then []
    else
      var front, last := slots[..|slots| - 1], slots[|slots| - 1];
      if last.needed && last.key !in LeaderKeys(front) then Batch(front) + [last.call] else Batch(front)
  }

  /** The slots that need a query and have a key, in order. */
  function Sharing(slots: seq<Slot>, key: string): seq<nat> {
    if slots == [] then []
    else
      var front, last := slots[..|slots| - 1], slots[|slots| - 1];
      Sharing(front, key) + if last.needed && last.key == key then [|front|] else []
  }

  lemma {:induction false} InSharing(slots: seq<Slot>, key: string)
    ensures Holds(slots, key, Sharing(slots, key))
  {
    if slots != [] {
      var front, last := slots[..|slots| - 1], slots[|slots| - 1];
      InSharing(front, key);
      if last.needed && last.key == key {
        DistinctSnoc(Sharing(front, key), |front|);
      }
      forall i
        ensures i in Sharing(slots, key) <==> i in Sharing(front, key) || (last.needed && last.key == key && i == |front|)
      {
      }
    }
  }

  /** The slots that need no query. */
  function Skipped(slots: seq<Slot>): set<nat> {
    set i | 0 <= i < |slots| && !slots[i].needed
  }

  /** For each call that is sent, the slots its answer goes to. */
  function IndexLists(slots: seq<Slot>): (lists: seq<seq<nat>>)
    ensures |lists| == |LeaderKeys(slots)|
  {
    seq(|LeaderKeys(slots)|, t requires 0 <= t < |LeaderKeys(slots)| => Sharing(slots, LeaderKeys(slots)[t]))
  }

  /** Keys, each once, with the first slot that has it and that slot's call; and no needed slot without its key. */
  ghost predicate Lead(slots: seq<Slot>, leaders: seq<nat>, keys: seq<string>, batch: seq<Call>) {
    && |leaders| == |keys| == |batch| && Distinct(keys)
    && (forall t :: 0 <= t < |keys| ==> Leads(slots, leaders[t], keys[t], batch[t]))
    && (forall s, t :: 0 <= s < t < |leaders| ==> leaders[s] < leaders[t])
    && (forall i :: 0 <= i < |slots| && slots[i].needed ==> slots[i].key in keys)
  }

  /** The first slot that needs a query and has the key. */
  ghost predicate Leads(slots: seq<Slot>, i: nat, key: string, call: Call) {
    && i < |slots| && slots[i].needed && slots[i].key == key && slots[i].call == call
    && forall j :: 0 <= j < i && slots[j].needed ==> slots[j].key != key
  }

  lemma {:induction false} LeadStep(front: seq<Slot>, s: Slot, leaders: seq<nat>, keys: seq<string>, batch: seq<Call>)
    requires Lead(front, leaders, keys, batch)
    ensures s.needed && s.key !in keys ==> Lead(front + [s], leaders + [|front|], keys + [s.key], batch + [s.call])
    ensures !s.needed || s.key in keys ==> Lead(front + [s], leaders, keys, batch)
  {
    var slots := front + [s];
    forall t | 0 <= t < |keys|
      ensures Leads(slots, leaders[t], keys[t], batch[t])
    {
      assert Leads(front, leaders[t], keys[t], batch[t]);
    }
    if s.needed && s.key !in keys {
      assert Leads(slots, |front|, s.key, s.call);
      forall t | 0 <= t < |keys| + 1
        ensures Leads(slots, (leaders + [|front|])[t], (keys + [s.key])[t], (batch + [s.call])[t])
      {
      }
      forall a, b | 0 <= a < b < |keys| + 1
        ensures (leaders + [|front|])[a] < (leaders + [|front|])[b]
      {
        assert Leads(front, leaders[a], keys[a], batch[a]);
      }
    }
  }

  /** One call for each distinct key, that of the first slot that has it. */
  lemma {:induction false} LeadersLead(slots: seq<Slot>)
    ensures Lead(slots, Leaders(slots), LeaderKeys(slots), Batch(slots))
  {
    if slots != [] {
      var front, last := slots[..|slots| - 1], slots[|slots| - 1];
      LeadersLead(front);
      LeadStep(front, last, Leaders(front), LeaderKeys(front), Batch(front));
      assert slots == front + [last];
    }
  }

  /** Lists and a set that together hold each position below n once. */
  ghost predicate Partition(n: nat, lists: seq<seq<nat>>, nils: set<nat>) {
    && (forall t :: 0 <= t < |lists| ==> Distinct(lists[t]))
    && (forall i :: i in nils ==> i < n)
    && (forall t :: 0 <= t < |lists| ==> forall i :: i in lists[t] ==> i < n && i !in nils)
    && (forall s, t, i :: 0 <= s < t < |lists| && i in lists[s] ==> i !in lists[t])
    && (forall i: nat :: i < n ==> i in nils || SomeList(lists, i))
  }

  lemma ListInside(n: nat, lists: seq<seq<nat>>, nils: set<nat>, t: nat)
    requires Partition(n, lists, nils) && t < |lists|
    ensures forall i :: i in lists[t] ==> i < n
  {
  }

  ghost predicate SomeList(lists: seq<seq<nat>>, i: nat) {
    exists t :: 0 <= t < |lists| && i in lists[t]
  }

  /** A list holds exactly the slots that need a query and have a key, each once. */
  ghost predicate Holds(slots: seq<Slot>, key: string, list: seq<nat>) {
    Distinct(list) && forall i :: i in list <==> 0 <= i < |slots| && slots[i].needed && slots[i].key == key
  }

  /** For each key the list of the slots that have it. */
  ghost predicate HoldAll(slots: seq<Slot>, keys: seq<string>, lists: seq<seq<nat>>) {
    && |lists| == |keys|
    && forall t :: 0 <= t < |lists| ==> Holds(slots, keys[t], lists[t])
  }

  lemma {:induction false} HeldPartition(slots: seq<Slot>, keys: seq<string>, lists: seq<seq<nat>>, nils: set<nat>)
    requires HoldAll(slots, keys, lists) && Distinct(keys)
    requires forall i :: 0 <= i < |slots| && slots[i].needed ==> slots[i].key in keys
    requires forall i :: i in nils <==> 0 <= i < |slots| && !slots[i].needed
    ensures Partition(|slots|, lists, nils)
  {
    forall i: nat | i < |slots| && i !in nils
      ensures SomeList(lists, i)
    {
      var t :| 0 <= t < |keys| && keys[t] == slots[i].key;
      assert Holds(slots, keys[t], lists[t]);
    }
    forall t, i | 0 <= t < |lists| && i in lists[t]
      ensures i < |slots| && i !in nils
    {
      assert Holds(slots, keys[t], lists[t]);
    }
    forall s, t, i | 0 <= s < t < |lists| && i in lists[s]
      ensures i !in lists[t]
    {
      assert Holds(slots, keys[s], lists[s]) && Holds(slots, keys[t], lists[t]);
    }
    forall t | 0 <= t < |lists|
      ensures Distinct(lists[t])
    {
      assert Holds(slots, keys[t], lists[t]);
    }
  }

  lemma {:induction false} ListsHold(slots: seq<Slot>)
    ensures HoldAll(slots, LeaderKeys(slots), IndexLists(slots))
  {
    forall t | 0 <= t < |IndexLists(slots)|
      ensures Holds(slots, LeaderKeys(slots)[t], IndexLists(slots)[t])
    {
      InSharing(slots, LeaderKeys(slots)[t]);
    }
  }

  /** The index lists and the skipped slots partition all positions. */
  lemma {:induction false} SlotsPartition(slots: seq<Slot>)
    ensures Partition(|slots|, IndexLists(slots), Skipped(slots))
  {
    LeadersLead(slots);
    ListsHold(slots);
    HeldPartition(slots, LeaderKeys(slots), IndexLists(slots), Skipped(slots));
  }

  /** An index map: each key with its position among the keys and the slots that share it. */
  ghost predicate IndexOf(keys: seq<string>, sharing: string -> seq<nat>, entries: map<string, IndexMapValue>) {
    && |entries| == |keys|
    && (forall k :: k in entries <==> k in keys)
    && (forall k :: k in entries ==> entries[k].indexes == sharing(k))
    && (forall t :: 0 <= t < |keys| ==> keys[t] in entries && entries[keys[t]].targetIndex == t)
  }

  ghost predicate IsIndex(slots: seq<Slot>, entries: map<string, IndexMapValue>) {
    IndexOf(LeaderKeys(slots), SharingOf(slots), entries)
  }

  function SharingOf(slots: seq<Slot>): string -> seq<nat> {
    k => Sharing(slots, k)
  }

  lemma {:induction false} IndexOld(keys: seq<string>, sharing: string -> seq<nat>, more: string -> seq<nat>,
                                    entries: map<string, IndexMapValue>,
                                    key: string, i: nat)
    requires IndexOf(keys, sharing, entries) && key in entries
    requires forall k :: more(k) == sharing(k) + if key == k then [i] else []
    ensures IndexOf(keys, more, entries[key := entries[key].(indexes := entries[key].indexes + [i])])
  {
    var after := entries[key := entries[key].(indexes := entries[key].indexes + [i])];
    assert after.Keys == entries.Keys;
    assert |after| == |after.Keys| == |entries|;
  }

  lemma {:induction false} IndexNew(keys: seq<string>, sharing: string -> seq<nat>, more: string -> seq<nat>,
                                    entries: map<string, IndexMapValue>,
                                    key: string, i: nat)
    requires IndexOf(keys, sharing, entries) && key !in entries
    requires forall k :: more(k) == if key == k then [i] else sharing(k)
    ensures IndexOf(keys + [key], more, entries[key := IndexMapValue(|entries|, [i])])
  {
    var after := entries[key := IndexMapValue(|entries|, [i])];
    assert after.Keys == entries.Keys + {key};
    assert |after| == |after.Keys| == |entries| + 1;
  }

  lemma {:induction false} LeadersSnoc(slots: seq<Slot>, s: Slot)
    ensures var isNew := s.needed && s.key !in LeaderKeys(slots);
            && LeaderKeys(slots + [s]) == (if isNew then LeaderKeys(slots) + [s.key] else LeaderKeys(slots))
            && Batch(slots + [s]) == (if isNew then Batch(slots) + [s.call] else Batch(slots))
  {
    assert (slots + [s])[..|slots|] == slots;
  }

  lemma {:induction false} SharingSnoc(slots: seq<Slot>, s: Slot, k: string)
    ensures Sharing(slots + [s], k) == Sharing(slots, k) + if s.needed && s.key == k then [|slots|] else []
  {
    assert (slots + [s])[..|slots|] == slots;
  }

  lemma SkippedSnoc(slots: seq<Slot>, s: Slot)
    ensures Skipped(slots + [s]) == Skipped(slots) + if s.needed then {} else {|slots|}
  {
  }

  lemma {:induction false} SharingNone(slots: seq<Slot>, k: string)
    requires k !in LeaderKeys(slots)
    ensures Sharing(slots, k) == []
  {
    if slots != [] {
      SharingNone(slots[..|slots| - 1], k);
    }
  }

  /** The index of some slots and one more. */
  lemma {:induction false} IndexStep(slots: seq<Slot>, s: Slot, entries: map<string, IndexMapValue>)
    requires IsIndex(slots, entries)
    ensures !s.needed ==> IsIndex(slots + [s], entries)
    ensures s.needed && s.key in entries ==>
              IsIndex(slots + [s], entries[s.key := entries[s.key].(indexes := entries[s.key].indexes + [|slots|])])
    ensures s.needed && s.key !in entries ==> IsIndex(slots + [s], entries[s.key := IndexMapValue(|entries|, [|slots|])])
  {
    var sharing, more := SharingOf(slots), SharingOf(slots + [s]);
    LeadersSnoc(slots, s);
    forall k
      ensures more(k) == sharing(k) + if s.needed && s.key == k then [|slots|] else []
    {
      SharingSnoc(slots, s, k);
    }
    if s.needed {
      if s.key in entries {
        IndexOld(LeaderKeys(slots), sharing, more, entries, s.key, |slots|);
      } else {
        SharingNone(slots, s.key);
        IndexNew(LeaderKeys(slots), sharing, more, entries, s.key, |slots|);
      }
    }
  }

  /** The state of the first loop after some slots: their index, the slots to skip, and one call for each key. */
  ghost predicate Grouped(slots: seq<Slot>, entries: map<string, IndexMapValue>, nils: set<nat>, sent: seq<Call>) {
    IsIndex(slots, entries) && nils == Skipped(slots) && sent == Batch(slots)
  }

  /** What one turn of the first loop makes of that state. */
  lemma {:induction false} GroupedStep(slots: seq<Slot>, s: Slot, entries: map<string, IndexMapValue>, nils: set<nat>,
                                       sent: seq<Call>)
    requires Grouped(slots, entries, nils, sent)
    ensures !s.needed ==> Grouped(slots + [s], entries, nils + {|slots|}, sent)
    ensures s.needed && s.key in entries ==>
              Grouped(slots + [s], entries[s.key := entries[s.key].(indexes := entries[s.key].indexes + [|slots|])], nils, sent)
    ensures s.needed && s.key !in entries ==>
              Grouped(slots + [s], entries[s.key := IndexMapValue(|entries|, [|slots|])], nils, sent + [s.call])
  {
    IndexStep(slots, s, entries);
    LeadersSnoc(slots, s);
    SkippedSnoc(slots, s);
  }

  /** One turn of the first loop of executeRequests, once the slot's variables are known. */
  method Record(iMap: IndexMap, ghost slots: seq<Slot>, i: nat, slot: Slot, batch: seq<Call>, nils: set<nat>)
    returns (sent: seq<Call>, nillResps: set<nat>)
    requires i == |slots| && Grouped(slots, iMap.entries, nils, batch)
    modifies iMap
    ensures Grouped(slots + [slot], iMap.entries, nillResps, sent)
  {
    GroupedStep(slots, slot, iMap.entries, nils, batch);
    if !slot.needed {
      return batch, nils + {i};
    }
    var isNew := iMap.Set(i, |iMap.entries|, slot.key);
    return if isNew then batch + [slot.call] else batch, nils;
  }

  lemma NothingGrouped(slots: seq<Slot>, entries: map<string, IndexMapValue>)
    requires slots == [] && entries == map[]
    ensures Grouped(slots, entries, {}, [])
  {
    assert |entries| == 0 && LeaderKeys(slots) == [] && Batch(slots) == [] && Skipped(slots) == {};
    assert IndexOf(LeaderKeys(slots), SharingOf(slots), entries);
  }

  /** Keys, slots that need no query, and the calls to send. */
  method Prepare(iMap: IndexMap, slots: seq<Slot>) returns (batch: seq<Call>, nillResps: set<nat>)
    requires iMap.entries == map[]
    modifies iMap
    ensures Grouped(slots, iMap.entries, nillResps, batch)
  {
    batch, nillResps := [], {};
    ghost var done: seq<Slot> := [];
    NothingGrouped(done, iMap.entries);
    for i := 0 to |slots|
      invariant done == slots[..i] && Grouped(done, iMap.entries, nillResps, batch)
    {
      batch, nillResps := Record(iMap, done, i, slots[i], batch, nillResps);
      done := done + [slots[i]];
    }
    assert done == slots;
  }

  /** slots are those of the first requests. */
  ghost predicate SlotsSoFar(parentTypeOf: Json -> Option<string>, digest: seq<Sel> -> Digest, variables: Object,
                             ers: seq<Request>, slots: seq<Slot>) {
    && |slots| <= |ers|
    && forall j :: 0 <= j < |slots| ==> HasVariables(variables, ers[j]) && slots[j] == SlotOf(parentTypeOf, digest, variables, j, ers[j])
  }

  lemma OneMoreSlot(parentTypeOf: Json -> Option<string>, digest: seq<Sel> -> Digest, variables: Object,
                    ers: seq<Request>, slots: seq<Slot>, slot: Slot)
    requires SlotsSoFar(parentTypeOf, digest, variables, ers, slots) && |slots| < |ers|
    requires HasVariables(variables, ers[|slots|])
    requires slot == SlotOf(parentTypeOf, digest, variables, |slots|, ers[|slots|])
    ensures SlotsSoFar(parentTypeOf, digest, variables, ers, slots + [slot])
  {
  }

  lemma AllSlots(parentTypeOf: Json -> Option<string>, digest: seq<Sel> -> Digest, variables: Object, ers: seq<Request>,
                 slots: seq<Slot>)
    requires SlotsSoFar(parentTypeOf, digest, variables, ers, slots) && |slots| == |ers|
    ensures slots == Slots(parentTypeOf, digest, variables, ers)
    ensures forall i :: 0 <= i < |ers| ==> HasVariables(variables, ers[i])
  {
  }

  /** The variables of every slot, and with them its need for a query and its key. */
  method PrepareSlots(parentTypeOf: Json -> Option<string>, digest: seq<Sel> -> Digest, variables: Object, ers: seq<Request>)
    returns (r: Result<seq<Slot>>)
    ensures r.Ok? <==> forall i :: 0 <= i < |ers| ==> HasVariables(variables, ers[i])
    ensures r.Ok? ==> r.value == Slots(parentTypeOf, digest, variables, ers)
  {
    var slots := [];
    for i := 0 to |ers|
      invariant |slots| == i && SlotsSoFar(parentTypeOf, digest, variables, ers, slots)
    {
      var slot := PrepareSlot(parentTypeOf, digest, variables, i, ers[i]);
      if slot.Err? {
        return Err(slot.reason);
      }
      OneMoreSlot(parentTypeOf, digest, variables, ers, slots, slot.value);
      slots := slots + [slot.value];
    }
    AllSlots(parentTypeOf, digest, variables, ers, slots);
    return Ok(slots);
  }

  method PrepareSlot(parentTypeOf: Json -> Option<string>, digest: seq<Sel> -> Digest, variables: Object, i: nat, r: Request)
    returns (slot: Result<Slot>)
    ensures slot.Ok? <==> HasVariables(variables, r)
    ensures slot.Ok? ==> slot.value == SlotOf(parentTypeOf, digest, variables, i, r)
  {
    var v := GetVariables(variables, r);
    if v.Err? {
      return Err(v.reason);
    }
    return Ok(Slot(NeedToQuery(parentTypeOf, r, v.value), KeyOf(digest, i, r, v.value), Call(r.step.sel, v.value)));
  }

  predicate HasVariables(variables: Object, r: Request) {
    GetVariables(variables, r).Ok?
  }

  /** One answer copied to all slots of its key. */
  method Spread(ers: seq<Request>, qResps: seq<QueryerResponse>, indexes: seq<nat>, resp: Object)
    returns (r: seq<QueryerResponse>)
    requires |qResps| == |ers| && forall i :: i in indexes ==> i < |ers|
    ensures |r| == |ers|
    ensures forall i :: 0 <= i < |ers| ==> r[i] == if i in indexes then QueryerResponse(ers[i], resp) else qResps[i]
  {
    r := qResps;
    for x := 0 to |indexes|
      invariant |r| == |ers|
      invariant forall i :: 0 <= i < |ers| ==> r[i] == if i in indexes[..x] then QueryerResponse(ers[i], resp) else qResps[i]
    {
      assert indexes[x] in indexes;
      assert indexes[..x + 1] == indexes[..x] + [indexes[x]];
      r := r[indexes[x] := QueryerResponse(ers[indexes[x]], resp)];
    }
    assert indexes[..|indexes|] == indexes;
  }

  /** The slots of the first n answers hold them. */
  ghost predicate Filled(lists: seq<seq<nat>>, resps: seq<Object>, ers: seq<Request>, qResps: seq<QueryerResponse>, n: nat)
    requires n <= |lists| == |resps| && |qResps| == |ers|
  {
    forall t, i :: 0 <= t < n && i in lists[t] && i < |ers| ==> qResps[i] == QueryerResponse(ers[i], resps[t])
  }

  lemma {:induction false} FilledOneMore(lists: seq<seq<nat>>, nils: set<nat>, resps: seq<Object>, ers: seq<Request>,
                                         before: seq<QueryerResponse>, after: seq<QueryerResponse>, n: nat)
    requires |ers| == |before| == |after| && n < |lists| == |resps| && Partition(|ers|, lists, nils)
    requires Filled(lists, resps, ers, before, n)
    requires forall i :: 0 <= i < |ers| ==> after[i] == if i in lists[n] then QueryerResponse(ers[i], resps[n]) else before[i]
    ensures Filled(lists, resps, ers, after, n + 1)
  {
  }

  /** The index map knows, for each call that is sent, the slots its answer goes to. */
  ghost predicate Knows(entries: map<string, IndexMapValue>, lists: seq<seq<nat>>) {
    forall t :: 0 <= t < |lists| ==>
      && HasTarget(entries, t)
      && forall k :: k in entries && entries[k].targetIndex == t ==> entries[k].indexes == lists[t]
  }

  ghost predicate HasTarget(entries: map<string, IndexMapValue>, t: nat) {
    exists k :: k in entries && entries[k].targetIndex == t
  }

  lemma {:induction false} IndexKnows(keys: seq<string>, sharing: string -> seq<nat>,
                                      entries: map<string, IndexMapValue>, lists: seq<seq<nat>>)
    requires IndexOf(keys, sharing, entries) && |lists| == |keys| && forall t :: 0 <= t < |keys| ==> lists[t] == sharing(keys[t])
    ensures Knows(entries, lists)
  {
    forall t | 0 <= t < |lists|
      ensures HasTarget(entries, t)
      ensures forall k :: k in entries && entries[k].targetIndex == t ==> entries[k].indexes == lists[t]
    {
      assert keys[t] in entries && entries[keys[t]].targetIndex == t;
      forall k | k in entries && entries[k].targetIndex == t
        ensures k == keys[t]
      {
        var s :| 0 <= s < |keys| && keys[s] == k;
      }
    }
  }

  /** What sending needs to know of the slots that were grouped. */
  ghost predicate Ready(slots: seq<Slot>, leaders: seq<nat>, keys: seq<string>, lists: seq<seq<nat>>,
                        entries: map<string, IndexMapValue>,
                        nils: set<nat>, batch: seq<Call>) {
    && Lead(slots, leaders, keys, batch)
    && HoldAll(slots, keys, lists)
    && Knows(entries, lists)
    && Partition(|slots|, lists, nils)
    && forall i :: i in nils ==> !slots[i].needed
  }

  lemma {:induction false} GroupedReady(slots: seq<Slot>, entries: map<string, IndexMapValue>, nils: set<nat>, batch: seq<Call>)
    requires Grouped(slots, entries, nils, batch)
    ensures Ready(slots, Leaders(slots), LeaderKeys(slots), IndexLists(slots), entries, nils, batch)
  {
    LeadersLead(slots);
    ListsHold(slots);
    SlotsPartition(slots);
    IndexKnows(LeaderKeys(slots), SharingOf(slots), entries, IndexLists(slots));
  }

  /** The second loop: every answer is copied to all slots of its list, and skipped slots get a null node. */
  method FanOut(ers: seq<Request>, iMap: IndexMap, ghost lists: seq<seq<nat>>, nillResps: set<nat>, resps: seq<Object>)
    returns (qResps: seq<QueryerResponse>)
    requires Knows(iMap.entries, lists) && Partition(|ers|, lists, nillResps) && |resps| == |lists|
    ensures |qResps| == |ers|
    ensures Filled(lists, resps, ers, qResps, |resps|)
    ensures forall i :: i in nillResps ==> qResps[i] == QueryerResponse(ers[i], map[NODE := JNull])
  {
    qResps := seq(|ers|, i requires 0 <= i < |ers| => QueryerResponse(ers[i], map[]));
    for t := 0 to |resps|
      invariant |qResps| == |ers| && Filled(lists, resps, ers, qResps, t)
    {
      assert HasTarget(iMap.entries, t);
      var indexes := iMap.GetSameIndexes(t);
      assert indexes == lists[t];
      ListInside(|ers|, lists, nillResps, t);
      ghost var before := qResps;
      qResps := Spread(ers, qResps, indexes, resps[t]);
      FilledOneMore(lists, nillResps, resps, ers, before, qResps, t);
    }
    qResps := FillNulls(ers, qResps, nillResps);
  }

  method FillNulls(ers: seq<Request>, answered: seq<QueryerResponse>, nillResps: set<nat>) returns (qResps: seq<QueryerResponse>)
    requires |answered| == |ers| && forall i :: i in nillResps ==> i < |ers|
    ensures |qResps| == |ers|
    ensures forall i :: 0 <= i < |ers| ==> qResps[i] == if i in nillResps then QueryerResponse(ers[i], map[NODE := JNull]) else answered[i]
  {
    qResps := answered;
    var left := nillResps;
    while left != {}
      invariant left <= nillResps && |qResps| == |ers|
      invariant forall i :: 0 <= i < |ers| ==>
                  qResps[i] == if i in nillResps && i !in left then QueryerResponse(ers[i], map[NODE := JNull]) else answered[i]
      decreases left
    {
      var ind :| ind in left;
      qResps := qResps[ind := QueryerResponse(ers[ind], map[NODE := JNull])];
      left := left - {ind};
    }
  }

  /** What every slot receives when all calls of its batch are answered. */
  ghost predicate Answered(services: Services, url: string, slots: seq<Slot>, ers: seq<Request>, qResps: seq<QueryerResponse>) {
    && |slots| == |ers| == |qResps|
    && forall i :: 0 <= i < |ers| ==>
         && qResps[i].request == ers[i]
         && Ok(qResps[i].response) == if slots[i].needed then services(url, slots[i].call) else Ok(map[NODE := JNull])
  }

  /** Sending the batch and fanning the answers out. It fails exactly when some slot's own call fails. */
  method Send(q: Queryer, ghost slots: seq<Slot>, ghost leaders: seq<nat>, ghost keys: seq<string>, ghost lists: seq<seq<nat>>,
              ers: seq<Request>, iMap: IndexMap, nillResps: set<nat>, batch: seq<Call>)
    returns (r: Result<seq<QueryerResponse>>)
    requires |slots| == |ers| && KeysMean(slots) && Ready(slots, leaders, keys, lists, iMap.entries, nillResps, batch)
    modifies q`log
    ensures q.log == old(q.log) + batch
    ensures r.Ok? <==> forall i :: 0 <= i < |slots| && slots[i].needed ==> q.services(q.url, slots[i].call).Ok?
    ensures r.Ok? ==> Answered(q.services, q.url, slots, ers, r.value)
  {
    var resps := q.Query(batch);
    if resps.Err? {
      SomeSlotFails(q.services, q.url, slots, leaders, keys, batch);
      return Err(resps.reason);
    }
    var qResps := FanOut(ers, iMap, lists, nillResps, resps.value);
    r := Ok(qResps);
    FannedOut(q.services, q.url, slots, leaders, keys, lists, iMap.entries, nillResps, batch, ers, resps.value, qResps);
  }

  lemma {:induction false} SomeSlotFails(services: Services, url: string, slots: seq<Slot>, leaders: seq<nat>,
                                        keys: seq<string>, batch: seq<Call>)
    requires Lead(slots, leaders, keys, batch) && exists t :: 0 <= t < |batch| && services(url, batch[t]).Err?
    ensures exists i :: 0 <= i < |slots| && slots[i].needed && services(url, slots[i].call).Err?
  {
    var t :| 0 <= t < |batch| && services(url, batch[t]).Err?;
    assert Leads(slots, leaders[t], keys[t], batch[t]);
  }

  lemma {:induction false} FannedOut(services: Services, url: string, slots: seq<Slot>, leaders: seq<nat>,
                                     keys: seq<string>, lists: seq<seq<nat>>,
                                     entries: map<string, IndexMapValue>, nils: set<nat>, batch: seq<Call>,
                                     ers: seq<Request>, resps: seq<Object>, qResps: seq<QueryerResponse>)
    requires |slots| == |ers| == |qResps| && |resps| == |lists| && KeysMean(slots)
    requires Ready(slots, leaders, keys, lists, entries, nils, batch)
    requires forall t :: 0 <= t < |resps| ==> services(url, batch[t]) == Ok(resps[t])
    requires Filled(lists, resps, ers, qResps, |resps|)
    requires forall i :: i in nils ==> qResps[i] == QueryerResponse(ers[i], map[NODE := JNull])
    ensures forall i :: 0 <= i < |slots| && slots[i].needed ==> services(url, slots[i].call).Ok?
    ensures Answered(services, url, slots, ers, qResps)
  {
    forall i | 0 <= i < |slots|
      ensures qResps[i].request == ers[i]
      ensures Ok(qResps[i].response) == if slots[i].needed then services(url, slots[i].call) else Ok(map[NODE := JNull])
    {
      if i !in nils {
        assert SomeList(lists, i);
        var t :| 0 <= t < |lists| && i in lists[t];
        assert Holds(slots, keys[t], lists[t]) && Leads(slots, leaders[t], keys[t], batch[t]);
        assert slots[leaders[t]].call == slots[i].call;
      }
    }
  }

  /** What the queryer is sent: nothing when some slot's variables cannot be made out, else one call for each distinct key. */
  /** What a request amounts to: whether it needs a query, whether that is a node query with no variable but the id, and the call. */
  datatype Wish = Wish(needed: bool, plain: bool, call: Call)

  function WishOf(parentTypeOf: Json -> Option<string>, variables: Object, r: Request): Wish {
    var v := VariablesOrEmpty(variables, r);
    Wish(NeedToQuery(parentTypeOf, r, v), !IsRoot(r.step.parentType) && v.Keys == {ID}, Call(r.step.sel, v))
  }

  function Wishes(parentTypeOf: Json -> Option<string>, variables: Object, ers: seq<Request>): (wishes: seq<Wish>)
    ensures |wishes| == |ers|
  {
    seq(|ers|, i requires 0 <= i < |ers| => WishOf(parentTypeOf, variables, ers[i]))
  }

  /** Node queries with no variable but the id, for the same id and the same selection. */
  predicate SameNode(a: Wish, b: Wish) {
    a.plain && b.plain && a.call == b.call
  }

  predicate WishedBefore(wishes: seq<Wish>, w: Wish) {
    exists i :: 0 <= i < |wishes| && wishes[i].needed && SameNode(wishes[i], w)
  }

  /** What is to be sent: a call for every request that needs one, unless an earlier one is for the same node. */
  function FirstCalls(wishes: seq<Wish>): seq<Call> {
    if wishes == [] then []
    else
      var front, last := wishes[..|wishes| - 1], wishes[|wishes| - 1];
      FirstCalls(front) + if last.needed && !WishedBefore(front, last) then [last.call] else []
  }

  ghost function Sent(parentTypeOf: Json -> Option<string>, variables: Object, ers: seq<Request>): seq<Call> {
    if forall i :: 0 <= i < |ers| ==> HasVariables(variables, ers[i]) then FirstCalls(Wishes(parentTypeOf, variables, ers)) else []
  }

  lemma OneEntry(v: Object)
    ensures |v| == 1 && ID in v <==> v.Keys == {ID}
  {
    if |v| == 1 && ID in v {
      OnlyKey(v);
    }
    if v.Keys == {ID} {
      assert |v.Keys| == 1;
    }
  }

  /**
   * The key of a slot says which node is asked for and nothing else: different slots share a key if and only if both are
   * node queries with no variable but the id, for the same id and selection, wherever their insertion points are.
   */
  lemma KeyExact(parentTypeOf: Json -> Option<string>, digest: seq<Sel> -> Digest, variables: Object, i: nat, r: Request,
                 j: nat, s: Request)
    requires i != j && (IsRoot(r.step.parentType) || r.ip != []) && (IsRoot(s.step.parentType) || s.ip != [])
    requires HasVariables(variables, r) && HasVariables(variables, s)
    requires digest(r.step.sel) == digest(s.step.sel) ==> r.step.sel == s.step.sel
    ensures KeyOf(digest, i, r, VariablesOrEmpty(variables, r)) == KeyOf(digest, j, s, VariablesOrEmpty(variables, s))
            <==> SameNode(WishOf(parentTypeOf, variables, r), WishOf(parentTypeOf, variables, s))
  {
    var v, w := VariablesOrEmpty(variables, r), VariablesOrEmpty(variables, s);
    OneEntry(v);
    OneEntry(w);
    var k, l := KeyOf(digest, i, r, v), KeyOf(digest, j, s, w);
    var nodeR := !IsRoot(r.step.parentType) && v.Keys == {ID};
    var nodeS := !IsRoot(s.step.parentType) && w.Keys == {ID};
    assert nodeR ==> k[0] == '!';
    assert nodeS ==> l[0] == '!';
    if k == l {
      if nodeR {
        NodeKeyInjective(Printed(v[ID]), digest(r.step.sel), Printed(w[ID]), digest(s.step.sel));
        assert v == w;
      } else {
        PrintNatInjective(i, j);
      }
    }
  }

  lemma {:induction false} InLeaderKeys(slots: seq<Slot>, key: string)
    ensures key in LeaderKeys(slots) <==> exists i :: 0 <= i < |slots| && slots[i].needed && slots[i].key == key
  {
    LeadersLead(slots);
    if key in LeaderKeys(slots) {
      var t :| 0 <= t < |LeaderKeys(slots)| && LeaderKeys(slots)[t] == key;
      assert Leads(slots, Leaders(slots)[t], LeaderKeys(slots)[t], Batch(slots)[t]);
    }
  }

  /** Slots whose keys tell wishes apart. */
  ghost predicate Keyed(slots: seq<Slot>, wishes: seq<Wish>) {
    && |slots| == |wishes|
    && (forall i :: 0 <= i < |slots| ==> slots[i].needed == wishes[i].needed && slots[i].call == wishes[i].call)
    && forall i, j :: 0 <= i < j < |slots| ==> (slots[i].key == slots[j].key <==> SameNode(wishes[i], wishes[j]))
  }

  lemma SlotsKeyed(parentTypeOf: Json -> Option<string>, digest: seq<Sel> -> Digest, variables: Object, ers: seq<Request>)
    requires Batchable(digest, ers) && forall i :: 0 <= i < |ers| ==> HasVariables(variables, ers[i])
    ensures Keyed(Slots(parentTypeOf, digest, variables, ers), Wishes(parentTypeOf, variables, ers))
  {
    var slots, wishes := Slots(parentTypeOf, digest, variables, ers), Wishes(parentTypeOf, variables, ers);
    forall i, j | 0 <= i < j < |slots|
      ensures slots[i].key == slots[j].key <==> SameNode(wishes[i], wishes[j])
    {
      KeyExact(parentTypeOf, digest, variables, i, ers[i], j, ers[j]);
    }
  }

  /** De-duplication sends exactly what is to be sent, whatever the keys are made of. */
  lemma {:induction false} BatchExact(slots: seq<Slot>, wishes: seq<Wish>)
    requires Keyed(slots, wishes)
    ensures Batch(slots) == FirstCalls(wishes)
  {
    if slots != [] {
      var n := |slots| - 1;
      KeyedPrefix(slots, wishes);
      BatchExact(slots[..n], wishes[..n]);
      KeyMet(slots[..n], wishes[..n], slots[n], wishes[n]);
    }
  }

  lemma KeyedPrefix(slots: seq<Slot>, wishes: seq<Wish>)
    requires Keyed(slots, wishes) && slots != []
    ensures var n := |slots| - 1;
            && Keyed(slots[..n], wishes[..n])
            && slots[n].needed == wishes[n].needed && slots[n].call == wishes[n].call
            && forall i :: 0 <= i < n ==> (slots[..n][i].key == slots[n].key <==> SameNode(wishes[..n][i], wishes[n]))
  {
  }

  /** A key is there already exactly when an earlier request is for the same node. */
  lemma {:induction false} KeyMet(slots: seq<Slot>, wishes: seq<Wish>, s: Slot, w: Wish)
    requires Keyed(slots, wishes) && forall i :: 0 <= i < |slots| ==> (slots[i].key == s.key <==> SameNode(wishes[i], w))
    ensures s.key in LeaderKeys(slots) <==> WishedBefore(wishes, w)
  {
    InLeaderKeys(slots, s.key);
  }

  ghost predicate MadeBySome(wishes: seq<Wish>, c: Call) {
    exists i :: 0 <= i < |wishes| && wishes[i].needed && wishes[i].call == c
  }

  lemma {:induction false} CountedOnce(wishes: seq<Wish>, c: Call)
    requires forall i :: 0 <= i < |wishes| && wishes[i].call == c ==> wishes[i].plain
    ensures multiset(FirstCalls(wishes))[c] == if MadeBySome(wishes, c) then 1 else 0
  {
    if wishes != [] {
      var front, last := wishes[..|wishes| - 1], wishes[|wishes| - 1];
      CountedOnce(front, c);
      MadeSnoc(wishes, c);
      CountSnoc(FirstCalls(front), last.call, c);
      if last.call == c {
        MadeIsWished(front, last);
      }
    }
  }

  lemma CountSnoc(calls: seq<Call>, x: Call, c: Call)
    ensures multiset(calls + [x])[c] == multiset(calls)[c] + if x == c then 1 else 0
    ensures calls + [] == calls
  {
    assert multiset(calls + [x]) == multiset(calls) + multiset{x};
  }

  lemma MadeSnoc(wishes: seq<Wish>, c: Call)
    requires wishes != []
    ensures MadeBySome(wishes, c) <==>
            MadeBySome(wishes[..|wishes| - 1], c) || (wishes[|wishes| - 1].needed && wishes[|wishes| - 1].call == c)
  {
    var front := wishes[..|wishes| - 1];
    assert forall i :: 0 <= i < |front| ==> front[i] == wishes[i];
  }

  lemma MadeIsWished(front: seq<Wish>, last: Wish)
    requires last.plain && forall i :: 0 <= i < |front| && front[i].call == last.call ==> front[i].plain
    ensures WishedBefore(front, last) <==> MadeBySome(front, last.call)
  {
    forall i | 0 <= i < |front|
      ensures SameNode(front[i], last) <==> front[i].call == last.call
    {
    }
  }

  /**
   * Below the first level no node query is sent twice: a call with the id as its only variable is sent once if some request
   * needs it, and not at all if none does.
   */
  lemma {:induction false} SentOnce(parentTypeOf: Json -> Option<string>, variables: Object, ers: seq<Request>, c: Call)
    requires forall i :: 0 <= i < |ers| ==> HasVariables(variables, ers[i]) && !IsRoot(ers[i].step.parentType)
    requires c.variables.Keys == {ID}
    ensures multiset(Sent(parentTypeOf, variables, ers))[c]
            == if MadeBySome(Wishes(parentTypeOf, variables, ers), c) then 1 else 0
  {
    CountedOnce(Wishes(parentTypeOf, variables, ers), c);
  }

  /**
   * De-duplication is invisible: every slot holds its own request and the answer that request alone would have
   * received, and the call fails exactly when one of them alone would. What is sent is one call for every slot that needs
   * a query, in order, except plain node queries that an earlier slot has made.
   */
  method ExecuteRequests(q: Queryer, parentTypeOf: Json -> Option<string>, digest: seq<Sel> -> Digest,
                         variables: Object, ers: seq<Request>)
    returns (r: Result<seq<QueryerResponse>>)
    requires Batchable(digest, ers) && forall i :: 0 <= i < |ers| ==> ers[i].step.url == q.url
    modifies q`log
    ensures q.log == old(q.log) + Sent(parentTypeOf, variables, ers)
    ensures r.Ok? <==> forall i :: 0 <= i < |ers| ==> Alone(q.services, parentTypeOf, variables, ers[i]).Ok?
    ensures r.Ok? ==> |r.value| == |ers|
    ensures r.Ok? ==> forall i :: 0 <= i < |ers| ==>
                                    r.value[i].request == ers[i] &&
                                    Alone(q.services, parentTypeOf, variables, ers[i]) == Ok(r.value[i].response)
  {
    SentIs(parentTypeOf, digest, variables, ers);
    if |ers| == 0 {
      return Ok([]);
    }
    var slots := PrepareSlots(parentTypeOf, digest, variables, ers);
    if slots.Err? {
      return Err(slots.reason);
    }
    SlotKeysMean(parentTypeOf, digest, variables, ers);
    r := ExecuteSlots(q, slots.value, ers);
    AllAnswered(q.services, q.url, parentTypeOf, digest, variables, ers, r);
  }

  /** What is done once every slot's variables are known. */
  method ExecuteSlots(q: Queryer, slots: seq<Slot>, ers: seq<Request>) returns (r: Result<seq<QueryerResponse>>)
    requires |slots| == |ers| && KeysMean(slots)
    modifies q`log
    ensures q.log == old(q.log) + Batch(slots)
    ensures r.Ok? <==> forall i :: 0 <= i < |slots| && slots[i].needed ==> q.services(q.url, slots[i].call).Ok?
    ensures r.Ok? ==> Answered(q.services, q.url, slots, ers, r.value)
  {
    var iMap := new IndexMap();
    var batch, nillResps := Prepare(iMap, slots);
    GroupedReady(slots, iMap.entries, nillResps, batch);
    r := Send(q, slots, Leaders(slots), LeaderKeys(slots), IndexLists(slots), ers, iMap, nillResps, batch);
  }

  lemma SentIs(parentTypeOf: Json -> Option<string>, digest: seq<Sel> -> Digest, variables: Object, ers: seq<Request>)
    requires Batchable(digest, ers)
    ensures var sent := Sent(parentTypeOf, variables, ers);
            && (ers == [] ==> sent == [])
            && ((exists i :: 0 <= i < |ers| && !HasVariables(variables, ers[i])) ==> sent == [])
            && ((forall i :: 0 <= i < |ers| ==> HasVariables(variables, ers[i])) ==> sent == Batch(Slots(parentTypeOf, digest, variables, ers)))
  {
    if forall i :: 0 <= i < |ers| ==> HasVariables(variables, ers[i]) {
      SlotsKeyed(parentTypeOf, digest, variables, ers);
      BatchExact(Slots(parentTypeOf, digest, variables, ers), Wishes(parentTypeOf, variables, ers));
    }
  }

  lemma AllAnswered(services: Services, url: string, parentTypeOf: Json -> Option<string>, digest: seq<Sel> -> Digest,
                    variables: Object, ers: seq<Request>, r: Result<seq<QueryerResponse>>)
    requires |ers| > 0 && Batchable(digest, ers) && ers[0].step.url == url
    requires forall i :: 0 <= i < |ers| ==> HasVariables(variables, ers[i])
    requires var slots := Slots(parentTypeOf, digest, variables, ers);
             && (r.Ok? <==> forall i :: 0 <= i < |slots| && slots[i].needed ==> services(url, slots[i].call).Ok?)
             && (r.Ok? ==> Answered(services, url, slots, ers, r.value))
    ensures r.Ok? <==> forall i :: 0 <= i < |ers| ==> Alone(services, parentTypeOf, variables, ers[i]).Ok?
    ensures r.Ok? ==> |r.value| == |ers|
    ensures r.Ok? ==> forall i :: 0 <= i < |ers| ==>
                        r.value[i].request == ers[i] && Alone(services, parentTypeOf, variables, ers[i]) == Ok(r.value[i].response)
  {
    AllAlone(services, parentTypeOf, digest, variables, ers);
  }

  /** What each request alone receives, in terms of its slot. */
  lemma AllAlone(services: Services, parentTypeOf: Json -> Option<string>, digest: seq<Sel> -> Digest,
                 variables: Object, ers: seq<Request>)
    requires |ers| > 0 && Batchable(digest, ers)
    requires forall i :: 0 <= i < |ers| ==> HasVariables(variables, ers[i])
    ensures var slots := Slots(parentTypeOf, digest, variables, ers);
            forall i :: 0 <= i < |ers| ==>
              Alone(services, parentTypeOf, variables, ers[i])
              == if slots[i].needed then services(ers[0].step.url, slots[i].call) else Ok(map[NODE := JNull])
  {
  }
}
