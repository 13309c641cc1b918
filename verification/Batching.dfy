/**
 * queryer/multiop_queryer.go: chunks of bounded size that answer in any order, and requests with files.
 * Inputs are cut into chunks, each chunk is sent on its own, and the answers are spliced back where their inputs were.
 * Requests with files go one by one, the others of a chunk together.
 * Nothing depends on which chunk answers first.
 */
module Batching {
  import opened Prelude
  import opened Async
  import opened AsyncMapReduce

  /** A service's response: data, or errors. */
  datatype Response<+O> = Response(data: O, failed: bool)

  datatype ChunkResponse<+O> = ChunkResponse(index: nat, response: seq<O>)

  /** How requests are sent: alone when they carry files (None when they do not), or many at once. */
  datatype Transport<!T, O> = Transport(fetchFile: T -> Result<Option<Response<O>>>, fetch: seq<T> -> Result<seq<Response<O>>>)

  /** A batch that is answered is answered request by request, whatever else is in it. */
  ghost predicate Pointwise<T(!new), O>(t: Transport<T, O>, answer: T -> Response<O>) {
    forall xs :: t.fetch(xs).Ok? ==>
      |t.fetch(xs).value| == |xs| && forall i :: 0 <= i < |xs| ==> t.fetch(xs).value[i] == answer(xs[i])
  }

  /** What one request receives on its own. */
  function AnswerTo<T, O>(t: Transport<T, O>, answer: T -> Response<O>, x: T): Result<O> {
    var file :- t.fetchFile(x);
    var resp := if file.Some? then file.value else answer(x);
    if resp.failed then Err("response has errors") else Ok(resp.data)
  }

  /** The requests without files. */
  function ToFetch<T, O>(t: Transport<T, O>, xs: seq<T>): seq<T> {
    if xs == [] then []
    else
      var last := xs[|xs| - 1];
      ToFetch(t, xs[..|xs| - 1]) + if t.fetchFile(last) == Ok(None) then [last] else []
  }

  /** When a batch succeeds: every request alone does, and what has to be fetched together can be. */
  ghost predicate BatchOk<T, O>(t: Transport<T, O>, answer: T -> Response<O>, xs: seq<T>) {
    && (forall i :: 0 <= i < |xs| ==> AnswerTo(t, answer, xs[i]).Ok?)
    && (ToFetch(t, xs) != [] ==> t.fetch(ToFetch(t, xs)).Ok?)
  }

  /** Which slot each fetched request came from: in order, and exactly the slots without files. */
  ghost predicate Remapped<T, O>(t: Transport<T, O>, xs: seq<T>, n: nat, toFetchIndexes: seq<nat>)
    requires n <= |xs|
  {
    && |toFetchIndexes| == |ToFetch(t, xs[..n])|
    && Distinct(toFetchIndexes)
    && (forall k :: 0 <= k < |toFetchIndexes| ==> toFetchIndexes[k] < n && xs[toFetchIndexes[k]] == ToFetch(t, xs[..n])[k])
    && (forall i :: 0 <= i < n ==> (i in toFetchIndexes <==> t.fetchFile(xs[i]) == Ok(None)))
  }

  /** The file requests done, and the others' slots remembered. */
  method SendFiles<T(==), O>(t: Transport<T, O>, ghost answer: T -> Response<O>, xs: seq<T>, results: array<Option<O>>)
    returns (err: Option<string>, inputsToFetch: seq<T>, toFetchIndexes: seq<nat>)
    requires results.Length == |xs| && forall i :: 0 <= i < |xs| ==> results[i] == None
    modifies results
    ensures err.Some? <==> exists i :: 0 <= i < |xs| && t.fetchFile(xs[i]) != Ok(None) && AnswerTo(t, answer, xs[i]).Err?
    ensures err.None? ==> inputsToFetch == ToFetch(t, xs) && Remapped(t, xs, |xs|, toFetchIndexes)
    ensures err.None? ==> forall i :: 0 <= i < |xs| ==>
              if t.fetchFile(xs[i]) == Ok(None) then results[i] == None
              else results[i].Some? && AnswerTo(t, answer, xs[i]) == Ok(results[i].value)
  {
    inputsToFetch, toFetchIndexes := [], [];
    for i := 0 to |xs|
      invariant inputsToFetch == ToFetch(t, xs[..i]) && Remapped(t, xs, i, toFetchIndexes)
      invariant forall j :: 0 <= j < i && t.fetchFile(xs[j]) == Ok(None) ==> results[j] == None
      invariant forall j :: 0 <= j < i && t.fetchFile(xs[j]) != Ok(None) ==>
                  results[j].Some? && AnswerTo(t, answer, xs[j]) == Ok(results[j].value)
      invariant forall j :: i <= j < |xs| ==> results[j] == None
    {
      assert xs[..i + 1][..i] == xs[..i];
      var resp := t.fetchFile(xs[i]);
      if resp.Err? {
        return Some(resp.reason), [], [];
      }
      if resp.value.None? {
        OneMoreToFetch(t, xs, i, toFetchIndexes);
        inputsToFetch := inputsToFetch + [xs[i]];
        toFetchIndexes := toFetchIndexes + [i];
        continue;
      }
      if resp.value.value.failed {
        return Some("response has errors"), [], [];
      }
      results[i] := Some(resp.value.value.data);
    }
    assert xs[..|xs|] == xs;
    return None, inputsToFetch, toFetchIndexes;
  }

  lemma OneMoreToFetch<T, O>(t: Transport<T, O>, xs: seq<T>, i: nat, toFetchIndexes: seq<nat>)
    requires i < |xs| && Remapped(t, xs, i, toFetchIndexes) && t.fetchFile(xs[i]) == Ok(None)
    ensures Remapped(t, xs, i + 1, toFetchIndexes + [i])
  {
    assert xs[..i + 1][..i] == xs[..i];
    DistinctSnoc(toFetchIndexes, i);
  }

  /** A slot filled with the answer its request alone receives. */
  ghost predicate Filled<T, O>(t: Transport<T, O>, answer: T -> Response<O>, x: T, slot: Option<O>) {
    slot.Some? && AnswerTo(t, answer, x) == Ok(slot.value)
  }

  /** queryBatch: every slot gets the answer to its own request, across the remapping around file requests. */
  method QueryBatch<T(==,!new), O>(t: Transport<T, O>, ghost answer: T -> Response<O>, xs: seq<T>)
    returns (r: Result<seq<Option<O>>>)
    requires Pointwise(t, answer)
    ensures r.Ok? <==> BatchOk(t, answer, xs)
    ensures r.Ok? ==> |r.value| == |xs| && forall i :: 0 <= i < |xs| ==> Filled(t, answer, xs[i], r.value[i])
  {
    var results := new Option<O>[|xs|](_ => None);
    var err, inputsToFetch, toFetchIndexes := SendFiles(t, answer, xs, results);
    if err.Some? {
      return Err(err.value);
    }
    if |inputsToFetch| == 0 {
      AllFiles(t, answer, xs, toFetchIndexes, results[..]);
      return Ok(results[..]);
    }
    var resps := t.fetch(inputsToFetch);
    if resps.Err? {
      return Err(resps.reason);
    }
    assert xs[..|xs|] == xs;
    assert |resps.value| == |toFetchIndexes|;
    for k := 0 to |resps.value|
      invariant forall j :: 0 <= j < k ==> !resps.value[j].failed && results[toFetchIndexes[j]] == Some(resps.value[j].data)
      invariant forall i :: 0 <= i < |xs| && t.fetchFile(xs[i]) != Ok(None) ==> Filled(t, answer, xs[i], results[i])
    {
      assert t.fetchFile(xs[toFetchIndexes[k]]) == Ok(None) by {
        assert toFetchIndexes[k] in toFetchIndexes;
      }
      if resps.value[k].failed {
        assert resps.value[k] == answer(xs[toFetchIndexes[k]]);
        assert AnswerTo(t, answer, xs[toFetchIndexes[k]]).Err?;
        return Err("response has errors");
      }
      results[toFetchIndexes[k]] := Some(resps.value[k].data);
    }
    AllFetched(t, answer, xs, toFetchIndexes, resps.value, results[..]);
    return Ok(results[..]);
  }

  lemma {:induction false} AllFiles<T, O>(t: Transport<T, O>, answer: T -> Response<O>, xs: seq<T>,
                                        toFetchIndexes: seq<nat>, results: seq<Option<O>>)
    requires |results| == |xs| && Remapped(t, xs, |xs|, toFetchIndexes) && ToFetch(t, xs) == []
    requires forall i :: 0 <= i < |xs| && t.fetchFile(xs[i]) != Ok(None) ==> Filled(t, answer, xs[i], results[i])
    ensures BatchOk(t, answer, xs) && forall i :: 0 <= i < |xs| ==> Filled(t, answer, xs[i], results[i])
  {
    assert xs[..|xs|] == xs;
    assert toFetchIndexes == [];
  }

  lemma {:induction false} AllFetched<T(!new), O>(t: Transport<T, O>, answer: T -> Response<O>, xs: seq<T>,
                                        toFetchIndexes: seq<nat>,
                               resps: seq<Response<O>>, results: seq<Option<O>>)
    requires Pointwise(t, answer) && |results| == |xs| && Remapped(t, xs, |xs|, toFetchIndexes)
    requires t.fetch(ToFetch(t, xs)) == Ok(resps)
    requires |resps| == |toFetchIndexes|
    requires forall j :: 0 <= j < |resps| ==> !resps[j].failed && toFetchIndexes[j] < |xs| && results[toFetchIndexes[j]] == Some(resps[j].data)
    requires forall i :: 0 <= i < |xs| && t.fetchFile(xs[i]) != Ok(None) ==> Filled(t, answer, xs[i], results[i])
    ensures BatchOk(t, answer, xs) && forall i :: 0 <= i < |xs| ==> Filled(t, answer, xs[i], results[i])
  {
    assert xs[..|xs|] == xs;
    forall i | 0 <= i < |xs|
      ensures Filled(t, answer, xs[i], results[i])
    {
      if t.fetchFile(xs[i]) == Ok(None) {
        assert i in toFetchIndexes;
        var j :| 0 <= j < |toFetchIndexes| && toFetchIndexes[j] == i;
        assert resps[j] == answer(xs[i]);
      }
    }
  }

  lemma Quotient(j: nat, m: nat, i: nat)
    requires m > 0
    ensures j / m == i <==> i * m <= j < (i + 1) * m
  {
    var q := j / m;
    assert q * m <= j < q * m + m;
    if i < q {
      Times(i + 1, q, m);
    } else if q < i {
      Times(q + 1, i, m);
    }
    assert (q + 1) * m == q * m + m && (i + 1) * m == i * m + m;
  }

  lemma Times(a: nat, b: nat, m: nat)
    requires a <= b
    ensures a * m <= b * m
  {
  }

  /** How many chunks: one more than needed when the size divides the number of requests, and then the last is empty. */
  function Chunks(n: nat, m: nat): (chunks: nat)
    requires m > 0
    ensures chunks > 0
  {
    if n <= m then 1 else n / m + 1
  }

  lemma ChunkStarts(n: nat, m: nat, i: nat)
    requires m > 0 && i < Chunks(n, m)
    ensures i * m <= n
  {
    if n > m {
      Times(i, n / m, m);
      Quotient(n, m, n / m);
    } else {
      assert i == 0;
    }
  }

  /** Every position lies in some chunk. */
  lemma InSomeChunk(n: nat, m: nat, j: nat)
    requires m > 0 && j < n
    ensures j / m < Chunks(n, m)
  {
    Quotient(j, m, j / m);
    Quotient(n, m, n / m);
    if n <= m {
      Quotient(j, m, 0);
    } else if n / m < j / m {
      Times(n / m + 1, j / m, m);
    }
  }

  function Chunk<T>(xs: seq<T>, m: nat, i: nat): (chunk: seq<T>)
    requires i * m <= |xs|
    ensures |chunk| == if (i + 1) * m > |xs| then |xs| - i * m else m
    ensures forall k :: 0 <= k < |chunk| ==> chunk[k] == xs[i * m + k]
  {
    assert (i + 1) * m == i * m + m;
    if (i + 1) * m > |xs| then xs[i * m..] else xs[i * m..(i + 1) * m]
  }

  /** The reduce function: the accumulator's chunk replaced, length and everything else kept. */
  function Splice<O>(acc: seq<O>, m: nat, i: nat, response: seq<O>): seq<O>
    requires i * m <= |acc|
  {
    var tail := if (i + 1) * m < |acc| then response + acc[(i + 1) * m..] else response;
    acc[..i * m] + tail
  }

  lemma SpliceKeeps<O>(acc: seq<O>, m: nat, i: nat, response: seq<O>)
    requires m > 0 && i * m <= |acc| && |response| == |Chunk(acc, m, i)|
    ensures |Splice(acc, m, i, response)| == |acc|
    ensures forall j :: 0 <= j < |acc| ==>
              if j / m == i then i * m <= j && j - i * m < |response| && Splice(acc, m, i, response)[j] == response[j - i * m]
              else Splice(acc, m, i, response)[j] == acc[j]
  {
    assert (i + 1) * m == i * m + m;
    forall j | 0 <= j < |acc|
      ensures if j / m == i then i * m <= j && j - i * m < |response| && Splice(acc, m, i, response)[j] == response[j - i * m]
              else Splice(acc, m, i, response)[j] == acc[j]
    {
      Quotient(j, m, i);
    }
  }

  /** A chunk's outcome: its answers under its own number. */
  ghost predicate Sent<T, O>(t: Transport<T, O>, answer: T -> Response<O>, xs: seq<T>, m: nat, i: nat,
                             r: Result<ChunkResponse<Option<O>>>) {
    && i * m <= |xs|
    && (r.Ok? <==> BatchOk(t, answer, Chunk(xs, m, i)))
    && (r.Ok? ==> Answers(t, answer, xs, m, r.value) && r.value.index == i)
  }

  ghost predicate Answers<T, O>(t: Transport<T, O>, answer: T -> Response<O>, xs: seq<T>, m: nat, c: ChunkResponse<Option<O>>) {
    && c.index * m <= |xs|
    && |c.response| == |Chunk(xs, m, c.index)|
    && forall k :: 0 <= k < |c.response| ==> Filled(t, answer, Chunk(xs, m, c.index)[k], c.response[k])
  }

  ghost predicate AllSent<T, O>(t: Transport<T, O>, answer: T -> Response<O>, xs: seq<T>, m: nat,
                                mapped: seq<Result<ChunkResponse<Option<O>>>>) {
    forall i :: 0 <= i < |mapped| ==> Sent(t, answer, xs, m, i, mapped[i])
  }

  lemma {:induction false} OneMoreSent<T, O>(t: Transport<T, O>, answer: T -> Response<O>, xs: seq<T>, m: nat,
                                             mapped: seq<Result<ChunkResponse<Option<O>>>>, r: Result<ChunkResponse<Option<O>>>)
    requires AllSent(t, answer, xs, m, mapped) && Sent(t, answer, xs, m, |mapped|, r)
    ensures AllSent(t, answer, xs, m, mapped + [r])
  {
  }

  /** The map function on every chunk. */
  method SendChunks<T(==,!new), O>(t: Transport<T, O>, ghost answer: T -> Response<O>, m: nat, xs: seq<T>)
    returns (mapped: seq<Result<ChunkResponse<Option<O>>>>)
    requires m > 0 && Pointwise(t, answer)
    ensures |mapped| == Chunks(|xs|, m)
    ensures AllSent(t, answer, xs, m, mapped)
  {
    mapped := [];
    for i := 0 to Chunks(|xs|, m)
      invariant |mapped| == i && AllSent(t, answer, xs, m, mapped)
    {
      var res := SendChunk(t, answer, m, xs, i);
      OneMoreSent(t, answer, xs, m, mapped, res);
      mapped := mapped + [res];
    }
  }

  method SendChunk<T(==,!new), O>(t: Transport<T, O>, ghost answer: T -> Response<O>, m: nat, xs: seq<T>, i: nat)
    returns (r: Result<ChunkResponse<Option<O>>>)
    requires m > 0 && Pointwise(t, answer) && i < Chunks(|xs|, m)
    ensures Sent(t, answer, xs, m, i, r)
  {
    ChunkStarts(|xs|, m, i);
    var res := QueryBatch(t, answer, Chunk(xs, m, i));
    ChunkSent(t, answer, xs, m, i, res);
    return Numbered(i, res);
  }

  function Numbered<O>(i: nat, res: Result<seq<O>>): Result<ChunkResponse<O>> {
    if res.Ok? then Ok(ChunkResponse(i, res.value)) else Err(res.reason)
  }

  lemma {:induction false} ChunkSent<T, O>(t: Transport<T, O>, answer: T -> Response<O>, xs: seq<T>, m: nat, i: nat,
                                        res: Result<seq<Option<O>>>)
    requires i * m <= |xs|
    requires res.Ok? <==> BatchOk(t, answer, Chunk(xs, m, i))
    requires res.Ok? ==> |res.value| == |Chunk(xs, m, i)| && forall k :: 0 <= k < |res.value| ==> Filled(t, answer, Chunk(xs, m, i)[k], res.value[k])
    ensures Sent(t, answer, xs, m, i, Numbered(i, res))
  {
  }

  /** The chunks that have arrived are in place. */
  ghost predicate InPlace<T, O>(t: Transport<T, O>, answer: T -> Response<O>, xs: seq<T>, m: nat, arrived: seq<nat>,
                                acc: seq<Option<O>>)
    requires m > 0
  {
    && |acc| == |xs|
    && forall j :: 0 <= j < |xs| && j / m in arrived ==> Filled(t, answer, xs[j], acc[j])
  }

  lemma OneMoreInPlace<T, O>(t: Transport<T, O>, answer: T -> Response<O>, xs: seq<T>, m: nat, arrived: seq<nat>,
                             acc: seq<Option<O>>,
                             c: ChunkResponse<Option<O>>)
    requires m > 0 && InPlace(t, answer, xs, m, arrived, acc) && Answers(t, answer, xs, m, c)
    ensures InPlace(t, answer, xs, m, arrived + [c.index], Splice(acc, m, c.index, c.response))
  {
    SpliceKeeps(acc, m, c.index, c.response);
    forall j | 0 <= j < |xs| && j / m in arrived + [c.index]
      ensures Filled(t, answer, xs[j], Splice(acc, m, c.index, c.response)[j])
    {
      if j / m == c.index {
        assert Chunk(xs, m, c.index)[j - c.index * m] == xs[j];
      }
    }
  }

  /** The reduce function, for chunks that lie within the accumulator. */
  function Reduced<O>(m: nat, acc: seq<O>, c: ChunkResponse<O>): seq<O> {
    if c.index * m <= |acc| then Splice(acc, m, c.index, c.response) else acc
  }

  /** The reduce function folded over the chunks in the order they arrived. */
  lemma {:induction false} Reassembled<T, O>(t: Transport<T, O>, answer: T -> Response<O>, m: nat, xs: seq<T>,
                                        reduce: (seq<Option<O>>, ChunkResponse<Option<O>>) -> seq<Option<O>>,
                                             values: seq<ChunkResponse<Option<O>>>, arrived: seq<nat>)
    requires m > 0 && |values| == |arrived|
    requires forall acc, c :: reduce(acc, c) == Reduced(m, acc, c)
    requires forall k :: 0 <= k < |values| ==> Answers(t, answer, xs, m, values[k]) && values[k].index == arrived[k]
    ensures InPlace(t, answer, xs, m, arrived, Folded(seq(|xs|, _ => None), reduce, values))
  {
    if values != [] {
      var n := |values| - 1;
      var before := Folded(seq(|xs|, _ => None), reduce, values[..n]);
      Reassembled(t, answer, m, xs, reduce, values[..n], arrived[..n]);
      OneMoreReduced(t, answer, xs, m, arrived[..n], before, values[n]);
      assert arrived == arrived[..n] + [arrived[n]];
      assert reduce(before, values[n]) == Reduced(m, before, values[n]);
    }
  }

  lemma {:induction false} OneMoreReduced<T, O>(t: Transport<T, O>, answer: T -> Response<O>, xs: seq<T>, m: nat,
                                        arrived: seq<nat>, acc: seq<Option<O>>,
                                                c: ChunkResponse<Option<O>>)
    requires m > 0 && InPlace(t, answer, xs, m, arrived, acc) && Answers(t, answer, xs, m, c)
    ensures InPlace(t, answer, xs, m, arrived + [c.index], Reduced(m, acc, c))
  {
    OneMoreInPlace(t, answer, xs, m, arrived, acc, c);
  }

  ghost predicate ChunkOk<T, O>(t: Transport<T, O>, answer: T -> Response<O>, xs: seq<T>, m: nat, i: nat) {
    i * m <= |xs| && BatchOk(t, answer, Chunk(xs, m, i))
  }

  ghost predicate AllChunksOk<T, O>(t: Transport<T, O>, answer: T -> Response<O>, xs: seq<T>, m: nat)
    requires m > 0
  {
    forall i: nat :: i < Chunks(|xs|, m) ==> ChunkOk(t, answer, xs, m, i)
  }

  lemma OneChunk<T, O>(t: Transport<T, O>, answer: T -> Response<O>, xs: seq<T>, m: nat)
    requires m > 0 && |xs| <= m
    ensures AllChunksOk(t, answer, xs, m) <==> BatchOk(t, answer, xs)
  {
    assert Chunk(xs, m, 0) == xs;
    assert ChunkOk(t, answer, xs, m, 0) <==> BatchOk(t, answer, xs);
  }

  lemma ManyChunks<T, O>(t: Transport<T, O>, answer: T -> Response<O>, xs: seq<T>, m: nat,
                         mapped: seq<Result<ChunkResponse<Option<O>>>>)
    requires m > 0 && |mapped| == Chunks(|xs|, m)
    requires forall i :: 0 <= i < |mapped| ==> Sent(t, answer, xs, m, i, mapped[i])
    ensures AllChunksOk(t, answer, xs, m) <==> forall i :: 0 <= i < |mapped| ==> mapped[i].Ok?
  {
    forall i | 0 <= i < |mapped|
      ensures ChunkOk(t, answer, xs, m, i) <==> mapped[i].Ok?
    {
      assert Sent(t, answer, xs, m, i, mapped[i]);
    }
  }

  lemma EverythingInPlace<T, O>(t: Transport<T, O>, answer: T -> Response<O>, xs: seq<T>, m: nat, arrived: seq<nat>,
                                acc: seq<Option<O>>)
    requires m > 0 && InPlace(t, answer, xs, m, arrived, acc)
    requires multiset(arrived) == multiset(seq(Chunks(|xs|, m), i => i))
    ensures forall j :: 0 <= j < |xs| ==> Filled(t, answer, xs[j], acc[j])
  {
    var tags: seq<nat> := seq(Chunks(|xs|, m), i => i);
    forall j | 0 <= j < |xs|
      ensures Filled(t, answer, xs[j], acc[j])
    {
      InSomeChunk(|xs|, m, j);
      assert tags[j / m] in multiset(arrived);
    }
  }

  /** The chunks sent and put together in the order they complete. */
  method QueryInChunks<T(==,!new), O>(t: Transport<T, O>, ghost answer: T -> Response<O>, m: nat, xs: seq<T>)
    returns (r: Result<seq<Option<O>>>)
    requires m > 0 && Pointwise(t, answer)
    ensures r.Ok? <==> AllChunksOk(t, answer, xs, m)
    ensures r.Ok? ==> |r.value| == |xs| && forall j :: 0 <= j < |xs| ==> Filled(t, answer, xs[j], r.value[j])
  {
    var mapped := SendChunks(t, answer, m, xs);
    ManyChunks(t, answer, xs, m, mapped);
    ghost var tags: seq<nat> := seq(|mapped|, i => i);
    var gathered;
    ghost var arrived;
    ghost var values;
    var none: seq<Option<O>> := seq(|xs|, _ => None);
    var reduce := (acc: seq<Option<O>>, c: ChunkResponse<Option<O>>) => Reduced(m, acc, c);
    gathered, values, arrived := Gather(mapped, none, reduce, tags);
    if gathered.Err? {
      return Err(gathered.reason);
    }
    forall k | 0 <= k < |arrived|
      ensures Answers(t, answer, xs, m, values[k]) && values[k].index == arrived[k]
    {
      assert ArrivedFrom(mapped, tags, values[k], arrived[k]);
    }
    assert none == seq(|xs|, _ => None);
    Reassembled(t, answer, m, xs, reduce, values, arrived);
    EverythingInPlace(t, answer, xs, m, arrived, gathered.value);
    return gathered;
  }

  /**
   * Query: for every batch size and number of requests, and every order in which the chunks complete, each position
   * holds the answer to the request at that position; it fails exactly when some chunk fails.
   */
  method Query<T(==,!new), O>(t: Transport<T, O>, ghost answer: T -> Response<O>, maxBatchSize: nat, inputs: seq<T>)
    returns (r: Result<seq<Option<O>>>)
    requires maxBatchSize > 0 && Pointwise(t, answer)
    ensures r.Ok? <==> AllChunksOk(t, answer, inputs, maxBatchSize)
    ensures r.Ok? ==> |r.value| == |inputs| && forall j :: 0 <= j < |inputs| ==> Filled(t, answer, inputs[j], r.value[j])
  {
    if |inputs| <= maxBatchSize {
      OneChunk(t, answer, inputs, maxBatchSize);
      r := QueryBatch(t, answer, inputs);
    } else {
      r := QueryInChunks(t, answer, maxBatchSize, inputs);
    }
  }
}
