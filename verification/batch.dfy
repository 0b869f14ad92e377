/**
 * The batch loader: the documents are cut into contiguous chunks of at
 * most `batchSize`, each chunk is sent to the driver's unordered
 * `insertMany`, and the inserted counts are summed. A chunk the driver
 * rejects stops the loop and the error propagates; chunks sent before it
 * stay inserted.
 */
module Batch {
  import opened Wrappers

  /**
   * An open collection handle, reduced to its bulk insert: the number of
   * documents of a chunk it inserted, or the error it raised. The answer
   * is left uninterpreted.
   */
  datatype Collection<!T> = Collection(insertMany: seq<T> -> Result<nat, string>)

  /** Why a load fails: no connection yet, or a bulk insert raised. */
  datatype LoadError = NotConnected | BulkInsertFailed(cause: string)

  function Min(a: int, b: int): int {
    if a <= b then a else b
  }

  /** The chunks joined back together, in order. */
  function Concat<T>(xss: seq<seq<T>>): seq<T> {
    if xss == [] then [] else xss[0] + Concat(xss[1..])
  }

  /** The chunks `xs.slice(i, i + size)` for i = 0, size, 2*size, ... */
  function Chunks<T>(xs: seq<T>, size: nat): seq<seq<T>>
    requires size > 0
    decreases |xs|
  {
    if xs == [] then []
    else
      var n := Min(size, |xs|);
      [xs[..n]] + Chunks(xs[n..], size)
  }

  /** Every chunk is non-empty and at most `size` long. */
  lemma {:induction false} ChunkSizes<T>(xs: seq<T>, size: nat)
    requires size > 0
    ensures forall k :: 0 <= k < |Chunks(xs, size)| ==> 0 < |Chunks(xs, size)[k]| <= size
    decreases |xs|
  {
    if xs != [] {
      var n := Min(size, |xs|);
      ChunkSizes(xs[n..], size);
      var r := Chunks(xs, size);
      forall k | 0 <= k < |r| ensures 0 < |r[k]| <= size {
        if k > 0 {
          assert r[k] == Chunks(xs[n..], size)[k - 1];
        }
      }
    }
  }

  /** The chunks, joined back together in order, are the input: nothing lost, repeated or moved. */
  lemma {:induction false} ChunksConcat<T>(xs: seq<T>, size: nat)
    requires size > 0
    ensures Concat(Chunks(xs, size)) == xs
    decreases |xs|
  {
    if xs != [] {
      var n := Min(size, |xs|);
      var r := Chunks(xs, size);
      ChunksConcat(xs[n..], size);
      assert r[0] == xs[..n] && r[1..] == Chunks(xs[n..], size);
      assert xs[..n] + xs[n..] == xs;
    }
  }

  lemma MulAtLeast(x: int, d: int)
    requires x >= 1 && d > 0
    ensures x * d >= d
  {
  }

  /** Euclidean division has one quotient. */
  lemma DivUnique(a: int, d: int, q: int, r: int)
    requires d > 0 && a == q * d + r && 0 <= r < d
    ensures a / d == q
  {
    var q', r' := a / d, a % d;
    assert a == q' * d + r';
    assert (q - q') * d == r' - r;
    if q > q' {
      MulAtLeast(q - q', d);
    } else if q < q' {
      MulAtLeast(q' - q, d);
    }
  }

  lemma DivPlusOne(a: nat, d: nat)
    requires d > 0
    ensures (a + d) / d == a / d + 1
  {
    var q, r := a / d, a % d;
    assert a == q * d + r;
    assert a + d == (q + 1) * d + r;
    DivUnique(a + d, d, q + 1, r);
  }

  /** There are ceil(N / size) chunks. */
  lemma {:induction false} ChunkCount<T>(xs: seq<T>, size: nat)
    requires size > 0
    ensures |Chunks(xs, size)| == (|xs| + size - 1) / size
    decreases |xs|
  {
    if xs == [] {
      DivUnique(size - 1, size, 0, size - 1);
    } else if |xs| <= size {
      assert Min(size, |xs|) == |xs| && xs[..|xs|] == xs && xs[|xs|..] == [];
      assert Chunks(xs, size) == [xs];
      DivUnique(|xs| + size - 1, size, 1, |xs| - 1);
    } else {
      assert Chunks(xs, size) == [xs[..size]] + Chunks(xs[size..], size);
      ChunkCount(xs[size..], size);
      DivPlusOne(|xs| - 1, size);
    }
  }

  /** Chunk k is the slice from k*size to (k+1)*size, cut short at the end. */
  lemma {:induction false} ChunkAt<T>(xs: seq<T>, size: nat, k: nat)
    requires size > 0
    requires k < |Chunks(xs, size)|
    ensures k * size < |xs|
    ensures Chunks(xs, size)[k] == xs[k * size..Min((k + 1) * size, |xs|)]
    decreases k
  {
    var n := Min(size, |xs|);
    var rest := xs[n..];
    assert Chunks(xs, size) == [xs[..n]] + Chunks(rest, size);
    if k > 0 {
      ChunkAt(rest, size, k - 1);
      assert n == size;
      var lo, hi := (k - 1) * size, Min(k * size, |rest|);
      assert lo + size == k * size && k * size + size == (k + 1) * size;
      assert hi + size == Min((k + 1) * size, |xs|);
      SliceOfDrop(xs, size, lo, hi);
    }
  }

  /** Slicing what is left after dropping `n` elements is slicing the original `n` further on. */
  lemma SliceOfDrop<T>(xs: seq<T>, n: nat, lo: nat, hi: nat)
    requires n <= |xs| && lo <= hi <= |xs| - n
    ensures xs[n..][lo..hi] == xs[n + lo..n + hi]
  {
  }

  /** The sum of the counts the driver reports for the chunks it accepted. */
  function SumCounts<T>(chunks: seq<seq<T>>, insertMany: seq<T> -> Result<nat, string>): nat {
    if chunks == [] then 0
    else
      var last := insertMany(chunks[|chunks| - 1]);
      SumCounts(chunks[..|chunks| - 1], insertMany) + (if last.Success? then last.value else 0)
  }

  /** `xs.slice(i, i + size)` for an offset inside `xs`: the slice is cut short at the end. */
  function Slice<T>(xs: seq<T>, i: nat, size: nat): seq<T>
    requires i <= |xs|
  {
    xs[i..Min(i + size, |xs|)]
  }

  /** One turn of the loop: the chunk at offset `i` is the first chunk of the rest. */
  lemma ChunksStep<T>(xs: seq<T>, i: nat, size: nat)
    requires size > 0 && i < |xs|
    ensures Chunks(xs[i..], size) == [Slice(xs, i, size)] + Chunks(xs[Min(i + size, |xs|)..], size)
  {
    var end := Min(i + size, |xs|);
    assert xs[i..][..end - i] == xs[i..end];
    assert xs[i..][end - i..] == xs[end..];
  }

  lemma PrefixOfConcat<T>(a: seq<T>, b: seq<T>)
    ensures (a + b)[..|a|] == a
  {
  }

  /** An accepted chunk adds its count to the sum and keeps every sent chunk accepted. */
  lemma AcceptedStep<T>(chunks: seq<seq<T>>, c: seq<T>, insertMany: seq<T> -> Result<nat, string>)
    requires forall k :: 0 <= k < |chunks| ==> insertMany(chunks[k]).Success?
    requires insertMany(c).Success?
    ensures SumCounts(chunks + [c], insertMany) == SumCounts(chunks, insertMany) + insertMany(c).value
    ensures forall k :: 0 <= k < |chunks + [c]| ==> insertMany((chunks + [c])[k]).Success?
  {
    assert (chunks + [c])[..|chunks|] == chunks;
    forall k | 0 <= k < |chunks + [c]| ensures insertMany((chunks + [c])[k]).Success? {
      if k < |chunks| {
        assert (chunks + [c])[k] == chunks[k];
      }
    }
  }

  /**
   * What the loop reports about `chunks`: the chunks it sent are a prefix
   * of them, in order; it succeeds exactly when the driver accepts every
   * chunk, and then it sent them all and returns the sum of the counts;
   * otherwise the last chunk it sent is the first one rejected, and its
   * error is the result.
   */
  ghost predicate SentInOrder<T>(chunks: seq<seq<T>>, insertMany: seq<T> -> Result<nat, string>,
                                 r: Result<nat, string>, submitted: seq<seq<T>>)
  {
    && |submitted| <= |chunks| && submitted == chunks[..|submitted|]
    && (r.Success? <==> forall k :: 0 <= k < |chunks| ==> insertMany(chunks[k]).Success?)
    && (r.Success? ==> submitted == chunks && r.value == SumCounts(chunks, insertMany))
    && (r.Failure? ==>
          && |submitted| > 0
          && (forall k :: 0 <= k < |submitted| - 1 ==> insertMany(submitted[k]).Success?)
          && insertMany(submitted[|submitted| - 1]) == Failure(r.error))
  }

  lemma {:induction false} AllSent<T>(chunks: seq<seq<T>>, insertMany: seq<T> -> Result<nat, string>, total: nat)
    requires forall k :: 0 <= k < |chunks| ==> insertMany(chunks[k]).Success?
    requires total == SumCounts(chunks, insertMany)
    ensures SentInOrder(chunks, insertMany, Success(total), chunks)
  {
    assert chunks[..|chunks|] == chunks;
  }

  lemma {:induction false} StoppedAtRejection<T>(chunks: seq<seq<T>>, insertMany: seq<T> -> Result<nat, string>,
                              before: seq<seq<T>>, batch: seq<T>, e: string)
    requires |before| < |chunks| && before + [batch] == chunks[..|before| + 1]
    requires forall k :: 0 <= k < |before| ==> insertMany(before[k]).Success?
    requires insertMany(batch) == Failure(e)
    ensures SentInOrder(chunks, insertMany, Failure(e), before + [batch])
  {
    var submitted := before + [batch];
    assert chunks[|before|] == batch;
    forall k | 0 <= k < |submitted| - 1 ensures insertMany(submitted[k]).Success? {
      assert submitted[k] == before[k];
    }
  }

  /**
   * The loop invariant: the chunks sent so far, followed by the chunks of
   * what is left from offset `i`, are all the chunks; every chunk sent so
   * far was accepted, and `total` is the sum of their counts.
   */
  ghost predicate Progress<T>(movies: seq<T>, size: nat, i: nat, submitted: seq<seq<T>>, total: nat,
                              insertMany: seq<T> -> Result<nat, string>)
    requires size > 0
  {
    && submitted + Chunks(movies[Min(i, |movies|)..], size) == Chunks(movies, size)
    && (forall k :: 0 <= k < |submitted| ==> insertMany(submitted[k]).Success?)
    && total == SumCounts(submitted, insertMany)
  }

  lemma {:induction false} ProgressStart<T>(movies: seq<T>, size: nat, insertMany: seq<T> -> Result<nat, string>)
    requires size > 0
    ensures Progress(movies, size, 0, [], 0, insertMany)
  {
    assert movies[Min(0, |movies|)..] == movies;
  }

  lemma {:induction false} ProgressAccepted<T>(movies: seq<T>, size: nat, i: nat, submitted: seq<seq<T>>, total: nat,
                            insertMany: seq<T> -> Result<nat, string>)
    requires size > 0 && i < |movies|
    requires Progress(movies, size, i, submitted, total, insertMany)
    requires insertMany(Slice(movies, i, size)).Success?
    ensures Progress(movies, size, i + size, submitted + [Slice(movies, i, size)],
                     total + insertMany(Slice(movies, i, size)).value, insertMany)
  {
    var batch := Slice(movies, i, size);
    var end := Min(i + size, |movies|);
    ChunksStep(movies, i, size);
    assert Min(i, |movies|) == i && Min(i + size, |movies|) == end;
    assert submitted + ([batch] + Chunks(movies[end..], size))
        == (submitted + [batch]) + Chunks(movies[end..], size);
    AcceptedStep(submitted, batch, insertMany);
  }

  lemma {:induction false} ProgressRejected<T>(movies: seq<T>, size: nat, i: nat, submitted: seq<seq<T>>, total: nat,
                            insertMany: seq<T> -> Result<nat, string>)
    requires size > 0 && i < |movies|
    requires Progress(movies, size, i, submitted, total, insertMany)
    requires insertMany(Slice(movies, i, size)).Failure?
    ensures SentInOrder(Chunks(movies, size), insertMany, Failure(insertMany(Slice(movies, i, size)).error),
                        submitted + [Slice(movies, i, size)])
  {
    var batch := Slice(movies, i, size);
    var chunks := Chunks(movies, size);
    var rest := Chunks(movies[Min(i + size, |movies|)..], size);
    ChunksStep(movies, i, size);
    assert Min(i, |movies|) == i;
    assert chunks == submitted + ([batch] + rest);
    assert chunks == (submitted + [batch]) + rest;
    PrefixOfConcat(submitted + [batch], rest);
    StoppedAtRejection(chunks, insertMany, submitted, batch, insertMany(batch).error);
  }

  lemma {:induction false} ProgressDone<T>(movies: seq<T>, size: nat, i: nat, submitted: seq<seq<T>>, total: nat,
                        insertMany: seq<T> -> Result<nat, string>)
    requires size > 0 && i >= |movies|
    requires Progress(movies, size, i, submitted, total, insertMany)
    ensures SentInOrder(Chunks(movies, size), insertMany, Success(total), submitted)
  {
    assert movies[Min(i, |movies|)..] == [];
    assert submitted + [] == submitted;
    AllSent(Chunks(movies, size), insertMany, total);
  }

  /** The loop of `insertMoviesBatch`, returning also the chunks it sent so the driver calls are observable. */
  method SendChunks<T>(insertMany: seq<T> -> Result<nat, string>, movies: seq<T>, batchSize: nat)
    returns (r: Result<nat, string>, submitted: seq<seq<T>>)
    requires batchSize > 0
    ensures SentInOrder(Chunks(movies, batchSize), insertMany, r, submitted)
  {
    submitted := [];
    var totalInserted := 0;
    var i := 0;
    ProgressStart(movies, batchSize, insertMany);
    while i < |movies|
      invariant Progress(movies, batchSize, i, submitted, totalInserted, insertMany)
      decreases |movies| - i
    {
      var batch := Slice(movies, i, batchSize);
      var result := insertMany(batch);
      if result.Failure? {
        ProgressRejected(movies, batchSize, i, submitted, totalInserted, insertMany);
        return Failure(result.error), submitted + [batch];
      }
      ProgressAccepted(movies, batchSize, i, submitted, totalInserted, insertMany);
      submitted := submitted + [batch];
      totalInserted := totalInserted + result.value;
      i := i + batchSize;
    }
    ProgressDone(movies, batchSize, i, submitted, totalInserted, insertMany);
    return Success(totalInserted), submitted;
  }

  /**
   * `insertMoviesBatch`: without an open collection it fails before
   * sending anything; otherwise it sends the chunks in order and either
   * returns the sum of the inserted counts, having sent every chunk, or
   * propagates the first rejection, having sent nothing after it.
   */
  method InsertMoviesBatch<T>(collection: Option<Collection<T>>, movies: seq<T>, batchSize: nat)
    returns (r: Result<nat, LoadError>, submitted: seq<seq<T>>)
    requires batchSize > 0
    ensures collection.None? ==> r == Failure(NotConnected) && submitted == []
    ensures collection.Some? ==>
      var chunks := Chunks(movies, batchSize);
      var insertMany := collection.value.insertMany;
      && |submitted| <= |chunks| && submitted == chunks[..|submitted|]
      && (r.Success? <==> forall k :: 0 <= k < |chunks| ==> insertMany(chunks[k]).Success?)
      && (r.Success? ==> submitted == chunks && r.value == SumCounts(chunks, insertMany))
      && (r.Failure? ==>
            && |submitted| > 0
            && (forall k :: 0 <= k < |submitted| - 1 ==> insertMany(submitted[k]).Success?)
            && insertMany(submitted[|submitted| - 1]).Failure?
            && r.error == BulkInsertFailed(insertMany(submitted[|submitted| - 1]).error))
  {
    if collection.None? {
      return Failure(NotConnected), [];
    }
    var sent;
    sent, submitted := SendChunks(collection.value.insertMany, movies, batchSize);
    match sent
    case Success(total) => r := Success(total);
    case Failure(e) => r := Failure(BulkInsertFailed(e));
  }
}
