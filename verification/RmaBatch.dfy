// Batches larger than the ring (flagcx/core/flagcx_hetero.cc, flagcxHeteroBatchPut over
// flagcxRmaProxyEnqueueDescBatch).

module RmaBatch {
  import opened Results
  import opened NetTransport
  import opened RmaPeer

  /** What the producer finds each time it holds the mutex: the peer, or the reason why it may not
      submit (quiesced, or an error). Between two tries other threads change the peer. */
  datatype Try = Open(peer: Peer) | Refused(error: Status)

  predicate TryOk(t: Try, queueSize: nat) {
    if t.Open? then t.peer.queueSize == queueSize else t.error != Success && t.error != InProgress
  }

  /** The answer to a chunk; InProgress makes the producer try again. */
  function Answer(t: Try, chunk: seq<Desc>): Status {
    if t.Open? then EnqueueBatch(t.peer, chunk).1 else t.error
  }

  function Flatten(chunks: seq<seq<Desc>>): seq<Desc> {
    if chunks == [] then [] else Flatten(chunks[..|chunks| - 1]) + chunks[|chunks| - 1]
  }

  lemma FlattenAppend(chunks: seq<seq<Desc>>, chunk: seq<Desc>)
    ensures Flatten(chunks + [chunk]) == Flatten(chunks) + chunk
  {
    assert (chunks + [chunk])[..|chunks|] == chunks;
  }

  /** The chunk was retried at all tries from `from` on until the one at `at`. */
  predicate WaitedUntil(tries: seq<Try>, chunk: seq<Desc>, from: nat, at: nat) {
    from <= at <= |tries| && forall t :: from <= t < at ==> Answer(tries[t], chunk) == InProgress
  }

  /** Chunk i was published whole at try at[i], the first after the chunk before it that did not
      answer InProgress. */
  predicate PublishedAt(tries: seq<Try>, chunks: seq<seq<Desc>>, at: seq<nat>, i: nat)
    requires i < |chunks| == |at|
  {
    && WaitedUntil(tries, chunks[i], if i == 0 then 0 else at[i - 1] + 1, at[i])
    && at[i] < |tries| && tries[at[i]].Open? && EnqueueBatch(tries[at[i]].peer, chunks[i]).1 == Success
  }

  lemma PublishedFrame(tries: seq<Try>, chunks: seq<seq<Desc>>, at: seq<nat>, chunk: seq<Desc>, t: nat, i: nat)
    requires i < |chunks| == |at| && PublishedAt(tries, chunks, at, i)
    ensures PublishedAt(tries, chunks + [chunk], at + [t], i)
  {
    hide EnqueueBatch;
  }

  /** One chunk: retries while the ring or the scoreboard window is full. */
  method EnqueueChunk(tries: seq<Try>, chunk: seq<Desc>, from: nat) returns (st: Status, at: nat)
    requires from <= |tries|
    ensures at <= |tries| && WaitedUntil(tries, chunk, from, at)
    ensures at == |tries| ==> st == InProgress
    ensures at < |tries| ==> st == Answer(tries[at], chunk) && st != InProgress
  {
    hide EnqueueBatch;
    at := from;
    while at < |tries|
      invariant WaitedUntil(tries, chunk, from, at)
    {
      st := Answer(tries[at], chunk);
      if st != InProgress { return; }
      at := at + 1;
    }
    st := InProgress;
  }

  /** The chunk was not published: refused with st, or still waiting when the tries ran out. */
  ghost predicate StoppedAt(tries: seq<Try>, chunk: seq<Desc>, from: nat, st: Status) {
    exists a: nat :: WaitedUntil(tries, chunk, from, a)
      && if st == InProgress then a == |tries| else a < |tries| && st == Answer(tries[a], chunk)
  }

  /** How much the next chunk takes. */
  function ChunkSize(left: nat, queueSize: nat): nat { if left > queueSize then queueSize else left }

  /** The chunk loop. The chunks in order and then the rest are the batch: every chunk was published
      whole, all but the last fill the ring, and each waited its turn. Nothing is left exactly on
      success. Otherwise the next chunk was refused and the rest is freed, or (st == InProgress) the
      producer is still trying to place it. */
  method BatchPut(descs: seq<Desc>, queueSize: nat, tries: seq<Try>)
    returns (st: Status, chunks: seq<seq<Desc>>, at: seq<nat>, rest: seq<Desc>)
    requires queueSize >= 1 && forall t :: 0 <= t < |tries| ==> TryOk(tries[t], queueSize)
    ensures Flatten(chunks) + rest == descs && |at| == |chunks|
    ensures forall i :: 0 <= i < |chunks| ==> PublishedAt(tries, chunks, at, i) && 1 <= |chunks[i]| <= queueSize
    ensures forall i :: 0 <= i < |chunks| ==> |chunks[i]| < queueSize ==> i == |chunks| - 1 && rest == []
    ensures st == Success <==> rest == []
    ensures st != Success ==>
      StoppedAt(tries, rest[..ChunkSize(|rest|, queueSize)], if at == [] then 0 else at[|at| - 1] + 1, st)
  {
    hide EnqueueBatch, Flatten, PublishedAt, WaitedUntil;
    assert Flatten([]) == [] by { FlattenNothing(); }
    chunks, at, rest := [], [], descs;
    var next := 0;
    while rest != []
      invariant |at| == |chunks| && next == (if at == [] then 0 else at[|at| - 1] + 1) && next <= |tries|
      invariant Flatten(chunks) + rest == descs
      invariant forall i :: 0 <= i < |chunks| ==> PublishedAt(tries, chunks, at, i) && 1 <= |chunks[i]| <= queueSize
      invariant forall i :: 0 <= i < |chunks| ==> |chunks[i]| < queueSize ==> i == |chunks| - 1 && rest == []
      decreases |rest|
    {
      var count := ChunkSize(|rest|, queueSize);
      var chunk := rest[..count];
      var a;
      st, a := EnqueueChunk(tries, chunk, next);
      if st != Success { return; }
      forall i | 0 <= i < |chunks| + 1
        ensures PublishedAt(tries, chunks + [chunk], at + [a], i) && 1 <= |(chunks + [chunk])[i]| <= queueSize
      {
        if i < |chunks| {
          PublishedFrame(tries, chunks, at, chunk, a, i);
        } else {
          PublishedLast(tries, chunks, at, chunk, a, queueSize);
        }
      }
      FlattenAppend(chunks, chunk);
      assert Flatten(chunks) + rest == (Flatten(chunks) + chunk) + rest[count..];
      chunks, at, rest, next := chunks + [chunk], at + [a], rest[count..], a + 1;
    }
    assert Flatten(chunks) + rest == Flatten(chunks);
    st := Success;
  }

  lemma FlattenNothing()
    ensures Flatten([]) == []
  {}

  lemma PublishedLast(tries: seq<Try>, chunks: seq<seq<Desc>>, at: seq<nat>, chunk: seq<Desc>, a: nat, queueSize: nat)
    requires |at| == |chunks| && a < |tries| && Answer(tries[a], chunk) == Success && TryOk(tries[a], queueSize)
    requires WaitedUntil(tries, chunk, if at == [] then 0 else at[|at| - 1] + 1, a)
    ensures PublishedAt(tries, chunks + [chunk], at + [a], |chunks|)
  {
    hide EnqueueBatch;
  }
}
