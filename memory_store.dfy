/** The long-term memory of rag_agent/memory/memory_store.py: a list of chunks and
    an inner-product index over their summaries, kept in lock-step. */
module Memory {
  import opened Strings
  import opened Text
  import opened FaissUtils

  /** `MemoryChunk` */
  datatype MemoryChunk = MemoryChunk(id: string, timestamp: real, summary: string, content: string, topic: string)

  /** `int(x)` for a float: truncation toward zero. */
  function Truncate(x: real): (r: int)
    ensures x >= 0.0 ==> r as real <= x < r as real + 1.0
    ensures x < 0.0 ==> r as real - 1.0 < x <= r as real
  {
    if x >= 0.0 then x.Floor else -((-x).Floor)
  }

  /** `f"chunk-{int(clock)}-{count:03d}"` */
  function ChunkId(clock: real, count: nat): string {
    "chunk-" + IntToDecimal(Truncate(clock)) + "-" + ZeroPad(count, 3)
  }

  /** Chunks numbered differently get different ids, whatever the clock says: the
      zero-padded count after the last `-` is recoverable from the id. */
  lemma ChunkIdsDistinct(clock1: real, count1: nat, clock2: real, count2: nat)
    requires count1 != count2
    ensures ChunkId(clock1, count1) != ChunkId(clock2, count2)
  {
    if ChunkId(clock1, count1) == ChunkId(clock2, count2) {
      DigitSuffixAfterDash("chunk-" + IntToDecimal(Truncate(clock1)), ZeroPad(count1, 3),
                           "chunk-" + IntToDecimal(Truncate(clock2)), ZeroPad(count2, 3));
      ZeroPadRoundTrip(count1, 3);
      ZeroPadRoundTrip(count2, 3);
    }
  }

  /** The id of any chunk numbered `count` ends with `count` in at least three digits. */
  lemma ChunkIdShape(clock: real, count: nat)
    ensures var id := ChunkId(clock, count); var pad := ZeroPad(count, 3);
      && id == "chunk-" + IntToDecimal(Truncate(clock)) + "-" + pad
      && |pad| == (if |NatToDecimal(count)| < 3 then 3 else |NatToDecimal(count)|)
      && AllDigits(pad) && DecimalValue(pad) == count
  {
    ZeroPadRoundTrip(count, 3);
  }

  /** A store holding one memory recalls it for any `top_k >= 1` exactly when the
      query's embedding scores positively against that memory's summary. */
  lemma OneMemoryRecall(m: MemoryChunk, embed: Embedder, dim: nat, query: string, topK: int)
    requires topK >= 1
    ensures Pick([m], Hits([embed(m.summary, dim)], embed(query, dim), topK))
         == (if Dot(embed(query, dim), embed(m.summary, dim)) > 0.0 then [m] else [])
  {
    var v, q := embed(m.summary, dim), embed(query, dim);
    SingleVectorHits(v, q, topK);
    if Dot(q, v) > 0.0 {
      assert Hits([v], q, topK) == [0];
      assert Pick([m], [0]) == [m];
    } else {
      assert Hits([v], q, topK) == [];
    }
  }

  /** `MemoryStore`. `embed` stands for the embedding function the store calls on
      summaries and queries. */
  class MemoryStore {
    const dim: nat
    const embed: Embedder
    var memories: seq<MemoryChunk>
    const index: IndexFlatIP

    /** One vector per memory, in the same order: vector `i` embeds the summary of
        memory `i`. */
    ghost predicate Valid()
      reads this, index
    {
      && index.dim == dim
      && |index.vectors| == |memories|
      && forall i :: 0 <= i < |memories| ==> index.vectors[i] == embed(memories[i].summary, dim)
    }

    /** `MemoryStore(path, dim)` once the saved chunks have been read. */
    constructor (chunks: seq<MemoryChunk>, dim: nat, embed: Embedder)
      ensures Valid()
      ensures this.dim == dim && this.embed == embed && memories == chunks
      ensures fresh(index)
    {
      this.dim := dim;
      this.embed := embed;
      memories := chunks;
      index := new IndexFlatIP(dim);
      new;
      if chunks != [] {
        var vecs := seq(|chunks|, i requires 0 <= i < |chunks| => embed(chunks[i].summary, dim));
        index.Add(vecs);
      }
    }

    /** `add_memory(summary, content, topic)`. The two clock readings of the source
        are `idClock` (for the id) and `timestamp`. */
    method AddMemory(summary: string, content: string, topic: string, idClock: real, timestamp: real)
      returns (chunk: MemoryChunk)
      requires Valid()
      modifies this, index
      ensures Valid()
      ensures chunk == MemoryChunk(ChunkId(idClock, |old(memories)| + 1), timestamp, summary, content, topic)
      ensures memories == old(memories) + [chunk]
      ensures index.vectors == old(index.vectors) + [embed(summary, dim)]
    {
      var chunkId := ChunkId(idClock, |memories| + 1);
      chunk := MemoryChunk(chunkId, timestamp, summary, content, topic);
      var vec := embed(summary, dim);
      index.Add([vec]);
      memories := memories + [chunk];
    }

    /** `retrieve(query, top_k)`: the memories at the index hits with a real position
        and a positive score, in the order the index reports them. */
    method Retrieve(query: string, topK: int) returns (results: seq<MemoryChunk>)
      requires Valid()
      ensures results == Pick(memories, Hits(index.vectors, embed(query, dim), topK))
      ensures topK >= 0 ==> |results| <= topK
      ensures memories == [] ==> results == []
    {
      if memories == [] {
        PickNoHits(memories, index.vectors, embed(query, dim), topK);
        results := [];
      } else {
        var qvec := embed(query, dim);
        var scores, idx := index.Search([qvec], topK);
        ScoreRowAt(index.vectors, [qvec], topK, 0);
        IdRowAt(index.vectors, [qvec], topK, 0);
        SearchRowFilters(memories, index.vectors, qvec, topK, scores[0], idx[0]);
        results := KeepHits(memories, scores[0], idx[0]);
      }
      PickHits(memories, index.vectors, embed(query, dim), topK);
    }
  }
}
