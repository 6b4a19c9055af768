/** The document retriever of rag_agent/retriever/rag_retriever.py: a fixed corpus
    of texts and an inner-product index over their embeddings. */
module Retriever {
  import opened Text
  import opened FaissUtils

  /** A query without tokens embeds to the zero vector, which scores 0 against every
      document, so nothing is retrieved. */
  lemma NoTokensNoDocuments(docs: seq<string>, vectors: seq<Vector>, query: string, dim: nat, pool: Pooler, k: int,
                            results: seq<string>)
    requires KeepsDimension(pool)
    requires |docs| == |vectors|
    requires results == Pick(docs, Hits(vectors, ModelEmbedding(query, dim, pool), k))
    ensures Tokenize(query) == [] ==> results == []
  {
    if Tokenize(query) == [] {
      ZeroQueryHitsNothing(vectors, ModelEmbedding(query, dim, pool), k);
    }
  }

  /** `DocumentRetriever`. `pool` stands for what `model_embedding` does with a
      non-empty token list. */
  class DocumentRetriever {
    const dim: nat
    const pool: Pooler
    var docs: seq<string>
    const index: IndexFlatIP

    /** One vector per document, in the same order: vector `i` is the embedding of
        document `i`. */
    ghost predicate Valid()
      reads this, index
    {
      && KeepsDimension(pool)
      && index.dim == dim
      && |index.vectors| == |docs|
      && forall i :: 0 <= i < |docs| ==> index.vectors[i] == ModelEmbedding(docs[i], dim, pool)
    }

    /** `DocumentRetriever(documents_dir, dim)` once the `*.txt` files of the
        directory have been read, in the order given by `texts`. */
    constructor (texts: seq<string>, dim: nat, pool: Pooler)
      requires KeepsDimension(pool)
      ensures Valid()
      ensures this.dim == dim && this.pool == pool && docs == texts
      ensures fresh(index)
    {
      this.dim := dim;
      this.pool := pool;
      var collected: seq<string> := [];
      var embeddings: seq<Vector> := [];
      for j := 0 to |texts|
        invariant collected == texts[..j]
        invariant |embeddings| == j
        invariant forall t :: 0 <= t < j ==> embeddings[t] == ModelEmbedding(texts[t], dim, pool)
      {
        var text := texts[j];
        collected := collected + [text];
        embeddings := embeddings + [ModelEmbedding(text, dim, pool)];
      }
      assert collected == texts;
      docs := collected;
      index := new IndexFlatIP(dim);
      new;
      if embeddings != [] {
        index.Add(embeddings);
      }
    }

    /** `retrieve(query, top_k)`: the documents at the index hits with a real
        position and a positive score, in the order the index reports them. */
    method Retrieve(query: string, topK: int) returns (results: seq<string>)
      requires Valid()
      ensures results == Pick(docs, Hits(index.vectors, ModelEmbedding(query, dim, pool), topK))
      ensures topK >= 0 ==> |results| <= topK
      ensures docs == [] ==> results == []
      ensures Tokenize(query) == [] ==> results == []
    {
      if docs == [] {
        PickNoHits(docs, index.vectors, ModelEmbedding(query, dim, pool), topK);
        results := [];
      } else {
        var qvec := ModelEmbedding(query, dim, pool);
        var scores, idx := index.Search([qvec], topK);
        ScoreRowAt(index.vectors, [qvec], topK, 0);
        IdRowAt(index.vectors, [qvec], topK, 0);
        SearchRowFilters(docs, index.vectors, qvec, topK, scores[0], idx[0]);
        results := KeepHits(docs, scores[0], idx[0]);
      }
      PickHits(docs, index.vectors, ModelEmbedding(query, dim, pool), topK);
      NoTokensNoDocuments(docs, index.vectors, query, dim, pool, topK, results);
    }
  }
}
