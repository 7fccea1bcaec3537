/** Two-stage retrieval and grounded-context assembly
    (`Backend/data_retrieval_from_RAG.py`).

    The vector search and the cross-encoder are opaque library calls; they
    enter the model as function-typed parameters. What the code does with
    their output is modelled exactly: the ranked corpus ids select chunks of
    the retrieved documents, and each chunk is emitted as its text followed by
    a `[Source: …]` citation line and a blank line. */
module Retrieval {
  import opened Text

  /** The metadata dictionary stored beside each chunk; only string values
      are modelled. */
  type Metadata = map<string, string>

  /** `n_results` of the first-stage vector search. */
  const NResults: nat := 10
  /** `top_k` of the cross-encoder reranking. */
  const TopK: nat := 5

  const SourceKey := "source"
  const UnknownSource := "unknown"
  const CitationOpen := "\n[Source: "
  const CitationClose := "]\n\n"

  /** The first row of a vector-search result: the documents and the
      metadata dictionaries of the hits, in the same order. */
  datatype SearchResult = SearchResult(documents: seq<string>, metadatas: seq<Metadata>) {
    /** At most `n` hits, documents and metadata index-aligned. */
    predicate WellFormed(n: nat) {
      |documents| == |metadatas| <= n
    }
  }

  /** A chunk as it reaches the assembled context: its text and the source
      it is cited under. */
  datatype Chunk = Chunk(text: string, source: string)

  /** `metadata.get("source", "unknown")`. */
  function SourceOf(md: Metadata): string {
    if SourceKey in md then md[SourceKey] else UnknownSource
  }

  /** The citation of a chunk is the stored source when there is one and the
      literal `"unknown"` otherwise; it is never left out. */
  lemma SourceFallback(md: Metadata)
    ensures SourceKey in md ==> SourceOf(md) == md[SourceKey]
    ensures SourceKey !in md ==> SourceOf(md) == UnknownSource && |SourceOf(md)| > 0
  {
  }

  /** One chunk of the grounded context: text, citation line, blank line. */
  function Block(c: Chunk): string {
    c.text + CitationOpen + c.source + CitationClose
  }

  predicate InRange(ranks: seq<nat>, n: nat) {
    forall i :: 0 <= i < |ranks| ==> ranks[i] < n
  }

  predicate Distinct(ranks: seq<nat>) {
    forall i, j :: 0 <= i < j < |ranks| ==> ranks[i] != ranks[j]
  }

  /** What the cross-encoder's `rank(prompt, documents, top_k=k)` hands back,
      read as its `corpus_id`s in rank order: at most `k` distinct positions
      of the `n` documents it was given. */
  predicate IsRankList(ranks: seq<nat>, n: nat, k: nat) {
    |ranks| <= k && InRange(ranks, n) && Distinct(ranks)
  }

  /** The chunks the rank list picks, in rank order. */
  function Select(documents: seq<string>, metadata: seq<Metadata>, ranks: seq<nat>): (chunks: seq<Chunk>)
    requires InRange(ranks, |documents|) && InRange(ranks, |metadata|)
    ensures |chunks| == |ranks|
    ensures forall i :: 0 <= i < |ranks| ==>
              chunks[i] == Chunk(documents[ranks[i]], SourceOf(metadata[ranks[i]]))
  {
    if |ranks| == 0 then []
    else Select(documents, metadata, ranks[..|ranks| - 1])
         + [Chunk(documents[ranks[|ranks| - 1]], SourceOf(metadata[ranks[|ranks| - 1]]))]
  }

  /** The grounded context: the blocks of the chunks, concatenated in order. */
  function Render(chunks: seq<Chunk>): string {
    if |chunks| == 0 then "" else Render(chunks[..|chunks| - 1]) + Block(chunks[|chunks| - 1])
  }

  /** `re_rank_cross_encoders` after the cross-encoder has answered: folds the
      ranked chunks into one string, best first. */
  method ReRank(documents: seq<string>, metadata: seq<Metadata>, ranks: seq<nat>)
    returns (relevantText: string)
    requires |metadata| == |documents|
    requires IsRankList(ranks, |documents|, TopK)
    ensures relevantText == Render(Select(documents, metadata, ranks))
    ensures ranks == [] ==> relevantText == ""
  {
    relevantText := "";
    var i := 0;
    while i < |ranks|
      invariant 0 <= i <= |ranks|
      invariant relevantText == Render(Select(documents, metadata, ranks[..i]))
    {
      var idx := ranks[i];
      var source := SourceOf(metadata[idx]);
      relevantText := relevantText + (documents[idx] + CitationOpen + source + CitationClose);
      SelectSnoc(documents, metadata, ranks, i);
      i := i + 1;
    }
    assert ranks[..i] == ranks;
  }

  /** Selecting one more rank appends one more chunk, and rendering it
      appends one more block. */
  lemma SelectSnoc(documents: seq<string>, metadata: seq<Metadata>, ranks: seq<nat>, i: nat)
    requires |metadata| == |documents| && InRange(ranks, |documents|) && i < |ranks|
    ensures Render(Select(documents, metadata, ranks[..i + 1]))
         == Render(Select(documents, metadata, ranks[..i]))
            + Block(Chunk(documents[ranks[i]], SourceOf(metadata[ranks[i]])))
  {
    var pre := ranks[..i + 1];
    assert pre[..i] == ranks[..i];
    var c := Chunk(documents[ranks[i]], SourceOf(metadata[ranks[i]]));
    var xs := Select(documents, metadata, ranks[..i]);
    assert Select(documents, metadata, pre) == xs + [c];
    assert (xs + [c])[..|xs|] == xs;
  }

  /** Rendering distributes over appending chunk lists. */
  lemma {:induction false} RenderAppend(a: seq<Chunk>, b: seq<Chunk>)
    ensures Render(a + b) == Render(a) + Render(b)
    decreases |b|
  {
    if |b| == 0 {
      assert a + b == a;
    } else {
      var b' := b[..|b| - 1];
      assert (a + b)[..|a + b| - 1] == a + b';
      RenderAppend(a, b');
    }
  }

  lemma RenderOne(c: Chunk)
    ensures Render([c]) == Block(c)
  {
    assert [c][..0] == [];
  }

  /** Rendering a list is rendering its two halves, at any cut. */
  lemma {:induction false} RenderSplit(chunks: seq<Chunk>, k: nat)
    requires k <= |chunks|
    ensures Render(chunks) == Render(chunks[..k]) + Render(chunks[k..])
    decreases |chunks|
  {
    if k == |chunks| {
      assert chunks[..k] == chunks;
      assert chunks[k..] == [];
    } else {
      var init := chunks[..|chunks| - 1];
      RenderSplit(init, k);
      assert init[..k] == chunks[..k];
      var tail := chunks[k..];
      assert tail[..|tail| - 1] == init[k..];
      assert tail[|tail| - 1] == chunks[|chunks| - 1];
    }
  }

  /** Every chunk appears in the context as its own block, followed by its
      citation, with the higher-ranked chunks before it and the lower-ranked
      ones after it. */
  lemma BlockInPlace(chunks: seq<Chunk>, i: nat)
    requires i < |chunks|
    ensures Render(chunks) == Render(chunks[..i]) + Block(chunks[i]) + Render(chunks[i + 1..])
  {
    RenderSplit(chunks, i + 1);
    var pre := chunks[..i + 1];
    assert pre[..i] == chunks[..i];
    assert pre[i] == chunks[i];
  }

  /** Where the block of chunk `i` starts in the context. */
  function Offset(chunks: seq<Chunk>, i: nat): nat
    requires i <= |chunks|
  {
    |Render(chunks[..i])|
  }

  /** The block of chunk `i` sits in the context right after the blocks
      before it. */
  lemma BlockAt(chunks: seq<Chunk>, i: nat)
    requires i < |chunks|
    ensures Offset(chunks, i) + |Block(chunks[i])| <= |Render(chunks)|
    ensures Render(chunks)[Offset(chunks, i)..Offset(chunks, i) + |Block(chunks[i])|] == Block(chunks[i])
  {
    BlockInPlace(chunks, i);
    var p := Render(chunks[..i]);
    var b := Block(chunks[i]);
    var q := Render(chunks[i + 1..]);
    assert Render(chunks) == p + b + q;
    assert (p + b + q)[|p|..|p| + |b|] == b;
  }

  /** The block of a higher-ranked chunk ends before the block of a
      lower-ranked one starts: rank order is the order in the text. */
  lemma RankOrderPreserved(chunks: seq<Chunk>, i: nat, j: nat)
    requires i < j < |chunks|
    ensures Offset(chunks, i) + |Block(chunks[i])| <= Offset(chunks, j)
  {
    var pre := chunks[..i];
    var c := chunks[i];
    var mid := chunks[i + 1..j];
    assert chunks[..j] == (pre + [c]) + mid;
    RenderAppend(pre + [c], mid);
    RenderAppend(pre, [c]);
    RenderOne(c);
  }

  /** The size of the context: each chunk costs its text, its source and the
      13 characters of the citation markup. */
  function ContextSize(chunks: seq<Chunk>): nat {
    if |chunks| == 0 then 0
    else ContextSize(chunks[..|chunks| - 1])
         + |chunks[|chunks| - 1].text| + |chunks[|chunks| - 1].source| + |CitationOpen| + |CitationClose|
  }

  lemma {:induction false} RenderSize(chunks: seq<Chunk>)
    ensures |Render(chunks)| == ContextSize(chunks)
    decreases |chunks|
  {
    if |chunks| > 0 {
      RenderSize(chunks[..|chunks| - 1]);
    }
  }

  /** With at most `TopK` chunks, no text longer than `maxText` and no source
      longer than `maxSource`, the context is bounded independently of the
      corpus size. */
  lemma {:induction false} ContextBounded(chunks: seq<Chunk>, maxText: nat, maxSource: nat)
    requires |chunks| <= TopK
    requires forall i :: 0 <= i < |chunks| ==> |chunks[i].text| <= maxText && |chunks[i].source| <= maxSource
    ensures |Render(chunks)| <= TopK * (maxText + maxSource + 13)
  {
    SizeBound(chunks, maxText, maxSource);
    RenderSize(chunks);
  }

  lemma {:induction false} SizeBound(chunks: seq<Chunk>, maxText: nat, maxSource: nat)
    requires forall i :: 0 <= i < |chunks| ==> |chunks[i].text| <= maxText && |chunks[i].source| <= maxSource
    ensures ContextSize(chunks) <= |chunks| * (maxText + maxSource + 13)
    decreases |chunks|
  {
    if |chunks| > 0 {
      var init := chunks[..|chunks| - 1];
      assert forall i :: 0 <= i < |init| ==> init[i] == chunks[i];
      SizeBound(init, maxText, maxSource);
    }
  }

  /** The reranked chunks are drawn from the retrieved ones: every chunk text
      in the context is one of the retrieved documents, and there are at most
      `min(TopK, |documents|)` of them. */
  lemma SelectedAreRetrieved(documents: seq<string>, metadata: seq<Metadata>, ranks: seq<nat>)
    requires |metadata| == |documents|
    requires IsRankList(ranks, |documents|, TopK)
    ensures forall i :: 0 <= i < |ranks| ==> Select(documents, metadata, ranks)[i].text in documents
    ensures |Select(documents, metadata, ranks)| <= TopK
    ensures |Select(documents, metadata, ranks)| <= |documents|
  {
    DistinctBounded(ranks, |documents|);
  }

  /** A list of distinct positions below `n` has at most `n` entries. */
  lemma DistinctBounded(ranks: seq<nat>, n: nat)
    requires InRange(ranks, n) && Distinct(ranks)
    ensures |ranks| <= n
  {
    var used := set i | 0 <= i < |ranks| :: ranks[i];
    DistinctCard(ranks);
    assert used <= Below(n);
    SubsetCard(used, Below(n));
  }

  lemma {:induction false} DistinctCard(ranks: seq<nat>)
    requires Distinct(ranks)
    ensures |set i | 0 <= i < |ranks| :: ranks[i]| == |ranks|
    decreases |ranks|
  {
    if |ranks| > 0 {
      var init := ranks[..|ranks| - 1];
      DistinctCard(init);
      var s := set i | 0 <= i < |init| :: init[i];
      var t := set i | 0 <= i < |ranks| :: ranks[i];
      assert t == s + {ranks[|ranks| - 1]};
      assert ranks[|ranks| - 1] !in s;
    }
  }

  /** The positions `0 .. n - 1`. */
  function Below(n: nat): (b: set<nat>)
    ensures |b| == n
    ensures forall k: nat :: k in b <==> k < n
  {
    if n == 0 then {}
    else
      var b := Below(n - 1);
      assert n - 1 !in b;
      b + {n - 1}
  }

  lemma SubsetCard(a: set<nat>, b: set<nat>)
    requires a <= b
    ensures |a| <= |b|
  {
    assert b == a + (b - a);
  }

  /** `retrieve_relevant_chunks`: search the index for the query's
      `NResults` nearest chunks, rerank those same documents, with their own
      metadata, against the same query and keep `TopK`, then assemble. */
  method RetrieveRelevantChunks(
    query: string,
    search: (string, nat) -> SearchResult,
    rank: (string, seq<string>, nat) -> seq<nat>)
    returns (context: string)
    requires search(query, NResults).WellFormed(NResults)
    requires IsRankList(rank(query, search(query, NResults).documents, TopK),
                        |search(query, NResults).documents|, TopK)
    ensures var hits := search(query, NResults);
            var chunks := Select(hits.documents, hits.metadatas,
                                 rank(query, hits.documents, TopK));
            && context == Render(chunks)
            && |chunks| <= TopK < NResults
            && forall i :: 0 <= i < |chunks| ==> chunks[i].text in hits.documents
  {
    var hits := search(query, NResults);
    var ranks := rank(query, hits.documents, TopK);
    context := ReRank(hits.documents, hits.metadatas, ranks);
    SelectedAreRetrieved(hits.documents, hits.metadatas, ranks);
  }
}
