/** `RAGPipeline` (src/rag_pipeline.py): a question is embedded, the nearest
    chunks are fetched from the vector store, and either a fixed answer is
    returned (nothing found) or the chunks are numbered into a context, the
    language model answers from it, and the chunks, their metadata, their
    distances and a confidence derived from the distances are returned with
    the answer. The embedder and the store are functions given to the
    pipeline; the language model is an `LlmClient`. */
module RagPipeline {
  import opened Wrappers
  import opened Text
  import opened VectorStore
  import opened Llm

  // ---------------------------------------------------------------------
  // _calculate_confidence
  // ---------------------------------------------------------------------

  /** `sum(xs)`. */
  function Sum(xs: seq<real>): real
    decreases |xs|
  {
    if xs == [] then 0.0 else Sum(xs[..|xs| - 1]) + xs[|xs| - 1]
  }

  /** `sum(xs) / len(xs)`. */
  function Mean(xs: seq<real>): real
    requires xs != []
  {
    Sum(xs) / |xs| as real
  }

  /** `max(0.0, min(1.0, x))`: `x` itself inside the unit interval, else the
      nearer end. */
  function Clamp(x: real): (r: real)
    ensures 0.0 <= r <= 1.0
    ensures 0.0 <= x <= 1.0 ==> r == x
    ensures x < 0.0 ==> r == 0.0
    ensures x > 1.0 ==> r == 1.0
  {
    var m := if x < 1.0 then x else 1.0;
    if 0.0 < m then m else 0.0
  }

  lemma ClampMonotone(x: real, y: real)
    requires x <= y
    ensures Clamp(x) <= Clamp(y)
  {
  }

  /** A whole number of hundredths. */
  predicate IsCents(x: real) {
    (x * 100.0).Floor as real == x * 100.0
  }

  /** The number of hundredths `round(x, 2)` keeps: a whole number at most
      one half away from `100 * x`, and the even one when `100 * x` lies
      exactly halfway between two whole numbers. */
  function Cents(x: real): (k: int)
    ensures -0.5 <= k as real - x * 100.0 <= 0.5
    ensures (k as real - x * 100.0 == 0.5 || k as real - x * 100.0 == -0.5) ==> k % 2 == 0
  {
    var y := x * 100.0;
    var n := y.Floor;
    var f := y - n as real;
    if f < 0.5 then n
    else if f > 0.5 then n + 1
    else if n % 2 == 0 then n
    else n + 1
  }

  /** `round(x, 2)`: a whole number of hundredths, at most half a hundredth
      away from `x`. */
  function Round2(x: real): (r: real)
    ensures IsCents(r)
    ensures -0.005 <= r - x <= 0.005
  {
    var k := Cents(x);
    assert -0.5 <= k as real - x * 100.0 <= 0.5;
    assert (k as real / 100.0) * 100.0 == k as real;
    k as real / 100.0
  }

  /** Rounding never reverses the order of two numbers. */
  lemma Round2Monotone(x: real, y: real)
    requires x <= y
    ensures Round2(x) <= Round2(y)
  {
    assert (x * 100.0).Floor <= (y * 100.0).Floor;
    assert Cents(x) <= Cents(y);
  }

  /** A whole number of hundredths is left as it is. */
  lemma Round2OfCents(k: int)
    ensures Round2(k as real / 100.0) == k as real / 100.0
  {
    var x := k as real / 100.0;
    assert x * 100.0 == k as real;
    assert Cents(x) == k;
  }

  /** `_calculate_confidence(distances)`: 0 for no distances, otherwise one
      minus the mean distance, held inside the unit interval and rounded to
      two decimals. */
  function Confidence(distances: seq<real>): (c: real)
    ensures 0.0 <= c <= 1.0 && IsCents(c)
    ensures distances == [] ==> c == 0.0
    ensures distances != [] ==> -0.005 <= c - Clamp(1.0 - Mean(distances)) <= 0.005
  {
    if distances == [] then 0.0
    else
      var x := Clamp(1.0 - Mean(distances));
      Round2Monotone(0.0, x);
      Round2Monotone(x, 1.0);
      Round2OfCents(0);
      Round2OfCents(100);
      Round2(x)
  }

  /** A smaller mean distance never gives a smaller confidence. */
  lemma ConfidenceMonotone(a: seq<real>, b: seq<real>)
    requires a != [] && b != [] && Mean(a) <= Mean(b)
    ensures Confidence(b) <= Confidence(a)
  {
    ClampMonotone(1.0 - Mean(b), 1.0 - Mean(a));
    Round2Monotone(Clamp(1.0 - Mean(b)), Clamp(1.0 - Mean(a)));
  }

  /** Bounds on every element bound the sum. */
  lemma {:induction false} SumBounds(xs: seq<real>, lo: real, hi: real)
    requires forall i :: 0 <= i < |xs| ==> lo <= xs[i] <= hi
    ensures |xs| as real * lo <= Sum(xs) <= |xs| as real * hi
    decreases |xs|
  {
    if xs != [] {
      var n := |xs| - 1;
      SumBounds(xs[..n], lo, hi);
      assert (n + 1) as real * lo == n as real * lo + lo;
      assert (n + 1) as real * hi == n as real * hi + hi;
    }
  }

  /** Bounds on every element bound the mean. */
  lemma MeanBetween(xs: seq<real>, lo: real, hi: real)
    requires xs != []
    requires forall i :: 0 <= i < |xs| ==> lo <= xs[i] <= hi
    ensures lo <= Mean(xs) <= hi
  {
    var n := |xs| as real;
    SumBounds(xs, lo, hi);
    assert n * lo <= Sum(xs) <= n * hi;
    assert Mean(xs) == Sum(xs) / n;
  }

  /** Bounds on every distance bound the confidence: it lies between the
      confidence of the largest and that of the smallest distance. */
  lemma ConfidenceBetween(distances: seq<real>, lo: real, hi: real)
    requires distances != []
    requires forall i :: 0 <= i < |distances| ==> lo <= distances[i] <= hi
    ensures Round2(Clamp(1.0 - hi)) <= Confidence(distances) <= Round2(Clamp(1.0 - lo))
  {
    var m := Mean(distances);
    MeanBetween(distances, lo, hi);
    ClampMonotone(1.0 - hi, 1.0 - m);
    ClampMonotone(1.0 - m, 1.0 - lo);
    Round2Monotone(Clamp(1.0 - hi), Clamp(1.0 - m));
    Round2Monotone(Clamp(1.0 - m), Clamp(1.0 - lo));
  }

  /** When every result lies at the same distance `d` of the question, the
      confidence is `1 - d`, held inside the unit interval and rounded. */
  lemma ConfidenceOfEqualDistances(distances: seq<real>, d: real)
    requires distances != []
    requires forall i :: 0 <= i < |distances| ==> distances[i] == d
    ensures Confidence(distances) == Round2(Clamp(1.0 - d))
  {
    ConfidenceBetween(distances, d, d);
  }

  /** Results that all lie at distance 1 or more give confidence 0. */
  lemma FarResultsGiveZeroConfidence(distances: seq<real>)
    requires distances != []
    requires forall i :: 0 <= i < |distances| ==> distances[i] >= 1.0
    ensures Confidence(distances) == 0.0
  {
    var hi := distances[0];
    for k := 1 to |distances|
      invariant forall i :: 0 <= i < k ==> distances[i] <= hi
    {
      if distances[k] > hi {
        hi := distances[k];
      }
    }
    ConfidenceBetween(distances, 1.0, hi);
    Round2OfCents(0);
  }

  /** Results that all lie at distance 0 give confidence 1. */
  lemma ExactResultsGiveFullConfidence(distances: seq<real>)
    requires distances != []
    requires forall i :: 0 <= i < |distances| ==> distances[i] == 0.0
    ensures Confidence(distances) == 1.0
  {
    ConfidenceOfEqualDistances(distances, 0.0);
    Round2OfCents(100);
  }

  // ---------------------------------------------------------------------
  // _build_context
  // ---------------------------------------------------------------------

  /** `f"[Source {n}]\n{doc}\n"`: the tag with the number `n`, then the
      document on its own line. */
  function SourceBlock(n: nat, doc: string): (b: string)
    ensures var d := |Decimal(n)|;
      && |b| == 11 + d + |doc|
      && b[..8] == "[Source "
      && AllDigits(b[8..8 + d]) && DigitsValue(b[8..8 + d]) == n
      && b[8 + d..10 + d] == "]\n"
      && b[10 + d..10 + d + |doc|] == doc
      && b[|b| - 1] == '\n'
  {
    var b := "[Source " + Decimal(n) + "]\n" + doc + "\n";
    FillSlices("[Source ", Decimal(n), "]\n", doc, "\n");
    DecimalRoundTrip(n);
    assert b[..8] == "[Source ";
    b
  }

  /** The blocks of the documents, numbered from 1 in search order. */
  function SourceBlocks(documents: seq<string>): seq<string> {
    seq(|documents|, i requires 0 <= i < |documents| => SourceBlock(i + 1, documents[i]))
  }

  /** The context handed to the language model: the blocks joined with
      newlines. It is empty exactly when there are no documents. */
  function Context(documents: seq<string>): (r: string)
    ensures r == "" <==> documents == []
  {
    var parts := SourceBlocks(documents);
    assert parts != [] ==> |Join(parts, "\n")| > 0 by {
      if parts != [] {
        JoinPartAt(parts, "\n", 0);
      }
    }
    Join(parts, "\n")
  }

  /** Document `i` appears, in the block numbered `i + 1`, at its offset in
      the context. */
  lemma ContextBlockAt(documents: seq<string>, i: nat)
    requires i < |documents|
    ensures var parts := SourceBlocks(documents); var o := JoinOffset(parts, "\n", i);
      && parts[i] == SourceBlock(i + 1, documents[i])
      && o + |parts[i]| <= |Context(documents)| && Context(documents)[o..o + |parts[i]|] == parts[i]
  {
    JoinPartAt(SourceBlocks(documents), "\n", i);
  }

  /** Consecutive blocks follow each other in the order of the documents,
      with one newline between them. */
  lemma ContextBlocksInOrder(documents: seq<string>, i: nat)
    requires i + 1 < |documents|
    ensures var parts := SourceBlocks(documents);
      var e := JoinOffset(parts, "\n", i) + |parts[i]|;
      && JoinOffset(parts, "\n", i + 1) == e + 1
      && e < |Context(documents)| && Context(documents)[e] == '\n'
  {
    var parts := SourceBlocks(documents);
    var c := Join(parts, "\n");
    assert Context(documents) == c;
    JoinOffsetNext(parts, "\n", i);
    JoinSepAt(parts, "\n", i);
    var e := JoinOffset(parts, "\n", i) + |parts[i]|;
    assert c[e..e + 1][0] == c[e];
  }

  // ---------------------------------------------------------------------
  // query
  // ---------------------------------------------------------------------

  /** What the store's `search` returns: the nearest documents with their
      distances and metadata. */
  datatype SearchResult = SearchResult(documents: seq<string>, distances: seq<real>, metadatas: seq<Metadata>)

  /** The dictionary `query` returns. The answer for an empty search carries
      no `metadata` and no `distances` key. */
  datatype Response = Response(
    question: string,
    answer: string,
    sources: seq<string>,
    metadata: Option<seq<Metadata>>,
    distances: Option<seq<real>>,
    confidence: real)

  /** The answer when the search finds nothing. */
  const NotFoundAnswer := "I couldn't find " + "relevant " + "information to " + "answer your " + "question."

  /** The number of documents fetched unless configured otherwise. */
  const DefaultTopK := 3

  /** A `RAGPipeline`: the embedder, the store's search, the language model
      and the number of documents to fetch. */
  class Pipeline {
    const embed: string -> seq<real>
    const search: (seq<real>, int) -> SearchResult
    const llm: LlmClient
    const topK: int

    constructor(embed: string -> seq<real>, search: (seq<real>, int) -> SearchResult, llm: LlmClient, topK: int := DefaultTopK)
      ensures this.embed == embed && this.search == search && this.llm == llm && this.topK == topK
    {
      this.embed := embed;
      this.search := search;
      this.llm := llm;
      this.topK := topK;
    }

    /** `_build_context(search_results)`: one numbered block per document,
        in order, joined with newlines. */
    method BuildContext(found: SearchResult) returns (context: string)
      ensures context == Context(found.documents)
    {
      var documents := found.documents;
      var parts: seq<string> := [];
      var i := 0;
      while i < |documents|
        invariant 0 <= i <= |documents|
        invariant parts == SourceBlocks(documents)[..i]
      {
        var n := i + 1;
        parts := parts + ["[Source " + Decimal(n) + "]\n" + documents[i] + "\n"];
        i := i + 1;
      }
      assert parts == SourceBlocks(documents);
      context := Join(parts, "\n");
    }

    /** `query(question)`. An empty search gives the fixed answer with no
        sources and confidence 0, and the language model is not called.
        Otherwise the model is asked once, with the numbered context, and
        the search's documents, metadata and distances come back unchanged
        beside the answer and the confidence of the distances. */
    method Query(question: string) returns (r: Response)
      modifies llm
      ensures var found := search(embed(question), topK);
        && r.question == question
        && (found.documents == [] ==>
              && r == Response(question, NotFoundAnswer, [], None, None, 0.0)
              && llm.sent == old(llm.sent))
        && (found.documents != [] ==>
              var request := llm.RequestFor(question, Context(found.documents), DefaultMaxTokens);
              && r.answer == AnswerFromReply(llm.service(request))
              && r.sources == found.documents
              && r.metadata == Some(found.metadatas)
              && r.distances == Some(found.distances)
              && r.confidence == Confidence(found.distances)
              && llm.sent == old(llm.sent) + [request])
    {
      var queryEmbedding := embed(question);
      var found := search(queryEmbedding, topK);
      if found.documents == [] {
        return Response(question, NotFoundAnswer, [], None, None, 0.0);
      }
      var context := BuildContext(found);
      var answer := llm.GenerateAnswer(question, context);
      r := Response(question, answer, found.documents, Some(found.metadatas), Some(found.distances),
                    Confidence(found.distances));
    }
  }
}
