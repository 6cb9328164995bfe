/** `TextChunker` (src/data_processor.py): the knowledge-base document is cut
    into pieces by a splitter, and every piece becomes a chunk record with an
    id, its position, the number of pieces and a loan-type label guessed from
    its wording. */
module TextChunker {
  import opened Text
  import opened KeywordRules

  // ---------------------------------------------------------------------
  // _extract_loan_type_from_chunk
  // ---------------------------------------------------------------------

  /** The label returned when no phrase occurs. */
  const General := "General"

  /** The arms of the fragment classifier, in the order they are tested. */
  const ChunkRules: seq<Rule> := [
    Rule(["home loan", "housing loan"], "Home Loan"),
    Rule(["car loan", "vehicle loan"], "Vehicle Loan"),
    Rule(["personal loan"], "Personal Loan"),
    Rule(["education loan"], "Education Loan"),
    Rule(["gold loan"], "Gold Loan"),
    Rule(["agriculture", "kisan"], "Agriculture Loan"),
    Rule(["msme", "business"], "MSME Loan"),
    Rule(["interest rate"], "Interest Rates")
  ]

  /** The nine labels a fragment can get. */
  const ChunkLabels: set<string> := {
    "Home Loan", "Vehicle Loan", "Personal Loan", "Education Loan", "Gold Loan",
    "Agriculture Loan", "MSME Loan", "Interest Rates", "General"
  }

  /** `_extract_loan_type_from_chunk(chunk)`: the first arm with a phrase in
      `chunk.lower()` gives the label, always one of the nine. */
  function ChunkLoanType(chunk: string): (r: string)
    ensures r in ChunkLabels
  {
    assert LabelledBy(ChunkRules, General, ChunkLabels);
    FirstMatchLabelled(ChunkRules, Lower(chunk), General, ChunkLabels);
    FirstMatch(ChunkRules, Lower(chunk), General)
  }

  lemma ChunkLabelsDistinct()
    ensures DistinctLabels(ChunkRules, General)
  {
  }

  /** Only the lowercase form of the fragment matters. */
  lemma ChunkLoanTypeCaseInsensitive(chunk: string)
    ensures ChunkLoanType(Lower(chunk)) == ChunkLoanType(chunk)
  {
    LowerIdempotent(chunk);
  }

  /** "General" comes out exactly when no phrase of any arm occurs. */
  lemma ChunkLoanTypeGeneralIff(chunk: string)
    ensures ChunkLoanType(chunk) == General
            <==> forall j :: 0 <= j < |ChunkRules| ==> !Fires(ChunkRules, Lower(chunk), j)
  {
    ChunkLabelsDistinct();
    FirstMatchDefaultIff(ChunkRules, Lower(chunk), General);
  }

  /** The fragment gets arm `i`'s label exactly when arm `i` is the first arm
      with a phrase in the fragment. */
  lemma ChunkLoanTypeExact(chunk: string, i: int)
    requires 0 <= i < |ChunkRules|
    ensures ChunkLoanType(chunk) == ChunkRules[i].loanType
            <==> Fires(ChunkRules, Lower(chunk), i) && forall j :: 0 <= j < i ==> !Fires(ChunkRules, Lower(chunk), j)
  {
    ChunkLabelsDistinct();
    FirstMatchExact(ChunkRules, Lower(chunk), General, i);
  }

  /** A fragment that mentions a home or housing loan is a home-loan
      fragment, whatever else it mentions. */
  lemma HomeLoanWins(chunk: string)
    requires Contains(Lower(chunk), "home loan") || Contains(Lower(chunk), "housing loan")
    ensures ChunkLoanType(chunk) == "Home Loan"
  {
    var s := Lower(chunk);
    assert ChunkRules[0].keywords == ["home loan", "housing loan"];
    assert Fires(ChunkRules, s, 0) by {
      if Contains(s, "home loan") {
        assert Contains(s, ChunkRules[0].keywords[0]);
      } else {
        assert Contains(s, ChunkRules[0].keywords[1]);
      }
    }
    FirstMatchPicks(ChunkRules, s, General, 0);
  }

  // ---------------------------------------------------------------------
  // chunk_text
  // ---------------------------------------------------------------------

  /** One entry of the list `chunk_text` returns. */
  datatype Chunk = Chunk(chunkId: string, text: string, loanType: string, chunkIndex: nat, totalChunks: nat)

  /** `f"chunk_{i:04d}"`: the prefix "chunk_" and then the digits of `i`,
      zero-padded to exactly four when shorter and otherwise without a
      leading zero; the digits read back as `i`. */
  function ChunkId(i: nat): (r: string)
    ensures |r| >= 10 && r[..6] == "chunk_"
    ensures AllDigits(r[6..]) && DigitsValue(r[6..]) == i
    ensures |r| == 10 || r[6] != '0'
  {
    var digits := PadLeft(Decimal(i), 4);
    assert |digits| == 4 || digits[0] != '0' by {
      if |Decimal(i)| > 4 {
        assert i > 0;
        DecimalLeadingDigit(i);
      }
    }
    assert DigitsValue(digits) == i by {
      PadLeftValue(Decimal(i), 4);
      DecimalRoundTrip(i);
    }
    assert ("chunk_" + digits)[6..] == digits;
    "chunk_" + digits
  }

  /** Distinct positions get distinct ids. */
  lemma ChunkIdInjective(i: nat, j: nat)
    requires i != j
    ensures ChunkId(i) != ChunkId(j)
  {
  }

  /** Records whose ids follow their positions have pairwise distinct ids. */
  lemma PositionalIdsDistinct(chunks: seq<Chunk>)
    requires forall k :: 0 <= k < |chunks| ==> chunks[k].chunkId == ChunkId(k)
    ensures forall i, j :: 0 <= i < j < |chunks| ==> chunks[i].chunkId != chunks[j].chunkId
  {
    forall i, j | 0 <= i < j < |chunks| ensures chunks[i].chunkId != chunks[j].chunkId {
      ChunkIdInjective(i, j);
    }
  }

  /** Below 10000 the id has exactly four digits. */
  lemma ChunkIdWidth(i: nat)
    requires i < 10000
    ensures |ChunkId(i)| == 10
  {
    assert Pow10(4) == 10000;
    DecimalLength(i, 4);
  }

  /** The record `chunk_text` builds for piece `i` of `pieces`. */
  function Record(pieces: seq<string>, i: nat): Chunk
    requires i < |pieces|
  {
    Chunk(ChunkId(i), pieces[i], ChunkLoanType(pieces[i]), i, |pieces|)
  }

  /** `TextChunker`'s default piece size and overlap, in characters. */
  const DefaultChunkSize := 500
  const DefaultOverlap := 50

  /** The splitting and labelling stage; the splitter stands for LangChain's
      `RecursiveCharacterTextSplitter` configured with these sizes. */
  class Chunker {
    const chunkSize: int
    const overlap: int
    const split: string -> seq<string>

    constructor(split: string -> seq<string>, chunkSize: int := DefaultChunkSize, overlap: int := DefaultOverlap)
      ensures this.chunkSize == chunkSize && this.overlap == overlap && this.split == split
    {
      this.chunkSize := chunkSize;
      this.overlap := overlap;
      this.split := split;
    }

    /** `chunk_text(text)`: one record per piece of the split, in order, with
        the piece unchanged, its label, its index, the number of pieces and
        an id that no other record shares. */
    method ChunkText(text: string) returns (chunks: seq<Chunk>)
      ensures |chunks| == |split(text)|
      ensures forall i :: 0 <= i < |chunks| ==>
        && chunks[i].text == split(text)[i]
        && chunks[i].loanType == ChunkLoanType(split(text)[i])
        && chunks[i].chunkIndex == i
        && chunks[i].totalChunks == |split(text)|
        && chunks[i].chunkId == ChunkId(i)
      ensures forall i, j :: 0 <= i < j < |chunks| ==> chunks[i].chunkId != chunks[j].chunkId
    {
      var pieces := split(text);
      chunks := [];
      var i := 0;
      while i < |pieces|
        invariant 0 <= i <= |pieces| && |chunks| == i
        invariant forall k :: 0 <= k < i ==> chunks[k] == Record(pieces, k)
      {
        var loanType := ChunkLoanType(pieces[i]);
        var record := Chunk(ChunkId(i), pieces[i], loanType, i, |pieces|);
        assert record == Record(pieces, i);
        ghost var prev := chunks;
        chunks := chunks + [record];
        forall k | 0 <= k <= i ensures chunks[k] == Record(pieces, k) {
          if k < i {
            assert chunks[k] == prev[k];
          }
        }
        i := i + 1;
      }
      PositionalIdsDistinct(chunks);
    }
  }
}
