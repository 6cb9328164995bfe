/** `ChromaVectorStore.add_documents` (src/rag_pipeline.py): the chunk
    records read back from the chunk file are projected onto the three
    parallel lists the vector database takes (ids, documents, metadata);
    the embeddings are passed through as they come. The database itself is
    not part of this model. */
module VectorStore {
  import opened Wrappers
  import TextChunker

  /** A chunk record as `add_documents` sees it: a dictionary in which
      `chunk_id` and `text` are read with `[]` and so must be present, while
      `loan_type` and `chunk_index` are read with `get` and may be absent. */
  datatype ChunkRecord = ChunkRecord(chunkId: string, text: string, loanType: Option<string>, chunkIndex: Option<int>)

  /** The metadata dictionary stored beside each document. */
  datatype Metadata = Metadata(loanType: string, chunkIndex: int)

  /** The arguments of the `collection.add` call. */
  datatype Batch = Batch(ids: seq<string>, embeddings: seq<seq<real>>, documents: seq<string>, metadatas: seq<Metadata>)

  /** The loan type stored for a record that has none. */
  const DefaultLoanType := "General"

  /** The index stored for a record that has none. */
  const DefaultChunkIndex := 0

  /** The metadata of one record, with the two defaults of `get`. */
  function MetadataOf(c: ChunkRecord): Metadata {
    Metadata(c.loanType.GetOr(DefaultLoanType), c.chunkIndex.GetOr(DefaultChunkIndex))
  }

  /** `add_documents(chunks, embeddings)`: the three lists are as long as
      `chunks` and follow its order; a missing loan type becomes "General"
      and a missing index becomes 0, a present one is kept. */
  function AddDocuments(chunks: seq<ChunkRecord>, embeddings: seq<seq<real>>): (b: Batch)
    ensures |b.ids| == |b.documents| == |b.metadatas| == |chunks|
    ensures b.embeddings == embeddings
    ensures forall i :: 0 <= i < |chunks| ==>
      && b.ids[i] == chunks[i].chunkId
      && b.documents[i] == chunks[i].text
      && (chunks[i].loanType.Some? ==> b.metadatas[i].loanType == chunks[i].loanType.value)
      && (chunks[i].loanType.None? ==> b.metadatas[i].loanType == "General")
      && (chunks[i].chunkIndex.Some? ==> b.metadatas[i].chunkIndex == chunks[i].chunkIndex.value)
      && (chunks[i].chunkIndex.None? ==> b.metadatas[i].chunkIndex == 0)
  {
    Batch(
      seq(|chunks|, i requires 0 <= i < |chunks| => chunks[i].chunkId),
      embeddings,
      seq(|chunks|, i requires 0 <= i < |chunks| => chunks[i].text),
      seq(|chunks|, i requires 0 <= i < |chunks| => MetadataOf(chunks[i])))
  }

  /** A record of the chunking stage as it is written to and read back from
      the chunk file: every field present. */
  function FromChunk(c: TextChunker.Chunk): ChunkRecord {
    ChunkRecord(c.chunkId, c.text, Some(c.loanType), Some(c.chunkIndex))
  }

  /** Records that came out of the chunking stage reach the database with
      their own labels and positions, never the defaults' stand-ins, and
      under pairwise distinct ids. */
  lemma AddChunkedDocuments(chunks: seq<TextChunker.Chunk>, embeddings: seq<seq<real>>)
    requires forall k :: 0 <= k < |chunks| ==> chunks[k].chunkId == TextChunker.ChunkId(k) && chunks[k].chunkIndex == k
    ensures var b := AddDocuments(seq(|chunks|, i requires 0 <= i < |chunks| => FromChunk(chunks[i])), embeddings);
      && |b.ids| == |chunks|
      && (forall i :: 0 <= i < |chunks| ==>
            b.documents[i] == chunks[i].text && b.metadatas[i] == Metadata(chunks[i].loanType, i))
      && (forall i, j :: 0 <= i < j < |chunks| ==> b.ids[i] != b.ids[j])
  {
    var records := seq(|chunks|, i requires 0 <= i < |chunks| => FromChunk(chunks[i]));
    var b := AddDocuments(records, embeddings);
    TextChunker.PositionalIdsDistinct(chunks);
    forall i, j | 0 <= i < j < |chunks| ensures b.ids[i] != b.ids[j] {
      assert b.ids[i] == chunks[i].chunkId && b.ids[j] == chunks[j].chunkId;
    }
  }
}
