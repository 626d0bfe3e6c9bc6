/**
 * Document ingestion: chunk rows, embedding rows and vector records written side
 * by side, and what they add up to after any sequence of completed ingests.
 */
module Ingestion {
  import opened Prelude
  import opened VectorMath
  import opened Embedding
  import opened VectorStore
  import opened Chunking
  import Retrieval
  import Text

  datatype DocumentStatus = Uploaded | Processing | Processed | NeedsReview | Failed

  datatype DocumentRow = DocumentRow(
    id: Uuid,
    filename: string,
    contentType: string,
    sizeBytes: nat,
    storageKey: string,
    uploadedBy: Option<Uuid>,
    status: DocumentStatus)

  datatype ChunkRow = ChunkRow(id: Uuid, documentId: Uuid, chunkIndex: nat, content: string, tokenCount: nat)

  datatype EmbeddingRow = EmbeddingRow(chunkId: Uuid, model: string, dimensions: int, vector: Vector)

  /** One call of `ingest`; `decoded` is the upload's bytes read as UTF-8. */
  datatype Upload = Upload(
    filename: string,
    contentType: string,
    sizeBytes: nat,
    storageKey: string,
    uploadedBy: Option<Uuid>,
    text: Option<string>,
    decoded: string)

  function DecodeText(u: Upload): string {
    if "text/" <= u.contentType || u.contentType in {"application/json", "application/xml"} then u.decoded else ""
  }

  function Extracted(u: Upload): string {
    if u.text.Some? then u.text.value else DecodeText(u)
  }

  const SIZE := 120
  const OVERLAP := 20

  function ChunkTexts(u: Upload): seq<string> {
    if Extracted(u) != "" then Chunks(Extracted(u), SIZE, OVERLAP) else []
  }

  function TokenCount(content: string): nat {
    if |content| / 4 >= 1 then |content| / 4 else 1
  }

  /** The tables and the index. Row ids come from a source that never repeats one. */
  datatype Corpus = Corpus(
    documents: seq<DocumentRow>,
    chunks: seq<ChunkRow>,
    embeddings: seq<EmbeddingRow>,
    contents: seq<VectorRecord>,
    nextId: Uuid)

  const EMPTY_CORPUS := Corpus([], [], [], [], 0)

  function NewDocument(id: Uuid, u: Upload, status: DocumentStatus): DocumentRow {
    DocumentRow(id, u.filename, u.contentType, u.sizeBytes, u.storageKey, u.uploadedBy, status)
  }

  /** The rows of the first n chunks of document `docId`, whose ids follow the document's. */
  function ChunkRows(docId: Uuid, texts: seq<string>, n: nat): (rows: seq<ChunkRow>)
    requires n <= |texts|
    ensures |rows| == n
    ensures forall i | 0 <= i < n :: rows[i] == ChunkRow(docId + 1 + i, docId, i, texts[i], TokenCount(texts[i]))
  {
    seq(n, i requires 0 <= i < n => ChunkRow(docId + 1 + i, docId, i, texts[i], TokenCount(texts[i])))
  }

  function EmbeddingOf(e: HashingEmbedder, chunk: ChunkRow): EmbeddingRow
    requires e.Valid() && e.dimensions >= 1
  {
    EmbeddingRow(chunk.id, "hashing-embedder", e.dimensions, e.Embedding(chunk.content))
  }

  function RecordOf(e: HashingEmbedder, chunk: ChunkRow, filename: string): VectorRecord
    requires e.Valid() && e.dimensions >= 1
  {
    VectorRecord(chunk.id, chunk.documentId, chunk.content, e.Embedding(chunk.content), filename)
  }

  function EmbeddingRows(e: HashingEmbedder, chunks: seq<ChunkRow>): (rows: seq<EmbeddingRow>)
    requires e.Valid() && e.dimensions >= 1
    ensures |rows| == |chunks| && forall i | 0 <= i < |chunks| :: rows[i] == EmbeddingOf(e, chunks[i])
  {
    seq(|chunks|, i requires 0 <= i < |chunks| && e.Valid() => EmbeddingOf(e, chunks[i]))
  }

  function Records(e: HashingEmbedder, chunks: seq<ChunkRow>, filename: string): (records: seq<VectorRecord>)
    requires e.Valid() && e.dimensions >= 1
    ensures |records| == |chunks| && forall i | 0 <= i < |chunks| :: records[i] == RecordOf(e, chunks[i], filename)
  {
    seq(|chunks|, i requires 0 <= i < |chunks| && e.Valid() => RecordOf(e, chunks[i], filename))
  }

  function FinalStatus(u: Upload): DocumentStatus {
    if ChunkTexts(u) != [] then Processed else NeedsReview
  }

  function Ingested(e: HashingEmbedder, c: Corpus, u: Upload): Corpus
    requires e.Valid() && e.dimensions >= 1
  {
    var docId, texts := c.nextId, ChunkTexts(u);
    var rows := ChunkRows(docId, texts, |texts|);
    Corpus(
      c.documents + [NewDocument(docId, u, FinalStatus(u))],
      c.chunks + rows,
      c.embeddings + EmbeddingRows(e, rows),
      PutAll(c.contents, Records(e, rows, u.filename)),
      docId + 1 + |texts|)
  }

  function IngestAll(e: HashingEmbedder, uploads: seq<Upload>): Corpus
    requires e.Valid() && e.dimensions >= 1
  {
    if uploads == [] then EMPTY_CORPUS
    else Ingested(e, IngestAll(e, uploads[..|uploads| - 1]), uploads[|uploads| - 1])
  }

  // ----- The service object -----

  class DocumentService {
    const embedder: HashingEmbedder
    const store: InMemoryVectorStore
    var documents: seq<DocumentRow>
    var chunks: seq<ChunkRow>
    var embeddings: seq<EmbeddingRow>
    var nextId: Uuid

    ghost predicate Valid()
      reads this, store
    {
      embedder.Valid() && embedder.dimensions >= 1 && store.Valid()
    }

    ghost function View(): Corpus
      requires Valid()
      reads this, store
    {
      Corpus(documents, chunks, embeddings, store.Contents(), nextId)
    }

    constructor (embedder: HashingEmbedder, store: InMemoryVectorStore)
      requires embedder.Valid() && embedder.dimensions >= 1 && store.Valid() && store.Contents() == []
      ensures Valid() && View() == EMPTY_CORPUS && this.embedder == embedder && this.store == store
    {
      this.embedder, this.store := embedder, store;
      documents, chunks, embeddings, nextId := [], [], [], 0;
    }

    method NewId() returns (id: Uuid)
      modifies `nextId
      ensures id == old(nextId) && nextId == id + 1
    {
      id := nextId;
      nextId := nextId + 1;
    }

    method Ingest(u: Upload) returns (document: DocumentRow)
      requires Valid()
      modifies this, store
      ensures Valid() && View() == Ingested(embedder, old(View()), u)
      ensures document == documents[|documents| - 1]
    {
      hide Chunks, PutAll, HashingEmbedder.Embedding;
      var docId := NewId();
      document := NewDocument(docId, u, Processing);
      documents := documents + [document];
      var extracted := Extracted(u);
      var texts: seq<string> := [];
      if extracted != "" {
        texts := ChunkText(extracted);
      }
      var records := WriteChunks(document, texts);
      if records != [] {
        store.Upsert(records);
      } else {
        NothingToPut(store.Contents());
      }
      document := document.(status := if texts != [] then Processed else NeedsReview);
      documents := documents[|documents| - 1 := document];
    }

    /** The chunk loop: a chunk row, its embedding row, and the record to index, one text at a time. */
    method WriteChunks(document: DocumentRow, texts: seq<string>) returns (records: seq<VectorRecord>)
      requires Valid() && nextId == document.id + 1
      modifies `chunks, `embeddings, `nextId
      ensures var rows := ChunkRows(document.id, texts, |texts|);
        && chunks == old(chunks) + rows
        && embeddings == old(embeddings) + EmbeddingRows(embedder, rows)
        && records == Records(embedder, rows, document.filename)
        && nextId == document.id + 1 + |texts|
    {
      hide HashingEmbedder.Embedding, EmbeddingRows, Records, ChunkRows;
      records := [];
      NoChunks(embedder, document.id, texts, document.filename);
      var index := 0;
      while index < |texts|
        invariant index <= |texts| && nextId == document.id + 1 + index
        invariant chunks == old(chunks) + ChunkRows(document.id, texts, index)
        invariant embeddings == old(embeddings) + EmbeddingRows(embedder, ChunkRows(document.id, texts, index))
        invariant records == Records(embedder, ChunkRows(document.id, texts, index), document.filename)
      {
        OneMoreChunk(embedder, document.id, texts, index, document.filename);
        var chunkId := NewId();
        var chunk := ChunkRow(chunkId, document.id, index, texts[index], TokenCount(texts[index]));
        chunks := chunks + [chunk];
        var embedded := embedder.Embed(texts[index]);
        var vector := embedded.value;
        embeddings := embeddings + [EmbeddingRow(chunk.id, "hashing-embedder", embedder.dimensions, vector)];
        records := records + [VectorRecord(chunk.id, document.id, texts[index], vector, document.filename)];
        index := index + 1;
      }
    }
  }

  lemma NoChunks(e: HashingEmbedder, docId: Uuid, texts: seq<string>, filename: string)
    requires e.Valid() && e.dimensions >= 1
    ensures var rows := ChunkRows(docId, texts, 0);
      rows == [] && EmbeddingRows(e, rows) == [] && Records(e, rows, filename) == []
  {
  }

  lemma NothingToPut(contents: seq<VectorRecord>)
    ensures PutAll(contents, []) == contents
  {
  }

  lemma OneMoreChunk(e: HashingEmbedder, docId: Uuid, texts: seq<string>, n: nat, filename: string)
    requires e.Valid() && e.dimensions >= 1 && n < |texts|
    ensures var row := ChunkRow(docId + 1 + n, docId, n, texts[n], TokenCount(texts[n]));
      var before := ChunkRows(docId, texts, n);
      && ChunkRows(docId, texts, n + 1) == before + [row]
      && EmbeddingRows(e, before + [row]) == EmbeddingRows(e, before) + [EmbeddingOf(e, row)]
      && Records(e, before + [row], filename) == Records(e, before, filename) + [RecordOf(e, row, filename)]
  {
    hide HashingEmbedder.Embedding;
  }

  // ----- The index agrees with the tables -----

  /** A chunk row, its embedding row and its vector record: one id, one text, one vector, and that of the text. */
  predicate InStep(e: HashingEmbedder, chunk: ChunkRow, row: EmbeddingRow, record: VectorRecord)
    requires e.Valid() && e.dimensions >= 1
  {
    && row.chunkId == record.chunkId == chunk.id
    && record.documentId == chunk.documentId
    && record.text == chunk.content
    && row.vector == record.embedding == e.Embedding(chunk.content)
    && row.dimensions == |row.vector|
    && row.model == "hashing-embedder"
  }

  /** Chunk rows, embedding rows and vector records in step: same ids, texts and vectors, no id twice. */
  predicate IndexAgrees(e: HashingEmbedder, c: Corpus)
    requires e.Valid() && e.dimensions >= 1
  {
    && |c.embeddings| == |c.chunks| == |c.contents|
    && (forall i | 0 <= i < |c.chunks| ::
          && InStep(e, c.chunks[i], c.embeddings[i], c.contents[i])
          && c.chunks[i].id < c.nextId
          && c.chunks[i].documentId < c.nextId)
    && (forall i, j | 0 <= i < j < |c.chunks| :: c.chunks[i].id < c.chunks[j].id)
    && (forall d | 0 <= d < |c.documents| :: c.documents[d].id < c.nextId)
    && (forall a, b | 0 <= a < b < |c.documents| :: c.documents[a].id < c.documents[b].id)
  }

  lemma NewRecordsAreFresh(e: HashingEmbedder, c: Corpus, u: Upload)
    requires e.Valid() && e.dimensions >= 1 && IndexAgrees(e, c)
    ensures var rows := ChunkRows(c.nextId, ChunkTexts(u), |ChunkTexts(u)|);
      PutAll(c.contents, Records(e, rows, u.filename)) == c.contents + Records(e, rows, u.filename)
  {
    hide HashingEmbedder.Embedding, ChunkTexts, PutAll;
    var rows := ChunkRows(c.nextId, ChunkTexts(u), |ChunkTexts(u)|);
    FreshUpsertAppends(c.contents, Records(e, rows, u.filename));
  }

  lemma IngestKeepsAgreement(e: HashingEmbedder, c: Corpus, u: Upload)
    requires e.Valid() && e.dimensions >= 1 && IndexAgrees(e, c)
    ensures IndexAgrees(e, Ingested(e, c, u))
  {
    hide HashingEmbedder.Embedding, ChunkTexts, PutAll;
    NewRecordsAreFresh(e, c, u);
  }

  lemma {:induction false} IngestsKeepAgreement(e: HashingEmbedder, uploads: seq<Upload>)
    requires e.Valid() && e.dimensions >= 1
    ensures IndexAgrees(e, IngestAll(e, uploads))
    decreases |uploads|
  {
    if uploads != [] {
      IngestsKeepAgreement(e, uploads[..|uploads| - 1]);
      IngestKeepsAgreement(e, IngestAll(e, uploads[..|uploads| - 1]), uploads[|uploads| - 1]);
    }
  }

  // ----- Each document's chunks -----

  /** The chunk rows of one document, in table order. */
  function ChunksOf(chunks: seq<ChunkRow>, docId: Uuid): seq<ChunkRow> {
    if chunks == [] then []
    else
      var rest := ChunksOf(chunks[..|chunks| - 1], docId);
      if chunks[|chunks| - 1].documentId == docId then rest + [chunks[|chunks| - 1]] else rest
  }

  lemma {:induction false} ChunksOfConcat(a: seq<ChunkRow>, b: seq<ChunkRow>, docId: Uuid)
    ensures ChunksOf(a + b, docId) == ChunksOf(a, docId) + ChunksOf(b, docId)
  {
    if b == [] {
      assert a + b == a;
    } else {
      ChunksOfConcat(a, b[..|b| - 1], docId);
      assert (a + b)[..|a + b| - 1] == a + b[..|b| - 1];
    }
  }

  lemma {:induction false} ChunksOfAll(chunks: seq<ChunkRow>, docId: Uuid)
    requires forall i | 0 <= i < |chunks| :: chunks[i].documentId == docId
    ensures ChunksOf(chunks, docId) == chunks
  {
    if chunks != [] {
      ChunksOfAll(chunks[..|chunks| - 1], docId);
    }
  }

  lemma {:induction false} ChunksOfNone(chunks: seq<ChunkRow>, docId: Uuid)
    requires forall i | 0 <= i < |chunks| :: chunks[i].documentId != docId
    ensures ChunksOf(chunks, docId) == []
  {
    if chunks != [] {
      ChunksOfNone(chunks[..|chunks| - 1], docId);
    }
  }

  function ContentsOf(chunks: seq<ChunkRow>): (texts: seq<string>)
    ensures |texts| == |chunks| && forall i | 0 <= i < |chunks| :: texts[i] == chunks[i].content
  {
    seq(|chunks|, i requires 0 <= i < |chunks| => chunks[i].content)
  }

  /** The document row and its chunk rows are what its upload makes them. */
  predicate DocumentIs(c: Corpus, d: DocumentRow, u: Upload) {
    && d == NewDocument(d.id, u, FinalStatus(u))
    && ChunksOf(c.chunks, d.id) == ChunkRows(d.id, ChunkTexts(u), |ChunkTexts(u)|)
    && forall r | r in c.contents :: r.documentId == d.id ==> r.filename == u.filename
  }

  lemma IngestAddsDocument(e: HashingEmbedder, c: Corpus, u: Upload)
    requires e.Valid() && e.dimensions >= 1 && IndexAgrees(e, c)
    ensures var after := Ingested(e, c, u);
      && DocumentIs(after, after.documents[|c.documents|], u)
      && forall k, v | 0 <= k < |c.documents| && DocumentIs(c, c.documents[k], v) :: DocumentIs(after, after.documents[k], v)
  {
    hide HashingEmbedder.Embedding, ChunkTexts, PutAll, IndexAgrees, ChunksOf;
    var docId, texts := c.nextId, ChunkTexts(u);
    var rows := ChunkRows(docId, texts, |texts|);
    DocumentsPrecede(e, c);
    NewRecordsAreFresh(e, c, u);
    ChunksOfConcat(c.chunks, rows, docId);
    ChunksOfNone(c.chunks, docId);
    ChunksOfAll(rows, docId);
    forall k, v | 0 <= k < |c.documents| && DocumentIs(c, c.documents[k], v)
      ensures DocumentIs(Ingested(e, c, u), Ingested(e, c, u).documents[k], v)
    {
      var id := c.documents[k].id;
      ChunksOfConcat(c.chunks, rows, id);
      ChunksOfNone(rows, id);
    }
  }

  lemma DocumentsPrecede(e: HashingEmbedder, c: Corpus)
    requires e.Valid() && e.dimensions >= 1 && IndexAgrees(e, c)
    ensures forall i | 0 <= i < |c.chunks| :: c.chunks[i].documentId < c.nextId
    ensures forall d | 0 <= d < |c.documents| :: c.documents[d].id < c.nextId
    ensures forall r | r in c.contents :: r.documentId < c.nextId
  {
    forall r | r in c.contents
      ensures r.documentId < c.nextId
    {
      var i :| 0 <= i < |c.contents| && c.contents[i] == r;
      assert InStep(e, c.chunks[i], c.embeddings[i], c.contents[i]);
    }
  }

  lemma {:induction false} DocumentsFollowUploads(e: HashingEmbedder, uploads: seq<Upload>)
    requires e.Valid() && e.dimensions >= 1
    ensures var c := IngestAll(e, uploads);
      && |c.documents| == |uploads|
      && forall k | 0 <= k < |uploads| :: DocumentIs(c, c.documents[k], uploads[k])
    decreases |uploads|
  {
    hide DocumentIs, IndexAgrees, HashingEmbedder.Embedding, PutAll, ChunkTexts;
    if uploads != [] {
      var init, u := uploads[..|uploads| - 1], uploads[|uploads| - 1];
      DocumentsFollowUploads(e, init);
      IngestsKeepAgreement(e, init);
      IngestAddsDocument(e, IngestAll(e, init), u);
    }
  }

  function TotalChunks(uploads: seq<Upload>): nat {
    if uploads == [] then 0 else TotalChunks(uploads[..|uploads| - 1]) + |ChunkTexts(uploads[|uploads| - 1])|
  }

  lemma {:induction false} ChunkTotal(e: HashingEmbedder, uploads: seq<Upload>)
    requires e.Valid() && e.dimensions >= 1
    ensures |IngestAll(e, uploads).chunks| == TotalChunks(uploads)
    decreases |uploads|
  {
    if uploads != [] {
      ChunkTotal(e, uploads[..|uploads| - 1]);
    }
  }

  /**
   * After any ingests into an empty store, tables and index are in bijection with
   * equal text and vector, and the index counts every document's chunks.
   */
  lemma IndexAgreesWithTables(e: HashingEmbedder, uploads: seq<Upload>)
    requires e.Valid() && e.dimensions >= 1
    ensures var c := IngestAll(e, uploads);
      IndexAgrees(e, c) && |c.contents| == TotalChunks(uploads)
  {
    IngestsKeepAgreement(e, uploads);
    ChunkTotal(e, uploads);
  }

  /** What the document's row takes over from the upload. */
  predicate Describes(d: DocumentRow, u: Upload) {
    && d.filename == u.filename
    && d.contentType == u.contentType
    && d.sizeBytes == u.sizeBytes
    && d.storageKey == u.storageKey
    && d.uploadedBy == u.uploadedBy
  }

  /** A quarter of the characters, rounded down, but at least one. */
  predicate CountsTokens(row: ChunkRow) {
    if |row.content| < 4 then row.tokenCount == 1 else 4 * row.tokenCount <= |row.content| < 4 * row.tokenCount + 4
  }

  /** The words an upload's text has: those of the text given, else of the bytes if the type is textual, else none. */
  predicate HasWords(u: Upload, words: seq<string>) {
    && (u.text.Some? ==> words == Text.Split(u.text.value))
    && (u.text.None? && ("text/" <= u.contentType || u.contentType == "application/json" || u.contentType == "application/xml") ==>
          words == Text.Split(u.decoded))
    && (u.text.None? && !("text/" <= u.contentType || u.contentType == "application/json" || u.contentType == "application/xml") ==>
          words == [])
  }

  /**
   * Every uploaded document can be read back: its chunk rows are numbered 0..m-1 in
   * text order and rebuild exactly the words of its text; m is 0 without words, 1 for
   * up to 120, and one more for every 100 after that, or part of them; its status says
   * whether there were any; and its records carry its file name.
   */
  lemma DocumentsCanBeRebuilt(e: HashingEmbedder, uploads: seq<Upload>, k: nat)
    requires e.Valid() && e.dimensions >= 1 && k < |uploads|
    ensures var c := IngestAll(e, uploads);
      && |c.documents| == |uploads|
      && Describes(c.documents[k], uploads[k])
      && (forall r | r in c.contents && r.documentId == c.documents[k].id :: r.filename == uploads[k].filename)
      && var rows := ChunksOf(c.chunks, c.documents[k].id); var words := Rebuild(SplitAll(ContentsOf(rows)), 20);
      && HasWords(uploads[k], words)
      && (forall i | 0 <= i < |rows| :: rows[i].chunkIndex == i && CountsTokens(rows[i]))
      && |rows| == (if |words| == 0 then 0 else if |words| <= 120 then 1 else (|words| - 120 + 99) / 100 + 1)
      && (c.documents[k].status == Processed <==> words != [])
      && (c.documents[k].status == NeedsReview <==> words == [])
  {
    hide *;
    var c, u := IngestAll(e, uploads), uploads[k];
    DocumentsFollowUploads(e, uploads);
    DocumentReads(c, c.documents[k], u);
  }

  lemma DocumentReads(c: Corpus, d: DocumentRow, u: Upload)
    requires DocumentIs(c, d, u)
    ensures Describes(d, u)
    ensures forall r | r in c.contents && r.documentId == d.id :: r.filename == u.filename
    ensures var rows := ChunksOf(c.chunks, d.id); var words := Rebuild(SplitAll(ContentsOf(rows)), 20);
      && HasWords(u, words)
      && (forall i | 0 <= i < |rows| :: rows[i].chunkIndex == i && CountsTokens(rows[i]))
      && |rows| == (if |words| == 0 then 0 else if |words| <= 120 then 1 else (|words| - 120 + 99) / 100 + 1)
      && (d.status == Processed <==> words != [])
      && (d.status == NeedsReview <==> words == [])
  {
    hide ChunksOf, Rebuild, Text.Split, Chunks, Extracted, HasWords;
    var rows := ChunksOf(c.chunks, d.id);
    assert ContentsOf(rows) == ChunkTexts(u);
    ChunkTextsRebuild(u);
    ExtractedWords(u);
  }

  lemma ExtractedWords(u: Upload)
    ensures HasWords(u, Text.Split(Extracted(u)))
  {
  }

  lemma ChunkTextsRebuild(u: Upload)
    ensures Rebuild(SplitAll(ChunkTexts(u)), 20) == Text.Split(Extracted(u))
    ensures var n := |Text.Split(Extracted(u))|;
      |ChunkTexts(u)| == if n == 0 then 0 else if n <= 120 then 1 else (n - 120 + 99) / 100 + 1
  {
    var text := Extracted(u);
    hide Extracted;
    if text == "" {
      assert SplitAll([]) == [];
    } else {
      hide Rebuild, Text.Split, Chunks;
      ChunksRebuildText(text, 120, 20);
      ChunkCount(text, 120, 20);
    }
  }

  /**
   * End to end: a query with the tokens of a stored chunk gets a first hit at score 1,
   * with that chunk's embedding, if and only if those tokens do not cancel.
   */
  lemma StoredChunksAreFound(e: HashingEmbedder, uploads: seq<Upload>, chunk: ChunkRow, query: string, topK: int)
    requires e.Valid() && e.dimensions >= 1 && topK >= 1
    requires chunk in IngestAll(e, uploads).chunks
    requires multiset(FindTokens(e.lower(query))) == multiset(FindTokens(e.lower(chunk.content)))
    ensures var hits := TopK(IngestAll(e, uploads).contents, e.Embedding(query), topK);
      && |hits| > 0
      && (hits[0].score == 1.0 <==> !TokensCancel(e, query))
      && (!TokensCancel(e, query) ==> hits[0].record.embedding == e.Embedding(chunk.content))
      && (TokensCancel(e, query) ==> forall h | h in hits :: h.score == 0.0)
  {
    hide HashingEmbedder.Embedding, TopK, IngestAll, TokensCancel, FindTokens;
    var c := IngestAll(e, uploads);
    IngestsKeepAgreement(e, uploads);
    var i: nat :| i < |c.chunks| && c.chunks[i] == chunk;
    assert c.contents[i] in c.contents;
    Retrieval.SelfQueryWins(e, c.contents, c.contents[i], query, topK);
  }
}
