/**
 * The record shapes of the `documents` and `doc_chunks` tables, and the relation between them: a
 * chunk belongs to the document whose uuid is its `document_id`.
 */
module Models {
  import opened Common
  import Gemini

  type Uuid = string
  type UserId = nat

  /** The message of every lookup of a document that is missing or not the user's. */
  const NotFoundMessage := "Document not found"

  /** A row of `documents`, keyed by its uuid in the store. */
  datatype Document = Document(userId: UserId, name: string, fileType: string)

  /**
   * A row of `doc_chunks`. `embedding_vector` is a nullable JSON column and holds whatever `embed`
   * returned (a vector or an error string); `metadata` is a JSON object.
   */
  datatype DocChunk = DocChunk(
    documentId: Uuid,
    chunkText: string,
    embedding: Option<Gemini.EmbedOutcome>,
    metadata: map<string, string>)

  /** The uploaded file as the request sees it: its client name and extension, and the type guessed from its content. */
  datatype UploadedFile = UploadedFile(originalName: string, extension: string, guessedExtension: string)

  /** The document `upload` creates for a user's file. */
  function NewDocument(userId: UserId, file: UploadedFile): (d: Document)
    ensures d.userId == userId && d.name == file.originalName && d.fileType == file.extension
  {
    Document(userId, file.originalName, file.extension)
  }

  /** The document after `update` assigned the new file's name and type; its owner stays. */
  function Renamed(d: Document, file: UploadedFile): (r: Document)
    ensures r.userId == d.userId && r.name == file.originalName && r.fileType == file.extension
  {
    d.(name := file.originalName, fileType := file.extension)
  }

  /** `$document->chunks()`: the chunks of one document, in store order. */
  function ChunksOf(chunks: seq<DocChunk>, id: Uuid): (r: seq<DocChunk>)
    ensures forall c :: c in r <==> c in chunks && c.documentId == id
    decreases |chunks|
  {
    if chunks == [] then []
    else (if chunks[0].documentId == id then [chunks[0]] else []) + ChunksOf(chunks[1..], id)
  }

  /** The store after `$document->chunks()->delete()`: every chunk of `id` removed, the rest in order. */
  function Without(chunks: seq<DocChunk>, id: Uuid): (r: seq<DocChunk>)
    ensures forall c :: c in r <==> c in chunks && c.documentId != id
    decreases |chunks|
  {
    if chunks == [] then []
    else (if chunks[0].documentId != id then [chunks[0]] else []) + Without(chunks[1..], id)
  }

  /** No chunk outlives its document. */
  ghost predicate NoOrphans(documents: map<Uuid, Document>, chunks: seq<DocChunk>)
  {
    forall i :: 0 <= i < |chunks| ==> chunks[i].documentId in documents
  }

  /** Two documents of the same user never share a name. */
  ghost predicate UniqueNames(documents: map<Uuid, Document>)
  {
    forall k1, k2 :: k1 in documents && k2 in documents && k1 != k2 && documents[k1].userId == documents[k2].userId
      ==> documents[k1].name != documents[k2].name
  }

  lemma {:induction false} ChunksOfAppend(a: seq<DocChunk>, b: seq<DocChunk>, id: Uuid)
    ensures ChunksOf(a + b, id) == ChunksOf(a, id) + ChunksOf(b, id)
    decreases |a|
  {
    if a == [] {
      assert a + b == b;
    } else {
      assert (a + b)[1..] == a[1..] + b;
      ChunksOfAppend(a[1..], b, id);
    }
  }

  /** Chunks that all belong to `id` are all of `id`'s chunks among themselves. */
  lemma {:induction false} ChunksOfOwn(rows: seq<DocChunk>, id: Uuid)
    requires forall i :: 0 <= i < |rows| ==> rows[i].documentId == id
    ensures ChunksOf(rows, id) == rows
    decreases |rows|
  {
    if rows != [] {
      ChunksOfOwn(rows[1..], id);
      assert rows == [rows[0]] + rows[1..];
    }
  }

  /** Chunks that all belong to `id` contribute nothing to another document. */
  lemma {:induction false} ChunksOfForeign(rows: seq<DocChunk>, id: Uuid, other: Uuid)
    requires other != id
    requires forall i :: 0 <= i < |rows| ==> rows[i].documentId == id
    ensures ChunksOf(rows, other) == []
    decreases |rows|
  {
    if rows != [] {
      ChunksOfForeign(rows[1..], id, other);
    }
  }

  /** A uuid that no document has owns no chunk row. */
  lemma {:induction false} FreshIdHasNoChunks(documents: map<Uuid, Document>, chunks: seq<DocChunk>, id: Uuid)
    requires NoOrphans(documents, chunks) && id !in documents
    ensures ChunksOf(chunks, id) == []
    decreases |chunks|
  {
    if chunks != [] {
      assert chunks[0].documentId in documents;
      FreshIdHasNoChunks(documents, chunks[1..], id);
    }
  }

  /** After removing `id`'s chunks, `id` has none. */
  lemma {:induction false} WithoutRemovesAll(chunks: seq<DocChunk>, id: Uuid)
    ensures ChunksOf(Without(chunks, id), id) == []
    decreases |chunks|
  {
    if chunks != [] {
      WithoutRemovesAll(chunks[1..], id);
      var head := if chunks[0].documentId != id then [chunks[0]] else [];
      ChunksOfAppend(head, Without(chunks[1..], id), id);
    }
  }

  /** Removing `id`'s chunks leaves every other document's chunks exactly as they were. */
  lemma {:induction false} WithoutKeepsOthers(chunks: seq<DocChunk>, id: Uuid, other: Uuid)
    requires other != id
    ensures ChunksOf(Without(chunks, id), other) == ChunksOf(chunks, other)
    decreases |chunks|
  {
    if chunks != [] {
      WithoutKeepsOthers(chunks[1..], id, other);
      var head := if chunks[0].documentId != id then [chunks[0]] else [];
      ChunksOfAppend(head, Without(chunks[1..], id), other);
    }
  }

  /**
   * Replacing a document's chunks by `rows` (all of that document): afterwards its chunks are
   * exactly `rows`, no earlier chunk of it remains, and every other document keeps its chunks.
   */
  lemma ReplaceChunks(chunks: seq<DocChunk>, id: Uuid, rows: seq<DocChunk>)
    requires forall i :: 0 <= i < |rows| ==> rows[i].documentId == id
    ensures ChunksOf(Without(chunks, id) + rows, id) == rows
    ensures forall other :: other != id ==> ChunksOf(Without(chunks, id) + rows, other) == ChunksOf(chunks, other)
  {
    var kept := Without(chunks, id);
    ChunksOfAppend(kept, rows, id);
    ChunksOfOwn(rows, id);
    WithoutRemovesAll(chunks, id);
    forall other | other != id
      ensures ChunksOf(kept + rows, other) == ChunksOf(chunks, other)
    {
      ChunksOfAppend(kept, rows, other);
      ChunksOfForeign(rows, id, other);
      WithoutKeepsOthers(chunks, id, other);
    }
  }
}
