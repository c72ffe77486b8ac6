/**
 * The ingestion controller's effect on the persistent store: `upload` creates a document and one
 * chunk row per chunk of the extracted text, `update` replaces a document's chunks and then its name
 * and type, `destroy` removes a document's chunks and the document. Each chunk row carries what
 * `embed` returned for its text, verbatim, and the file name as `metadata.source`.
 */
module Ingestion {
  import opened Common
  import opened Models
  import Chunker
  import Gemini

  const UploadedMessage := "File uploaded successfully"
  const UpdatedMessage := "File updated successfully"

  /** What text extraction produced: the text, or the message of the exception it raised. */
  datatype Extraction = Extracted(text: string) | ExtractionFailed(message: string)

  /** The JSON answer of `upload` and `update`: success with the chunk count, not found, or a caught exception. */
  datatype IngestResult =
    | Stored(message: string, documentId: Uuid, chunksStored: nat)
    | NotFound(message: string)
    | Failed(message: string)

  /** The answer of `destroy`: 204 with no content, or not found. */
  datatype DestroyResult = Deleted | Missing(message: string)

  /** The chunk row stored for one chunk of a document uploaded under `name`. */
  function NewRow(id: Uuid, text: string, name: string, provider: Gemini.EmbedProvider): (c: DocChunk)
    ensures c.documentId == id && c.chunkText == text
    ensures c.embedding == Some(Gemini.Embed(provider, text))
    ensures c.metadata == map["source" := name]
  {
    DocChunk(id, text, Some(Gemini.Embed(provider, text)), map["source" := name])
  }

  /** The rows the ingestion loop creates: one per chunk, in chunk order. */
  function Rows(id: Uuid, pieces: seq<string>, name: string, provider: Gemini.EmbedProvider): (rows: seq<DocChunk>)
    ensures |rows| == |pieces|
    ensures forall i :: 0 <= i < |pieces| ==> rows[i] == NewRow(id, pieces[i], name, provider)
    decreases |pieces|
  {
    if pieces == [] then []
    else Rows(id, pieces[..|pieces| - 1], name, provider) + [NewRow(id, pieces[|pieces| - 1], name, provider)]
  }

  /** The keyed store of documents and the table of chunk rows, both changed in place. */
  class DocumentStore {
    var documents: map<Uuid, Document>
    var chunks: seq<DocChunk>

    /** Every chunk row belongs to a stored document. */
    ghost predicate Valid()
      reads this
    {
      NoOrphans(documents, chunks)
    }

    constructor ()
      ensures Valid() && documents == map[] && chunks == []
    {
      documents := map[];
      chunks := [];
    }

    /** The `foreach` over the chunks: embed each one and append its row. */
    method StoreChunks(id: Uuid, pieces: seq<string>, name: string, provider: Gemini.EmbedProvider)
      requires Valid() && id in documents
      modifies this`chunks
      ensures Valid()
      ensures chunks == old(chunks) + Rows(id, pieces, name, provider)
    {
      var i := 0;
      while i < |pieces|
        invariant 0 <= i <= |pieces|
        invariant chunks == old(chunks) + Rows(id, pieces[..i], name, provider)
        invariant Valid()
      {
        var embedding := Gemini.Embed(provider, pieces[i]);
        chunks := chunks + [DocChunk(id, pieces[i], Some(embedding), map["source" := name])];
        assert pieces[..i + 1][..i] == pieces[..i];
        i := i + 1;
      }
      assert pieces[..|pieces|] == pieces;
    }

    /**
     * `upload`: create the document under a fresh uuid, then extract, chunk and store. A failed
     * extraction is caught after the document exists, so it stays, without chunks.
     */
    method Upload(userId: UserId, file: UploadedFile, extracted: Extraction, newId: Uuid, provider: Gemini.EmbedProvider)
      returns (r: IngestResult)
      requires Valid() && newId !in documents
      modifies this
      ensures Valid()
      ensures documents == old(documents)[newId := NewDocument(userId, file)]
      ensures extracted.ExtractionFailed? ==> chunks == old(chunks) && r == Failed(extracted.message)
      ensures extracted.Extracted? ==>
        var pieces := Chunker.ChunkText(extracted.text, Chunker.ChunkSize);
        && chunks == old(chunks) + Rows(newId, pieces, file.originalName, provider)
        && ChunksOf(chunks, newId) == Rows(newId, pieces, file.originalName, provider)
        && r == Stored(UploadedMessage, newId, |pieces|)
    {
      documents := documents[newId := NewDocument(userId, file)];
      match extracted {
        case ExtractionFailed(message) =>
          r := Failed(message);
        case Extracted(text) =>
          var pieces := Chunker.ChunkText(text, Chunker.ChunkSize);
          StoreChunks(newId, pieces, file.originalName, provider);
          FreshIdHasNoChunks(old(documents), old(chunks), newId);
          ChunksOfAppend(old(chunks), Rows(newId, pieces, file.originalName, provider), newId);
          ChunksOfOwn(Rows(newId, pieces, file.originalName, provider), newId);
          r := Stored(UploadedMessage, newId, |pieces|);
      }
    }

    /**
     * `update`: find the document by id (any user's); extract and chunk the new file; delete the
     * document's chunks, store the new ones, then save the new name and type.
     */
    method Update(id: Uuid, file: UploadedFile, extracted: Extraction, provider: Gemini.EmbedProvider)
      returns (r: IngestResult)
      requires Valid()
      modifies this
      ensures Valid()
      ensures id !in old(documents) ==>
        r == NotFound(NotFoundMessage) && documents == old(documents) && chunks == old(chunks)
      ensures id in old(documents) && extracted.ExtractionFailed? ==>
        r == Failed(extracted.message) && documents == old(documents) && chunks == old(chunks)
      ensures id in old(documents) && extracted.Extracted? ==>
        var pieces := Chunker.ChunkText(extracted.text, Chunker.ChunkSize);
        && documents == old(documents)[id := Renamed(old(documents)[id], file)]
        && chunks == Without(old(chunks), id) + Rows(id, pieces, file.originalName, provider)
        && ChunksOf(chunks, id) == Rows(id, pieces, file.originalName, provider)
        && (forall other :: other != id ==> ChunksOf(chunks, other) == ChunksOf(old(chunks), other))
        && r == Stored(UpdatedMessage, id, |pieces|)
    {
      if id !in documents {
        return NotFound(NotFoundMessage);
      }
      match extracted {
        case ExtractionFailed(message) =>
          r := Failed(message);
        case Extracted(text) =>
          var pieces := Chunker.ChunkText(text, Chunker.ChunkSize);
          chunks := Without(chunks, id);
          StoreChunks(id, pieces, file.originalName, provider);
          documents := documents[id := Renamed(documents[id], file)];
          ReplaceChunks(old(chunks), id, Rows(id, pieces, file.originalName, provider));
          r := Stored(UpdatedMessage, id, |pieces|);
      }
    }

    /** `destroy`: delete the document's chunks, then the document (any user's). */
    method Destroy(id: Uuid) returns (r: DestroyResult)
      requires Valid()
      modifies this
      ensures Valid()
      ensures id !in old(documents) ==>
        r == Missing(NotFoundMessage) && documents == old(documents) && chunks == old(chunks)
      ensures id in old(documents) ==>
        && r == Deleted
        && documents == old(documents) - {id}
        && chunks == Without(old(chunks), id)
        && ChunksOf(chunks, id) == []
        && (forall other :: other != id ==> ChunksOf(chunks, other) == ChunksOf(old(chunks), other))
    {
      if id !in documents {
        return Missing(NotFoundMessage);
      }
      chunks := Without(chunks, id);
      documents := documents - {id};
      WithoutRemovesAll(old(chunks), id);
      forall other | other != id
        ensures ChunksOf(chunks, other) == ChunksOf(old(chunks), other)
      {
        WithoutKeepsOthers(old(chunks), id, other);
      }
      r := Deleted;
    }
  }
}
