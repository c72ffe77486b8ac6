# Document question answering over uploaded files: a Dafny model

This project models the core of a retrieval-augmented question answering module:

- A signed-in user uploads a PDF, text or Word file.
- Its text is cut into chunks of 500 words.
- Each chunk is stored with the embedding the Gemini service returns for it.
- The user can later ask a question about one of their documents. The question is embedded. The
  document's chunks are ranked by cosine similarity against the question, and the three best are
  joined into a context. A fixed prompt wraps the context and the question and is sent to the
  generation model. The answer comes back with the texts that were used.

The modules follow the program:

- `Chunker` models `chunkText`: the whitespace split, `array_chunk` and `implode`.
- `WordText` models `getWordText`.
- `Gemini` models the client's result mapping. The HTTP exchange is a function from the request
  the client builds to the reply it gets.
- `Models` holds the row shapes of documents and chunks.
- `UploadRules` models the upload form request: its preparation, authorization, rules and
  messages.
- `Ingestion` models `upload`, `update` and `destroy` as methods of a `DocumentStore` class. Its
  state is the document table and the chunk table.
- `Ranking` models `sortByDesc('similarity')->take(k)`.
- `Rag` models `ask`, `getPrompt` and the cosine accumulator loop.

Points where the code behaves differently from what its purpose suggests; the model follows the code:

- `chunkText` on an empty text, or on text that is all whitespace, does not give zero chunks. It
  gives one empty chunk, or an empty first and last piece (`Chunker.EmptyText`).
- When `embed` fails it returns the error message as a string, and that string is stored as the
  chunk's embedding. The column is then not null, so the chunk passes the `whereNotNull` filter
  of `ask`. Every later question about that document then ends in an uncaught error
  (`Rag.FailedChunkEmbedding`).
- A request without a file breaks down in `prepareForValidation`. This happens before the
  `required` rule on `file` is ever evaluated.
- `update` and `destroy` find the document by id alone, whoever owns it. A user can therefore
  rename another user's document into a name that user already uses
  (`UploadRules.ForeignUpdateBreaksUniqueness`).
- The cosine loop reads `$b[$i]` for every index of the question vector, and divides by the
  product of the norms. A shorter chunk vector, an error string, or a zero norm each end `ask` in
  an uncaught error (`Rag.AskOutcomeForOwner`).
- The uniqueness rule's `ignore` compares the route's uuid with the `id` column, not with the
  `uuid` key, and `create` never fills `id`. Unless that column happens to hold the uuid, the
  owner cannot update a document while keeping its name
  (`UploadRules.KeepNameRefusedWithoutIgnore`).

## Model

| member | source | states |
|---|---|---|
| Chunker.Split | app/Http/Controllers/DocumentIngestionController.php:232 | splitting on runs of whitespace always yields at least one piece |
| Chunker.SplitWellFormed | app/Http/Controllers/DocumentIngestionController.php:232 | every split has at least one word; no word holds whitespace; only the first and last word may be empty |
| Chunker.SplitJoin | app/Http/Controllers/DocumentIngestionController.php:232-234 | splitting well-formed words joined by single spaces gives back exactly those words |
| Chunker.JoinSplit | app/Http/Controllers/DocumentIngestionController.php:232-234 | the split words joined by single spaces are the text with each whitespace run collapsed to one space |
| Chunker.Windows | app/Http/Controllers/DocumentIngestionController.php:235 | `array_chunk`: the windows concatenate to the input; each holds 1..n elements, all but the last exactly n; no windows iff empty input; the count is the ceiling of length / n |
| Chunker.ChunkText | app/Http/Controllers/DocumentIngestionController.php:231-237 | `chunkText` always returns at least one chunk, and as many chunks as the word count divided by 500, rounded up |
| Chunker.ChunkTextWords | app/Http/Controllers/DocumentIngestionController.php:231-237 | at least one chunk; re-splitting the chunks gives the windows of the text's words, so their words in order are the text's; all chunks but the last have n words, the last 1..n; the chunk count is the ceiling of words / n |
| Chunker.SingleWordText | app/Http/Controllers/DocumentIngestionController.php:231-237 | text without whitespace is a single chunk equal to the text |
| Chunker.EmptyText | app/Http/Controllers/DocumentIngestionController.php:232-236 | the empty text gives one empty chunk, not zero chunks |
| Chunker.ChunksRejoin | app/Http/Controllers/DocumentIngestionController.php:231-237 | the chunks joined by single spaces are the text with whitespace runs collapsed: no word is lost or reordered |
| WordText.GetWordText | app/Http/Controllers/DocumentIngestionController.php:218-229 | the recursive walk with its accumulator returns the concatenation of all Text leaves, depth first, left to right; other elements add nothing |
| WordText.ContainerText | app/Http/Controllers/DocumentIngestionController.php:220-223 | a container's text is compositional over its children, and wrapping one element in a container leaves its text unchanged |
| Gemini.EmbedRequestFor | app/Services/GeminiService.php:28-39 | every embedding request uses the model gemini-embedding-001, the task type RETRIEVAL_QUERY and the given text |
| Gemini.GenerateRequestFor | app/Services/GeminiService.php:63-78 | the generation request carries the prompt and `$this->model`, which is the constructor's default gemini-2.5-flash-lite (line 12) |
| Gemini.FailureMessage | app/Services/GeminiService.php:45-56 | a failed request yields `error.message` from the error response when present, otherwise 'Failed to process request.' |
| Gemini.EmbeddingValues | app/Services/GeminiService.php:44 | `embedding.values` when present, otherwise the empty list |
| Gemini.FirstCandidateText | app/Services/GeminiService.php:81 | the first part's text of the first candidate, present iff every step of that path exists |
| Gemini.InterpretEmbed | app/Services/GeminiService.php:25-61 | `embed` returns a vector iff the reply succeeded (its values, or empty), otherwise the failure message; it never throws |
| Gemini.InterpretGenerate | app/Services/GeminiService.php:63-98 | `generate` returns the candidate text, or 'No response generated.' when absent, or the failure message |
| Gemini.Embed | app/Services/GeminiService.php:25-61 | `embed` sends one RETRIEVAL_QUERY request for the text to gemini-embedding-001; it returns a vector iff that request is answered (the reply's values), otherwise the failure message as a string |
| Gemini.Generate | app/Services/GeminiService.php:63-98 | `generate` sends the prompt to the generation model; it returns the first candidate's text, else 'No response generated.' for an answered request, and the failure message when the request fails |
| Gemini.FailureLooksLikeAnswer | app/Services/GeminiService.php:81-97 | a failure's message is indistinguishable from an answer carrying that text |
| Gemini.EmptyEmbedding | app/Services/GeminiService.php:44 | an empty vector comes only from a successful reply without values; a failure is never a vector |
| Models.NewDocument | app/Http/Controllers/DocumentIngestionController.php:56-60 | the created document belongs to the user and carries the file's client name and extension |
| Models.Renamed | app/Http/Controllers/DocumentIngestionController.php:133-134 | update assigns the new file's name and extension and keeps the owner |
| Models.ChunksOf | app/Models/Document.php:35-37 | a document's chunks are exactly the stored chunks whose document id is its uuid |
| Models.Without | app/Http/Controllers/DocumentIngestionController.php:190 | deleting a document's chunks keeps exactly the chunks of other documents |
| Models.FreshIdHasNoChunks | app/Http/Controllers/DocumentIngestionController.php:56-60 | while no chunk is orphaned, a newly created document has no chunks |
| Models.WithoutRemovesAll | app/Http/Controllers/DocumentIngestionController.php:135 | after the delete, the document has no chunks left |
| Models.WithoutKeepsOthers | app/Http/Controllers/DocumentIngestionController.php:135 | the delete leaves every other document's chunks unchanged, in order |
| Models.ReplaceChunks | app/Http/Controllers/DocumentIngestionController.php:135-145 | delete-then-create leaves the document with exactly the new rows and every other document with its old chunks |
| Ingestion.NewRow | app/Http/Controllers/DocumentIngestionController.php:67-73 | a chunk row carries the chunk text, the embedding `embed` returned for it (never null), and the file name as `metadata.source` |
| Ingestion.Rows | app/Http/Controllers/DocumentIngestionController.php:66-74 | one row per chunk, in chunk order |
| Ingestion.DocumentStore.StoreChunks | app/Http/Controllers/DocumentIngestionController.php:66-74 | the loop appends exactly the rows of the chunks, in order, and keeps every chunk attached to a stored document |
| Ingestion.DocumentStore.Upload | app/Http/Controllers/DocumentIngestionController.php:51-88 | the document is created first; on success its chunks are exactly the rows of `chunkText(text, 500)` and the answer reports their number; a failed extraction is reported with its message and leaves the document without chunks |
| Ingestion.DocumentStore.Update | app/Http/Controllers/DocumentIngestionController.php:117-161 | an unknown id or a failed extraction changes nothing; otherwise the document's chunks are replaced by the new rows, it takes the new name and type, and other documents' chunks are untouched |
| Ingestion.DocumentStore.Destroy | app/Http/Controllers/DocumentIngestionController.php:181-194 | an unknown id changes nothing; otherwise the document and all of its chunks are gone and other documents keep theirs |
| UploadRules.PreparedFilename | app/Http/Requests/RAGUploadRequest.php:10-14 | `filename` is the file's client name, and exists iff there is a file |
| UploadRules.Authorized | app/Http/Requests/RAGUploadRequest.php:39-41 | a guest is never authorized; any signed-in user is |
| UploadRules.AllowedType | app/Http/Requests/RAGUploadRequest.php:20 | a PHP client extension is refused whatever the content looks like; a guessed extension other than pdf, txt, doc or docx is refused; otherwise the type is allowed |
| UploadRules.NameTaken | app/Http/Requests/RAGUploadRequest.php:21-25 | a name is free iff every document of the user other than the ignored one is named differently; ignoring a key that is not in the table is ignoring nothing |
| UploadRules.Validate | app/Http/Requests/RAGUploadRequest.php:18-41 | no file breaks preparation; no user is refused; the request is accepted iff the type rule passes (the client extension, lower-cased and trimmed, is not a PHP extension, and the content's type is pdf/txt/doc/docx), the name is not blank and no other document of the same user (the route's excepted) has it; a rejection lists at least one error |
| UploadRules.CustomMessage | app/Http/Requests/RAGUploadRequest.php:30-34 | only the uniqueness rule has a custom message: 'A document with this name already exists' |
| UploadRules.DuplicateRejected | app/Http/Requests/RAGUploadRequest.php:21-25 | a name another document of the same user already has is rejected with the uniqueness error |
| UploadRules.PhpUploadRefused | app/Http/Requests/RAGUploadRequest.php:20 | a `.php` file whose content passes for text is refused with the type error; the guard ignores case; an ordinary pdf passes it |
| UploadRules.OtherUsersIgnored | app/Http/Requests/RAGUploadRequest.php:23-24 | documents of other users never change the verdict |
| UploadRules.UpdateMayKeepName | app/Http/Requests/RAGUploadRequest.php:25 | the owner may update a document under its current name, provided the ignore excepts the routed document (see "Left out") |
| UploadRules.KeepNameRefusedWithoutIgnore | app/Http/Requests/RAGUploadRequest.php:21-25 | when the ignore excepts no row, the owner keeping a document's current name is rejected as a duplicate |
| UploadRules.UploadKeepsNamesUnique | app/Http/Requests/RAGUploadRequest.php:21-26 | an accepted upload keeps document names unique per user |
| UploadRules.OwnerUpdateKeepsNamesUnique | app/Http/Requests/RAGUploadRequest.php:21-26 | an accepted update by the owner keeps names unique per user |
| UploadRules.ForeignUpdateBreaksUniqueness | app/Http/Controllers/DocumentIngestionController.php:117-134 | a concrete case: another user's accepted update gives the owner two documents with the same name |
| Ranking.Insert | app/Http/Controllers/RAGController.php:127 | insertion into a descending list keeps it descending and adds exactly the element |
| Ranking.SortDesc | app/Http/Controllers/RAGController.php:127 | `sortByDesc('similarity')` is a permutation in non-increasing order of similarity |
| Ranking.CutDescending | app/Http/Controllers/RAGController.php:127 | cutting a descending list leaves nothing after the cut scoring above anything before it |
| Ranking.TopK | app/Http/Controllers/RAGController.php:127 | `take(k)` after the sort: min(k, n) of the candidates, drawn from them, descending, and none left out scores above one taken |
| Rag.CosineSimilarity | app/Http/Controllers/RAGController.php:174-182 | the loop accumulates the dot product and both squared norms over the question's indices; the result is the division of these, or the division-by-zero error iff a norm is zero |
| Rag.Similarity | app/Http/Controllers/RAGController.php:174-181 | the similarity of a chunk depends only on the entries of its vector up to the question vector's length |
| Rag.DotPrefix | app/Http/Controllers/RAGController.php:176-180 | entries of the chunk vector past the question's length are never read |
| Rag.DotSymmetric | app/Http/Controllers/RAGController.php:165-170 | for vectors of equal length the dot product is symmetric |
| Rag.SumSquaresIsSelfDot | app/Http/Controllers/RAGController.php:168-170 | the squared norm is the dot product of a vector with itself, and never negative |
| Rag.Owns | app/Http/Controllers/RAGController.php:113 | the lookup finds the document exactly when it exists under that uuid and belongs to the user; an unknown id and another user's document both miss |
| Rag.Candidates | app/Http/Controllers/RAGController.php:121 | the candidates are exactly the document's chunks with a non-null embedding, and there are none iff every chunk of the document has a null embedding |
| Rag.ScoreAll | app/Http/Controllers/RAGController.php:123-127 | every candidate is scored iff each one is scorable (vector embeddings, long enough, non-zero norms); each gets its own similarity, in order |
| Rag.Ranked | app/Http/Controllers/RAGController.php:123-127 | a ranking exists exactly when every candidate was scored; it then holds min(3, candidates) entries in non-increasing order of similarity |
| Rag.Prompt | app/Http/Controllers/RAGController.php:141-163 | the prompt is the fixed instructions (which quote the fallback sentence), then the context verbatim, the fixed question header, the question verbatim and the fixed guidelines |
| Rag.Ask | app/Http/Controllers/RAGController.php:106-139 | the question is embedded first; not found iff the document is not the user's; generate is called iff an answer is returned, on the prompt built from the context texts joined by blank lines; the answer carries the document id and min(3, candidates) texts |
| Rag.DrawnFromScored | app/Http/Controllers/RAGController.php:123-127 | each ranked entry is a scorable candidate carrying its own similarity |
| Rag.AskAnswer | app/Http/Controllers/RAGController.php:121-137 | the context texts are those of the top-3 ranking in rank order; each ranked chunk is a chunk of the document with an embedding and its similarity; the ranking is descending and no candidate left out scores higher than one kept |
| Rag.AskOutcomeForOwner | app/Http/Controllers/RAGController.php:113-127 | for an owned document, `ask` answers iff every candidate is scorable, and ends in the scoring error iff some candidate is not |
| Rag.NotFoundCallsNoGeneration | app/Http/Controllers/RAGController.php:111-119 | for a document that is not the user's the reply depends neither on the chunks nor on the generation model |
| Rag.NoCandidatesEmptyContext | app/Http/Controllers/RAGController.php:121-132 | a document without candidates is answered from an empty context, even when the question's embedding failed |
| Rag.FailedQueryEmbedding | app/Http/Controllers/RAGController.php:111-124 | a failed question embedding ends in an uncaught error as soon as there is a candidate |
| Rag.IngestedRowsAreCandidates | app/Http/Controllers/DocumentIngestionController.php:66-74 | every row ingestion stores passes the non-null filter, so all of them are candidates, in order |
| Rag.IngestedDocumentCandidates | app/Http/Controllers/DocumentIngestionController.php:66-74 | once upload or update has stored a document's rows, the candidates `ask` sees for it are exactly those rows, in order |
| Rag.FailedChunkEmbedding | app/Http/Controllers/RAGController.php:121-124 | a chunk stored with a failed embedding is a candidate and makes every question about its document end in an uncaught error |
| Rag.EmptyQueryEmbedding | app/Http/Controllers/RAGController.php:174-181 | a question embedding without values has a zero norm: the division throws once there is a candidate |

## Left out

- Text extraction (`extractText`, with the PDF parser and the Word loader) is not modelled. The extracted text, or the message of the exception it raised, is an input of `Upload` and `Update`. `getWordText` is modelled on its own.
- The HTTP transport of the Gemini client is not modelled: its base URI, the API key header, the 30-second timeout and JSON encoding. A provider function stands for it. It is taken to be deterministic, so two calls with the same request get the same reply.
- Floating point is not modelled. Vectors are `real`s, and the square roots and the final division of `cosineSimilarity` are an abstract function of the three sums. Exact reals decide whether a norm is zero, so underflow to zero is not captured.
- Ranking.TopK: the order among chunks of equal similarity is left open. Only descending order, membership and the top-k property are stated, because `sortByDesc` is not specified for ties.
- `Rag.Ask`: `context_used` is returned as a sequence in rank order. The JSON form, which is an object keyed by the original collection keys when those are not consecutive, is not modelled.
- `fetch` and its pagination, `index`, the routes, the migrations, `RAGAskRequest` and the ORM machinery (timestamps, chunk row ids, transactions) are not part of this model.
- HTTP status codes are not modelled. Results are tagged by outcome instead: `Stored`, `NotFound`, `Failed`, `Deleted`, `Missing`, `Rejected`, `Unauthorized` and `ScoringError`.
- The file's client extension and the extension guessed from its content are inputs. Symfony's MIME guessing is not modelled.
- The uniqueness rule compares names with exact string equality, whatever the database collation does.
- UploadRules.UpdateMayKeepName: `ignore($this->route('id'))` compares the `id` column, while `Document` is keyed by `uuid` (app/Models/Document.php:24) and the route parameter is that uuid. The model excepts the document whose uuid equals the route id, so the lemma holds only if `documents.id` equals the uuid. The documents migration is not part of this model, so what the `id` column holds is unknown; `create` never sets it. If it never matches, the ignore excepts no row and `UploadRules.KeepNameRefusedWithoutIgnore` applies instead.
- Uuid generation is not modelled. `Upload` takes the new document's uuid as a parameter that is not yet in use.
- Strings are sequences of characters, not bytes.
- UploadRules.UploadKeepsNamesUnique: holds only when requests run one after another. Nothing in the code locks or uses a transaction, so two uploads of the same name by one user can both pass the `unique` count before either inserts. Interleaved requests are not modelled.
- UploadRules.OwnerUpdateKeepsNamesUnique: holds only when requests run one after another, for the same reason. Interleaved requests are not modelled.
- Ingestion.DocumentStore.Update: each call is modelled as atomic. A concurrent `ask` that sees the chunk set half deleted or half re-inserted is not captured, and neither is a concurrent upload.
- The body of the 422 answer `failedValidation` sends ('Validation errors occurred' with the error bag) is not modelled. A rejection is the `Rejected` verdict with its list of failing rules.
