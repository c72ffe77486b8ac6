/**
 * The question-answering controller: `ask` embeds the question, looks the document up by uuid and
 * owner, scores the document's chunks that have an embedding against the question, keeps the three
 * best, joins their texts into a context, builds the prompt and asks the generation model.
 */
module Rag {
  import opened Common
  import opened Models
  import Gemini
  import Ranking
  import Ingestion

  /** How many ranked chunks `ask` keeps. */
  const TopCount: nat := 3
  const ContextSeparator := "\n\n"

  // ---------------------------------------------------------------------------------------------
  // Cosine similarity: the accumulation loop, with the square roots and the division left abstract

  /** The `$b[$i]` the loop reads: PHP's loop runs over the indices of `a` only. */
  function Dot(a: seq<real>, b: seq<real>): real
    requires |a| <= |b|
    decreases |a|
  {
    if a == [] then 0.0 else Dot(a[..|a| - 1], b) + a[|a| - 1] * b[|a| - 1]
  }

  function SumSquares(a: seq<real>): real
    decreases |a|
  {
    if a == [] then 0.0 else SumSquares(a[..|a| - 1]) + a[|a| - 1] * a[|a| - 1]
  }

  /**
   * `dot / (sqrt(normA) * sqrt(normB))` for non-zero norms, taken as given: a function of the three
   * sums. With a zero norm the divisor is zero and the division throws instead.
   */
  type Finish = (real, real, real) -> real

  /** Neither squared norm is zero, so the division in `cosineSimilarity` does not throw. */
  predicate NonZeroNorms(a: seq<real>, b: seq<real>)
    requires |a| <= |b|
  {
    SumSquares(a) != 0.0 && SumSquares(b[..|a|]) != 0.0
  }

  /** The similarity `ask` attaches to a chunk vector `b` for the question vector `a`. */
  function Similarity(a: seq<real>, b: seq<real>, finish: Finish): (s: real)
    requires |a| <= |b|
    // entries of the chunk vector past the length of the question vector play no part
    ensures s == finish(Dot(a, b[..|a|]), SumSquares(a), SumSquares(b[..|a|]))
  {
    DotPrefix(a, b);
    finish(Dot(a, b), SumSquares(a), SumSquares(b[..|a|]))
  }

  /**
   * The `foreach` of `cosineSimilarity`: the dot product and both squared norms, accumulated over
   * the indices of `a`; entries of `b` past the length of `a` are never read. None is the
   * division by zero that a zero norm causes.
   */
  method CosineSimilarity(a: seq<real>, b: seq<real>, finish: Finish) returns (score: Option<real>)
    requires |a| <= |b|
    ensures score.Some? <==> NonZeroNorms(a, b)
    ensures score.Some? ==> score.value == finish(Dot(a, b), SumSquares(a), SumSquares(b[..|a|]))
  {
    var dot, normA, normB := 0.0, 0.0, 0.0;
    var i := 0;
    while i < |a|
      invariant 0 <= i <= |a|
      invariant dot == Dot(a[..i], b)
      invariant normA == SumSquares(a[..i])
      invariant normB == SumSquares(b[..i])
    {
      assert a[..i + 1][..i] == a[..i];
      assert b[..i + 1][..i] == b[..i];
      dot := dot + a[i] * b[i];
      normA := normA + a[i] * a[i];
      normB := normB + b[i] * b[i];
      i := i + 1;
    }
    assert a[..|a|] == a;
    if normA == 0.0 || normB == 0.0 {
      score := None;
    } else {
      score := Some(finish(dot, normA, normB));
    }
  }

  /** The dot product reads only the first |a| entries of `b`. */
  lemma {:induction false} DotPrefix(a: seq<real>, b: seq<real>)
    requires |a| <= |b|
    ensures Dot(a, b) == Dot(a, b[..|a|])
    decreases |a|
  {
    if a != [] {
      var n := |a| - 1;
      DotPrefix(a[..n], b);
      DotPrefix(a[..n], b[..|a|]);
      assert b[..|a|][..n] == b[..n];
    }
  }

  /** For vectors of equal length the dot accumulator is symmetric. */
  lemma {:induction false} DotSymmetric(a: seq<real>, b: seq<real>)
    requires |a| == |b|
    ensures Dot(a, b) == Dot(b, a)
    decreases |a|
  {
    if a != [] {
      var n := |a| - 1;
      DotSymmetric(a[..n], b[..n]);
      DotPrefix(a[..n], b);
      DotPrefix(b[..n], a);
    }
  }

  /** The squared norm is the dot product of a vector with itself, and never negative. */
  lemma {:induction false} SumSquaresIsSelfDot(a: seq<real>)
    ensures SumSquares(a) == Dot(a, a)
    ensures SumSquares(a) >= 0.0
    decreases |a|
  {
    if a != [] {
      var n := |a| - 1;
      SumSquaresIsSelfDot(a[..n]);
      DotPrefix(a[..n], a);
    }
  }

  // ---------------------------------------------------------------------------------------------
  // The pipeline stages of `ask`

  /** `Document::where('uuid', $id)->where('user_id', $user)->first()` finds a document. */
  predicate Owns(documents: map<Uuid, Document>, user: UserId, id: Uuid)
    ensures Owns(documents, user, id) ==> id in documents && documents[id].userId == user
    // an unknown id and another user's document are both "not found"
    ensures id !in documents || documents[id].userId != user ==> !Owns(documents, user, id)
    // an existing document of the user is always found
    ensures id in documents && documents[id].userId == user ==> Owns(documents, user, id)
  {
    id in documents && documents[id].userId == user
  }

  /** `DocChunk::where('document_id', $id)->whereNotNull('embedding_vector')->get()`, in store order. */
  function Candidates(chunks: seq<DocChunk>, id: Uuid): (r: seq<DocChunk>)
    ensures forall c :: c in r <==> c in chunks && c.documentId == id && c.embedding.Some?
    ensures r == [] <==> forall c :: c in chunks && c.documentId == id ==> c.embedding.None?
    decreases |chunks|
  {
    if chunks == [] then []
    else
      var c := chunks[0];
      (if c.documentId == id && c.embedding.Some? then [c] else []) + Candidates(chunks[1..], id)
  }

  /**
   * A candidate can be scored: the question's embedding and the chunk's are both vectors (an error
   * string is a TypeError for the `array` parameter) and the chunk's is at least as long (a missing
   * `$b[$i]` is an error the framework turns into an exception), and neither norm is zero (a
   * division by zero).
   */
  predicate Scorable(query: Gemini.EmbedOutcome, c: DocChunk)
  {
    && query.Vector?
    && c.embedding.Some? && c.embedding.value.Vector?
    && |query.values| <= |c.embedding.value.values|
    && NonZeroNorms(query.values, c.embedding.value.values)
  }

  /** The `map` that attaches a similarity to every candidate, or None when one of them cannot be scored. */
  function ScoreAll(query: Gemini.EmbedOutcome, cands: seq<DocChunk>, finish: Finish): (r: Option<seq<Ranking.Scored<DocChunk>>>)
    ensures r.Some? <==> forall i :: 0 <= i < |cands| ==> Scorable(query, cands[i])
    ensures r.Some? ==> |r.value| == |cands|
    ensures r.Some? ==> forall i :: 0 <= i < |cands| ==>
      Scorable(query, cands[i])
      && r.value[i] == Ranking.Scored(cands[i], Similarity(query.values, cands[i].embedding.value.values, finish))
    decreases |cands|
  {
    if cands == [] then Some([])
    else
      var c := cands[0];
      if !Scorable(query, c) then None
      else
        match ScoreAll(query, cands[1..], finish)
        case None => None
        case Some(rest) =>
          Some([Ranking.Scored(c, Similarity(query.values, c.embedding.value.values, finish))] + rest)
  }

  function Texts(ranked: seq<Ranking.Scored<DocChunk>>): (texts: seq<string>)
    ensures |texts| == |ranked|
    ensures forall i :: 0 <= i < |ranked| ==> texts[i] == ranked[i].item.chunkText
  {
    seq(|ranked|, i requires 0 <= i < |ranked| => ranked[i].item.chunkText)
  }

  // ---------------------------------------------------------------------------------------------
  // The prompt template of `getPrompt`, piece by piece

  /** The instructions up to the quoted fallback sentence. */
  const HeadIntro := "\n        You are a knowledgeable AI assistant specializing in professional and fact-based responses.\n\n        Your task is to answer the following user question based solely on the provided context.\n        If the information is not explicitly stated in the context, respond with:\n        \""
  /** The sentence the model is told to answer with when the context does not suffice. */
  const FallbackSentence := "I’m sorry, but the provided document does not contain sufficient information to answer that."
  /** From the closing quote to the opening rule of the context. */
  const HeadOutro := "\"\n\n        Context (relevant excerpts from the document):\n        ----------------------------------------\n        "
  const PromptHead := HeadIntro + FallbackSentence + HeadOutro
  /** Between the context and the question. */
  const PromptMiddle := "\n        ----------------------------------------\n\n        Question:\n        "
  /** After the question: the guidelines. */
  const PromptTail := "\n\n        Guidelines for your response:\n        1. Maintain a professional and factual tone.\n        2. Provide clear, concise, and structured explanations.\n        3. Avoid assumptions or invented details.\n        4. If applicable, summarize key points rather than quoting excessively.\n        "

  /** Where each of five concatenated pieces sits in the whole. */
  lemma Pieces<T>(a: seq<T>, b: seq<T>, c: seq<T>, d: seq<T>, e: seq<T>)
    ensures var s := a + b + c + d + e;
      && |s| == |a| + |b| + |c| + |d| + |e|
      && s[..|a|] == a
      && s[|a|..|a| + |b|] == b
      && s[|a| + |b|..|a| + |b| + |c|] == c
      && s[|a| + |b| + |c|..|s| - |e|] == d
      && s[|s| - |e|..] == e
  {
    var s := a + b + c + d + e;
    assert s == a + (b + (c + (d + e)));
  }

  /**
   * `getPrompt($context, $query)`: the fixed instructions, which quote the fallback sentence; the
   * context verbatim; the question verbatim; the fixed guidelines. The context comes before the
   * question.
   */
  function Prompt(context: string, query: string): (p: string)
    ensures |p| == |PromptHead| + |context| + |PromptMiddle| + |query| + |PromptTail|
    ensures p[..|HeadIntro|] == HeadIntro
    ensures p[|HeadIntro|..|HeadIntro| + |FallbackSentence|] == FallbackSentence
    ensures p[|PromptHead|..|PromptHead| + |context|] == context
    ensures p[|PromptHead| + |context|..|PromptHead| + |context| + |PromptMiddle|] == PromptMiddle
    ensures p[|PromptHead| + |context| + |PromptMiddle|..|p| - |PromptTail|] == query
    ensures p[|p| - |PromptTail|..] == PromptTail
  {
    Pieces(PromptHead, context, PromptMiddle, query, PromptTail);
    Pieces(HeadIntro, FallbackSentence, HeadOutro, [], []);
    var p := PromptHead + context + PromptMiddle + query + PromptTail;
    assert p[..|PromptHead|][..|HeadIntro|] == p[..|HeadIntro|];
    assert p[..|PromptHead|][|HeadIntro|..|HeadIntro| + |FallbackSentence|] == p[|HeadIntro|..|HeadIntro| + |FallbackSentence|];
    p
  }

  // ---------------------------------------------------------------------------------------------
  // `ask`

  /** The remote calls `ask` makes, in order. */
  datatype RemoteCall = EmbedCall(embed: Gemini.EmbedRequest) | GenerateCall(generate: Gemini.GenerateRequest)

  /**
   * How `ask` ends: the document is not the user's (404), scoring raised an uncaught error (500), or
   * the answer with the document id and the texts used as context.
   */
  datatype AskOutcome =
    | DocumentNotFound(message: string)
    | ScoringError
    | Answered(answer: string, documentId: Uuid, contextUsed: seq<string>)

  datatype AskReply = AskReply(outcome: AskOutcome, calls: seq<RemoteCall>)

  /** `ask($query, $documentId)` for `user` against the stored documents and chunks. */
  function Ask(
    documents: map<Uuid, Document>, chunks: seq<DocChunk>, user: UserId, query: string, documentId: Uuid,
    embedder: Gemini.EmbedProvider, generator: Gemini.GenerateProvider, finish: Finish): (r: AskReply)
    ensures |r.calls| >= 1 && r.calls[0] == EmbedCall(Gemini.EmbedRequestFor(query))
    ensures r.outcome.DocumentNotFound? <==> !Owns(documents, user, documentId)
    ensures r.outcome.DocumentNotFound? ==> r.outcome.message == NotFoundMessage
    // generate is called exactly when an answer comes back, and never otherwise
    ensures r.outcome.Answered? <==> |r.calls| == 2
    ensures !r.outcome.Answered? ==> r.calls == [EmbedCall(Gemini.EmbedRequestFor(query))]
    ensures r.outcome.Answered? ==>
      && r.calls[1] == GenerateCall(Gemini.GenerateRequestFor(Prompt(Join(r.outcome.contextUsed, ContextSeparator), query)))
      && r.outcome.answer == Gemini.Generate(generator, Prompt(Join(r.outcome.contextUsed, ContextSeparator), query))
      && r.outcome.documentId == documentId
      && |r.outcome.contextUsed| == Ranking.Min(TopCount, |Candidates(chunks, documentId)|)
  {
    var queryEmbedding := Gemini.Embed(embedder, query);
    var embedCall := EmbedCall(Gemini.EmbedRequestFor(query));
    if !Owns(documents, user, documentId) then AskReply(DocumentNotFound(NotFoundMessage), [embedCall])
    else
      match Ranked(chunks, documentId, queryEmbedding, finish)
      case None => AskReply(ScoringError, [embedCall])
      case Some(ranked) =>
        var contextUsed := Texts(ranked);
        var prompt := Prompt(Join(contextUsed, ContextSeparator), query);
        AskReply(Answered(Gemini.Generate(generator, prompt), documentId, contextUsed),
                 [embedCall, GenerateCall(Gemini.GenerateRequestFor(prompt))])
  }

  /**
   * For a document the user owns, `ask` answers exactly when every candidate can be scored against
   * the question's embedding, and otherwise ends in the uncaught scoring error: a chunk vector
   * shorter than the question's, an error string on either side, or a zero norm.
   */
  lemma AskOutcomeForOwner(
    documents: map<Uuid, Document>, chunks: seq<DocChunk>, user: UserId, query: string, documentId: Uuid,
    embedder: Gemini.EmbedProvider, generator: Gemini.GenerateProvider, finish: Finish)
    requires Owns(documents, user, documentId)
    ensures var outcome := Ask(documents, chunks, user, query, documentId, embedder, generator, finish).outcome;
      && (outcome.Answered? <==>
            forall c :: c in Candidates(chunks, documentId) ==> Scorable(Gemini.Embed(embedder, query), c))
      && (outcome.ScoringError? <==>
            exists c :: c in Candidates(chunks, documentId) && !Scorable(Gemini.Embed(embedder, query), c))
  {
    var queryEmbedding := Gemini.Embed(embedder, query);
    var cands := Candidates(chunks, documentId);
    if forall i :: 0 <= i < |cands| ==> Scorable(queryEmbedding, cands[i]) {
      forall c | c in cands ensures Scorable(queryEmbedding, c) {
        var i :| 0 <= i < |cands| && cands[i] == c;
      }
    } else {
      var i :| 0 <= i < |cands| && !Scorable(queryEmbedding, cands[i]);
      assert cands[i] in cands;
    }
  }

  /** The chunks `ask` ranked, when every candidate could be scored. */
  function Ranked(
    chunks: seq<DocChunk>, documentId: Uuid, queryEmbedding: Gemini.EmbedOutcome, finish: Finish): (r: Option<seq<Ranking.Scored<DocChunk>>>)
    // a ranking exists exactly when every candidate was scored
    ensures r.Some? <==> ScoreAll(queryEmbedding, Candidates(chunks, documentId), finish).Some?
    // then it holds at most three entries, in non-increasing order of similarity
    ensures r.Some? ==> |r.value| == Ranking.Min(TopCount, |Candidates(chunks, documentId)|)
    ensures r.Some? ==> Ranking.Descending(r.value)
  {
    match ScoreAll(queryEmbedding, Candidates(chunks, documentId), finish)
    case None => None
    case Some(scored) => Some(Ranking.TopK(scored, TopCount))
  }

  /** Every entry drawn from the scored candidates is a scorable candidate with its own similarity. */
  lemma DrawnFromScored(query: Gemini.EmbedOutcome, cands: seq<DocChunk>, finish: Finish, drawn: seq<Ranking.Scored<DocChunk>>)
    requires ScoreAll(query, cands, finish).Some?
    requires multiset(drawn) <= multiset(ScoreAll(query, cands, finish).value)
    ensures forall x :: x in drawn ==>
      && x.item in cands && Scorable(query, x.item)
      && x.similarity == Similarity(query.values, x.item.embedding.value.values, finish)
  {
    var scored := ScoreAll(query, cands, finish).value;
    forall x | x in drawn
      ensures x.item in cands && Scorable(query, x.item)
      ensures x.similarity == Similarity(query.values, x.item.embedding.value.values, finish)
    {
      assert x in multiset(drawn);
      assert x in multiset(scored);
      var i :| 0 <= i < |scored| && scored[i] == x;
      assert Scorable(query, cands[i]);
    }
  }

  /**
   * What an answer was built from: the context texts are those of the ranked chunks, in rank
   * order; each ranked chunk is a chunk of the document with an embedding, scored against the
   * question; the ranking is in non-increasing order of similarity; and no candidate left out
   * scores above one that was kept.
   */
  lemma AskAnswer(
    documents: map<Uuid, Document>, chunks: seq<DocChunk>, user: UserId, query: string, documentId: Uuid,
    embedder: Gemini.EmbedProvider, generator: Gemini.GenerateProvider, finish: Finish)
    requires Ask(documents, chunks, user, query, documentId, embedder, generator, finish).outcome.Answered?
    ensures
      var queryEmbedding := Gemini.Embed(embedder, query);
      var ranked := Ranked(chunks, documentId, queryEmbedding, finish);
      var scored := ScoreAll(queryEmbedding, Candidates(chunks, documentId), finish);
      && ranked.Some? && scored.Some?
      && Ask(documents, chunks, user, query, documentId, embedder, generator, finish).outcome.contextUsed == Texts(ranked.value)
      && (forall x :: x in ranked.value ==>
            && x.item in chunks && x.item.documentId == documentId && x.item.embedding.Some?
            && x.item.embedding.value.Vector?
            && x.similarity == Similarity(queryEmbedding.values, x.item.embedding.value.values, finish))
      && Ranking.Descending(ranked.value)
      && (forall x, y :: x in multiset(scored.value) - multiset(ranked.value) && y in ranked.value ==> x.similarity <= y.similarity)
  {
    var queryEmbedding := Gemini.Embed(embedder, query);
    var cands := Candidates(chunks, documentId);
    var scored := ScoreAll(queryEmbedding, cands, finish).value;
    DrawnFromScored(queryEmbedding, cands, finish, Ranking.TopK(scored, TopCount));
  }

  /**
   * When the document is not the user's, only the question is embedded: nothing depends on the
   * generation model or on the chunks.
   */
  lemma NotFoundCallsNoGeneration(
    documents: map<Uuid, Document>, chunks: seq<DocChunk>, user: UserId, query: string, documentId: Uuid,
    embedder: Gemini.EmbedProvider, generator: Gemini.GenerateProvider, finish: Finish,
    chunks': seq<DocChunk>, generator': Gemini.GenerateProvider)
    requires !Owns(documents, user, documentId)
    ensures Ask(documents, chunks, user, query, documentId, embedder, generator, finish)
         == Ask(documents, chunks', user, query, documentId, embedder, generator', finish)
  {
  }

  /**
   * A document without candidates is still answered, from an empty context, even when the
   * question's embedding failed: no similarity is computed.
   */
  lemma NoCandidatesEmptyContext(
    documents: map<Uuid, Document>, chunks: seq<DocChunk>, user: UserId, query: string, documentId: Uuid,
    embedder: Gemini.EmbedProvider, generator: Gemini.GenerateProvider, finish: Finish)
    requires Owns(documents, user, documentId)
    requires forall c :: c in chunks && c.documentId == documentId ==> c.embedding.None?
    ensures Ask(documents, chunks, user, query, documentId, embedder, generator, finish).outcome
         == Answered(Gemini.Generate(generator, Prompt("", query)), documentId, [])
  {
  }

  /**
   * A failed question embedding (an error string) ends `ask` in an uncaught error as soon as the
   * document has a candidate chunk.
   */
  lemma FailedQueryEmbedding(
    documents: map<Uuid, Document>, chunks: seq<DocChunk>, user: UserId, query: string, documentId: Uuid,
    embedder: Gemini.EmbedProvider, generator: Gemini.GenerateProvider, finish: Finish, c: DocChunk)
    requires Owns(documents, user, documentId)
    requires Gemini.Embed(embedder, query).Message?
    requires c in chunks && c.documentId == documentId && c.embedding.Some?
    ensures Ask(documents, chunks, user, query, documentId, embedder, generator, finish).outcome == ScoringError
  {
    var cands := Candidates(chunks, documentId);
    var i :| 0 <= i < |cands| && cands[i] == c;
    assert !Scorable(Gemini.Embed(embedder, query), cands[i]);
  }

  /** Rows that all belong to the document and all carry an embedding are all candidates. */
  lemma {:induction false} AllCandidates(rows: seq<DocChunk>, id: Uuid)
    requires forall i :: 0 <= i < |rows| ==> rows[i].documentId == id && rows[i].embedding.Some?
    ensures Candidates(rows, id) == rows
    decreases |rows|
  {
    if rows != [] {
      AllCandidates(rows[1..], id);
    }
  }

  /**
   * Every row the ingestion loop stores carries an embedding (a vector or the failure message), so
   * all of a document's rows are candidates, in the order they were stored.
   */
  lemma IngestedRowsAreCandidates(id: Uuid, pieces: seq<string>, name: string, provider: Gemini.EmbedProvider)
    ensures Candidates(Ingestion.Rows(id, pieces, name, provider), id) == Ingestion.Rows(id, pieces, name, provider)
  {
    AllCandidates(Ingestion.Rows(id, pieces, name, provider), id);
  }

  /** The candidates of a document are those among its own chunks. */
  lemma {:induction false} CandidatesOfOwnChunks(chunks: seq<DocChunk>, id: Uuid)
    ensures Candidates(chunks, id) == Candidates(ChunksOf(chunks, id), id)
    decreases |chunks|
  {
    if chunks != [] {
      CandidatesOfOwnChunks(chunks[1..], id);
      var own := ChunksOf(chunks, id);
      if chunks[0].documentId == id {
        assert own == [chunks[0]] + ChunksOf(chunks[1..], id);
        assert own[1..] == ChunksOf(chunks[1..], id);
      } else {
        assert own == ChunksOf(chunks[1..], id);
      }
    }
  }

  /**
   * After `upload` or `update` stored `rows` as a document's chunks, `ask` sees all of them as
   * candidates, in the order they were stored.
   */
  lemma IngestedDocumentCandidates(chunks: seq<DocChunk>, id: Uuid, pieces: seq<string>, name: string, provider: Gemini.EmbedProvider)
    requires ChunksOf(chunks, id) == Ingestion.Rows(id, pieces, name, provider)
    ensures Candidates(chunks, id) == Ingestion.Rows(id, pieces, name, provider)
  {
    CandidatesOfOwnChunks(chunks, id);
    IngestedRowsAreCandidates(id, pieces, name, provider);
  }

  /**
   * A chunk whose embedding failed at ingestion is stored with the failure message as its
   * embedding, passes the non-null filter, and makes every later question about its document end
   * in an uncaught error.
   */
  lemma FailedChunkEmbedding(
    documents: map<Uuid, Document>, chunks: seq<DocChunk>, user: UserId, query: string, documentId: Uuid,
    embedder: Gemini.EmbedProvider, generator: Gemini.GenerateProvider, finish: Finish, c: DocChunk)
    requires Owns(documents, user, documentId)
    requires c in chunks && c.documentId == documentId && c.embedding.Some? && c.embedding.value.Message?
    ensures c in Candidates(chunks, documentId)
    ensures Ask(documents, chunks, user, query, documentId, embedder, generator, finish).outcome == ScoringError
  {
    var cands := Candidates(chunks, documentId);
    var i :| 0 <= i < |cands| && cands[i] == c;
    assert !Scorable(Gemini.Embed(embedder, query), cands[i]);
  }

  /**
   * A question embedding without values (a reply lacking `embedding.values`) has a zero norm: the
   * division throws as soon as the document has a candidate chunk.
   */
  lemma EmptyQueryEmbedding(
    documents: map<Uuid, Document>, chunks: seq<DocChunk>, user: UserId, query: string, documentId: Uuid,
    embedder: Gemini.EmbedProvider, generator: Gemini.GenerateProvider, finish: Finish, c: DocChunk)
    requires Owns(documents, user, documentId)
    requires Gemini.Embed(embedder, query) == Gemini.Vector([])
    requires c in chunks && c.documentId == documentId && c.embedding.Some?
    ensures Ask(documents, chunks, user, query, documentId, embedder, generator, finish).outcome == ScoringError
  {
    var cands := Candidates(chunks, documentId);
    var i :| 0 <= i < |cands| && cands[i] == c;
    assert !Scorable(Gemini.Embed(embedder, query), cands[i]);
  }
}
