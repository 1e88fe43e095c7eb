/**
 * The request handler: load the document, chunk it, embed the chunks, build
 * the nearest-neighbour index once, then answer each question in turn.
 *
 * The embedding model and the index search are foreign code; they enter as
 * function parameters. `V` is the type of embedding vectors.
 */
module Pipeline {
  import opened Wrappers
  import opened Loader
  import opened Chunker
  import opened Answer

  /** Why a request produced no answers. */
  datatype Error =
    /** The document had no chunks, so no index could be built. */
    EmptyIndex

  /** A nearest-neighbour index over chunk vectors, in insertion order. */
  datatype Index<V> = Index(vectors: seq<V>)

  /** A search oracle is valid when it returns a position of a non-empty index. */
  ghost predicate ValidSearch<V(!new)>(search: (Index<V>, V) -> nat)
  {
    forall index: Index<V>, query: V :: |index.vectors| > 0 ==> search(index, query) < |index.vectors|
  }

  /** Embeds every chunk, keeping the chunks' order. */
  function EmbedChunks<V>(chunks: seq<string>, embed: string -> V): (r: seq<V>)
    ensures |r| == |chunks|
    ensures forall i :: 0 <= i < |chunks| ==> r[i] == embed(chunks[i])
  {
    seq(|chunks|, i requires 0 <= i < |chunks| => embed(chunks[i]))
  }

  /**
   * Builds the index. Reading the vector width off an empty batch of
   * embeddings fails, so an empty batch gives no index.
   */
  function BuildIndex<V>(vectors: seq<V>): (r: Result<Index<V>, Error>)
    ensures r.Failure? <==> vectors == []
    ensures r.Success? ==> r.value.vectors == vectors
  {
    if vectors == [] then Failure(EmptyIndex) else Success(Index(vectors))
  }

  /** The chunk whose vector the search oracle puts nearest to `queryVec`. */
  function SemanticSearch<V>(queryVec: V, index: Index<V>, chunks: seq<string>,
                             search: (Index<V>, V) -> nat): (r: string)
    requires search(index, queryVec) < |chunks|
    ensures r in chunks
  {
    chunks[search(index, queryVec)]
  }

  /** The chunks of the document a fetch produced. */
  function DocumentChunks(fetched: Option<string>): seq<string>
  {
    ChunkDocument(LoadDocumentText(fetched), ChunkSize)
  }

  /** The answer to one question, given the shared chunks and index. */
  function AnswerOne<V(!new)>(question: string, chunks: seq<string>, index: Index<V>,
                        embed: string -> V, search: (Index<V>, V) -> nat): Answer
    requires ValidSearch(search)
    requires |index.vectors| == |chunks| > 0
  {
    CallLlm(question, SemanticSearch(embed(question), index, chunks, search))
  }

  /** The answers to `questions`, each one computed on its own. */
  function Answers<V(!new)>(questions: seq<string>, chunks: seq<string>, index: Index<V>,
                      embed: string -> V, search: (Index<V>, V) -> nat): seq<Answer>
    requires ValidSearch(search)
    requires |index.vectors| == |chunks| > 0
  {
    if questions == [] then []
    else [AnswerOne(questions[0], chunks, index, embed, search)]
         + Answers(questions[1..], chunks, index, embed, search)
  }

  /** One answer per question, answer `i` being that of question `i` alone. */
  lemma {:induction false} AnswersAt<V(!new)>(questions: seq<string>, chunks: seq<string>, index: Index<V>,
                                         embed: string -> V, search: (Index<V>, V) -> nat)
    requires ValidSearch(search)
    requires |index.vectors| == |chunks| > 0
    ensures |Answers(questions, chunks, index, embed, search)| == |questions|
    ensures forall i :: 0 <= i < |questions| ==>
      Answers(questions, chunks, index, embed, search)[i] == AnswerOne(questions[i], chunks, index, embed, search)
    decreases |questions|
  {
    if questions != [] {
      AnswersAt(questions[1..], chunks, index, embed, search);
    }
  }

  /** Answering two batches of questions is answering their concatenation. */
  lemma {:induction false} AnswersAppend<V(!new)>(q1: seq<string>, q2: seq<string>, chunks: seq<string>,
                                             index: Index<V>, embed: string -> V, search: (Index<V>, V) -> nat)
    requires ValidSearch(search)
    requires |index.vectors| == |chunks| > 0
    ensures Answers(q1 + q2, chunks, index, embed, search)
         == Answers(q1, chunks, index, embed, search) + Answers(q2, chunks, index, embed, search)
    decreases |q1|
  {
    if q1 == [] {
      assert q1 + q2 == q2;
    } else {
      assert (q1 + q2)[1..] == q1[1..] + q2;
      AnswersAppend(q1[1..], q2, chunks, index, embed, search);
    }
  }

  /** Every answer quotes the start of some chunk of the document. */
  lemma AnswerQuotesChunk<V(!new)>(questions: seq<string>, chunks: seq<string>, index: Index<V>,
                                   embed: string -> V, search: (Index<V>, V) -> nat, i: nat)
    requires ValidSearch(search)
    requires |index.vectors| == |chunks| > 0
    requires i < |questions|
    ensures i < |Answers(questions, chunks, index, embed, search)|
    ensures var src := Answers(questions, chunks, index, embed, search)[i].source;
      |src| >= 3 && exists c :: c in chunks && src[..|src| - 3] <= c
  {
    AnswersAt(questions, chunks, index, embed, search);
    var c := SemanticSearch(embed(questions[i]), index, chunks, search);
    assert Answers(questions, chunks, index, embed, search)[i] == CallLlm(questions[i], c);
  }

  /**
   * Handles one request. `fetched` is the outcome of fetching the document
   * (`None` when the fetch raised).
   */
  method RunQuery<V(!new)>(fetched: Option<string>, questions: seq<string>,
                          embed: string -> V, search: (Index<V>, V) -> nat)
    returns (r: Result<seq<Answer>, Error>)
    requires ValidSearch(search)
    ensures r.Failure? <==> LoadDocumentText(fetched) == []
    ensures r.Success? ==> |r.value| == |questions|
    ensures r.Success? ==>
      var chunks := DocumentChunks(fetched);
      r.value == Answers(questions, chunks, Index(EmbedChunks(chunks, embed)), embed, search)
  {
    var documentText := LoadDocumentText(fetched);
    var chunks := ChunkDocument(documentText, ChunkSize);
    var chunkVectors := EmbedChunks(chunks, embed);
    var built := BuildIndex(chunkVectors);
    if built.Failure? {
      return Failure(built.error);
    }
    var index := built.value;
    var results: seq<Answer> := [];
    for k := 0 to |questions|
      invariant |results| == k
      invariant forall j :: 0 <= j < k ==> results[j] == AnswerOne(questions[j], chunks, index, embed, search)
    {
      var queryVec := embed(questions[k]);
      var matchedClause := SemanticSearch(queryVec, index, chunks, search);
      var answer := CallLlm(questions[k], matchedClause);
      results := results + [answer];
    }
    AnswersAt(questions, chunks, index, embed, search);
    r := Success(results);
  }
}
