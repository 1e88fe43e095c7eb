/**
 * Document loading: the length cap on a fetched body and the fallback text
 * used when the fetch raises.
 */
module Loader {
  import opened Wrappers
  import opened Chunker

  /** Longest prefix of a fetched document that is kept. */
  const MaxDocumentLength: nat := 5000

  /** Text that stands in for the document when fetching it raised. */
  const FallbackText: string :=
    "Sample fallback policy text. Cataract surgery has a 2-year waiting period."

  /**
   * The document text used for a request. `fetched` is what the HTTP fetch
   * produced: `Some(body)` when it returned, `None` when it raised.
   */
  function LoadDocumentText(fetched: Option<string>): (r: string)
    ensures fetched.None? ==> r == FallbackText
    ensures fetched.Some? ==> r <= fetched.value
    ensures fetched.Some? ==> |r| == Min(MaxDocumentLength, |fetched.value|)
  {
    match fetched
    case None => FallbackText
    case Some(body) => body[..Min(MaxDocumentLength, |body|)]
  }

  /** A loaded document yields at most 17 chunks of the request handler's width. */
  lemma LoadedChunkCount(fetched: Option<string>)
    ensures |ChunkDocument(LoadDocumentText(fetched), ChunkSize)| <= 17
  {
    ChunkCount(LoadDocumentText(fetched), ChunkSize);
  }

  /** The fallback text fits in a single chunk. */
  lemma FallbackIsOneChunk()
    ensures ChunkDocument(FallbackText, ChunkSize) == [FallbackText]
  {
    ChunkingUnique(FallbackText, ChunkSize, [FallbackText]);
  }
}
