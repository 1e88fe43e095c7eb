# Query–retrieval request handler, modelled in Dafny

This project models the logic of a small question-answering service over a
policy document. One request names a document and a list of questions. The
handler loads the document and keeps its first 5000 characters, or uses a
fixed fallback text when the fetch raises. It splits the text into 300-character
chunks and embeds each chunk. It builds a nearest-neighbour index over the
chunk vectors once. Then, for each question in order, it embeds the question,
looks up the nearest chunk and builds a rule-based answer. An answer has four
fields: decision, justification, amount and a source excerpt.

Modules:

- `Wrappers` (`wrappers.dfy`): shared `Option` and `Result` datatypes and `Min`.
- `Text` (`text.dfy`): the string operations the answer builder uses, namely
  ASCII lower-casing and substring search. It includes a quantifier-based
  specification of "occurs in" and of "occurs in, ignoring ASCII case".
- `Loader` (`loader.dfy`): document loading (`load_document_text`), that is,
  the length cap on a fetched body and the fallback text.
- `Chunker` (`chunker.dfy`): fixed-width chunking (`chunk_document`).
- `Answer` (`answer.dfy`): the four-field answer record and its decision table.
- `Pipeline` (`pipeline.dfy`): embedding, index building, search and the
  per-question loop of the request handler.

The embedding model and the index search are foreign code. They are
parameters: `embed: string -> V` and `search: (Index<V>, V) -> nat`.
`ValidSearch` states the one thing the handler relies on: a search on a
non-empty index returns a position inside it. The HTTP fetch is a parameter
too: `fetched: Option<string>` is the response body, or `None` when the
fetch raised.

Behaviour of the code that the model keeps:

- An empty document makes index building fail, because the code reads the
  vector width off an empty batch. The model returns `Failure(EmptyIndex)`
  and no answers.
- When the fetch raises, the fallback text is used like any fetched body.
  Nothing marks it as a fallback.
- Chunks are plain strings. `ChunkAt` proves the start offset of each chunk.

## Model

| member | source | states |
|---|---|---|
| `Text.Lower` | app.py:75-77 | the lower-cased question has the same length; each ASCII upper-case letter becomes its lower-case letter, and every other character is unchanged |
| `Text.KeywordInLower` | app.py:75-77 | a keyword without upper-case letters occurs in the lower-cased text exactly when it occurs in the text ignoring ASCII case |
| `Text.ContainsIffOccurs` | app.py:75-77 | the keyword test `pat in s` is true exactly when `pat` occurs at some position of `s` |
| `Loader.LoadDocumentText` | app.py:50-55 | a fetched body is cut to its first min(5000, length) characters; a fetch that raised gives the fallback text |
| `Chunker.ChunkDocument` | app.py:57-58 | every chunk is non-empty and at most `size` long; every chunk except the last is exactly `size` long |
| `Chunker.ChunkCount` | app.py:58 | the number of chunks is ceil(length / size), so an empty text has no chunks |
| `Chunker.ChunksConcat` | app.py:58 | concatenating the chunks in order gives back the text exactly |
| `Chunker.ChunkAt` | app.py:58 | chunk i is the text from offset i*size to min((i+1)*size, length) |
| `Chunker.ChunkingUnique` | app.py:58 | any split of the text into non-empty pieces of at most `size`, all full except the last, is the chunking itself |
| `Loader.LoadedChunkCount` | app.py:53-58 | a loaded document never yields more than 17 chunks of 300 characters |
| `Loader.FallbackIsOneChunk` | app.py:55-58 | the fallback text is a single chunk |
| `Answer.CallLlm` | app.py:73-80 | decision is "Rejected" iff the lower-cased question contains "1-month" or "cosmetic", else "Approved"; justification is the waiting-period clause under the same condition, else the eligible clause; amount is "Not Applicable" iff the lower-cased question contains "rejected", else "₹50,000"; source is the first min(150, length) characters of the context followed by "..." |
| `Answer.KeywordsIgnoreCase` | app.py:75-77 | a question rejects exactly when "1-month" or "cosmetic" occurs in it in any ASCII case, and marks the amount not applicable exactly when "rejected" does |
| `Answer.CaseInsensitive` | app.py:75-77 | the answer depends on the question only through its lower-cased form |
| `Answer.AmountIndependentOfDecision` | app.py:75-77 | the amount does not follow the decision: a rejected answer can carry "₹50,000" and an approved one "Not Applicable" |
| `Pipeline.EmbedChunks` | app.py:60-61 | one vector per chunk, in chunk order |
| `Pipeline.BuildIndex` | app.py:63-67 | building fails exactly when there are no vectors; otherwise the index holds the vectors in insertion order |
| `Pipeline.SemanticSearch` | app.py:69-71 | the matched clause is one of the document's chunks |
| `Pipeline.AnswersAt` | app.py:40-46 | one answer per question, and answer i depends only on question i and the shared chunks and index |
| `Pipeline.AnswersAppend` | app.py:40-46 | answering two lists of questions one after the other gives the answers to their concatenation |
| `Pipeline.AnswerQuotesChunk` | app.py:43-44 | every answer's source excerpt, without the trailing "...", is a prefix of a chunk of the document |
| `Pipeline.RunQuery` | app.py:35-46 | a request fails exactly when the loaded document is empty; otherwise it returns exactly one answer per question, in question order, each being the answer for that question alone against the document's chunks and index |

## Left out

- HTTP fetching (app.py:52): network I/O. The fetch outcome is the `fetched` parameter.
- The FastAPI application, routing and the request/response models (app.py:23-34): transport layer.
- Sentence embeddings (app.py:21, 42, 61): a foreign model over floating point. It is the `embed` parameter.
- `Pipeline.EmbedChunks`: assumes that encoding a batch of chunks gives the same vector per chunk as encoding each chunk alone. The model cannot tell the two apart.
- Index construction and L2 search (app.py:63-71): a foreign library over floating point. Search is the `search` parameter, constrained only by `ValidSearch`. Which chunk is nearest, and distance ranking, are not modelled.
- `top_k` is always 1 in the code (app.py:69-71), so search returns a single position.
- JSON formatting of the answer (app.py:80): library output. The model returns the four-field record, not its text.
- `Text.Lower`: lower-cases ASCII letters only. Python's full Unicode lower-casing is not modelled. The keywords tested are all ASCII lower-case.
- Self-retrieval, dimension mismatch and top-k ordering of the index: these belong to the index library, which is not part of this model.
