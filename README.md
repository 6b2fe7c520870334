# AI service platform: a verified model of its core

The platform is a Flask application that offers:
- question answering over uploaded PDF documents, by retrieval-augmented generation with a Milvus vector store and a Qwen language model;
- a chat with history;
- intent dispatch to "agents";
- transcription and summarisation of audio recordings.

This Dafny project models the parts of that application that hold logic:
- the two document chunkers (`RAGService._split_text` with `_preprocess_text`, and `VectorService.split_text` with `clean_text`);
- the start-up decision about the document collection;
- embedding in batches of 32 and the guards of the insertion;
- ranking of search hits;
- the event stream of a question (`RAGService.query` and `generate_answer`) and its `data: …\n\n` framing as server-sent events (section 9.2 of the WHATWG HTML Living Standard);
- the chat service and its ten-message history;
- the agent dictionary, intent recognition and dispatch;
- the receive loop of the transcription, the line fold of the summary, and the processing of a recording;
- the request guards of the web routes.

External systems become parameters or abstract values:
- The vector store is a `Store` (whether the collection exists, its field names, dimension and row count) and a `Backend` record:
  - loading the collection;
  - its entity count;
  - the similarity search;
  - the HTTP post to the model.
- `encode`, `tokenize`, `json`, `parse` and `Decoder` stand for:
  - the embedding model;
  - the `jieba` segmenter;
  - `json.loads`;
  - UTF-8 decoding;
  - `unicode_escape`.
- Streamed replies are given sequences of lines (`Reply`), with the failure that may end them.
- WebSocket messages are a given sequence of `Received` values.

An exception of the source is an `Err` carrying its message.

Modules follow the source files:
- `Text` holds the Python string operations (`str.strip`, `\s`, `join`, ASCII case mapping, `str(n)`);
- `RagChunker`, `Schema`, `Ranking` and `RagQuery` come from `rag_service.py`;
- `VectorChunker` and `Ingest` come from `vector_service.py`;
- `Stream` holds the server-sent events framing and the event datatype;
- `LineDecoding` holds the line reading shared by `chat_service.py` and `speech_service.py`;
- `Chat`, `Agents` and `Speech` model their services; `ChatService` and `AgentService` are classes whose fields the methods update;
- `Routes` models `app.py`.

Where a loop in the source updates variables, the model has a method with that loop; the loop is then the body of the method for the operation, or a method of its own that the operation calls (`Ranking.CollectContexts`, `Ranking.CollectSourceItems`, `RagQuery.GenerateAnswer`). Each such method is proved equal to a specification function, and the properties are lemmas about those functions.

The source's own behaviour is modelled wherever it differs from what its comments or a natural reading suggest:
- `_preprocess_text` can leave two blanks in a row.
- When the model's reply carries a `done` record, the normal question path ends with two `[DONE]` events; without one, only the final `[DONE]` follows the answer.
- The audio upload accepts `.m4a` files, which `allowed_file` refuses.
- Creating an agent after a deletion can overwrite another agent.

## Model

| member | source | states |
|---|---|---|
| Schema.ApplyEndsWithCreate | ai_service_platform/services/rag_service.py:48-77 | Any plan whose last call creates a collection leaves exactly that fresh, empty collection |
| Schema.RagEnsureActions | ai_service_platform/services/rag_service.py:33-77 | No call is made exactly when the collection exists with every required field; a collection missing a field is dropped first; creation happens only where no collection exists |
| Schema.RagEnsure | ai_service_platform/services/rag_service.py:28-96 | Afterwards the seven required fields are present; the store is unchanged exactly when they already were; otherwise it is a fresh seven-field collection |
| Schema.RagEnsureIdempotent | ai_service_platform/services/rag_service.py:40-52 | A second call makes no call and changes nothing, whatever the first did and whatever the dimension |
| Schema.RagEnsureIgnoresDimension | ai_service_platform/services/rag_service.py:40-43 | Only field names are compared: a collection with the right fields but another vector dimension is kept with its rows |
| Schema.VectorEnsureActions | ai_service_platform/services/vector_service.py:19-33 | An existing collection is always dropped; then the three-field, 768-dimension collection is created where none exists |
| Schema.VectorEnsure | ai_service_platform/services/vector_service.py:19-45 | Whatever the store held, it ends holding the fresh three-field collection and no rows |
| Schema.StartupRecreates | ai_service_platform/app.py:23-24 | Constructing `VectorService` and then `RAGService` always drops and recreates the collection twice, losing every earlier row |
| RagChunker.RemoveUnkept | ai_service_platform/services/rag_service.py:108 | Every character left is in the kept class; an input whose only whitespace is the blank stays so |
| RagChunker.PreprocessText | ai_service_platform/services/rag_service.py:98-109 | The result has no outer whitespace and only kept characters; its only whitespace is the blank; it has no line break |
| RagChunker.CollapseSpacesExample | ai_service_platform/services/rag_service.py:106 | The first substitution leaves "a @ b" as it is |
| RagChunker.RemoveUnkeptAppend | ai_service_platform/services/rag_service.py:108 | The removal works character by character: on a concatenation it is the concatenation of the removals |
| RagChunker.RemoveUnkeptBetween | ai_service_platform/services/rag_service.py:108 | A removed character between two kept ones brings them together |
| RagChunker.RemoveUnkeptExample | ai_service_platform/services/rag_service.py:108 | The second substitution turns "a @ b" into "a  b" |
| RagChunker.PreprocessKeepsDoubleBlank | ai_service_platform/services/rag_service.py:106-109 | Preprocessing can leave a run of two blanks: "a @ b" gives "a  b" |
| RagChunker.SplitParagraphs | ai_service_platform/services/rag_service.py:123 | `split('\n\n')` always gives at least one piece |
| RagChunker.SingleParagraph | ai_service_platform/services/rag_service.py:123 | A text without a line break is exactly one paragraph, itself |
| RagChunker.PreprocessedIsOneParagraph | ai_service_platform/services/rag_service.py:120-123 | After preprocessing, the paragraph split always gives exactly one paragraph: the whole text |
| RagChunker.SplitTerminatorsFlatten | ai_service_platform/services/rag_service.py:135 | The split with a captured terminator gives an odd number of items that concatenate back to the paragraph |
| RagChunker.SplitTerminatorsOdd | ai_service_platform/services/rag_service.py:135 | Each item at an odd position is exactly one terminator of `。！？!?` |
| RagChunker.SplitTerminatorsEven | ai_service_platform/services/rag_service.py:135 | No item at an even position holds a terminator |
| RagChunker.SplitTerminatorsShape | ai_service_platform/services/rag_service.py:135 | Pieces alternate with single terminators, and nothing is lost |
| RagChunker.PairsFlatten | ai_service_platform/services/rag_service.py:137-144 | Pairing each piece with the terminator after it neither drops nor reorders a character |
| RagChunker.PairsShape | ai_service_platform/services/rag_service.py:137-144 | On a split of that shape, pairing gives one sentence per terminator plus the rest; each but the last ends with its terminator, and the last has none |
| RagChunker.SentencesShape | ai_service_platform/services/rag_service.py:135-144 | The sentences concatenate to the paragraph; each but the last ends with a terminator, and the last has none |
| RagChunker.UnitsOfUnits | ai_service_platform/services/rag_service.py:128-148 | Every buffered piece, whether paragraph or sentence, is stripped and non-empty |
| RagChunker.UnitsAreStripped | ai_service_platform/services/rag_service.py:120-148 | Every piece the buffer receives from a text is stripped and non-empty |
| RagChunker.ShortTextIsOneUnit | ai_service_platform/services/rag_service.py:128-134 | A non-empty preprocessed text within the limit is buffered whole, as one unit |
| RagChunker.PackFlatten | ai_service_platform/services/rag_service.py:151-170 | The closed buffers, read in order, are exactly the units in order |
| RagChunker.PackGreedy | ai_service_platform/services/rag_service.py:151-170 | No buffer is empty, and one of two units or more sums to at most the limit (so an over-long unit sits alone); each buffer is closed only because the next unit would push it past the limit |
| RagChunker.JoinedLength | ai_service_platform/services/rag_service.py:152 | A buffer's joined text is its summed length plus one blank per seam |
| RagChunker.JoinedChunkMayExceedLimit | ai_service_platform/services/rag_service.py:151-159 | The limit bounds the summed lengths, not the joined chunk: two three-character units fit a limit of six but join to seven characters |
| RagChunker.EmitOne | ai_service_platform/services/rag_service.py:152-154 | A closed buffer yields its blank-joined text exactly when that text has at least 50 characters once stripped, and nothing otherwise |
| RagChunker.EmitChunks | ai_service_platform/services/rag_service.py:173-176 | No emitted chunk's stripped text is shorter than 50 (which buffers are emitted is the subject of `RagChunker.EmitChunksMembers`) |
| RagChunker.EmitChunksMembers | ai_service_platform/services/rag_service.py:151-176 | Every buffer whose joined text reaches 50 characters once stripped is emitted as that text, and every emitted chunk is the joined text of a buffer |
| RagChunker.EmitChunksAppend | ai_service_platform/services/rag_service.py:151-176 | Emitting buffers one after another emits their chunks in order |
| RagChunker.GroupsShape | ai_service_platform/services/rag_service.py:128-176 | A text's buffers keep its units in order and are packed greedily |
| RagChunker.Flush | ai_service_platform/services/rag_service.py:151-156 | Closing the buffer keeps the chunks equal to the emission of all closed buffers |
| RagChunker.Feed | ai_service_platform/services/rag_service.py:151-159 | One unit: closing the buffer if it would pass the limit, then adding the unit, advances the state along the greedy packing of all units |
| RagChunker.FeedSentences | ai_service_platform/services/rag_service.py:135-159 | The `while i < len(sentences)` loop advances the state along the packing of the paragraph's stripped, non-empty sentences |
| RagChunker.SplitText | ai_service_platform/services/rag_service.py:111-178 | `_split_text` returns exactly the emitted chunks of the greedy packing of the text's units; none is shorter than 50 once stripped |
| VectorChunker.FilterAllowed | ai_service_platform/services/vector_service.py:54 | Only characters of the allowed class remain; the result is never longer, and an input of allowed characters is kept whole |
| VectorChunker.FilterAllowedAppend | ai_service_platform/services/vector_service.py:54 | The filter decides character by character: on a concatenation it is the concatenation of the filtered parts, so the allowed characters keep their order |
| VectorChunker.FilterAllowedIdempotent | ai_service_platform/services/vector_service.py:54 | Filtering a second time removes nothing more |
| VectorChunker.NormalizePunctuation | ai_service_platform/services/vector_service.py:57 | The length is kept; no full-width colon or semicolon remains; each becomes its ASCII form in place; every other character is unchanged |
| VectorChunker.SpaceRun | ai_service_platform/services/vector_service.py:63 | The length of the leading whitespace run, and the character after it is not whitespace |
| VectorChunker.LastNewline | ai_service_platform/services/vector_service.py:63 | The last line break before a position; none exactly when there is none |
| VectorChunker.CollapseBlankLinesNoOp | ai_service_platform/services/vector_service.py:63 | Without a line break the blank-line substitution changes nothing |
| VectorChunker.CollapseSpacesKeeps | ai_service_platform/services/vector_service.py:60 | Collapsing whitespace keeps every property of the non-whitespace characters |
| VectorChunker.CleanTextShape | ai_service_platform/services/vector_service.py:51-65 | The cleaned text has no outer whitespace and no line break; its only whitespace is the blank, never two in a row; its other characters are allowed ones without the full-width colon and semicolon (which characters those are is the subject of `VectorChunker.CleanTextContent`) |
| VectorChunker.CleanTextContent | ai_service_platform/services/vector_service.py:51-65 | The characters of the cleaned text that are not whitespace are exactly those of the filtered, normalised input, in order: only whitespace is collapsed or stripped |
| VectorChunker.CutFlatten | ai_service_platform/services/vector_service.py:70-77 | The pieces of the sentence split concatenate back to the text |
| VectorChunker.CutEnds | ai_service_platform/services/vector_service.py:70-77 | Each piece but the last is non-empty and ends with a sentence end, a closing quote or a line break |
| VectorChunker.CutInterior | ai_service_platform/services/vector_service.py:70-77 | No piece holds a sentence end or a line break before its last character |
| VectorChunker.FragmentsFlatten | ai_service_platform/services/vector_service.py:88-96 | The fragments of an over-long sentence concatenate to its words |
| VectorChunker.FragmentsBound | ai_service_platform/services/vector_service.py:88-96 | A fragment is never empty, and it is shorter than the limit unless it is one of the words |
| VectorChunker.BufferedBoundFrom | ai_service_platform/services/vector_service.py:83-108 | From any state within the bound, every chunk is non-empty and shorter than the limit, except a single sentence of exactly the limit or a single word of an over-long sentence |
| VectorChunker.BufferedBound | ai_service_platform/services/vector_service.py:83-108 | Every chunk before the filter is non-empty and shorter than the limit, except a single sentence of exactly the limit or a single word of an over-long sentence |
| VectorChunker.KeepLong | ai_service_platform/services/vector_service.py:111 | A chunk is kept exactly when it is one of the input chunks and exceeds 30 characters once stripped; no more chunks than given |
| VectorChunker.KeepLongAppend | ai_service_platform/services/vector_service.py:111 | The filter keeps the order of the chunks: on a concatenation it is the concatenation of the filtered parts |
| VectorChunker.FragmentsOvertakeBuffer | ai_service_platform/services/vector_service.py:85-104 | An over-long sentence's fragments come out ahead of the pending buffer: when the segmenter yields single characters and the limit is three, ["ab", "wxyz"] gives ["wx", "yz", "ab"] |
| VectorChunker.FragmentSentence | ai_service_platform/services/vector_service.py:87-96 | The `for word in words` loop appends exactly the fragments of the sentence |
| VectorChunker.SplitText | ai_service_platform/services/vector_service.py:67-111 | `split_text` returns exactly the filtered chunks of the sentence buffer; each exceeds 30 characters once stripped |
| Ingest.GenerateEmbeddings | ai_service_platform/services/vector_service.py:157-174 | The loop returns the per-batch outputs concatenated in batch order |
| Ingest.BatchesFromCount | ai_service_platform/services/vector_service.py:164 | From a start position there are ceil((n - start)/32) batches |
| Ingest.BatchCount | ai_service_platform/services/vector_service.py:164 | There are ceil(n/32) batches |
| Ingest.BatchesFromFlatten | ai_service_platform/services/vector_service.py:164-165 | The batches from a position on concatenate to the texts from that position on |
| Ingest.BatchesFromSizes | ai_service_platform/services/vector_service.py:164-165 | Every batch holds between one and 32 texts |
| Ingest.BatchesShape | ai_service_platform/services/vector_service.py:164-165 | The batches are the texts in order, none lost or repeated, each of one to 32 texts |
| Ingest.FlattenEncodedLength | ai_service_platform/services/vector_service.py:164-167 | When the model keeps lengths, the encoded batches hold as many vectors as the batches hold texts |
| Ingest.EmbeddingsLength | ai_service_platform/services/vector_service.py:161-170 | With one vector per text from the model, there is one embedding per text |
| Ingest.InsertToMilvus | ai_service_platform/services/vector_service.py:176-232 | Succeeds exactly when both lists are non-empty, their lengths agree and the count after the flush is positive; it then returns that count |
| Ingest.InsertRejections | ai_service_platform/services/vector_service.py:186-219 | Empty input, a length mismatch (its message naming both lengths) and an empty collection after the flush each raise their own message |
| Ingest.MismatchMessageInjective | ai_service_platform/services/vector_service.py:189 | The mismatch message determines both lengths |
| Ingest.DigitsThenParen | ai_service_platform/services/vector_service.py:189 | A run of digits followed by `)` is read back unambiguously: equal messages have equal digit strings |
| Ranking.Similarity | ai_service_platform/services/rag_service.py:331 | `1/(1+score)` lies in (0, 1] for a non-negative distance |
| Ranking.KeptIff | ai_service_platform/services/rag_service.py:330-332 | A hit is kept exactly when it has content and a source and its distance is below 7/3 |
| Ranking.Entries | ai_service_platform/services/rag_service.py:321-345 | There are no more entries than hits |
| Ranking.EntriesAppend | ai_service_platform/services/rag_service.py:321-345 | The collection loop is a fold over the hits, in order |
| Ranking.EntriesMembers | ai_service_platform/services/rag_service.py:330-345 | Every entry comes from a kept hit, and every kept hit gives an entry |
| Ranking.EntriesEmptyIff | ai_service_platform/services/rag_service.py:330-347 | No context is collected exactly when no hit is kept |
| Ranking.CollectContexts | ai_service_platform/services/rag_service.py:316-345 | The loop fills the four parallel lists with the projections of the kept hits' entries, in hit order |
| Ranking.InsertPermutes | ai_service_platform/services/rag_service.py:356 | An insertion step adds its entry and loses nothing |
| Ranking.InsertBound | ai_service_platform/services/rag_service.py:356 | An insertion keeps an upper bound on the similarities |
| Ranking.InsertSorted | ai_service_platform/services/rag_service.py:356 | Inserting into a descending list keeps it descending |
| Ranking.SortDescShape | ai_service_platform/services/rag_service.py:356 | The sort orders by similarity, highest first, and is a permutation of its input |
| Ranking.InsertWithScore | ai_service_platform/services/rag_service.py:356 | An insertion puts its entry ahead of any entries with the same similarity |
| Ranking.SortDescStable | ai_service_platform/services/rag_service.py:356 | The sort is stable: the entries of any one similarity keep their original order |
| Ranking.RankedAligned | ai_service_platform/services/rag_service.py:355-357 | After the sort every position holds the entry of one kept hit, so its content, source, similarity and details stay together; the list is descending and no longer than the hits |
| Ranking.RankedAboveThreshold | ai_service_platform/services/rag_service.py:330-357 | Every ranked entry has content and a similarity above 0.3 |
| Ranking.CollectSourceItems | ai_service_platform/services/rag_service.py:361-366 | The loop over the zipped sources and scores appends, for each position in order, the item of that source and score |
| Stream.Frame | ai_service_platform/services/rag_service.py:283-285 | A frame starts with `data: `, ends with a blank line and adds eight characters to the payload |
| Stream.Payloads | ai_service_platform/services/rag_service.py:283-285 | One payload per event |
| Stream.NewlineFrom | ai_service_platform/services/rag_service.py:283-285 | The position found holds a line feed at or after the start |
| Stream.NewlineFromIsFirst | ai_service_platform/services/rag_service.py:283-285 | The line feed found is the first one, and none is found exactly when there is none |
| Stream.FirstNewlineIsFirst | ai_service_platform/services/rag_service.py:283-285 | No line feed comes before the first one, and none is found exactly when the text has none |
| Stream.ParseOneFrame | ai_service_platform/services/rag_service.py:283 | A client reads a frame back as its payload, followed by the rest of the stream |
| Stream.WireRoundTrip | ai_service_platform/services/rag_service.py:283-414 | A stream of frames splits back into exactly the payloads framed, in order |
| Stream.WireAppend | ai_service_platform/services/rag_service.py:283-414 | The wire of two event sequences is one wire after the other |
| Stream.WireEndsWithDone | ai_service_platform/services/rag_service.py:408 | A stream whose events end with `Done` ends with the frame `data: [DONE]\n\n` |
| RagQuery.GenerateAnswer | ai_service_platform/services/rag_service.py:423-455 | The loop yields the answer events of the lines; it stopped exactly when a `done` record arrived |
| RagQuery.AnswerEventsAppend | ai_service_platform/services/rag_service.py:425-447 | Before the first `done` record the answers follow the lines, in arrival order |
| RagQuery.AnswerEventsStop | ai_service_platform/services/rag_service.py:438-440 | The first `done` record ends the answer with one `Done`; nothing after it is read |
| RagQuery.AnswerEventsShape | ai_service_platform/services/rag_service.py:425-455 | Every answer event has non-empty text; `Done` comes only last, and exactly when a `done` record arrived |
| RagQuery.ZipUnzip | ai_service_platform/services/rag_service.py:355-357 | `zip(*…)` undoes `zip`: projecting the zipped entries gives back each of the four lists |
| RagQuery.UnzipZip | ai_service_platform/services/rag_service.py:355-357 | `zip` undoes `zip(*…)`: zipping the four projections of the sorted entries gives back the entries, so the unzip keeps them together |
| RagQuery.Query | ai_service_platform/services/rag_service.py:266-414 | `query` yields exactly the events of `QueryEvents` on every path |
| RagQuery.AnsweredEnds | ai_service_platform/services/rag_service.py:369-414 | After the prompt is posted the events start with the sources and end with `Done`, whether the post fails or not |
| RagQuery.SearchedEnds | ai_service_platform/services/rag_service.py:307-414 | After the search the events start with the sources event (the empty one when nothing is kept) and end with `Done` |
| RagQuery.QueryEnds | ai_service_platform/services/rag_service.py:266-414 | Every path starts with its sources event (the ranked one only when the search kept a hit) and ends with `[DONE]` |
| RagQuery.QueryEmptyIndex | ai_service_platform/services/rag_service.py:281-286 | An empty collection gives empty sources, the notice and `Done`, whatever the search and the model would do |
| RagQuery.QueryNoContext | ai_service_platform/services/rag_service.py:347-352 | When no hit is kept: empty sources, the fixed apology and `Done`, whatever the model would answer |
| RagQuery.QueryFailsEarly | ai_service_platform/services/rag_service.py:266-414 | A failure to load or to search gives empty sources, the query-failure error and `Done`; a failure to count gives its own prefixed error and `Done` |
| RagQuery.AnsweredDoubleDone | ai_service_platform/services/rag_service.py:404-408 | After a `done` record the answer's `Done` is followed by a second one |
| RagQuery.QueryDoubleDone | ai_service_platform/services/rag_service.py:404-408 | On the normal path a `done` record makes the stream end with two `Done` events |
| RagQuery.SourcesEventShape | ai_service_platform/services/rag_service.py:311-373 | The sources event lists no more sources than hits, each above 0.3, in descending order of similarity; each position carries the source description, similarity and details of one and the same kept hit |
| LineDecoding.BytesLiteralRoundTrip | ai_service_platform/services/speech_service.py:139-141 | The strip recovers the body of every `b'…'` wrapper |
| LineDecoding.BytesLiteralParts | ai_service_platform/services/speech_service.py:141 | The strip removes exactly the first two characters and the last one |
| LineDecoding.ReadReplyResponse | ai_service_platform/services/chat_service.py:61-66 | The accumulated response is the in-order concatenation of the relayed answers |
| LineDecoding.ReadReplyEvents | ai_service_platform/services/chat_service.py:61-74 | Every relayed event is a non-empty answer or a per-line error |
| LineDecoding.ReadReplyDone | ai_service_platform/services/chat_service.py:48-59 | Reading ends in `done` exactly when a `done` record arrives |
| LineDecoding.ReadReplyShape | ai_service_platform/services/chat_service.py:31-74 | The three facts above together |
| LineDecoding.ReadReplyAppend | ai_service_platform/services/chat_service.py:31-74 | Lines before the first `done` record are read one after another |
| Chat.LastTen | ai_service_platform/services/chat_service.py:55-56 | `history[-10:]`: the last at most ten messages, the whole history when it is short |
| Chat.ChatTurnHistory | ai_service_platform/services/chat_service.py:48-56 | The history changes only when a `done` record arrives; it then records the user message and any non-empty reply, trimmed; it never grows past ten |
| Chat.ChatTurnEvents | ai_service_platform/services/chat_service.py:31-80 | `[DONE]` is yielded exactly when a `done` record arrives or the request or stream fails, and then only last; a failed request yields its error and `[DONE]` |
| Chat.ChatService.constructor | ai_service_platform/services/chat_service.py:6-7 | The history starts empty |
| Chat.ChatService.Chat | ai_service_platform/services/chat_service.py:9-80 | Posts the history followed by the user message; the events and the new history are those of the turn |
| Chat.ChatService.ClearHistory | ai_service_platform/services/chat_service.py:82-84 | The history is empty afterwards |
| Agents.Find | ai_service_platform/services/agent_service.py:44 | The position of the agent with the id; none exactly when no agent has it |
| Agents.LookupAt | ai_service_platform/services/agent_service.py:42-44 | With unique ids an agent is found where it stands |
| Agents.Store | ai_service_platform/services/agent_service.py:38 | The length grows by one exactly when the id is new, and is unchanged otherwise |
| Agents.StoreLookup | ai_service_platform/services/agent_service.py:38 | After storing, the id gives the new agent and every other id what it gave before; ids stay unique |
| Agents.Remove | ai_service_platform/services/agent_service.py:70 | Deleting removes one agent exactly when the id is present |
| Agents.RemoveLookup | ai_service_platform/services/agent_service.py:70 | After deleting, the id gives nothing and every other id what it gave before; ids stay unique |
| Agents.LastWith | ai_service_platform/services/agent_service.py:16-20 | The last stored agent with the id, and none exactly when no file holds it |
| Agents.LoadContents | ai_service_platform/services/agent_service.py:13-20 | The loaded dictionary has unique ids and gives, for each id, the last agent loaded with it |
| Agents.Created | ai_service_platform/services/agent_service.py:28-40 | When the new id is already taken its holder is replaced and the length is unchanged; otherwise one agent is added |
| Agents.CreateAfterDeleteReplaces | ai_service_platform/services/agent_service.py:30 | After deleting agent "1" of two, creating reuses id "2" and overwrites the second agent |
| Agents.IntentOf | ai_service_platform/services/agent_service.py:79-103 | A failed request gives the chat intent |
| Agents.IntentOfCode | ai_service_platform/services/agent_service.py:98-100 | The intent is the one whose code is the stripped, upper-cased reply, and chat when the reply is none of the codes |
| Agents.IntentOfItsCode | ai_service_platform/services/agent_service.py:98-100 | A reply that is exactly a code gives that intent |
| Agents.IntentIgnoresCaseAndWhitespace | ai_service_platform/services/agent_service.py:98 | " query\n" is recognised as the query intent |
| Agents.Dispatch | ai_service_platform/services/agent_service.py:198-203 | A query goes to retrieval; an agent intent with a non-empty id goes to that agent; everything else goes to chat |
| Agents.ListedExactly | ai_service_platform/services/agent_service.py:75-77 | With unique ids the agents listed are exactly those the ids give |
| Agents.AgentService.constructor | ai_service_platform/services/agent_service.py:13-20 | The dictionary is the loaded one, with unique ids |
| Agents.AgentService.CreateAgent | ai_service_platform/services/agent_service.py:28-40 | Returns the agent with id `str(len + 1)` and stores it under that id; ids stay unique |
| Agents.AgentService.GetAgent | ai_service_platform/services/agent_service.py:42-44 | The agent stored under the id; none exactly when no agent has it |
| Agents.AgentService.UpdateAgent | ai_service_platform/services/agent_service.py:46-60 | An unknown id returns none and changes nothing; a known one is replaced in place, keeping its id |
| Agents.AgentService.DeleteAgent | ai_service_platform/services/agent_service.py:62-73 | Deletes exactly when the id is known and the file was removed, and then removes only that agent; otherwise nothing changes |
| Agents.AgentService.ListAgents | ai_service_platform/services/agent_service.py:75-77 | As many agents as stored; with a valid dictionary the listed agents are exactly those `get_agent` returns for their ids |
| Agents.AgentService.HandleAgentRequest | ai_service_platform/services/agent_service.py:131-146 | One item: "Agent not found" exactly when the agent is unknown, otherwise the agent's message |
| Agents.AgentService.ProcessMessage | ai_service_platform/services/agent_service.py:190-203 | The handler is the one dispatch picks for the recognised intent; the agent handler yields its items, and the others yield none in the model |
| Agents.AgentService.UnknownAgent | ai_service_platform/services/agent_service.py:134-140 | An agent request naming an unknown agent yields a single error and nothing else |
| Speech.Transcribe | ai_service_platform/services/speech_service.py:27-104 | Any rate other than 16 kHz is rejected; a successful transcription is non-empty; an empty text at 16 kHz gives the no-transcript error |
| Speech.ReceiveSkips | ai_service_platform/services/speech_service.py:79-92 | Empty messages, non-JSON messages and responses without `text` are passed over |
| Speech.TranscribeFirstText | ai_service_platform/services/speech_service.py:85-97 | The first response with `text` decides the transcription; later messages are not read |
| Speech.TranscribeClosedEarly | ai_service_platform/services/speech_service.py:88-95 | A connection that closes before any text gives no transcription |
| Speech.TranscribeAudio | ai_service_platform/services/speech_service.py:34-97 | The receive loop returns exactly `Transcribe`'s result |
| Speech.Summarize | ai_service_platform/services/speech_service.py:106-171 | A summary is never empty; a failed request is raised again |
| Speech.SummarizeStopsAtDone | ai_service_platform/services/speech_service.py:149-150 | Lines after the first `done` record, and a failure after it, do not matter |
| Speech.UnusableContributeNothing | ai_service_platform/services/speech_service.py:133-162 | Empty lines and lines that fail to decode or parse add nothing and do not stop the loop |
| Speech.SummarizeIgnoresUnusable | ai_service_platform/services/speech_service.py:133-162 | Unusable lines in front of the reply leave the summary as it is |
| Speech.SummarizeText | ai_service_platform/services/speech_service.py:106-171 | The line loop returns exactly `Summarize`'s result |
| Speech.AudioOutcome | ai_service_platform/services/speech_service.py:173-190 | Succeeds exactly when transcription and summary do, returning both, each non-empty; the empty-transcription answer cannot occur |
| Speech.ProcessAudioFile | ai_service_platform/services/speech_service.py:173-190 | `process_audio_file` returns exactly `AudioOutcome`'s result |
| Routes.LastDot | ai_service_platform/app.py:30 | The last `.` of the name; none exactly when there is no `.` |
| Routes.AllowedFile | ai_service_platform/app.py:29-30 | A name without `.` is never allowed |
| Routes.LastDotPastSuffix | ai_service_platform/app.py:30 | Characters with no `.` appended after a name leave its last `.` where it was |
| Routes.ExtensionOf | ai_service_platform/app.py:30 | `rsplit('.', 1)[1]` of `stem.ext` is `ext` when `ext` has no `.` |
| Routes.AllowedFileByExtension | ai_service_platform/app.py:30 | `allowed_file` looks only at the text after the last `.`, lower-cased, against `{pdf, wav, mp3}` |
| Routes.AllowedBySuffix | ai_service_platform/app.py:30 | A name whose lower-cased form ends in `.letters` is allowed exactly when the letters are an allowed extension |
| Routes.QueryResponse | ai_service_platform/app.py:55-91 | A query that is empty after stripping gives one error; any other gives the events of the stripped query |
| Routes.QueryResponseDone | ai_service_platform/app.py:55-91 | The response ends with `[DONE]` exactly when the stripped query is non-empty; an empty one has no `[DONE]` |
| Routes.BlankQueryRejected | ai_service_platform/app.py:55-73 | A query of only whitespace gets the empty-query error, whatever the backend and the model answer |
| Routes.ChatGuard | ai_service_platform/app.py:122-186 | An exception raised while reading the body gives the request-failure answer with its message; a falsy body is an invalid request; an object is rejected exactly when its stripped message is empty; an accepted message is the stripped, non-empty `message` field |
| Routes.ChatMessage | ai_service_platform/app.py:113-172 | A rejected request yields one error and leaves the history alone; an accepted one is a chat turn with the stripped message |
| Routes.ProcessSpeech | ai_service_platform/app.py:198-221 | No audio part, or a name `allowed_file` refuses, is rejected with its message; success carries a non-empty transcription |
| Routes.DocumentUpload | ai_service_platform/app.py:304-336 | A document is accepted exactly when its name ends in `.pdf` (any case); a missing or empty name has its own message |
| Routes.AudioUpload | ai_service_platform/app.py:347-379 | A recording is accepted exactly when its name ends in `.mp3`, `.wav` or `.m4a` (any case); a missing or empty name has its own message |
| Routes.DocumentUploadAllowed | ai_service_platform/app.py:316 | Every accepted document also passes `allowed_file` |
| Routes.AudioUploadAllowed | ai_service_platform/app.py:359 | Every accepted `.mp3` or `.wav` recording also passes `allowed_file` |
| Routes.M4aAcceptedButNotAllowed | ai_service_platform/app.py:359 | The audio upload accepts "talk.m4a", which `allowed_file` refuses |
| Text.TrimLeft | ai_service_platform/services/rag_service.py:109 | `lstrip` never lengthens and leaves no leading whitespace |
| Text.TrimLeftSuffix | ai_service_platform/services/rag_service.py:109 | `lstrip` returns a suffix of its input |
| Text.TrimLeftRemovesSpaces | ai_service_platform/services/rag_service.py:109 | Only whitespace is removed, and all of it exactly when the input is blank |
| Text.TrimRight | ai_service_platform/services/rag_service.py:109 | `rstrip` never lengthens and leaves no trailing whitespace |
| Text.TrimRightPrefix | ai_service_platform/services/rag_service.py:109 | `rstrip` returns a prefix of its input |
| Text.TrimRightRemovesSpaces | ai_service_platform/services/rag_service.py:109 | Only whitespace is removed, and all of it exactly when the input is blank |
| Text.Strip | ai_service_platform/services/rag_service.py:109 | `strip` leaves no outer whitespace and never lengthens |
| Text.StripAt | ai_service_platform/services/rag_service.py:109 | Each character of the stripped text is the input's character at a fixed offset |
| Text.StripKeepsOnlyBlanks | ai_service_platform/services/rag_service.py:109 | Stripping a text whose only whitespace is the blank keeps it so |
| Text.StripEmptyIff | ai_service_platform/app.py:55-58 | A text strips to empty exactly when it is all whitespace |
| Text.StripNoOp | ai_service_platform/services/rag_service.py:109 | A text without outer whitespace is its own strip |
| Text.TrimLeftNonSpace | ai_service_platform/services/rag_service.py:109 | `lstrip` removes no character that is not whitespace |
| Text.TrimRightNonSpace | ai_service_platform/services/rag_service.py:109 | `rstrip` removes no character that is not whitespace |
| Text.StripNonSpace | ai_service_platform/services/rag_service.py:109 | `strip` keeps every character that is not whitespace, in order |
| Text.CollapseSpaces | ai_service_platform/services/rag_service.py:106 | `re.sub(r'\s+', ' ', s)`: only blanks remain as whitespace, never two in a row; the result is empty exactly when the input is, and starts with whitespace exactly when the input does (its other characters are the subject of `Text.CollapseSpacesNonSpace`) |
| Text.CollapseSpacesNonSpace | ai_service_platform/services/rag_service.py:106 | Collapsing whitespace keeps every character that is not whitespace, in order |
| Text.TidyUnits | ai_service_platform/services/rag_service.py:146-148 | Stripping pieces and skipping empty ones gives only stripped, non-empty pieces |
| Text.JoinLength | ai_service_platform/services/rag_service.py:152 | A join is the summed length plus one separator per seam |
| Text.NatToString | ai_service_platform/services/agent_service.py:30 | `str(n)` is a non-empty run of decimal digits, one digit exactly for n below 10 |
| Text.NatToStringRoundTrip | ai_service_platform/services/agent_service.py:30 | Reading the digits of `str(n)` back gives n |
| Text.NatToStringInjective | ai_service_platform/services/agent_service.py:30 | Different numbers have different decimal strings |
| Text.Lower | ai_service_platform/app.py:30 | `lower()` keeps the length, leaves no capital letter, and changes no character that is not a capital letter |
| Text.LowerIdempotent | ai_service_platform/app.py:30 | Lower-casing twice is lower-casing once |
| Text.LowerNoOp | ai_service_platform/app.py:30 | A text without capital letters is its own lower-case form |
| Text.Upper | ai_service_platform/services/agent_service.py:98 | `upper()` keeps the length, leaves no small letter, and changes no character that is not a small letter |
| Text.UpperIdempotent | ai_service_platform/services/agent_service.py:98 | Upper-casing twice is upper-casing once |

## Left out

- `\w` in the second substitution of `_preprocess_text` is modelled as ASCII letters, digits, `_` and the CJK ideographs. Python's Unicode word class also holds every other letter and digit.
- `lower()` and `upper()` map only ASCII letters. For the three intent codes and the extensions compared, no other character case-maps onto those letters, so the verdicts agree.
- The Milvus client (connect, load, search, insert, flush, index creation) is not modelled. The store is the abstract `Store` and `Backend`, and a search returns a given sequence of hits.
- The embedding model, `jieba`, `json.loads`/`json.dumps`, UTF-8 decoding and `unicode_escape` are parameters without interpretation.
- JSON payload text is the parameter `json` of `Stream.Wire`; it is assumed to hold no line feed, as JSON escapes them.
- Floating point is left out. The distance is a non-negative real, and the `:.4f` formatting of similarities is not modelled.
- The HTTP requests, their timeouts and `raise_for_status`, and the WebSocket client with its SSL set-up become given results: a `Reply` with its lines and optional failure, or an `Err`.
- The `while True` receive loop of `transcribe_audio` reads a finite sequence, and its end stands for the connection closing.
- Reading WAV files, saving uploads, `secure_filename`, deleting temporary files and PDF extraction (`process_pdf`) are not modelled.
- The agent JSON files are not modelled: the constructor receives their contents in listing order, and `_save_agent` is not modelled.
- The prompt text of `get_intent` is not modelled; the model's reply is given.
- `handle_rag_query` is not modelled: it indexes the generator that `query` returns as though it were a dictionary.
- `handle_chat` is not modelled: it is another HTTP stream whose `response` fields are relayed without further logic.
- Agents.AgentService.ProcessMessage: for the retrieval and chat handlers it states only which handler is chosen, not the items those handlers yield.
- Routes.ChatGuard and Routes.ChatMessage take the outcome of reading the body (`ChatBody`) as given: which bodies make `request.get_json()`, `data.get` or `.strip()` raise, and the text of that exception, are decided by Flask and are not modelled.
- The `except` branch of the `query` route cannot be reached in the model: its `try` only wraps the generator `rag_service.query` in a response, which raises nothing.
- `upload_audio` calls `speech_service.process_audio`, which `SpeechService` does not define, so every accepted audio upload ends in the route's error branch. Routes.AudioUpload stops at the acceptance decision.
- The route `process_speech` is modelled from the file name on. Reading the request's multipart form is the parameter `audio`.
- RagChunker.PreprocessText: it does not state that the result has no whitespace runs. That does not hold, and `RagChunker.PreprocessKeepsDoubleBlank` shows an input that keeps two blanks in a row.
- Flask routing, templates, flash and redirects, CORS headers, `system_status` and `config.py` beyond its constants are not modelled.
