# Chatbot ingestion and reply logic, modelled in Dafny

This project models the deterministic core of a small Spanish/English
chatbot repository:

- **The sentence-aware chunker `chunk_text`.** It exists as two
  byte-identical copies, one in the set-up ingestion service and one in the
  application service. It turns newlines into spaces and strips the text. It
  splits the text into sentences at every run of spaces that follows `.`,
  `!` or `?`. Then it packs the sentences greedily into chunks of about
  `max_length` characters. Module `Chunker` models the one function that
  both copies are. The loop is the method `ChunkText`, proved equal to the
  specification function `Chunks`. Lemmas state the partition, order,
  greedy-boundary, length and blank-input properties.
- **The ingestion services.** They are `process_docs`, `process_pdfs` and
  `process_intents`. Each one appends one record per chunk or training
  example to a vector-store collection. Each record carries an id
  `chunk_N` / `intent_N` drawn from the service's `chunk_counter` field,
  plus position metadata. `process_intents` also tallies the examples per
  intent label. These are classes with a `chunkCounter` field. The
  collection is a `Collection` object whose append-only `records` sequence
  `Add` extends. The embedding model is an opaque function `embed`.
- **The chatbot service.** It is pure: `prerouting` (length, word count and
  whether there is a question mark), `generate_prompt` (a fixed template)
  and `process_message` (a keyword cascade choosing one of five canned
  replies).
- **The chatbot controller.** `validate_message` rejects empty and
  whitespace-only messages. `process_message` packages the service's
  outputs into a result record with a validity flag.

Modules:

- `Text` holds the Python string primitives the code relies on.
- `Records` holds the collection and the record batches.
- `DbSetupDocs` and `ServiceDocs` hold the two document services.
- `IntentEmbedding` holds the intent service.
- `IntentsData` holds the training corpus as data.
- `ChatbotService` and `ChatbotController` hold the chat path.

Two facts about the modelled code shape what is proved. First, `chunk_text`
never bounds a chunk by `max_length`: the test at
`src/persistence/db_setup/docs_to_embed_service.py:52-57` does not count the
joining space and starts a new chunk with whatever sentence comes next. So a
sentence longer than `max_length` becomes a chunk of its own, and a packed
chunk can reach `max_length + 1` characters (`Chunker.PackedChunkLength`,
`Chunker.OversizeSentenceAlone`, `Chunker.ChunksExample`). Second, the intent
service's own messages
(`src/persistence/db_setup/intent_to_embed_service.py:22` and `:66`) say that
the `ambiguo` intent is decided automatically by distance thresholds. None of
the modelled files does that, so it is not modelled; the model only proves
that no `ambiguo` record is stored.

## Model

| member | source | states |
|---|---|---|
| `Chunker.ChunkText` | src/persistence/db_setup/docs_to_embed_service.py:44-62 | The accumulating loop over the sentences, with its `current_chunk` buffer and final flush, returns exactly `Chunks(text, max_length)`. |
| `Chunker.Sentences` | src/persistence/db_setup/docs_to_embed_service.py:47 | The split yields at least one piece. The pieces joined by single spaces give back the text with every run of spaces after `.`, `!` or `?` shrunk to one space (the reference `Collapse`). No piece keeps a cut point, that is a space right after a terminator. Every piece but the last ends in a terminator, so the text is cut at cut points and nowhere else. |
| `Chunker.ChunksClean` | src/persistence/db_setup/docs_to_embed_service.py:46-62 | There are no more chunks than sentences. Every chunk is stripped (empty, or starting and ending with a non-whitespace character) and holds no newline. |
| `Chunker.PackCount` | src/persistence/db_setup/docs_to_embed_service.py:51-60 | The packing loop emits at most one chunk per sentence, plus one for a non-empty buffer it starts with. |
| `Chunker.PackStripped` | src/persistence/db_setup/docs_to_embed_service.py:51-60 | Every chunk the packing loop emits has gone through `strip()`, whatever the buffer it starts with. |
| `Chunker.ChunksArePackedRuns` | src/persistence/db_setup/docs_to_embed_service.py:46-60 | For non-blank text, chunk `j` is the stripped single-space join of sentence run `j`. The runs, concatenated, are exactly the sentences in order, so none is split, dropped, repeated or moved. Every sentence after the first of a run passed the `len(current) + len(sentence) <= max_length` test. Every chunk boundary is a place where that test failed. |
| `Chunker.PackedChunkLength` | src/services/docs_to_embed_service.py:40-49 | There is one chunk per run and at least one chunk. A chunk packed from two or more sentences has at most `max_length + 1` characters, since the joining space is not counted. The first chunk has at most `max_length` characters when its first sentence fitted. |
| `Chunker.OversizeSentenceAlone` | src/services/docs_to_embed_service.py:41-44 | A sentence longer than `max_length` is alone in its run, so it is emitted whole as its own chunk. |
| `Chunker.BlankText` | src/persistence/db_setup/docs_to_embed_service.py:46-60 | Whitespace-only input yields exactly `[""]` when `max_length >= 0`, and no chunk at all when it is negative. |
| `Chunker.ChunksEmptyIff` | src/persistence/db_setup/docs_to_embed_service.py:46-62 | The result is empty if and only if the text is blank and `max_length` is negative. It is therefore never empty for the 500 the services pass. |
| `Chunker.ChunksReconstruct` | src/services/docs_to_embed_service.py:35-49 | Each run's sentences joined by single spaces, and those joins joined again by single spaces, give back the normalised text with each sentence break shrunk to one space. |
| `Chunker.SentencesNonEmpty` | src/persistence/db_setup/docs_to_embed_service.py:46-47 | Splitting a stripped non-empty text produces no empty sentence. |
| `Chunker.ChunksExample` | src/services/docs_to_embed_service.py:33-51 | On `"abcdefgh. ab. cd."` with `max_length` 6 the chunks are `["abcdefgh.", "ab. cd."]`: an oversize chunk and a packed chunk of `max_length + 1` characters. |
| `Records.Collection.Add` | src/persistence/db_setup/docs_to_embed_service.py:101-110 | `collection.add` with one entry appends that record and changes nothing else. |
| `Records.ChunkRecordsFields` | src/persistence/db_setup/docs_to_embed_service.py:100-111 | Record `i` of a file's batch has id `chunk_{c0+i}`, the chunk as document, its embedding, the file as source, `chunk = i` and `total_chunks` equal to the number of chunks. |
| `Records.ChunkRecordsDocuments` | src/services/docs_to_embed_service.py:80-84 | The documents of a file's batch are its chunks, in order. |
| `Records.ChunkIdInjective` | src/persistence/db_setup/docs_to_embed_service.py:102 | Two ids `chunk_a` and `chunk_b` are equal if and only if `a == b`. |
| `Records.IntentIdInjective` | src/persistence/db_setup/intent_to_embed_service.py:42 | Two ids `intent_a` and `intent_b` are equal if and only if `a == b`. |
| `Records.SourceRecordsEmptyIff` | src/persistence/db_setup/docs_to_embed_service.py:90-91 | A file adds no record if and only if its extracted text is empty. A blank but non-empty text adds one record, for the chunk `""`. |
| `Records.DocsRecordsIdAt` | src/services/docs_to_embed_service.py:64-91 | Across the whole file loop, the `j`-th record added has id `chunk_{c0+j}`. |
| `Records.DocsRecordsSourceAt` | src/services/docs_to_embed_service.py:64-88 | Every record added names as its source one of the files iterated over. |
| `Records.DocsRecordsDistinctIds` | src/persistence/db_setup/docs_to_embed_service.py:77-111 | No two records added by one run share an id. |
| `Records.IntentRecordsFields` | src/persistence/db_setup/intent_to_embed_service.py:40-51 | Record `i` has id `intent_{c0+i}`, item `i`'s text as document, item `i`'s intent, `example_id = i` and `total_examples` equal to the number of items. |
| `Records.IntentRecordsDistinctIds` | src/persistence/db_setup/intent_to_embed_service.py:40-51 | No two intent records of one run share an id. |
| `DbSetupDocs.DocFiles` | src/persistence/db_setup/docs_to_embed_service.py:74 | There are no more selected names than listed names. |
| `DbSetupDocs.DocFilesMembers` | src/persistence/db_setup/docs_to_embed_service.py:74 | A name is selected if and only if it is listed and ends in `.pdf` or `.txt`. |
| `DbSetupDocs.DocFilesAppend` | src/persistence/db_setup/docs_to_embed_service.py:74 | Selection keeps listing order: a name appended to the listing is selected last, and only when it ends in `.pdf` or `.txt`. |
| `DbSetupDocs.DocFilesKeeps` | src/persistence/db_setup/docs_to_embed_service.py:74 | Selection is idempotent, and a listing made only of documents is kept as it is. |
| `DbSetupDocs.FileText` | src/persistence/db_setup/docs_to_embed_service.py:81-86 | A `.pdf` name is read by the PDF reader, even when it also ends in `.txt`. A `.txt` name is read by the text reader. Any other name yields no text, the case the loop skips. |
| `DbSetupDocs.ProcessedRecordsSources` | src/persistence/db_setup/docs_to_embed_service.py:74-111 | Every record `process_docs` adds comes from a listed `.pdf` or `.txt` file and carries the next id in sequence. |
| `DbSetupDocs.DocsToEmbedService.constructor` | src/persistence/db_setup/docs_to_embed_service.py:15-21 | The counter starts at 0. |
| `DbSetupDocs.DocsToEmbedService.AddChunks` | src/persistence/db_setup/docs_to_embed_service.py:91-111 | The collection grows by exactly the file's batch of records, numbered from the old counter. The counter grows by the number of chunks. |
| `DbSetupDocs.DocsToEmbedService.ProcessDocs` | src/persistence/db_setup/docs_to_embed_service.py:64-115 | A missing folder changes nothing. Otherwise the collection grows by exactly the records of the selected files, in listing order, and the counter grows by their number. |
| `ServiceDocs.PdfFiles` | src/services/docs_to_embed_service.py:62 | The selected names are exactly the listed names ending in `.pdf`. |
| `ServiceDocs.PdfFilesAppend` | src/services/docs_to_embed_service.py:62 | Selection keeps listing order: a name appended to the listing is selected last, if it is selected at all. |
| `ServiceDocs.ProcessedRecordsSources` | src/services/docs_to_embed_service.py:62-91 | Every record `process_pdfs` adds comes from a listed `.pdf` file and carries the next id in sequence. |
| `ServiceDocs.DocsToEmbedService.constructor` | src/services/docs_to_embed_service.py:15-19 | The counter starts at 0. |
| `ServiceDocs.DocsToEmbedService.AddChunks` | src/services/docs_to_embed_service.py:70-91 | The collection grows by exactly the file's batch, numbered from the old counter. The counter grows by the number of chunks. |
| `ServiceDocs.DocsToEmbedService.ProcessPdfs` | src/services/docs_to_embed_service.py:53-95 | A missing folder changes nothing. Otherwise the collection grows by exactly the records of the `.pdf` files, in listing order, and the counter grows by their number. |
| `IntentEmbedding.TallyIsCount` | src/persistence/db_setup/intent_to_embed_service.py:56-59 | A label is a key of `intent_counts` if and only if its count is positive. Its value is the number of items carrying that label. |
| `IntentEmbedding.CountPositive` | src/persistence/db_setup/intent_to_embed_service.py:57-59 | A label's count is positive if and only if some item carries it. |
| `IntentEmbedding.TallyKeys` | src/persistence/db_setup/intent_to_embed_service.py:56-59 | A label appears in `intent_counts` if and only if some item has it. |
| `IntentEmbedding.TallySum` | src/persistence/db_setup/intent_to_embed_service.py:55-63 | The keys, in dictionary order, are distinct and are exactly the keys present. Their counts sum to the number of items. |
| `IntentEmbedding.IntentToEmbedService.constructor` | src/persistence/db_setup/intent_to_embed_service.py:16-19 | The counter starts at 0. |
| `IntentEmbedding.IntentToEmbedService.AddExamples` | src/persistence/db_setup/intent_to_embed_service.py:28-51 | The collection grows by exactly one record per item, numbered from the old counter. The counter grows by the number of items. |
| `IntentEmbedding.IntentToEmbedService.ProcessIntents` | src/persistence/db_setup/intent_to_embed_service.py:21-66 | `process_intents` appends the item records and advances the counter by their number. The method's result stands for the `intent_counts` dictionary the source builds and prints. It is the per-label tally of the items. |
| `IntentEmbedding.CorpusTally` | src/persistence/db_setup/intent_to_embed_service.py:56-59 | A corpus of `"sql"` items followed by `"docs"` items tallies to exactly those two keys, with their counts. |
| `IntentEmbedding.TrainingTally` | src/persistence/db_setup/data/intents_data.py:5-213 | The training data tallies to `{"sql": 20, "docs": 68}`. |
| `IntentEmbedding.TrainingRecordsLabels` | src/persistence/db_setup/intent_to_embed_service.py:40-51 | Loading the training data stores 88 records. Each one is labelled `"sql"` or `"docs"`, never `"ambiguo"`, with `total_examples = 88`. |
| `IntentsData.TrainingDataShape` | src/persistence/db_setup/data/intents_data.py:5-213 | There are 88 items. An item is labelled `"sql"` exactly when it is among the first 20. Every label is `"sql"` or `"docs"`. |
| `ChatbotService.Prerouting` | src/services/chatbot_service.py:12-16 | `length` is the character count. `has_question` holds if and only if `?` occurs. `word_count` is at most `length`, and it is 0 if and only if the message is whitespace-only. |
| `ChatbotService.AnalysisText` | src/services/chatbot_service.py:20 | The rendering of the analysis dictionary opens with `{'length': ` and closes with `}`. |
| `ChatbotService.GeneratePrompt` | src/services/chatbot_service.py:18-20 | The prompt begins with `"User says: " + message`, continues beyond it and ends with the `}` that closes the analysis. |
| `ChatbotService.PromptDeterminesAnalysis` | src/services/chatbot_service.py:18-20 | For a given message, the prompt determines the analysis it renders: two analyses giving the same prompt are equal. |
| `ChatbotService.Reply` | src/services/chatbot_service.py:22-36 | The reply is one of the five templates, two of them quoting the message, and it is never empty. |
| `ChatbotService.RepliesDistinct` | src/services/chatbot_service.py:28-36 | The five templates differ pairwise, whatever messages the two quoting templates embed. |
| `ChatbotService.ReplyCascade` | src/services/chatbot_service.py:25-36 | Priority order as an equivalence per reply. The greeting wins exactly when a greeting keyword is in the lowered message. Each later group wins exactly when it matches and no earlier group does. The `?` test reads the original message. |
| `ChatbotService.ReplyQuotesMessage` | src/services/chatbot_service.py:34-36 | The question and default replies contain the original message verbatim, at positions 28 and 26. |
| `ChatbotService.ReplyIgnoresCase` | src/services/chatbot_service.py:25-32 | Two messages with the same lowered form get the same keyword reply. |
| `ChatbotService.GoodbyeIsBye` | src/services/chatbot_service.py:31 | Any lowered message containing `"goodbye"` also contains `"bye"`, so the `"goodbye"` test never decides the outcome. |
| `ChatbotService.ThisIsGreeting` | src/services/chatbot_service.py:27-28 | `"hi"` is a substring test: `"this?"` gets the greeting, not the question reply. |
| `ChatbotController.ValidateMessage` | src/controllers/chatbot_controller.py:39-47 | The message is rejected if and only if it is empty or whitespace-only. An accepted message strips to a string that starts with a non-whitespace character, so the `len(strip) < 1` test is unreachable. |
| `ChatbotController.ProcessMessage` | src/controllers/chatbot_controller.py:16-37 | The result always echoes the message and is valid exactly when no exception occurs. On success it carries the service's reply, analysis and prompt. On error the prompt is `""`, the analysis is empty, and the reply is `"Error processing message: "` followed by the error text. |
| `ChatbotController.SuccessfulResult` | src/controllers/chatbot_controller.py:19-29 | A successful result is self-consistent: its analysis describes the echoed message, its prompt opens with that message, and its reply is a non-empty template. |
| `ChatbotController.ValidMessageHasWords` | src/controllers/chatbot_controller.py:43-47 | A message that passes validation has a word count of at least 1. |
| `Text.WordCountBounds` | src/services/chatbot_service.py:14 | `split()` gives at most as many words as characters, and none exactly when the string is whitespace-only. |
| `Text.WordsPartition` | src/services/chatbot_service.py:14 | The words of `split()` are non-empty and hold no whitespace. Concatenated, they are exactly the non-whitespace characters in order. |
| `Text.WordsOfWord` | src/services/chatbot_service.py:14 | A non-empty string without whitespace splits into exactly itself, so `split()` never cuts inside a word. |
| `Text.WordsSplitAtSpace` | src/services/chatbot_service.py:14 | Cutting a string at any whitespace character splits it into the words of the left part followed by the words of the right part. With `Text.WordsOfWord`, this fixes the result of `split()` on every string. |
| `Text.WordsOfTwo` | src/services/chatbot_service.py:14 | Two words separated by one whitespace character split into exactly those two words. |
| `Text.Strip` | src/controllers/chatbot_controller.py:43 | `strip()` returns a slice of its input between two whitespace-only margins. The result is `""` if and only if the input is whitespace-only, and otherwise it starts and ends with a non-whitespace character. |
| `Text.Lower` | src/services/chatbot_service.py:25 | `lower()` keeps the length and lowers character by character. |
| `Text.Contains` | src/services/chatbot_service.py:27-33 | The substring test `sub in s` holds if and only if `sub` occurs at some position of `s`. |
| `Text.NatToString` | src/persistence/db_setup/intent_to_embed_service.py:42 | `str(n)` is a non-empty string of decimal digits, one digit long exactly when `n < 10`. |
| `Text.NatToStringValue` | src/persistence/db_setup/intent_to_embed_service.py:42 | `str(n)` read as decimal digits, most significant first (the reference `DecimalValue`), gives back `n`, and it has no leading zero when `n > 0`. So it is the usual decimal rendering. |
| `Text.LowerKeepsQuestionMark` | src/services/chatbot_service.py:25-33 | `?` occurs in the lowered message if and only if it occurs in the original. |
| `Text.NatToStringInjective` | src/persistence/db_setup/intent_to_embed_service.py:42 | Distinct counter values render as distinct decimal strings. |

## Left out

- The embedding model (`SentenceTransformer.encode`) is an opaque function `embed` from text to a vector. Batch encoding is modelled as mapping it over the texts. Progress bars, numpy conversion and normalisation are not modelled.
- The vector store (ChromaDB, `db_start`, `VectorService`) is modelled only as an append-only `Collection` of records. Its persistence, queries and failures in `add` are not modelled.
- File access is passed in as parameters: `os.path.exists` is the flag `folderExists`, `os.listdir` is the sequence `listing`, and the PDF and text readers are the functions `extractPdf` and `extractTxt`. PyPDF2 and the readers' own error handling are not modelled.
- Console output (`print`) is not modelled.
- The service objects' `model` and `docs_path` fields are not modelled. Only `chunk_counter` is state that the modelled code updates.
- The `ChatbotController` object only holds a stateless `ChatbotService` set once in its constructor. Its methods are therefore modelled as functions.
- ChatbotController.ProcessMessage: the services raise nothing for a string message, so an exception inside the `try` block is an input `fault`, the text `str(e)` would give. What could raise it is not modelled.
- Text.Lower: lowers only the ASCII letters A-Z. Python's `lower()` also lowers other upper-case letters, so keyword matching on non-ASCII capitals is not captured.
- Whitespace is Python's `str.isspace()` set, written out by code point. Character counts are counts of Unicode scalar values, as Python's `len` counts them for such text. Surrogates and normalisation are not modelled.
- The regular expression split is modelled as "cut at every run of ASCII spaces that follows `.`, `!` or `?`". That is what the pattern `(?<=[.!?]) +` matches. No general regular-expression engine is modelled.
- The second copy of the training data (`chroma_utils/data/intents_data.py`) and the scripts that load it are not part of this model.
- Chunk export and review reports, the Flask front end, the start-up scripts and the global LLM clients are not part of this model.
- Deciding the `ambiguo` intent by distance thresholds is not in the modelled files and is not modelled.
- IntentEmbedding.IntentToEmbedService.ProcessIntents: the source only prints `intent_counts` and returns nothing. The method returns the dictionary as its result so that its contents can be stated.
