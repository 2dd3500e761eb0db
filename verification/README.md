# Tunisian digital-service assistant: a verified model of its core

The assistant answers citizen and civil-servant requests, written in French or
Arabic, from a local collection of administrative documents. Its core has five
parts:

- **text_utils** normalises whitespace and cuts a document into overlapping
  chunks of bounded size (`chunk_text`).
- **safety** refuses requests that carry a national identity card (CIN)
  number, a phone number or an e-mail address. It escalates complaints and
  threats to a human, and allows everything else.
- **ingestion** reads the `.txt` and `.pdf` files under `data/raw`, keeps the
  non-empty normalised texts, chunks them, and writes the chunk metadata
  beside the index.
- **rag_store** embeds the chunks into a flat inner-product index. It answers
  a query by joining the index's nearest neighbours with the metadata.
- **agent** (`handle_query`) logs the request and its detected language, then
  takes the safety decision. It refuses, escalates, or retrieves passages and
  answers, either extractively or through a local language model. It emits
  structured events and evaluation hooks.

The Dafny modules follow that structure:

| module | file | contents |
|---|---|---|
| `Base` | base.dfy | `Option`, `Result` |
| `Chars` | chars.dfy | the character classes the regular expressions use |
| `TextUtils` | text_utils.dfy | `Chunk`, `strip`, `normalize_text`, `"sep".join` |
| `Scanning` | scan.dfy | a generic left scan, which specifies the overlap pass |
| `Chunking` | chunking.dfy | `chunk_text`: paragraph split, packing, hard split, overlap |
| `Safety` | safety.dfy | the three patterns, `check_safety` |
| `Storage` | storage.dfy | the `Paths` layout, the flat index, metadata records, the disk |
| `RagStore` | rag_store.dfy | `Retrieved`, the `RagStore` class |
| `Ingestion` | ingestion.dfy | `load_documents`, `build_chunks`, `save_metadata` |
| `Agent` | agent.dfy | `handle_query`, the answers, the prompt, the hooks |

The loops that carry state from one step to the next, and the operations that
change state, are methods: `ChunkText`, `CheckSafety`, `JoinCandidates`,
`LoadDocuments`, `BuildChunks` and `HandleQuery`, with the loops they call.
Each is proved against a function that specifies it, and the properties of the
source are proved about those functions as lemmas. Two loops of the source
only build a list in order to join it: `_format_context` and the citation list
of `_extractive_answer`. They are functions here (`Agent.FormatContext`,
`Agent.ExtractiveAnswer`): a sequence built element by element, then joined.

The objects the source mutates are classes:
- the store and its lazily loaded embedding model (`RagStore.RagStore`), whose
  methods carry `modifies` clauses;
- the JSONL logger (`Agent.EventLog`), whose `Log` method carries one;
- the two index files (`Storage.Disk`), which have only a constructor. They
  are written by `RagStore.RagStore.BuildAndSave` and
  `Ingestion.SaveMetadata`, which name the disk in their `modifies` clauses.

`Agent.Tools` is a modelling device with no counterpart in the source. There,
the retriever and the language model are called directly and keep no state.
The class wraps the two calls and records each one: the query and `top_k` of
every retrieval, and every prompt sent. The lemmas about `handle_query` use
these records to state which tools a request reached, how many times and with
what input.

Effects outside the program are parameters: the embedding model, the FAISS
search, the language detector, the file readers and the language model.

## Model

| member | source | states |
|---|---|---|
| Chars.LowerChar | assistant/safety.py:31 | lower-casing a character never turns a word character into a non-word one or whitespace into non-whitespace |
| Chars.Lower | assistant/safety.py:31 | lower-casing leaves no ASCII or Latin-1 capital, keeps the length, changes nothing in a text without capitals, and maps each character on its own |
| Chars.LowerIdempotent | assistant/safety.py:31 | lower-casing twice is lower-casing once |
| Chars.LowerSlice | assistant/safety.py:31 | lower-casing a slice is slicing the lower-cased text |
| TextUtils.StripIsSlice | assistant/text_utils.py:29 | `strip()` returns a slice of its input that removes only whitespace on both sides and neither begins nor ends with whitespace |
| TextUtils.StripIdempotent | assistant/text_utils.py:29 | stripping twice is stripping once |
| TextUtils.StripKeepsNonSpace | assistant/text_utils.py:29 | stripping removes no non-whitespace character |
| TextUtils.JoinWithPartAt | assistant/ingestion.py:29 | every part of a `sep.join(parts)` occurs in the result, at its offset: after the parts before it, each followed by the separator |
| TextUtils.JoinWithSnoc | assistant/ingestion.py:29 | joining one more part appends the separator and that part |
| TextUtils.JoinOffsetOrder | assistant/agent.py:37 | the parts of a `sep.join(parts)` are laid out in order: part i and one separator end before part j starts, for i < j |
| TextUtils.ReplaceNoBreakSpaceShape | assistant/text_utils.py:26 | after the replacement no no-break space is left, and no other character changes class |
| TextUtils.CollapseBlanksShape | assistant/text_utils.py:27 | after collapsing runs of spaces and tabs there is no tab and no two spaces in a row |
| TextUtils.CollapseNewlinesShape | assistant/text_utils.py:28 | after collapsing runs of three or more newlines there is no run of three, and no character is introduced |
| TextUtils.CollapseNewlinesKeeps | assistant/text_utils.py:28 | collapsing newline runs introduces no character and keeps every non-whitespace character in order |
| TextUtils.CollapseNewlinesNoTriple | assistant/text_utils.py:28 | the result has no run of three newlines, even after the newlines of the current run already produced |
| TextUtils.NormalizeShape | assistant/text_utils.py:24-29 | `normalize_text` yields normalised text: stripped, with no no-break space, tab, double space or triple newline; it keeps every non-whitespace character in order |
| TextUtils.NormalizeFixesNormalized | assistant/text_utils.py:24-29 | normalising already normalised text changes nothing |
| TextUtils.NormalizeIdempotent | assistant/text_utils.py:24-29 | `normalize_text` is idempotent |
| Scanning.ScanAt | assistant/text_utils.py:73-81 | element i of the scan joins element i-1 of the output with element i of the input |
| Chunking.ParamError | assistant/text_utils.py:33-38 | the three argument checks in their order: a non-positive size first, then a negative overlap, then an overlap not below the size |
| Chunking.ParagraphsShape | assistant/text_utils.py:45 | every paragraph is non-empty, stripped and holds no blank line; together they keep every non-whitespace character of the text, in order |
| Chunking.ParagraphsWithoutBlankLine | assistant/text_utils.py:45 | the split cuts only at blank lines: a text with no blank line is one paragraph, the stripped text, or none when it is all whitespace |
| Chunking.WindowsLengths | assistant/text_utils.py:59-64 | hard-split windows are non-empty and at most `chunk_size` long; all but the last are exactly `chunk_size`; each later window is longer than the overlap; a paragraph that fits is one window |
| Chunking.WindowsOverlap | assistant/text_utils.py:59-64 | consecutive windows share exactly `overlap` characters |
| Chunking.WindowsEndAtParagraphEnd | assistant/text_utils.py:61-64 | the last window ends where the paragraph ends |
| Chunking.WindowsRebuild | assistant/text_utils.py:59-64 | dropping the shared overlaps and concatenating the windows gives back the paragraph |
| Chunking.PackBounded | assistant/text_utils.py:47-67 | every packed chunk is non-empty and at most `chunk_size` long |
| Chunking.PackBufferIsRun | assistant/text_utils.py:47-58 | the buffer is always the paragraphs read since the last overflow, in order, joined by a blank line, with no whitespace at either end |
| Chunking.PackKeepsText | assistant/text_utils.py:47-67 | with no overlap the packed chunks keep every non-whitespace character of the paragraphs, in order: each paragraph is emitted once, whole or as consecutive windows |
| Chunking.WindowsConcat | assistant/text_utils.py:59-64 | with no overlap the windows of a paragraph concatenate back to it |
| Chunking.OverflowStartsFresh | assistant/text_utils.py:55-64 | a paragraph that overflows flushes the current chunk and is hard-split on its own; packing then restarts empty |
| Chunking.OverlapPassShape | assistant/text_utils.py:69-81 | the overlap pass keeps the number of chunks and the first chunk, changes nothing when overlap is 0 or there is one chunk, and otherwise makes chunk i the strip of the last `overlap` characters of output i-1 followed by chunk i |
| Chunking.OverlapPassBound | assistant/text_utils.py:78-80 | the overlap pass lengthens a chunk by at most `overlap` characters |
| Chunking.OverlapStripsTail | assistant/text_utils.py:78-80 | the overlap pass strips the tail: a tail " cd" joined to "ef" gives "cdef", not " cdef" |
| Chunking.ChunkSpecKeepsText | assistant/text_utils.py:32-81 | with no overlap the chunks `chunk_text` returns keep every non-whitespace character of the text, in order |
| Chunking.ChunkSpecBound | assistant/text_utils.py:32-81 | every chunk `chunk_text` returns is at most `chunk_size + overlap` long |
| Chunking.HardSplit | assistant/text_utils.py:60-64 | the hard-split loop computes the specified windows |
| Chunking.PackParagraphs | assistant/text_utils.py:47-67 | the packing loop computes the specified chunks |
| Chunking.ApplyOverlap | assistant/text_utils.py:69-81 | the overlap loop computes the specified overlap pass |
| Chunking.ChunkText | assistant/text_utils.py:32-81 | it fails exactly when an argument check fails, with that check's error; valid arguments give the specified chunks |
| Safety.FirstMatch | assistant/safety.py:23-28 | the first pattern, in list order, that the text matches; none exactly when no pattern matches |
| Safety.CheckSafety | assistant/safety.py:21-34 | the loop over the patterns, then the keyword test, computes the specified decision |
| Safety.RefuseIff | assistant/safety.py:21-28 | refuse if and only if some sensitive pattern matches the stripped text; the reason names a pattern |
| Safety.RefusePriority | assistant/safety.py:13-18 | patterns are tried in order: a CIN wins over a phone number, which wins over an e-mail address |
| Safety.EscalateIff | assistant/safety.py:30-32 | escalate if and only if no pattern matches and the lower-cased text contains a keyword; the reason is the fixed escalation reason |
| Safety.AllowIff | assistant/safety.py:34 | allow if and only if no pattern matches and no keyword occurs; the reason is the fixed allow reason |
| Safety.NumberNeedsDigit | assistant/safety.py:15-16 | the CIN and phone patterns only match text that holds a digit |
| Safety.EmailNeedsAt | assistant/safety.py:17 | the e-mail pattern only matches text that holds an `@` |
| Safety.StandaloneCinFound | assistant/safety.py:15 | eight digits not touching a word character are found as a CIN |
| Safety.StripKeepsCin | assistant/safety.py:15 | eight digits with no word character right before or after them still match the CIN pattern once the text is stripped |
| Safety.StandaloneCinRefused | assistant/safety.py:15-28 | a request holding eight such digits is refused with the CIN reason |
| Safety.ContainsIgnoringCase | assistant/safety.py:31 | the lower-cased text contains a keyword if and only if some slice of the text, whatever its capitals, lower-cases to the keyword |
| Safety.KeywordAnyCaseEscalates | assistant/safety.py:31-32 | a request without digits or `@` holding a keyword written with any capitals is escalated |
| Safety.KeywordEscalates | assistant/safety.py:31-32 | a request without digits or `@` that contains a keyword is escalated |
| Safety.RefusesCinQuery | assistant/safety.py:21-28 | the sample request "Mon CIN est 01234567, …" is refused as a CIN |
| Safety.EightDigitPhoneReportedAsCin | assistant/safety.py:15-16 | an eight-digit phone number is reported as a CIN, because the CIN pattern is tried first |
| Safety.EscalatesComplaint | assistant/safety.py:31 | "PLAINTE" in upper case still escalates, because the keyword test lower-cases the text |
| Safety.GroupedPhoneHasNoCin | assistant/safety.py:15 | "22 333 444" holds no CIN |
| Safety.GroupedPhoneMatches | assistant/safety.py:16 | "22 333 444" matches the phone pattern |
| Safety.RefusesGroupedPhone | assistant/safety.py:16-28 | "22 333 444" is refused with the phone reason |
| Safety.DecisionIgnoresOuterWhitespace | assistant/safety.py:22 | surrounding whitespace never changes the decision |
| RagStore.EmbeddingModel.constructor | assistant/rag_store.py:35-38 | the model is loaded by name into the cache folder |
| RagStore.KeptShape | assistant/rag_store.py:66-68 | the kept candidate positions are exactly the non-negative ids, in increasing order |
| RagStore.JoinSuccess | assistant/rag_store.py:66-79 | a successful join pairs equally long rows; result k is the metadata record of the k-th kept id, with its score |
| RagStore.JoinSucceedsIff | assistant/rag_store.py:66-69 | the join succeeds if and only if the rows have equal length and no id reaches past the metadata |
| RagStore.JoinOutOfRange | assistant/rag_store.py:69 | the first id past the metadata, within the paired prefix, raises the index error |
| RagStore.JoinLengthMismatch | assistant/rag_store.py:66 | rows of different length raise the strict-zip error once the shorter row is used up |
| RagStore.JoinAllNegative | assistant/rag_store.py:67-68 | when every id is -1 (no neighbour) the result is empty |
| RagStore.JoinCandidates | assistant/rag_store.py:65-79 | the loop computes the specified join |
| RagStore.RetrieveFromMeta | assistant/rag_store.py:54-79 | a successful retrieval needs both files; it returns at most as many results as the search returned candidates, and each result is the metadata record of some candidate, with that candidate's score |
| RagStore.RagStore.constructor | assistant/rag_store.py:24-28 | the store starts with no model loaded and the default embedding model name |
| RagStore.RagStore.Model | assistant/rag_store.py:30-39 | the model is loaded once, on first use, and then reused |
| RagStore.RagStore.BuildAndSave | assistant/rag_store.py:46-52 | the index holds one embedding per text, in order, with the dimension of the embeddings; it fails on no texts; the metadata is untouched |
| RagStore.RagStore.Retrieve | assistant/rag_store.py:54-79 | the missing index is reported first, then the missing metadata; otherwise the query's neighbours are joined with the metadata; the model is loaded only when both files exist |
| Ingestion.LastIndexOfShape | assistant/ingestion.py:37 | the last occurrence of a character, if any |
| Ingestion.SuffixShape | assistant/ingestion.py:37 | a suffix is empty or a dot followed by at least one character, with no other dot or slash, ending the path |
| Ingestion.DotFileHasNoSuffix | assistant/ingestion.py:37-39 | a file named ".txt" has no suffix and is skipped |
| Ingestion.UpperCaseSuffixRead | assistant/ingestion.py:37-43 | "guide.PDF" is read as a PDF, because the suffix is lower-cased |
| Ingestion.LoadSpecMembers | assistant/ingestion.py:32-47 | a document is loaded if and only if some listed file yields it; there are at most as many documents as files |
| Ingestion.LoadedTextIsNormalized | assistant/ingestion.py:44-46 | every loaded text is non-empty and normalised |
| Ingestion.LoadDocuments | assistant/ingestion.py:32-47 | the loop computes the specified documents |
| Ingestion.LoadSpecSnoc | assistant/ingestion.py:34-46 | one more listed file adds its document at the end when it yields one, and nothing otherwise |
| Ingestion.BuildWithLength | assistant/ingestion.py:56-61 | there are as many chunks as the documents' parts together |
| Ingestion.BuildWithAppend | assistant/ingestion.py:57-60 | the chunks of two document lists are the chunks of each, concatenated |
| Ingestion.BuildWithSplit | assistant/ingestion.py:57-60 | the chunks are those of the documents before i, then document i's numbered parts, then those of the documents after |
| Ingestion.BuildWithAt | assistant/ingestion.py:57-60 | part k of document i is chunk number k, with the document's source and text |
| Ingestion.NumberParts | assistant/ingestion.py:59-60 | the inner loop numbers the parts of one document from 0 |
| Ingestion.BuildChunks | assistant/ingestion.py:50-61 | no documents gives no chunks; otherwise it fails exactly on bad chunking arguments; valid arguments give the specified chunks; the defaults never fail |
| Ingestion.PayloadRoundTrip | assistant/ingestion.py:65-68 | record i has id i and gives back chunk i |
| Ingestion.SaveMetadata | assistant/ingestion.py:64-70 | the metadata file holds the payload; the index is untouched |
| Ingestion.RetrievedAreChunks | app/main.py:31-34 | after ingestion, each retrieved result has the id, source, chunk number and text of the chunk its id points to, with its score |
| Agent.EventLog.Log | assistant/logging_utils.py:22-25 | each call appends one event with its name and payload |
| Agent.Tools.Retrieve | assistant/agent.py:98 | each retrieval is recorded with its query and `top_k` |
| Agent.Tools.Generate | assistant/agent.py:130 | each prompt sent to the language model is recorded |
| Agent.ExtractiveAnswerCites | assistant/agent.py:28-38 | the extractive answer quotes the top passage right after its header, and cites every result by a line naming its source, at that line's offset |
| Agent.CitationsInOrder | assistant/agent.py:37 | the citation lines follow retrieval order: the line of an earlier result, and a newline, end before the line of a later result starts |
| Agent.PromptIsGrounded | assistant/agent.py:124-129 | the prompt carries the user's text and the full text of every retrieved passage |
| Agent.ContextQuotesText | assistant/agent.py:21-25 | the context quotes the full text of every retrieved passage |
| Agent.HandleQuery | assistant/agent.py:41-142 | the result, the events logged and the tool calls are those of the specification |
| Agent.Answer | assistant/agent.py:60-142 | acting on the decision logs and calls the tools as specified |
| Agent.RetrieveAndAnswer | assistant/agent.py:95-142 | retrieving and answering logs and calls the tools as specified |
| Agent.PreambleLogged | assistant/agent.py:54-58 | every call first logs the request with its language, then the safety decision; every response carries that language |
| Agent.RefusePath | assistant/agent.py:60-76 | a refusal ends with the decision's reason, retrieves and generates nothing, logs one response event and selects no tool |
| Agent.EscalatePath | assistant/agent.py:78-93 | an escalation gives the fixed hand-over answer, retrieves and generates nothing, and selects a human |
| Agent.SensitiveQueryNeverRetrieved | assistant/agent.py:57-76 | a request matching a sensitive pattern reaches neither the retriever nor the language model |
| Agent.CinQueryNeverRetrieved | assistant/agent.py:57-76 | the sample CIN request is refused without retrieval |
| Agent.AllowEventOrder | assistant/agent.py:95-131 | an allowed request is retrieved exactly once; an answer logs Tool_Select, Tool_Result and Generate_Response in order; a retrieval error stops after Tool_Select |
| Agent.ToolResultReportsRetrieval | assistant/agent.py:99-104 | the Tool_Result event reports how many results there are and their sources, in order |
| Agent.ExtractivePath | assistant/agent.py:106-119 | without generation the response holds exactly the retrieved results; it quotes the top passage and cites every source; no prompt is sent |
| Agent.GenerativePath | assistant/agent.py:121-142 | with generation one grounded prompt is sent; the answer is the stripped model text, or the extractive answer when that is empty; a model error propagates |
| Agent.AnswerNeverEmpty | assistant/agent.py:60-142 | every answer returned is non-empty |

## Left out

- Language detection is a parameter of `HandleQuery` (`detect_language`). It stands for the `langdetect` call and its "unknown" fallback; that library is not part of this model.
- The embedding model (`SentenceTransformer.encode`) and the FAISS search are function parameters. Only the way their results are stored and joined with the metadata is modelled. Vector normalisation and the `float32` conversion are left out.
- `build_and_save` embeds the texts one by one in the model, where the source encodes a batch. It fails on an empty list, which stands for the embedding library returning no dimension.
- File I/O is abstract. The directory listing is a sequence of entries that is taken as already sorted (`sorted(rglob)`). The text and PDF readers are function parameters. `mkdir`, JSON encoding and file encodings are left out, and so are the type conversions (`int(m["id"])`, …) when metadata is read back.
- The JSONL logger keeps the events in memory. Timestamps and the file write are left out.
- The call to the local language model (`generate_with_ollama`) is a function parameter. Its HTTP request, its timeout and its error text are not part of this model, and neither is the `llm_ollama` module.
- Scores are `real`. The `:.3f` formatting of a score in the context is a parameter (`ScoreFormat`).
- The regular expressions are modelled by their meaning, not by a regex engine. `\d` is the ASCII digits. `\w` is the ASCII letters, digits and `_` plus every non-ASCII character that is neither whitespace nor a mark of `Chars.IsNonAsciiMark` (Latin-1 punctuation and symbols, general punctuation, Arabic punctuation). Other non-ASCII symbols (currency signs, arrows, emoji, ...) count as word characters, which they are not for Python: eight digits written right against one of them are not found as a CIN. `lower()` covers ASCII and Latin-1 letters only.
- `Ingestion.Suffix` follows `Path.suffix` up to Python 3.12: a trailing dot gives no suffix. Newer Python returns "." there, which is never a readable suffix, so the documents loaded are the same.
- `Chunking.HardSplit`, `Chunking.PackParagraphs`, `Chunking.ApplyOverlap`, `Ingestion.NumberParts`, `Agent.Answer` and `Agent.RetrieveAndAnswer` are loops or branches of one source function, written as separate methods. They run in the same order as in the source.
- `Chunking.ChunkSpecBound`: the bound is `chunk_size + overlap`, not `chunk_size`. The overlap pass prepends up to `overlap` characters to a chunk that may already be full.
- The overlap pass strips `tail + chunk`. A chunk therefore need not begin with the previous chunk's tail when that tail starts with whitespace (`Chunking.OverlapStripsTail`). The model follows the code.
- The refusal text joins its two sentences with no space before "Raison:", exactly as the source writes it (`Agent.RefusalText`).
- Exceptions are the constructors of `Chunking.ChunkError` and `RagStore.StoreError`, each named after the check that fails. Their message text is left out, because nothing in the core reads it. In particular `LengthMismatch` does not say which argument of the strict `zip` ran out first.
- `RagStore.DefaultEmbedModel` is the fallback of `DEFAULT_EMBED_MODEL`. The source reads the `EMBED_MODEL` environment variable first (assistant/config.py, lines 42-43). The environment is not part of this model.
- `Storage.Paths` holds the index locations only. `Paths.data_raw` is read by the ingestion script, which passes it to `load_documents`; that script is not part of the core.
- `Chunking.PackKeepsText` and `Chunking.ChunkSpecKeepsText` are stated for `overlap == 0`. With an overlap, windows and the overlap pass repeat characters, so the chunks hold the text with repetitions. For any overlap the structure is stated instead: the buffer is a run of consecutive paragraphs (`Chunking.PackBufferIsRun`), an overflowing paragraph becomes its own windows (`Chunking.OverflowStartsFresh`), and the windows rebuild it (`Chunking.WindowsRebuild`).
- The `reports/` paths, the evaluation script and the command-line and HTTP entry points are callers of the core, not part of it.
