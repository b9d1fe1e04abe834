# Voice_Convo_AI — query engine and conversation turn, in Dafny

This project models the core of a voice-driven question-answering service.
The service keeps one uploaded CSV table of commercial property listings. It
answers a spoken question in five steps:

1. transcribe the audio;
2. pick the matching listing rows with four keyword heuristics;
3. render the rows as text;
4. ask a chat model, under a fixed system instruction;
5. synthesize the answer as speech.

The model covers five source files:

- `app/utils/query_parser.py`, the row-selection engine. It is modelled as pure
  functions over a `Table` value. The two matchers that loop in the source also
  have a `method` with its loops, proved equal to the function.
- `app/services/rag.py`, the loaded table and the text context. The loaded table
  is the field of class `KnowledgeBase`; the context is rendered from the
  matching rows.
- `app/memory/memory_store.py`, the conversation memory. It is class
  `ConversationMemory`, whose field is a `seq` of messages.
- `app/services/llm.py`, the generation wrapper. It builds the two messages
  sent to the model, strips the reply, and records both turns in the memory.
- `app/api/endpoints.py`, the three request handlers.

Collaborators the core cannot see are parameters:

- the chat model is a function from the messages sent to an outcome: a reply,
  a rate-limit error or another error;
- the similarity score `fuzz.partial_ratio` is a function into `0..100`;
- speech synthesis is a function from the answer text to its outcome: audio
  or a failure;
- transcription and `read_csv` are given by the outcome they produced.

Data model:

- A cell is a text or NaN (`Missing`).
- A row is a map from column name to cell.
- A table holds its column names and its rows, both in order. A table that
  `read_csv` produced is well-formed: each row has a cell for every column
  and for no other, and no column name is repeated (`Tables.WellFormed`). An
  upload is required to be so.
- An exception the query code lets escape is an `Err(KeyError(column))` or an
  `Err(ValueError(message))`. It ends the query and reaches the caller's
  `{error}` envelope.
- Python floats are exact reals.
- Lower-casing covers the ASCII letters only.
- Whitespace is the set that `str.isspace` accepts.

How the code behaves where a reader might expect otherwise:

- A missing column raises `KeyError`. No matcher skips a missing column.
- An exception in any matcher ends the whole query. The answers of the other
  matchers are dropped with it.
- The context is a raw `column: value` dump of every column of every matching
  row.
- The merge does not always remove a listing found twice (see Findings).

## Model

| member | source | states |
|---|---|---|
| Seqs.Filter | app/utils/query_parser.py:22 | a boolean mask keeps exactly the rows that satisfy it, and never more rows than the input has; its order is stated by `Seqs.FilterSplits` |
| Seqs.FilterSplits | app/utils/query_parser.py:22 | a mask keeps the order of the rows it keeps: selecting from two runs is selecting from each, one after the other |
| Seqs.FilterOfSingleton | app/utils/query_parser.py:22 | of one row a mask keeps that row or nothing |
| Seqs.Dedup | app/utils/query_parser.py:82 | `drop_duplicates` keeps every value that occurs, with no value twice |
| Seqs.DedupKeepsFirstAppearanceOrder | app/utils/query_parser.py:82 | two kept values appear in the order of their first occurrences in the input |
| Seqs.DedupOfDistinct | app/utils/query_parser.py:82 | an input without repeats passes `drop_duplicates` unchanged |
| Seqs.Flatten | app/utils/query_parser.py:82 | `pd.concat` holds exactly the rows of its parts |
| Seqs.FlattenSkipsEmpty | app/utils/query_parser.py:78 | dropping the empty answers before `pd.concat` does not change the concatenation |
| Seqs.SplitOn | app/services/rag.py:27-31 | a split always yields at least one piece |
| Seqs.JoinWith | app/services/rag.py:27-31 | `sep.join(parts)`: the parts with the separator between consecutive ones (a definition; its meaning is stated by the two round-trip lemmas) |
| Seqs.SplitJoinRoundTrip | app/services/rag.py:27-31 | joining parts that lack the separator and splitting again gives the parts back |
| Seqs.JoinSplitRoundTrip | app/services/rag.py:27-31 | splitting at a separator and joining again gives the text back |
| Strings.Strip | app/api/endpoints.py:33 | `strip()` is the text left between a leading and a trailing run of whitespace of its input: it starts and ends with a non-space character, or it is empty and the input was all whitespace |
| Strings.StripOfSpace | app/api/endpoints.py:33 | an all-whitespace text strips to the empty text |
| Strings.StripIdempotent | app/api/endpoints.py:33 | stripping twice is stripping once |
| Strings.Truncate | app/api/endpoints.py:38 | `s[:n]` is a prefix of `s`, of length `min(len(s), n)` |
| Strings.Lower | app/utils/query_parser.py:16 | `str.lower()`: each ASCII capital replaced by its small letter, every other character kept (a definition) |
| Strings.LowerIdempotent | app/utils/query_parser.py:46 | lower-casing a lower-cased text changes nothing |
| Strings.Contains | app/utils/query_parser.py:19 | `needle in haystack`: the needle occurs at some position of the haystack (a definition) |
| Tables.Present | app/utils/query_parser.py:45 | `dropna()` keeps exactly the text values of the column; its order is stated by `Tables.PresentSplits` |
| Tables.PresentSplits | app/utils/query_parser.py:45 | `dropna()` keeps row order: the values of two runs of rows are the values of each, one after the other |
| Tables.DistinctValues | app/utils/query_parser.py:45 | `dropna().unique()` holds each present value of the column once, and no other value; its order is stated by `Tables.DistinctValuesOrder` |
| Tables.DistinctValuesOrder | app/utils/query_parser.py:45 | `unique()` lists values in order of first appearance: an earlier value occurs in some row before the first row holding a later one |
| Tables.IsEmpty | app/services/rag.py:20-24 | on a table as `read_csv` produces it, `.empty` holds exactly when no row holds a cell |
| Tables.CellStr | app/services/rag.py:28 | `astype(str)` gives a text cell's own text, and "nan" exactly for NaN or the text "nan" |
| Tables.ErrorText | app/api/endpoints.py:70 | `str(e)`: a `KeyError` prints as its key between single quotes, a `ValueError` as its message |
| Tables.RowsEqualIffCellsEqual | app/utils/query_parser.py:57 | in a table with a cell for every column, two rows are equal exactly when they agree on every column, as `drop_duplicates` compares them |
| QueryParser.KeepNumericSplits | app/utils/query_parser.py:9 | removing every non-digit, non-dot character distributes over concatenation |
| QueryParser.KeepNumericOfChar | app/utils/query_parser.py:9 | a single character survives exactly when it is a digit or a dot |
| QueryParser.KeepNumeric | app/utils/query_parser.py:9 | the characters kept are exactly the digits and dots of the input, and never more characters than it has |
| QueryParser.CellNumber | app/utils/query_parser.py:8-11 | a cell converts exactly when its sanitized text parses as a float, and then to that float; otherwise a `ValueError`; NaN converts to 0 |
| QueryParser.Superlative | app/utils/query_parser.py:21-23 | "maximum" or "highest" asks for the highest value; otherwise "minimum" or "lowest" for the lowest; otherwise no superlative |
| QueryParser.SanitizedText | app/utils/query_parser.py:8-10 | the cell's text with every non-digit, non-dot character removed, or "0" when nothing is left |
| QueryParser.ParseFloat | app/utils/query_parser.py:11 | `float()` of such a text succeeds exactly when it has at most one dot and at least one digit |
| QueryParser.ParseFloatOfNatDigits | app/utils/query_parser.py:11 | converting the decimal digits of a whole number gives that number back |
| QueryParser.ColumnNumbers | app/utils/query_parser.py:5-13 | sanitizing a column succeeds exactly when every cell converts, and then gives each row's value in row order |
| QueryParser.PriceColumn | app/utils/query_parser.py:19-33 | the column of the first price keyword in test order that the query contains is chosen, and none when it contains none |
| QueryParser.MaxOf | app/utils/query_parser.py:22 | `max()` is a value of the column and no value exceeds it |
| QueryParser.MinOf | app/utils/query_parser.py:24 | `min()` is a value of the column and no value is below it |
| QueryParser.ExtremeRows | app/utils/query_parser.py:20-24 | a missing column raises `KeyError`, an unconvertible cell raises the conversion error, and a query without a superlative falls through to no rows |
| QueryParser.ExtremeRowsAreExtreme | app/utils/query_parser.py:21-24 | with a superlative, exactly the rows whose value is the column's maximum (or minimum) are kept, ties included |
| QueryParser.PriceMatches | app/utils/query_parser.py:15-40 | no price keyword gives no rows; otherwise the chosen column's branch decides; every row answered is a table row |
| QueryParser.FirstMentioned | app/utils/query_parser.py:45-46 | picks the first name, in order, that occurs lower-cased in the query; none when no name occurs |
| QueryParser.AssociatesFrom | app/utils/query_parser.py:42-48 | the associate scan answers only with rows of the table |
| QueryParser.AssociateMatches | app/utils/query_parser.py:42-48 | `match_associates` answers with rows of the table, or raises `KeyError` for an associate column the table lacks |
| QueryParser.MatchAssociates | app/utils/query_parser.py:42-48 | the nested loops with early returns compute exactly the associate scan |
| QueryParser.MentionedIffFirstMentioned | app/utils/query_parser.py:45-46 | some row's value in a column occurs in the query exactly when the scan of that column's distinct values finds one |
| QueryParser.AssociatesEmptyIffNoMention | app/utils/query_parser.py:42-48 | no associate rows exactly when all four columns exist and none of their values occurs in the query |
| QueryParser.AssociatesFirstMention | app/utils/query_parser.py:43-47 | the first column that mentions a name decides: exactly the rows whose value equals that name, case-insensitively; a missing column reached first raises `KeyError` |
| QueryParser.SpaceRun | app/utils/query_parser.py:51 | `\s+` consumes exactly the leading whitespace |
| QueryParser.AlnumRun | app/utils/query_parser.py:51 | `[a-zA-Z0-9]+` consumes exactly the leading alphanumerics |
| QueryParser.MatchAt | app/utils/query_parser.py:51 | a match is the keyword, whitespace, then a non-empty alphanumeric token that is captured and that the next character does not extend (greedy `+`) |
| QueryParser.MatchAtMeaning | app/utils/query_parser.py:51 | no match exactly when no keyword, whitespace and alphanumeric run starts the text; a match is such a run, with its whitespace and token spelled out |
| QueryParser.FindTokens | app/utils/query_parser.py:51-52 | every token found is non-empty and alphanumeric; which tokens, and in what order, is stated by `QueryParser.FindTokensCaptures` and `QueryParser.FindTokensLeftmost` |
| QueryParser.FindTokensEmptyIff | app/utils/query_parser.py:51-54 | no tokens exactly when the pattern matches at no position |
| QueryParser.FindTokensCaptures | app/utils/query_parser.py:51-52 | every token `findall` returns is the capture of a match at some position |
| QueryParser.FindTokensLeftmost | app/utils/query_parser.py:51-52 | the first token is the capture at the leftmost matching position, and the search resumes after that match |
| QueryParser.TokenRows | app/utils/query_parser.py:54-55 | no tokens give no rows; otherwise a missing column raises `KeyError`, else exactly the rows whose lower-cased value is a token |
| QueryParser.FloorSuiteMatches | app/utils/query_parser.py:50-57 | the floor and suite rows without repeats; a missing Floor (or Suite) column raises only when floor (or suite) tokens were found, with Floor checked first; its order is stated by `QueryParser.FloorBeforeSuite` |
| QueryParser.FloorBeforeSuite | app/utils/query_parser.py:54-57 | a floor row comes before every row that is only a suite row |
| QueryParser.PropertyMatches | app/utils/query_parser.py:59-68 | exactly the rows whose address scores at least the threshold; empty exactly when no distinct address reaches it; a missing address column raises |
| QueryParser.MatchPropertyName | app/utils/query_parser.py:59-68 | the loop collecting matching addresses computes exactly `PropertyMatches` |
| QueryParser.Combine | app/utils/query_parser.py:77-85 | no result exactly when every answer is empty; otherwise a non-empty merge without repeats holding exactly the rows of the answers |
| QueryParser.CombineOrder | app/utils/query_parser.py:82 | merged rows come in order of first appearance across the answers |
| QueryParser.ParseAndFilter | app/utils/query_parser.py:70-85 | succeeds exactly when all four matchers do, and then merges their answers in the fixed order; otherwise the exception of the first matcher to raise, in the order price, associate, floor/suite, address |
| QueryParser.MatchersFromTable | app/utils/query_parser.py:71-75 | every matcher answers with rows of the table |
| QueryParser.ParseAndFilterResult | app/utils/query_parser.py:77-85 | `None` exactly when every matcher found nothing; otherwise a non-empty answer of table rows without repeats, each found by some matcher |
| QueryParser.ParseAndFilterOrder | app/utils/query_parser.py:82 | answer rows follow first appearance across the price, associate, floor/suite and address answers |
| QueryParserAsWritten.Lift | app/utils/query_parser.py:73-75 | a row the other matchers answer with is the original row: the same columns, the same cells |
| QueryParserAsWritten.SanitizedRows | app/utils/query_parser.py:5-13 | the sanitized copy is the table with the price column replaced by its floats |
| QueryParserAsWritten.PriceMatchesAsWritten | app/utils/query_parser.py:15-40 | the source's price matcher raises exactly when the corrected one does, and each row it answers holds a float in the price column |
| QueryParserAsWritten.ParseAndFilterAsWritten | app/utils/query_parser.py:70-85 | the source's merge succeeds exactly when the corrected merge does |
| QueryParserAsWritten.PriceKeepsOnlyRow | app/utils/query_parser.py:21-22 | on a one-row table, a superlative price query keeps exactly that row |
| QueryParserAsWritten.PriceAsWrittenKeepsOnlyRow | app/utils/query_parser.py:20-22 | as written, the same query keeps only the sanitized copy of the row |
| QueryParserAsWritten.SanitizedDiffers | app/utils/query_parser.py:20 | a sanitized row never equals an original row |
| QueryParserAsWritten.CombineTwo | app/utils/query_parser.py:82 | merging answers that hold two different rows keeps both |
| QueryParserAsWritten.CombineOne | app/utils/query_parser.py:82 | merging answers that all hold one row gives that row once |
| QueryParserAsWritten.AsWrittenListsRowTwice | app/utils/query_parser.py:20-22 | as written, a row found by both the price and the associate matcher is listed both as its sanitized copy and as itself, so the answer is longer than the table |
| QueryParserAsWritten.CorrectedListsRowOnce | app/utils/query_parser.py:82 | with the price matcher answering with original rows, the same input gives the row exactly once |
| QueryParserAsWritten.FirstRaisedErrorReported | app/utils/query_parser.py:71-75 | asked "highest annual rent bob", a table with only an Annual Rent column reports the missing "Associate 1" (as `'Associate 1'`), not the missing address column |
| QueryParserAsWritten.ListingRent | app/utils/query_parser.py:5-13 | the cell "$100" sanitizes to 100 |
| QueryParserAsWritten.AskedQueryFacts | app/utils/query_parser.py:19-21 | the example question picks "Annual Rent", asks for the highest value, and mentions "bob" |
| QueryParserAsWritten.AssociateFindsListing | app/utils/query_parser.py:45-47 | the associate matcher finds the example listing |
| QueryParserAsWritten.OneListingWellFormed | app/services/rag.py:11 | the example table has a cell for every column, as one `read_csv` produces |
| QueryParserAsWritten.ListingAnsweredTwiceAsWritten | app/utils/query_parser.py:82 | the example listing is answered twice as written and once when corrected |
| Rag.Lines | app/services/rag.py:29 | a row renders as one `column: value` line per column, in column order |
| Rag.RenderRows | app/services/rag.py:27-31 | no rows render as the empty text, and one row as its own block |
| Rag.RowBlocks | app/services/rag.py:28-30 | one text block per matching row, in answer order |
| Rag.RenderedLines | app/services/rag.py:27-31 | when no column name or cell contains a line break, the context cut at line breaks is each row's lines in order, with one empty line between rows |
| Rag.RenderedIsNotBlank | app/services/rag.py:27-31 | the rendering of at least one row is never blank |
| Rag.StructuredContext | app/services/rag.py:18-31 | nothing loaded gives "No data loaded yet."; a query-engine error propagates; no match gives ""; otherwise the rendered rows of the corrected query engine |
| Rag.KnowledgeBase.constructor | app/services/rag.py:5 | the global table starts empty |
| Rag.KnowledgeBase.IngestAndIndexDoc | app/services/rag.py:7-16 | true and the table replaced exactly when the upload parsed; otherwise false and the table kept; a table with a cell for every column stays so |
| Rag.KnowledgeBase.QueryStructuredData | app/services/rag.py:18-31 | answers from the loaded table and changes nothing |
| Rag.KnowledgeBase.QueryRagContext | app/services/rag.py:33-34 | the same answer as `query_structured_data` |
| Rag.ContextBlankIffNoMatch | app/services/rag.py:20-25 | the context is blank exactly when a table is loaded and nothing matched |
| MemoryStore.ConversationMemory.constructor | app/memory/memory_store.py:3 | the memory starts empty |
| MemoryStore.ConversationMemory.AddMessage | app/memory/memory_store.py:5-6 | exactly one message is appended and the earlier ones are unchanged |
| MemoryStore.ConversationMemory.GetConversation | app/memory/memory_store.py:8-9 | a copy of the list, leaving the store unchanged |
| MemoryStore.ConversationMemory.ResetMemory | app/memory/memory_store.py:11-12 | the list is emptied |
| MemoryStore.ResetThenRead | app/memory/memory_store.py:5-12 | after a reset the store reads back empty, and one addition then holds only that message |
| Llm.UserContent | app/services/llm.py:24-28 | with a context, the question and the context can both be cut back out of the user turn; with an empty context the turn is the question itself |
| Llm.BuildConversation | app/services/llm.py:13-31 | exactly two messages: the fixed system instruction, then the user turn |
| Llm.GenerationOf | app/services/llm.py:34-40 | a reply is stripped; a rate-limit error and any other error are passed on |
| Llm.GenerateResponse | app/services/llm.py:7-46 | the result of one model call; on success the question then the reply are appended to the memory, and on an error the memory is unchanged |
| Endpoints.BoundedContext | app/api/endpoints.py:37-46 | the instruction, then at most the first 3000 characters of the context |
| Endpoints.Answer | app/api/endpoints.py:32-46 | a blank context gives the fallback sentence; otherwise the model is asked with the question and the bounded context; a reply is stripped |
| Endpoints.ReplyFor | app/api/endpoints.py:40-66 | the error envelope exactly when generation failed, with its message; a rate limit gives the apology; a reply is returned with audio exactly when synthesis succeeded |
| Endpoints.TurnsFor | app/api/endpoints.py:32-46 | turns are recorded exactly when the context is not blank and the model replied, and then they are the question and the reply |
| Endpoints.Respond | app/api/endpoints.py:12-70 | the error envelope exactly when transcription, the query engine or the model call failed; otherwise the reply for the retrieved context |
| Endpoints.TurnsAdded | app/api/endpoints.py:12-70 | a turn adds nothing, or two messages: the user's transcribed question, then a stripped assistant reply |
| Endpoints.Voiced | app/api/endpoints.py:57-66 | the answer text is always returned, with audio exactly when synthesis succeeded |
| Endpoints.Converse | app/api/endpoints.py:12-70 | the reply and the new memory are those of the step-by-step definition of a turn |
| Endpoints.AnswerAndSpeak | app/api/endpoints.py:33-66 | steps 3 to 5 of a turn: the fallback or the model's answer, then synthesis |
| Endpoints.BlankContextFallsBack | app/api/endpoints.py:33-34 | a blank context gives the fallback sentence; the model is not asked and no turn is recorded |
| Endpoints.FallbackOnlyWithoutMatch | app/api/endpoints.py:33-34 | the fallback happens exactly when a table is loaded and nothing matched; with nothing loaded, the model is asked with the "no data" sentence |
| Endpoints.ModelOutcomes | app/api/endpoints.py:40-52 | a rate limit gives the apology without audio and no turns; another model error gives the error envelope; a reply is stripped, recorded as two turns and voiced |
| Endpoints.ModelOutcomesFor | app/api/endpoints.py:40-52 | the same three outcomes for any non-blank context |
| Endpoints.ModelSeesQuestionAndContext | app/api/endpoints.py:42-46 | the model's user turn carries the question and the instruction-prefixed context |
| Endpoints.ErrorsGiveEnvelope | app/api/endpoints.py:68-70 | a transcription or query-engine exception gives `{error: str(e)}` and records nothing |
| Endpoints.UploadDocs | app/api/endpoints.py:73-80 | "success" exactly when the upload was indexed, "failed" otherwise; a table with a cell for every column stays so |
| Endpoints.ResetContext | app/api/endpoints.py:82-90 | the memory is cleared and "reset successful" is returned |

## Left out

- Reading the CSV file and printing log lines are I/O. They are left out; `read_csv` is given by its outcome.
- Speech-to-text, text-to-speech and the chat model are external services. They are parameters of the model.
- `read_csv` infers a type for each column. The model treats every non-empty cell as text. A numeric Floor or Suite column, whose `.str.lower()` would raise `AttributeError`, is therefore not modelled.
- Floats are exact reals. Rounding in `float()` and in `max`/`min` is not modelled.
- `str.lower` and the `\d` class are modelled on ASCII only.
- `fuzz.partial_ratio` is an abstract scoring function. Its algorithm belongs to a library outside the core.
- `sanitize_currency_column` writes the floats into the copy's column in place. The model builds the sanitized rows as a new value, `QueryParserAsWritten.SanitizedRows`, so the in-place update is not captured.
- `get_conversation` returns a shallow copy, so the message dictionaries are shared. The model's copy is a value, so this aliasing is not captured.
- Memory is written after every successful generation, but the core never reads it back into a prompt. The model reflects that: no prompt depends on the memory.
- `app/api/endpoints.py:7` imports `format_property_results` from a module with no such function. The model takes the handler as if that import resolved.
- The DataFrame branch at `app/api/endpoints.py:23-30` cannot be reached, because the context is always a string. It is not modelled.
- The rate-limit branch at `app/api/endpoints.py:47` names `openai.error.RateLimitError`. The 1.x client that `llm.py` uses does not define that name. The model takes the branch as the handler intends: a rate-limit outcome of the chat model gives the apology.
- The exception branches of `upload_docs` and `reset_context` cannot be reached, since ingestion catches everything and clearing a list does not raise. They are not modelled.
- Concurrency between requests sharing the global table and memory is not modelled. Each handler is one sequential step.
- `app/main.py` startup is not part of this model.
- QueryParserAsWritten.AsWrittenListsRowTwice: states that the answer is longer than the one-row table, rather than exactly two rows long.
- Tables.ErrorText: Python quotes a key with `repr`, which switches to double quotes or escapes when the key holds a quote or a backslash. The keys raised here are the fixed column names, which hold neither, so only single quotes are modelled.
- Rag.StructuredContext: the context is rendered from the corrected price matcher (see Findings). Where the code's answer holds a price row, the model shows the price cell as its original text, not as the float `astype(str)` would print (`100.0`), and a listing that two matchers both find is shown once rather than twice.

## Findings

| source | as written | input that shows it | evidently intended | confidence | as-written member | corrected member |
|---|---|---|---|---|---|---|
| app/utils/query_parser.py:20-22 | the price matcher returns rows of its sanitized copy, whose price column holds floats, so the `drop_duplicates` at line 82 cannot merge them with the same listing found by another matcher | one listing with Annual Rent "$100" and Associate 1 "bob", and the question "highest annual rent bob": the answer lists that listing twice | each listing appears once in the merged answer, so the price matcher should return the original rows | not executed | QueryParserAsWritten.ListingAnsweredTwiceAsWritten | QueryParserAsWritten.CorrectedListsRowOnce |
