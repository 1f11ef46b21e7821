# Spring AI tutorial samples: the deterministic core in Dafny

The repository is a set of small Spring AI tutorial applications written in Kotlin. Most of their code builds a prompt, calls a chat, embedding or image model and reshapes the reply. Between those calls sits ordinary deterministic logic, and that logic is what this project models and proves properties of. The model calls become inputs: an LLM reply is a string, an embedding similarity is a given real score, a vector-store search is a sequence of documents, and a chat model is a function from prompt to answer.

The modules follow the source files, one module per file:

- **LLM output parsers and cleaners.**
  - `ListOutputParser` and `MapOutputParser` turn replies into lists and insertion-ordered maps.
  - `JsonCleaner` and `BeanOutputParser` strip Markdown fences and comment lines and cut out the outer JSON span.
  - `ComplexParser` is the "Category:" line state machine and the blank-line block split.
  - `DocumentChunker` is the fixed-width chunker.
- **In-memory stores.** Each is a class whose methods update their fields, with `modifies` frames and postconditions that state the whole new state.
  - `Conversation` keeps per-session histories and limits them.
  - `ChatHistory` keeps per-session chat histories.
  - `OrderService` is the order table.
  - `DocumentTracker` records the last hash per document. `EtlPipeline` is the run that classifies files as new, updated or skipped.
  - `SimpleSemanticSearch` is the document list with search.
  - `SpecDocument` is the specification's document store.
- **OpenAPI specification pipeline.**
  - `SpecParser` works over datatype models of the swagger objects.
  - `SpecDocument` flattens metadata with `;`, `,` and `:`. `SpecSearch` parses it back.
  - `SpecFormatter` emits YAML line by line.
  - `YamlExtractor` collects `$ref`s recursively over a YAML tree. `OpenApiModel` holds the shared records.
- **Algorithms over similarity scores.**
  - `TextClustering` is greedy threshold clustering.
  - `DuplicateDetection` and `PairwiseSimilarity` run over the shared pair loops in `SimilarityPairs`.
  - `TopKSimilarity`, `ThresholdSimilarity`, `MultipleSimilarity` and `SemanticSearch` score, sort and select.
  - `SimilarityUtils` holds the cosine guards and the verbal bands.
  - `RagService` assembles retrieval-augmented prompts.
- **Validators and decision rules.**
  - `ImageValidation` validates uploads. `VisionService` picks the MIME type from the file extension.
  - `ModelSelector` chooses between the paid and the local model.
  - `RoleClient` chooses system prompts by role.
  - `McpServer` holds the 32-bit calculator, case conversion and `{key}` template filling.

Shared modules model the Kotlin library behaviour the code relies on:

- `Strings` covers `trim`, `lines`, `split`, `joinToString`, `replace`, `trimIndent`, `indexOf`, `distinct`, `filter` and `mapNotNull`, with ASCII case mapping. Whitespace is the JVM `isWhitespace` set, Unicode spaces included.
- `Strings` also encodes text as UTF-16 code units. Kotlin's `length` and `substring` count those units, so the length bounds and the chunker use them.
- `Sorting` is the stable `sortedByDescending` and `take`.
- `Wrappers` provides `Option` for nullable values and `Result` for thrown exceptions.

Kotlin `Int` arithmetic is written out as 32-bit wrap-around, and its division as truncation toward zero.
Doubles are modelled as reals.

## Model

| member | source | states |
|---|---|---|
| ListOutputParser.Pieces | 4.2.ParseListAndMap/sample/src/main/kotlin/com/example/springai/util/ListOutputParser.kt:29-35 | every piece of a trimmed non-empty line is non-empty and trimmed: the pieces of a split on a non-newline separator, or the line itself |
| ListOutputParser.FlatPieces | 4.2.ParseListAndMap/sample/src/main/kotlin/com/example/springai/util/ListOutputParser.kt:27-36 | the flattened pieces of all lines are all non-empty and trimmed |
| ListOutputParser.FlatPiecesMember | 4.2.ParseListAndMap/sample/src/main/kotlin/com/example/springai/util/ListOutputParser.kt:27-36 | a string is in the flattening exactly when it is a piece of one of the lines |
| ListOutputParser.Parse | 4.2.ParseListAndMap/sample/src/main/kotlin/com/example/springai/util/ListOutputParser.kt:22-38 | every returned item is non-empty and trimmed, and no item is returned twice |
| ListOutputParser.ParseMember | 4.2.ParseListAndMap/sample/src/main/kotlin/com/example/springai/util/ListOutputParser.kt:22-38 | a string is returned exactly when it is a piece of some trimmed, non-empty input line |
| ListOutputParser.NewlineItemsAreLines | 4.2.ParseListAndMap/sample/src/main/kotlin/com/example/springai/util/ListOutputParser.kt:24-35 | with the separator "\n" the items are exactly the non-empty trims of the input lines |
| ListOutputParser.ItemsAvoidSeparator | 4.2.ParseListAndMap/sample/src/main/kotlin/com/example/springai/util/ListOutputParser.kt:29-32 | with any other non-empty separator no item contains the separator |
| ListOutputParser.ItemIsSubstring | 4.2.ParseListAndMap/sample/src/main/kotlin/com/example/springai/util/ListOutputParser.kt:22-38 | every item is a substring of the input text |
| ListOutputParser.BlankYieldsNothing | 4.2.ParseListAndMap/sample/src/main/kotlin/com/example/springai/util/ListOutputParser.kt:24-26 | empty or whitespace-only text gives the empty list |
| ListOutputParser.FirstOccurrenceOrder | 4.2.ParseListAndMap/sample/src/main/kotlin/com/example/springai/util/ListOutputParser.kt:37 | items keep the order of their first occurrence among the flattened pieces |
| MapOutputParser.KeysCons | 4.2.ParseListAndMap/sample/src/main/kotlin/com/example/springai/util/MapOutputParser.kt:30 | the keys of a list with an entry in front are that entry's key and the rest's keys |
| MapOutputParser.Lookup | 4.2.ParseListAndMap/sample/src/main/kotlin/com/example/springai/util/MapOutputParser.kt:30 | a map lookup finds nothing exactly when the key is absent |
| MapOutputParser.Put | 4.2.ParseListAndMap/sample/src/main/kotlin/com/example/springai/util/MapOutputParser.kt:30 | an insertion-ordered put keeps keys distinct, adds the key, and grows the map only for a new key |
| MapOutputParser.PutLookupSame | 4.2.ParseListAndMap/sample/src/main/kotlin/com/example/springai/util/MapOutputParser.kt:30 | after a put the key maps to the new value |
| MapOutputParser.PutLookupOther | 4.2.ParseListAndMap/sample/src/main/kotlin/com/example/springai/util/MapOutputParser.kt:30 | a put leaves every other key's value unchanged |
| MapOutputParser.Associate | 4.2.ParseListAndMap/sample/src/main/kotlin/com/example/springai/util/MapOutputParser.kt:30-35 | associate yields distinct keys, exactly the keys given, and at most one entry per pair |
| MapOutputParser.LaterWins | 4.2.ParseListAndMap/sample/src/main/kotlin/com/example/springai/util/MapOutputParser.kt:30 | a pair whose key does not occur later determines that key's value: the last line for a key wins |
| MapOutputParser.AssociateDistinct | 4.2.ParseListAndMap/sample/src/main/kotlin/com/example/springai/util/MapOutputParser.kt:30 | pairs with distinct keys are kept as they are, in order |
| MapOutputParser.AssociateSnoc | 4.2.ParseListAndMap/sample/src/main/kotlin/com/example/springai/util/MapOutputParser.kt:30 | associating one more pair is a put of that pair on the map so far |
| MapOutputParser.AssociateLookupIn | 4.2.ParseListAndMap/sample/src/main/kotlin/com/example/springai/util/MapOutputParser.kt:30 | every value found in the map comes from a pair with that key |
| MapOutputParser.PutNewAppends | 4.2.ParseListAndMap/sample/src/main/kotlin/com/example/springai/util/MapOutputParser.kt:30 | a put of a new key appends it at the end |
| MapOutputParser.WithSeparator | 4.2.ParseListAndMap/sample/src/main/kotlin/com/example/springai/util/MapOutputParser.kt:29 | the filter keeps exactly the lines that contain the separator, and only those |
| MapOutputParser.ContributingLines | 4.2.ParseListAndMap/sample/src/main/kotlin/com/example/springai/util/MapOutputParser.kt:26-29 | every contributing line is trimmed, non-empty and contains the separator |
| MapOutputParser.EntriesOf | 4.2.ParseListAndMap/sample/src/main/kotlin/com/example/springai/util/MapOutputParser.kt:30-35 | one key/value pair per contributing line, in order |
| MapOutputParser.Parse | 4.2.ParseListAndMap/sample/src/main/kotlin/com/example/springai/util/MapOutputParser.kt:25-36 | the parsed map has distinct keys and at most one entry per contributing line |
| MapOutputParser.EntrySplitsAtFirst | 4.2.ParseListAndMap/sample/src/main/kotlin/com/example/springai/util/MapOutputParser.kt:31-33 | the key is the trimmed text before the first separator and the value the trimmed rest, which may contain the separator |
| MapOutputParser.EntryAt | 4.2.ParseListAndMap/sample/src/main/kotlin/com/example/springai/util/MapOutputParser.kt:31-33 | the split at the found first separator gives the trimmed text on each side |
| MapOutputParser.EntryOfKeyValue | 4.2.ParseListAndMap/sample/src/main/kotlin/com/example/springai/util/MapOutputParser.kt:31-33 | a line key + separator + value with no separator in the key gives the trimmed key and trimmed value |
| MapOutputParser.LastLineWins | 4.2.ParseListAndMap/sample/src/main/kotlin/com/example/springai/util/MapOutputParser.kt:30 | the value of a key is that of the last contributing line with that key |
| MapOutputParser.KeysFromContributingLines | 4.2.ParseListAndMap/sample/src/main/kotlin/com/example/springai/util/MapOutputParser.kt:25-36 | the keys are exactly the keys of the contributing lines |
| MapOutputParser.DistinctKeysOnePerLine | 4.2.ParseListAndMap/sample/src/main/kotlin/com/example/springai/util/MapOutputParser.kt:25-36 | lines with distinct keys give exactly one entry each |
| MapOutputParser.NoSeparatorNoEntries | 4.2.ParseListAndMap/sample/src/main/kotlin/com/example/springai/util/MapOutputParser.kt:29 | text without the separator gives the empty map |
| JsonCleaner.KeepLineCases | 4.1.BeanOutputParserNDataClass/sample/src/main/kotlin/com/example/springai/util/JsonCleaner.kt:16-21 | an empty line is kept, a non-empty whitespace-only line is dropped, a kept line is never a comment, and a non-blank non-comment line is kept (the `&&`/`\|\|` precedence as written) |
| JsonCleaner.CleanJsonText | 4.1.BeanOutputParserNDataClass/sample/src/main/kotlin/com/example/springai/util/JsonCleaner.kt:10-24 | the cleaned text has no leading or trailing whitespace; its lines are the lines KeepLine accepts, in input order and as often as they occur (`Strings.Filter`, `Strings.FilterConcat`, `Strings.FilterMultiset`) |
| JsonCleaner.CleanKeepsBody | 4.1.BeanOutputParserNDataClass/sample/src/main/kotlin/com/example/springai/util/JsonCleaner.kt:10-24 | a trimmed JSON body without a fence whose lines are all kept comes back unchanged, bare, after a "```json" fence or after a plain "```" fence, each closed by "```" on its own line |
| JsonCleaner.StripJsonFenced | 4.1.BeanOutputParserNDataClass/sample/src/main/kotlin/com/example/springai/util/JsonCleaner.kt:12-13 | removing the fences from "```json", line break, body, line break, "```" leaves the body between two line breaks |
| JsonCleaner.StripPlainFenced | 4.1.BeanOutputParserNDataClass/sample/src/main/kotlin/com/example/springai/util/JsonCleaner.kt:12-13 | removing the fences from "```", line break, body, line break, "```" leaves the body between two line breaks |
| JsonCleaner.StripUnfenced | 4.1.BeanOutputParserNDataClass/sample/src/main/kotlin/com/example/springai/util/JsonCleaner.kt:12-13 | text without a fence is not changed by the fence removal |
| JsonCleaner.LinePhaseKeepsBody | 4.1.BeanOutputParserNDataClass/sample/src/main/kotlin/com/example/springai/util/JsonCleaner.kt:15-23 | splitting a trimmed body whose lines are all kept, filtering, joining and trimming gives the body back |
| JsonCleaner.NoFenceLeft | 4.1.BeanOutputParserNDataClass/sample/src/main/kotlin/com/example/springai/util/JsonCleaner.kt:12-13 | the cleaned text never contains a code fence |
| JsonCleaner.NoCommentTrimStart | 4.1.BeanOutputParserNDataClass/sample/src/main/kotlin/com/example/springai/util/JsonCleaner.kt:14 | trimming the front of a text keeps every line free of a leading `//` |
| JsonCleaner.NoCommentTrimEnd | 4.1.BeanOutputParserNDataClass/sample/src/main/kotlin/com/example/springai/util/JsonCleaner.kt:23 | trimming the end of a text keeps every line free of a leading `//` |
| JsonCleaner.JoinedKeptLines | 4.1.BeanOutputParserNDataClass/sample/src/main/kotlin/com/example/springai/util/JsonCleaner.kt:15-22 | joining the kept lines gives a text none of whose lines is a comment |
| JsonCleaner.NoCommentLineLeft | 4.1.BeanOutputParserNDataClass/sample/src/main/kotlin/com/example/springai/util/JsonCleaner.kt:10-24 | no line of the cleaned text starts with `//` after trimming |
| JsonCleaner.ExtractJsonObject | 4.1.BeanOutputParserNDataClass/sample/src/main/kotlin/com/example/springai/util/JsonCleaner.kt:29-38 | the extracted object is a substring of the input |
| JsonCleaner.ExtractJsonObjectCases | 4.1.BeanOutputParserNDataClass/sample/src/main/kotlin/com/example/springai/util/JsonCleaner.kt:30-37 | with a `{` before the last `}` the result is the span from the first `{` to the last `}`; otherwise the input unchanged |
| JsonCleaner.ExtractJsonObjectIdempotent | 4.1.BeanOutputParserNDataClass/sample/src/main/kotlin/com/example/springai/util/JsonCleaner.kt:29-38 | extracting twice gives what extracting once gives |
| BeanOutputParser.StripFence | 12.AnalysysResumeAndJson/sample/src/main/kotlin/com/example/resumeanalyzer/util/BeanOutputParser.kt:41-50 | the de-fenced text is trimmed and a substring of the input |
| BeanOutputParser.Unfence | 12.AnalysysResumeAndJson/sample/src/main/kotlin/com/example/resumeanalyzer/util/BeanOutputParser.kt:45 | removing a fence prefix and an optional closing fence, then trimming, gives a trimmed substring |
| BeanOutputParser.CleanJsonResponse | 12.AnalysysResumeAndJson/sample/src/main/kotlin/com/example/resumeanalyzer/util/BeanOutputParser.kt:40-61 | the cleaned response is always a substring of the original text |
| BeanOutputParser.JsonFenceStripped | 12.AnalysysResumeAndJson/sample/src/main/kotlin/com/example/resumeanalyzer/util/BeanOutputParser.kt:44-45 | a reply fenced as ```json loses exactly the two fences and the surrounding blanks |
| BeanOutputParser.PlainFenceStripped | 12.AnalysysResumeAndJson/sample/src/main/kotlin/com/example/resumeanalyzer/util/BeanOutputParser.kt:48-49 | a reply in a plain fence (not ```json) loses exactly the two fences and the blanks |
| BeanOutputParser.UnfencedOnlyTrimmed | 12.AnalysysResumeAndJson/sample/src/main/kotlin/com/example/resumeanalyzer/util/BeanOutputParser.kt:41-50 | text that does not start with a fence is only trimmed |
| BeanOutputParser.JsonFenceHasFence | 12.AnalysysResumeAndJson/sample/src/main/kotlin/com/example/resumeanalyzer/util/BeanOutputParser.kt:44-48 | a ```json fence is checked first because it also starts with the plain fence |
| BeanOutputParser.CleanCases | 12.AnalysysResumeAndJson/sample/src/main/kotlin/com/example/resumeanalyzer/util/BeanOutputParser.kt:53-60 | with an opening bracket before the last closing one the result is exactly the span from the first `{`/`[` to the last `}`/`]`; otherwise the trimmed, de-fenced text |
| BeanOutputParser.ExtractedSpanStable | 12.AnalysysResumeAndJson/sample/src/main/kotlin/com/example/resumeanalyzer/util/BeanOutputParser.kt:53-58 | an extracted span starts with an opening bracket, ends with a closing one, and cleaning it again leaves it unchanged |
| BeanOutputParser.SpanBracketed | 12.AnalysysResumeAndJson/sample/src/main/kotlin/com/example/resumeanalyzer/util/BeanOutputParser.kt:53-58 | the span starts with an opening and ends with a closing bracket |
| BeanOutputParser.BracketedUnfenced | 12.AnalysysResumeAndJson/sample/src/main/kotlin/com/example/resumeanalyzer/util/BeanOutputParser.kt:41-50 | a bracketed text carries no fence, so de-fencing keeps it |
| ComplexParser.HeaderName | 4.2.ParseListAndMap/sample/src/main/kotlin/com/example/springai/controller/ComplexParserController.kt:119 | the category name (the header line without its trailing `:`, trimmed) is trimmed |
| ComplexParser.CloseGood | 4.2.ParseListAndMap/sample/src/main/kotlin/com/example/springai/controller/ComplexParserController.kt:116-118 | closing a well-formed scan adds only categories with a non-empty trimmed name and non-empty, trimmed, non-header items |
| ComplexParser.StepOnGood | 4.2.ParseListAndMap/sample/src/main/kotlin/com/example/springai/controller/ComplexParserController.kt:114-123 | one loop step on a trimmed line keeps the scan well formed |
| ComplexParser.ScanLinesGood | 4.2.ParseListAndMap/sample/src/main/kotlin/com/example/springai/controller/ComplexParserController.kt:113-124 | the scan state after any number of lines is well formed |
| ComplexParser.Structured | 4.2.ParseListAndMap/sample/src/main/kotlin/com/example/springai/controller/ComplexParserController.kt:108-128 | every category has a non-empty trimmed name and its items are non-empty, trimmed and never end with `:` |
| ComplexParser.ScanLinesSnoc | 4.2.ParseListAndMap/sample/src/main/kotlin/com/example/springai/controller/ComplexParserController.kt:113-124 | scanning one line more is one more loop step |
| ComplexParser.StepItem | 4.2.ParseListAndMap/sample/src/main/kotlin/com/example/springai/controller/ComplexParserController.kt:121-123 | a line that is not a header adds its trim to the current items when non-empty and changes nothing else |
| ComplexParser.BodyAppendsItems | 4.2.ParseListAndMap/sample/src/main/kotlin/com/example/springai/controller/ComplexParserController.kt:113-124 | a run of non-header lines appends exactly its non-empty trimmed lines, in order, to the current items |
| ComplexParser.PreambleDropped | 4.2.ParseListAndMap/sample/src/main/kotlin/com/example/springai/controller/ComplexParserController.kt:110-120 | items before the first header are dropped |
| ComplexParser.HeaderSection | 4.2.ParseListAndMap/sample/src/main/kotlin/com/example/springai/controller/ComplexParserController.kt:115-127 | a header followed by non-header lines yields one category with that name and those items, or nothing when the name is empty (`:` alone) |
| ComplexParser.HeaderStep | 4.2.ParseListAndMap/sample/src/main/kotlin/com/example/springai/controller/ComplexParserController.kt:115-120 | a header closes the open category and starts a new one with no items |
| ComplexParser.CloseHeaderScan | 4.2.ParseListAndMap/sample/src/main/kotlin/com/example/springai/controller/ComplexParserController.kt:116-117 | the open category is kept only when its name is non-empty |
| ComplexParser.Summarize | 4.2.ParseListAndMap/sample/src/main/kotlin/com/example/springai/controller/ComplexParserController.kt:130-137 | the report lists the categories in order with their items, `itemCount` is each items' size, `totalCategories` the number of categories |
| ComplexParser.ScanLinesPrefix | 4.2.ParseListAndMap/sample/src/main/kotlin/com/example/springai/controller/ComplexParserController.kt:113-124 | the loop's state after i + 1 lines is one step from its state after i lines |
| ComplexParser.ParseStructured | 4.2.ParseListAndMap/sample/src/main/kotlin/com/example/springai/controller/ComplexParserController.kt:107-137 | the loop's report is the summary of the categories scanned from the lines |
| ComplexParser.NonBlank | 4.2.ParseListAndMap/sample/src/main/kotlin/com/example/springai/controller/ComplexParserController.kt:57 | the filter keeps exactly the parts that are not blank |
| ComplexParser.ParseCombined | 4.2.ParseListAndMap/sample/src/main/kotlin/com/example/springai/controller/ComplexParserController.kt:57-76 | `categoryCount` and `detailCount` are the sizes returned, categories are distinct and detail keys distinct |
| ComplexParser.CombinedBlank | 4.2.ParseListAndMap/sample/src/main/kotlin/com/example/springai/controller/ComplexParserController.kt:57-69 | a blank reply gives no categories and no details |
| ComplexParser.AllBlankNoBlocks | 4.2.ParseListAndMap/sample/src/main/kotlin/com/example/springai/controller/ComplexParserController.kt:57 | parts that are all blank leave nothing after the filter |
| ComplexParser.CombinedSingleBlock | 4.2.ParseListAndMap/sample/src/main/kotlin/com/example/springai/controller/ComplexParserController.kt:59-69 | a non-blank reply without a blank line gives the list parse of the whole text and an empty map |
| ComplexParser.CombinedCategoriesInText | 4.2.ParseListAndMap/sample/src/main/kotlin/com/example/springai/controller/ComplexParserController.kt:59-60 | every category is a substring of the reply |
| DocumentChunker.ChunksConcat | 5.1.EmbeddingClient/sample/src/main/kotlin/com/example/springai/controller/DocumentEmbeddingController.kt:49-60 | concatenating the chunks gives back the text exactly |
| DocumentChunker.ChunksLengths | 5.1.EmbeddingClient/sample/src/main/kotlin/com/example/springai/controller/DocumentEmbeddingController.kt:53-57 | every chunk is non-empty and at most `chunkSize` long, and every chunk but the last is exactly `chunkSize` long |
| DocumentChunker.ConsWellSized | 5.1.EmbeddingClient/sample/src/main/kotlin/com/example/springai/controller/DocumentEmbeddingController.kt:54-56 | a full chunk in front of well-sized chunks keeps them well sized |
| DocumentChunker.ChunksCount | 5.1.EmbeddingClient/sample/src/main/kotlin/com/example/springai/controller/DocumentEmbeddingController.kt:53-57 | the number of chunks k is the ceiling of length / `chunkSize`: (k - 1) · size < length <= k · size; no text gives no chunks and only then |
| DocumentChunker.SplitIntoChunks | 5.1.EmbeddingClient/sample/src/main/kotlin/com/example/springai/controller/DocumentEmbeddingController.kt:49-60 | for a positive size the loop returns the chunks of the UTF-16 code units; empty text gives none; a negative size on non-empty text fails with the message `substring` gives; a zero size on non-empty text is reported as an error instead of looping |
| DocumentChunker.ChunkEnd | 5.1.EmbeddingClient/sample/src/main/kotlin/com/example/springai/controller/DocumentEmbeddingController.kt:54 | a chunk ends after its start and within the text for a positive size, and before its start for a negative one |
| DocumentChunker.ZeroSizeStalls | 5.1.EmbeddingClient/sample/src/main/kotlin/com/example/springai/controller/DocumentEmbeddingController.kt:53-56 | with size 0 the loop as written cuts an empty piece and leaves `start` below the length, so it never ends |
| DocumentChunker.Describe | 5.1.EmbeddingClient/sample/src/main/kotlin/com/example/springai/controller/DocumentEmbeddingController.kt:33-42 | one description per chunk carrying its index, its code units and their number, which is Kotlin's `chunk.length` |
| DocumentChunker.EmbedDocument | 5.1.EmbeddingClient/sample/src/main/kotlin/com/example/springai/controller/DocumentEmbeddingController.kt:21-44 | the report gives the text's length in UTF-16 code units, the chunk count equal to the number of chunks, the size asked for and each chunk's description; a negative size fails as `substring` does; empty text gives an empty report |
| DocumentChunker.ReportRestoresText | 5.1.EmbeddingClient/sample/src/main/kotlin/com/example/springai/controller/DocumentEmbeddingController.kt:21-44 | the reported chunks, concatenated in order, decode to the original text and add up to its length |
| DocumentChunker.EmojiSplitsIntoSurrogates | 5.1.EmbeddingClient/sample/src/main/kotlin/com/example/springai/controller/DocumentEmbeddingController.kt:53-55 | size 1 cuts one emoji into two chunks, its two surrogates, neither of which decodes on its own |
| Conversation.Systems | 3.2.RoleBasedMessage/sample/src/main/kotlin/com/example/springai/controller/ConversationController.kt:110 | the kept system messages are all system messages, no more than the history holds |
| Conversation.Others | 3.2.RoleBasedMessage/sample/src/main/kotlin/com/example/springai/controller/ConversationController.kt:111 | the other messages are all non-system, no more than the history holds |
| Conversation.TakeLast | 3.2.RoleBasedMessage/sample/src/main/kotlin/com/example/springai/controller/ConversationController.kt:115 | `takeLast(n)` gives the last min(n, size) elements |
| Conversation.Budget | 3.2.RoleBasedMessage/sample/src/main/kotlin/com/example/springai/controller/ConversationController.kt:114 | the number of non-system messages kept is at least 1 and at least `maxMessages` minus the system count |
| Conversation.BudgetAsWrittenWraps | 3.2.RoleBasedMessage/sample/src/main/kotlin/com/example/springai/controller/ConversationController.kt:114 | with 32-bit wrap-around, `maxMessages` = Int.MIN_VALUE and one system message give a budget of Int.MAX_VALUE instead of 1 |
| Conversation.BudgetAsWritten | 3.2.RoleBasedMessage/sample/src/main/kotlin/com/example/springai/controller/ConversationController.kt:114 | the budget the source computes is at least 1, and is the intended budget whenever the subtraction stays inside the 32-bit range |
| Conversation.LimitedWithoutOverflow | 3.2.RoleBasedMessage/sample/src/main/kotlin/com/example/springai/controller/ConversationController.kt:110-117 | without 32-bit overflow the history written back is the intended one |
| Conversation.LimitedAsWrittenKeepsAll | 3.2.RoleBasedMessage/sample/src/main/kotlin/com/example/springai/controller/ConversationController.kt:110-117 | with one system message and `maxMessages` = Int.MIN_VALUE the source keeps every message, while the intended limit keeps at most one other message |
| Conversation.LimitedSmallBoundKeepsOne | 3.2.RoleBasedMessage/sample/src/main/kotlin/com/example/springai/controller/ConversationController.kt:114-117 | under the intended limit, a bound at or below the system count plus one still keeps exactly one non-system message when there is any |
| Conversation.SystemsConcat | 3.2.RoleBasedMessage/sample/src/main/kotlin/com/example/springai/controller/ConversationController.kt:110-111 | both filters distribute over concatenation |
| Conversation.SplitOfSystems | 3.2.RoleBasedMessage/sample/src/main/kotlin/com/example/springai/controller/ConversationController.kt:110-111 | a history of system messages only is its own system part |
| Conversation.SplitOfOthers | 3.2.RoleBasedMessage/sample/src/main/kotlin/com/example/springai/controller/ConversationController.kt:110-111 | a history without system messages is its own other part |
| Conversation.LimitedParts | 3.2.RoleBasedMessage/sample/src/main/kotlin/com/example/springai/controller/ConversationController.kt:110-122 | the history the source writes back has every system message first, then the last others in their order, as many as the 32-bit budget allows; its size is the system count plus the kept count |
| Conversation.KeepRecentParts | 3.2.RoleBasedMessage/sample/src/main/kotlin/com/example/springai/controller/ConversationController.kt:110-117 | keeping the last n others gives every system message first, then the last n others in their order, and the matching size |
| Conversation.LimitedIdempotent | 3.2.RoleBasedMessage/sample/src/main/kotlin/com/example/springai/controller/ConversationController.kt:110-117 | limiting twice with the same bound gives what limiting once gives |
| Conversation.LimitedWithinBound | 3.2.RoleBasedMessage/sample/src/main/kotlin/com/example/springai/controller/ConversationController.kt:110-117 | limiting never grows the history, and changes nothing when the others fit the 32-bit budget |
| Conversation.PartitionSize | 3.2.RoleBasedMessage/sample/src/main/kotlin/com/example/springai/controller/ConversationController.kt:110-111 | the two filters together account for every message |
| Conversation.ConversationController.constructor | 3.2.RoleBasedMessage/sample/src/main/kotlin/com/example/springai/controller/ConversationController.kt:18-19 | the controller starts with no sessions |
| Conversation.ConversationController.History | 3.2.RoleBasedMessage/sample/src/main/kotlin/com/example/springai/controller/ConversationController.kt:60 | an unknown session has the empty history |
| Conversation.ConversationController.ContinueConversation | 3.2.RoleBasedMessage/sample/src/main/kotlin/com/example/springai/controller/ConversationController.kt:25-52 | a new session starts from the one greeting system message; the user message and then the reply (or the no-reply text) are appended and no other session changes |
| Conversation.ConversationController.GetConversationHistory | 3.2.RoleBasedMessage/sample/src/main/kotlin/com/example/springai/controller/ConversationController.kt:58-83 | the report carries the session's messages and their count, 0 for an unknown session |
| Conversation.ConversationController.ClearConversation | 3.2.RoleBasedMessage/sample/src/main/kotlin/com/example/springai/controller/ConversationController.kt:89-96 | exactly that session is removed |
| Conversation.ConversationController.LimitConversationHistory | 3.2.RoleBasedMessage/sample/src/main/kotlin/com/example/springai/controller/ConversationController.kt:102-124 | an unknown session is an error and changes nothing; otherwise the session's history becomes the one limited with the wrapped 32-bit budget, and the report gives the old and new sizes |
| ChatHistory.ChatHistoryService.constructor | 19.ConversationalChatBot/sample/src/main/kotlin/com/example/conversationalchatbot/service/ChatHistoryService.kt:10 | the service starts with no sessions |
| ChatHistory.ChatHistoryService.AddMessage | 19.ConversationalChatBot/sample/src/main/kotlin/com/example/conversationalchatbot/service/ChatHistoryService.kt:12-14 | the message is appended to that session's history, which is created when missing |
| ChatHistory.ChatHistoryService.GetHistory | 19.ConversationalChatBot/sample/src/main/kotlin/com/example/conversationalchatbot/service/ChatHistoryService.kt:16-18 | the session's history, empty for an unknown session |
| ChatHistory.ChatHistoryService.ClearHistory | 19.ConversationalChatBot/sample/src/main/kotlin/com/example/conversationalchatbot/service/ChatHistoryService.kt:20-22 | exactly that session is removed |
| ChatHistory.ChatHistoryService.AllSessions | 19.ConversationalChatBot/sample/src/main/kotlin/com/example/conversationalchatbot/service/ChatHistoryService.kt:24-26 | the session ids are exactly the stored keys |
| ChatHistory.AddAppends | 19.ConversationalChatBot/sample/src/main/kotlin/com/example/conversationalchatbot/service/ChatHistoryService.kt:12-14 | adding grows that session's history by the message at its end, leaves every other session alone, and makes the session known |
| ChatHistory.ClearEmpties | 19.ConversationalChatBot/sample/src/main/kotlin/com/example/conversationalchatbot/service/ChatHistoryService.kt:20-22 | after a clear that session's history is empty and unlisted, and every other session is unchanged |
| ChatHistory.AddAllInOrder | 19.ConversationalChatBot/sample/src/main/kotlin/com/example/conversationalchatbot/service/ChatHistoryService.kt:12-14 | messages added one after another appear in that order |
| OrderService.WithAddress | 17.order-mng-bot/sample/src/main/kotlin/com/example/ordermngbot/service/OrderService.kt:33 | changing an address keeps the set of order ids |
| OrderService.WithAddressOnlyThat | 17.order-mng-bot/sample/src/main/kotlin/com/example/ordermngbot/service/OrderService.kt:29-39 | only that order's address changes; its id, status and items and every other order stay as they were |
| OrderService.KeyedPreserved | 17.order-mng-bot/sample/src/main/kotlin/com/example/ordermngbot/service/OrderService.kt:14-49 | add, address change and cancel keep every order stored under its own id |
| OrderService.OrderTable.constructor | 17.order-mng-bot/sample/src/main/kotlin/com/example/ordermngbot/service/OrderService.kt:12 | the table starts empty |
| OrderService.OrderTable.AddOrder | 17.order-mng-bot/sample/src/main/kotlin/com/example/ordermngbot/service/OrderService.kt:14-16 | the order is inserted under its id, replacing any order with that id |
| OrderService.OrderTable.GetOrderStatus | 17.order-mng-bot/sample/src/main/kotlin/com/example/ordermngbot/service/OrderService.kt:18-27 | a stored order's id, status and address; a missing id is the not-found error |
| OrderService.OrderTable.ChangeDeliveryAddress | 17.order-mng-bot/sample/src/main/kotlin/com/example/ordermngbot/service/OrderService.kt:29-39 | a missing id is the not-found error and changes nothing; otherwise only that address changes and success is reported with the new address |
| OrderService.OrderTable.CancelOrder | 17.order-mng-bot/sample/src/main/kotlin/com/example/ordermngbot/service/OrderService.kt:41-49 | a missing id is the not-found error and changes nothing; otherwise exactly that order is removed and success is reported |
| OrderService.OrderTable.GetAllOrders | 17.order-mng-bot/sample/src/main/kotlin/com/example/ordermngbot/service/OrderService.kt:51-53 | one order per stored id, exactly the stored orders, no id twice |
| DocumentTracker.RecordedThenUnchanged | 15.RAG-Chatbot/sample/bin/main/com/example/ragchatbot/service/DocumentTracker.kt:36-47 | after recording h for a path, h reports unchanged and every other hash changed, and every other path reports as before |
| DocumentTracker.ClearedAllChanged | 15.RAG-Chatbot/sample/bin/main/com/example/ragchatbot/service/DocumentTracker.kt:36-39 | with nothing tracked every path reports changed |
| DocumentTracker.Tracker.constructor | 15.RAG-Chatbot/sample/bin/main/com/example/ragchatbot/service/DocumentTracker.kt:14 | the tracker starts with no hashes |
| DocumentTracker.Tracker.IsDocumentChanged | 15.RAG-Chatbot/sample/bin/main/com/example/ragchatbot/service/DocumentTracker.kt:36-39 | an untracked path, or a tracked one with another hash, is changed |
| DocumentTracker.Tracker.UpdateDocumentHash | 15.RAG-Chatbot/sample/bin/main/com/example/ragchatbot/service/DocumentTracker.kt:36-47 | the path's hash is set and nothing else changes, so the path reports unchanged for that hash and every other path answers as before |
| DocumentTracker.Tracker.TrackedDocumentCount | 15.RAG-Chatbot/sample/bin/main/com/example/ragchatbot/service/DocumentTracker.kt:52 | the count is the number of tracked paths |
| DocumentTracker.Tracker.TrackedDocuments | 15.RAG-Chatbot/sample/bin/main/com/example/ragchatbot/service/DocumentTracker.kt:57 | the tracked paths are exactly the keys |
| DocumentTracker.Tracker.Clear | 15.RAG-Chatbot/sample/bin/main/com/example/ragchatbot/service/DocumentTracker.kt:62-65 | nothing stays tracked and the count is 0 |
| EtlPipeline.MarkdownFiles | 15.RAG-Chatbot/sample/src/main/kotlin/com/example/ragchatbot/service/ETLPipelineService.kt:58-60 | exactly the listed files whose extension, lower-cased, is `md` |
| EtlPipeline.Classify | 15.RAG-Chatbot/sample/src/main/kotlin/com/example/ragchatbot/service/ETLPipelineService.kt:69-95 | a file is skipped when hashed and unchanged, new when changed, loaded and untracked, updated when changed, loaded and tracked under another hash; anything else fails |
| EtlPipeline.RunStep | 15.RAG-Chatbot/sample/src/main/kotlin/com/example/ragchatbot/service/ETLPipelineService.kt:68-96 | the loop's hashes and counters after i + 1 files are one step from those after i files |
| EtlPipeline.RunCounts | 15.RAG-Chatbot/sample/src/main/kotlin/com/example/ragchatbot/service/ETLPipelineService.kt:64-96 | new + updated + skipped never exceeds the number of files, with equality when no file fails |
| EtlPipeline.RunTouchesOnlyLoaded | 15.RAG-Chatbot/sample/src/main/kotlin/com/example/ragchatbot/service/ETLPipelineService.kt:75-80 | a path whose file is never loaded keeps its tracked hash, or stays untracked |
| EtlPipeline.RunRecordsAll | 15.RAG-Chatbot/sample/src/main/kotlin/com/example/ragchatbot/service/ETLPipelineService.kt:80 | after a run without failures every file's hash is recorded |
| EtlPipeline.RecordedAllSkipped | 15.RAG-Chatbot/sample/src/main/kotlin/com/example/ragchatbot/service/ETLPipelineService.kt:89-91 | files whose hashes are all recorded are all skipped and change nothing |
| EtlPipeline.SecondRunSkipsAll | 15.RAG-Chatbot/sample/src/main/kotlin/com/example/ragchatbot/service/ETLPipelineService.kt:44-106 | running the pipeline a second time over the same readable files skips every one |
| EtlPipeline.LoadAndProcessDocuments | 15.RAG-Chatbot/sample/src/main/kotlin/com/example/ragchatbot/service/ETLPipelineService.kt:44-106 | a missing directory reports four zeros and leaves the tracker alone; otherwise the tracker and the counts are those of the run over the markdown files and `total` is their number |
| SpecDocument.LookupAt | 40.OpenAPISpec/src/main/kotlin/com/example/openapi/service/SpecDocumentService.kt:45-73 | in a map with distinct keys each stored key finds its own value |
| SpecDocument.PutLookup | 40.OpenAPISpec/src/main/kotlin/com/example/openapi/service/SpecDocumentService.kt:54-56 | after `metadata[k] = v` the key k finds v and every other key what it found before |
| SpecDocument.PutIfPresent | 40.OpenAPISpec/src/main/kotlin/com/example/openapi/service/SpecDocumentService.kt:54-56 | an optional put keeps keys distinct and adds at most its key |
| SpecDocument.LookupPutIfPresent | 40.OpenAPISpec/src/main/kotlin/com/example/openapi/service/SpecDocumentService.kt:54-56 | an optional put sets the key only when the value is present |
| SpecDocument.PathBase | 40.OpenAPISpec/src/main/kotlin/com/example/openapi/service/SpecDocumentService.kt:45-51 | the base path metadata has exactly the keys type, method, path and tags |
| SpecDocument.PathBaseLookup | 40.OpenAPISpec/src/main/kotlin/com/example/openapi/service/SpecDocumentService.kt:47-50 | type is "path", method and path are the operation's, and tags are joined with "," |
| SpecDocument.PathDescribed | 40.OpenAPISpec/src/main/kotlin/com/example/openapi/service/SpecDocumentService.kt:54-56 | the metadata with the optional id, summary and description keeps keys distinct |
| SpecDocument.PathMetadata | 40.OpenAPISpec/src/main/kotlin/com/example/openapi/service/SpecDocumentService.kt:45-73 | the full path metadata keeps keys distinct |
| SpecDocument.PathDescribedLookup | 40.OpenAPISpec/src/main/kotlin/com/example/openapi/service/SpecDocumentService.kt:54-56 | operationId, summary and description are present exactly when the operation has them |
| SpecDocument.PathMetadataLookup | 40.OpenAPISpec/src/main/kotlin/com/example/openapi/service/SpecDocumentService.kt:59-73 | parameters and response schemas appear only when non-empty, the request schema only when present |
| SpecDocument.PathMetadataFixed | 40.OpenAPISpec/src/main/kotlin/com/example/openapi/service/SpecDocumentService.kt:47-50 | the type, method, path and tags entries of a path document |
| SpecDocument.PathMetadataDescribed | 40.OpenAPISpec/src/main/kotlin/com/example/openapi/service/SpecDocumentService.kt:54-56 | the operationId, summary and description entries are the operation's optional values |
| SpecDocument.PathMetadataParameters | 40.OpenAPISpec/src/main/kotlin/com/example/openapi/service/SpecDocumentService.kt:59-64 | parameters are `name:type:location:required` entries joined with ";", absent when there are none |
| SpecDocument.PathMetadataRequest | 40.OpenAPISpec/src/main/kotlin/com/example/openapi/service/SpecDocumentService.kt:67 | the request schema entry is the operation's optional request schema |
| SpecDocument.PathMetadataResponses | 40.OpenAPISpec/src/main/kotlin/com/example/openapi/service/SpecDocumentService.kt:70-73 | response schemas are `code:schema` entries joined with ";", absent when there are none |
| SpecDocument.ComponentBase | 40.OpenAPISpec/src/main/kotlin/com/example/openapi/service/SpecDocumentService.kt:82-87 | the base component metadata has exactly the keys type, componentType and name |
| SpecDocument.ComponentBaseLookup | 40.OpenAPISpec/src/main/kotlin/com/example/openapi/service/SpecDocumentService.kt:84-86 | type is "component", componentType and name are the component's |
| SpecDocument.ComponentMetadata | 40.OpenAPISpec/src/main/kotlin/com/example/openapi/service/SpecDocumentService.kt:82-103 | the component metadata keeps keys distinct |
| SpecDocument.ComponentMetadataLookup | 40.OpenAPISpec/src/main/kotlin/com/example/openapi/service/SpecDocumentService.kt:89-103 | required, properties and description are added only when present or non-empty |
| SpecDocument.ComponentMetadataKeys | 40.OpenAPISpec/src/main/kotlin/com/example/openapi/service/SpecDocumentService.kt:82-103 | every entry of a component document: type, componentType, name, description, `name:type:format:required` properties joined with ";" and required names joined with "," |
| SpecDocument.CreatePathDocuments | 40.OpenAPISpec/src/main/kotlin/com/example/openapi/service/SpecDocumentService.kt:43-77 | one document per path operation, carrying its content and its metadata |
| SpecDocument.CreateComponentDocuments | 40.OpenAPISpec/src/main/kotlin/com/example/openapi/service/SpecDocumentService.kt:80-107 | one document per component, carrying its content and its metadata |
| SpecDocument.SpecDocumentStore.constructor | 40.OpenAPISpec/src/main/kotlin/com/example/openapi/service/SpecDocumentService.kt:22-28 | the store starts with no documents and no YAML |
| SpecDocument.SpecDocumentStore.StoreSpec | 40.OpenAPISpec/src/main/kotlin/com/example/openapi/service/SpecDocumentService.kt:31-40 | path documents then component documents are appended; the YAML is replaced only when given |
| SpecDocument.SpecDocumentStore.ClearAll | 40.OpenAPISpec/src/main/kotlin/com/example/openapi/service/SpecDocumentService.kt:130-133 | no documents and no YAML remain |
| SpecSearch.SplitCharFacts | 40.OpenAPISpec/src/main/kotlin/com/example/openapi/service/SpecSearchService.kt:235 | splitting on one character and joining back gives the text, and no piece holds the character |
| SpecSearch.ParseResponseSchemas | 40.OpenAPISpec/src/main/kotlin/com/example/openapi/service/SpecSearchService.kt:232-241 | null or blank gives null; otherwise a map with distinct keys whose keys are exactly the codes of the `;`-parts that split on `:` into exactly two pieces |
| SpecSearch.ParseParameters | 40.OpenAPISpec/src/main/kotlin/com/example/openapi/service/SpecSearchService.kt:244-247 | null or blank gives null; otherwise the `;`-parts, which rejoin to the value and hold no `;` |
| SpecSearch.ParseTags | 40.OpenAPISpec/src/main/kotlin/com/example/openapi/service/SpecSearchService.kt:250-253 | null or blank gives null; otherwise exactly the non-blank `,`-parts |
| SpecSearch.ParseProperties | 40.OpenAPISpec/src/main/kotlin/com/example/openapi/service/SpecSearchService.kt:256-259 | null or blank gives the empty list; otherwise the `;`-parts, which rejoin to the value |
| SpecSearch.ParseRequired | 40.OpenAPISpec/src/main/kotlin/com/example/openapi/service/SpecSearchService.kt:262-265 | null or blank gives the empty list; otherwise exactly the non-blank `,`-parts |
| SpecSearch.SeparatorNotBlank | 40.OpenAPISpec/src/main/kotlin/com/example/openapi/service/SpecSearchService.kt:245 | a join of two or more parts on a non-blank separator is not blank |
| SpecSearch.NoSeparatorInBool | 40.OpenAPISpec/src/main/kotlin/com/example/openapi/service/SpecSearchService.kt:233 | "true" and "false" hold none of the separators |
| SpecSearch.TagsRoundTrip | 40.OpenAPISpec/src/main/kotlin/com/example/openapi/service/SpecSearchService.kt:250-253 | tags stored joined with "," parse back to the same tags, or null when there were none |
| SpecSearch.RequiredRoundTrip | 40.OpenAPISpec/src/main/kotlin/com/example/openapi/service/SpecSearchService.kt:262-265 | required names stored joined with "," parse back to the same names |
| SpecSearch.EntriesRoundTrip | 40.OpenAPISpec/src/main/kotlin/com/example/openapi/service/SpecSearchService.kt:244-259 | non-blank entries without `;` joined with ";" parse back to the same entries |
| SpecSearch.ParamEntryClean | 40.OpenAPISpec/src/main/kotlin/com/example/openapi/service/SpecSearchService.kt:244-247 | a parameter entry holds no `;` and is not blank |
| SpecSearch.PropertyEntryClean | 40.OpenAPISpec/src/main/kotlin/com/example/openapi/service/SpecSearchService.kt:256-259 | a property entry holds no `;` and is not blank |
| SpecSearch.ResponseEntryClean | 40.OpenAPISpec/src/main/kotlin/com/example/openapi/service/SpecSearchService.kt:236-239 | a `code:schema` entry holds no `;`, is not blank and splits back into its code and schema |
| SpecSearch.ParametersRoundTrip | 40.OpenAPISpec/src/main/kotlin/com/example/openapi/service/SpecSearchService.kt:121 | the parameters stored for a path parse back to its parameter entries, or null when there were none |
| SpecSearch.PropertiesRoundTrip | 40.OpenAPISpec/src/main/kotlin/com/example/openapi/service/SpecSearchService.kt:145 | the properties stored for a component parse back to its property entries |
| SpecSearch.ResponsePairs | 40.OpenAPISpec/src/main/kotlin/com/example/openapi/service/SpecSearchService.kt:236-239 | every stored response entry parses back to its pair, in order |
| SpecSearch.ResponsesParse | 40.OpenAPISpec/src/main/kotlin/com/example/openapi/service/SpecSearchService.kt:232-241 | stored response schemas with distinct codes parse back to the same map |
| SpecSearch.ResponseSchemasRoundTrip | 40.OpenAPISpec/src/main/kotlin/com/example/openapi/service/SpecSearchService.kt:120 | the response schemas stored for a path parse back to them, or null when there were none |
| SpecSearch.PathResult | 40.OpenAPISpec/src/main/kotlin/com/example/openapi/service/SpecSearchService.kt:119-141 | a path result has type "path", the document's text, score 0 and no related schemas or spec yet |
| SpecSearch.ComponentResult | 40.OpenAPISpec/src/main/kotlin/com/example/openapi/service/SpecSearchService.kt:144-172 | a component result has type "component", the document's text, score 0 and a generated spec exactly when it has a name |
| SpecSearch.ConvertToSearchResult | 40.OpenAPISpec/src/main/kotlin/com/example/openapi/service/SpecSearchService.kt:108-116 | a document typed "path" becomes a path result and any other document a component result |
| SpecSearch.PathConverts | 40.OpenAPISpec/src/main/kotlin/com/example/openapi/service/SpecSearchService.kt:111-112 | a path document is converted by the path branch |
| SpecSearch.PathResultRoundTrip | 40.OpenAPISpec/src/main/kotlin/com/example/openapi/service/SpecSearchService.kt:119-141 | a stored path document converts back to the operation's method, path, id, summary, description, tags, parameter entries, request schema and response schemas |
| SpecSearch.ComponentConverts | 40.OpenAPISpec/src/main/kotlin/com/example/openapi/service/SpecSearchService.kt:113-114 | a component document is converted by the component branch |
| SpecSearch.ComponentResultRoundTrip | 40.OpenAPISpec/src/main/kotlin/com/example/openapi/service/SpecSearchService.kt:144-172 | a stored component document converts back to its name, type, description, property entries and required names, with its generated spec |
| SpecSearch.FirstComponentNamed | 40.OpenAPISpec/src/main/kotlin/com/example/openapi/service/SpecSearchService.kt:216-219 | `find` gives the first document that is a component with that name, or nothing when none is |
| SpecSearch.FindComponentByName | 40.OpenAPISpec/src/main/kotlin/com/example/openapi/service/SpecSearchService.kt:212-229 | a component is found exactly when one of the search results is a component with that name, and it carries that name |
| SpecSearch.CandidateMembers | 40.OpenAPISpec/src/main/kotlin/com/example/openapi/service/SpecSearchService.kt:179-185 | a schema name is collected exactly when it is a response schema without `[]` or the request schema |
| SpecSearch.RelatedSchemaNames | 40.OpenAPISpec/src/main/kotlin/com/example/openapi/service/SpecSearchService.kt:176-185 | the collected names are distinct and exactly the response schemas without `[]` and the request schema |
| SpecSearch.RelatedNamesMembers | 40.OpenAPISpec/src/main/kotlin/com/example/openapi/service/SpecSearchService.kt:176-185 | the distinct candidate names are exactly the response schemas without `[]` and the request schema |
| SpecSearch.ArraySuffixRemoved | 40.OpenAPISpec/src/main/kotlin/com/example/openapi/service/SpecSearchService.kt:180 | an array reference `Name[]` loses its suffix, and a plain name is kept |
| SpecSearch.AddRelatedSchemas | 40.OpenAPISpec/src/main/kotlin/com/example/openapi/service/SpecSearchService.kt:175-209 | only related schemas and the spec change; every found component of a collected name is included and nothing else; the spec is generated exactly when method and path are present |
| SpecSearch.Fragment | 40.OpenAPISpec/src/main/kotlin/com/example/openapi/service/SpecSearchService.kt:273-289 | a fragment exists only for type "path" or "component"; for a path exactly when method and path are present and the YAML has that operation |
| SpecSearch.ExtractOriginalYamlFragments | 40.OpenAPISpec/src/main/kotlin/com/example/openapi/service/SpecSearchService.kt:268-293 | without YAML the results are unchanged; otherwise each result keeps everything but its spec, which is the fragment when one is found |
| SpecSearch.Search | 40.OpenAPISpec/src/main/kotlin/com/example/openapi/service/SpecSearchService.kt:31-62 | a negative topK fails with `take`'s message, which names the count; otherwise one result for each of the first topK documents, carrying its text and its type |
| SpecSearch.SearchPassesThrough | 40.OpenAPISpec/src/main/kotlin/com/example/openapi/service/SpecSearchService.kt:43-61 | outside the YAML format a component result is the plain conversion, and a path result has related schemas exactly when they were asked for |
| SpecSearch.SearchAsYaml | 40.OpenAPISpec/src/main/kotlin/com/example/openapi/service/SpecSearchService.kt:72-105 | no stored YAML gives the empty list; otherwise a negative topK fails with `take`'s message, which names the count, and a non-negative one gives at most topK strings, each the fragment of one of the first topK documents, and every such fragment is included |
| SpecSearch.YamlRoutesAgree | 40.OpenAPISpec/src/main/kotlin/com/example/openapi/service/SpecSearchService.kt:57-58 | where a document has a fragment, `search` in the YAML format gives it the same fragment that `searchAsYaml` finds |
| SpecSearch.SearchYamlElement | 40.OpenAPISpec/src/main/kotlin/com/example/openapi/service/SpecSearchService.kt:57-58 | the yaml format puts a kept result's fragment into that result |
| SpecSearch.KeptFragment | 40.OpenAPISpec/src/main/kotlin/com/example/openapi/service/SpecSearchService.kt:43-54 | adding related schemas does not change a result's fragment |
| SpecSearch.ConvertedFragment | 40.OpenAPISpec/src/main/kotlin/com/example/openapi/service/SpecSearchService.kt:268-289 | a converted result finds the same fragment as its document's metadata |
| SpecFormatter.RenderSnoc | 40.OpenAPISpec/bin/main/com/example/openapi/service/OpenAPISpecFormatter.kt:23-126 | appending a line with `appendLine` adds the line and a line break at the end |
| SpecFormatter.RenderIsJoin | 40.OpenAPISpec/bin/main/com/example/openapi/service/OpenAPISpecFormatter.kt:126 | the built text is the lines joined with "\n" plus a final line break |
| SpecFormatter.RenderSplit | 40.OpenAPISpec/bin/main/com/example/openapi/service/OpenAPISpecFormatter.kt:126 | splitting the built text on "\n" gives back the lines and an empty last piece |
| SpecFormatter.FlattenStep | 40.OpenAPISpec/bin/main/com/example/openapi/service/OpenAPISpecFormatter.kt:45 | the lines for i + 1 items are those for i items and then the lines of item i |
| SpecFormatter.FlattenSingles | 40.OpenAPISpec/bin/main/com/example/openapi/service/OpenAPISpecFormatter.kt:45 | one line per item gives as many lines as items, in order |
| SpecFormatter.FlattenIndented | 40.OpenAPISpec/bin/main/com/example/openapi/service/OpenAPISpecFormatter.kt:97-123 | items whose lines are all indented by n give lines all indented by n |
| SpecFormatter.Pad | 40.OpenAPISpec/bin/main/com/example/openapi/service/OpenAPISpecFormatter.kt:30 | the margin has the length asked for and is all spaces |
| SpecFormatter.LineIndented | 40.OpenAPISpec/bin/main/com/example/openapi/service/OpenAPISpecFormatter.kt:30 | a line with margin n is indented by every m up to n |
| SpecFormatter.PathSpecSections | 40.OpenAPISpec/bin/main/com/example/openapi/service/OpenAPISpecFormatter.kt:11-127 | a path spec is the head, then the operation's lines, then the components block |
| SpecFormatter.OptLineIndented | 40.OpenAPISpec/bin/main/com/example/openapi/service/OpenAPISpecFormatter.kt:34-40 | an optional line is indented as asked |
| SpecFormatter.ItemLineIndented | 40.OpenAPISpec/bin/main/com/example/openapi/service/OpenAPISpecFormatter.kt:45 | a tag or required item line is indented by 8 |
| SpecFormatter.ParamLineIndented | 40.OpenAPISpec/bin/main/com/example/openapi/service/OpenAPISpecFormatter.kt:51-61 | the lines of one parameter are indented by at least 8 |
| SpecFormatter.ResponseLineIndented | 40.OpenAPISpec/bin/main/com/example/openapi/service/OpenAPISpecFormatter.kt:76-90 | the lines of one response are indented by at least 8 |
| SpecFormatter.PropertyLineIndented | 40.OpenAPISpec/bin/main/com/example/openapi/service/OpenAPISpecFormatter.kt:105-116 | the lines of one property are indented by at least 8 |
| SpecFormatter.TagBlockIndented | 40.OpenAPISpec/bin/main/com/example/openapi/service/OpenAPISpecFormatter.kt:43-46 | the tags block is indented by at least 6 |
| SpecFormatter.ParametersBlockIndented | 40.OpenAPISpec/bin/main/com/example/openapi/service/OpenAPISpecFormatter.kt:49-62 | the parameters block is indented by at least 6 |
| SpecFormatter.RequestLinesIndented | 40.OpenAPISpec/bin/main/com/example/openapi/service/OpenAPISpecFormatter.kt:65-71 | the request body block is indented by at least 6 |
| SpecFormatter.ResponsesBlockIndented | 40.OpenAPISpec/bin/main/com/example/openapi/service/OpenAPISpecFormatter.kt:74-91 | the responses block is indented by at least 6 |
| SpecFormatter.PropertiesBlockIndented | 40.OpenAPISpec/bin/main/com/example/openapi/service/OpenAPISpecFormatter.kt:103-117 | the properties block is indented by at least 4 |
| SpecFormatter.RequiredBlockIndented | 40.OpenAPISpec/bin/main/com/example/openapi/service/OpenAPISpecFormatter.kt:119-122 | the required block is indented by at least 4 |
| SpecFormatter.SchemaLinesIndented | 40.OpenAPISpec/bin/main/com/example/openapi/service/OpenAPISpecFormatter.kt:98-122 | every line of one schema is indented by at least 4 |
| SpecFormatter.OperationLinesIndented | 40.OpenAPISpec/bin/main/com/example/openapi/service/OpenAPISpecFormatter.kt:34-91 | every line of the operation is indented by at least 6, so it stays under the method key |
| SpecFormatter.ComponentsIndented | 40.OpenAPISpec/bin/main/com/example/openapi/service/OpenAPISpecFormatter.kt:97-123 | every line of the related schemas is indented by at least 4 |
| SpecFormatter.HeadLacksComponents | 40.OpenAPISpec/bin/main/com/example/openapi/service/OpenAPISpecFormatter.kt:25-31 | the header lines never contain the components key |
| SpecFormatter.PathSpecLayout | 40.OpenAPISpec/bin/main/com/example/openapi/service/OpenAPISpecFormatter.kt:11-127 | a path spec starts with the seven fixed header lines, the operation lines indented by 6 follow, and a components block indented by 4 closes it exactly when there are related schemas |
| SpecFormatter.ComponentsLineIffRelated | 40.OpenAPISpec/bin/main/com/example/openapi/service/OpenAPISpecFormatter.kt:94-96 | the spec has a `components:` line exactly when related schemas are given and non-empty |
| SpecFormatter.ComponentSpecLayout | 40.OpenAPISpec/bin/main/com/example/openapi/service/OpenAPISpecFormatter.kt:130-171 | a component spec starts with the eight fixed header lines and every line after the schemas key is indented by at least 4 |
| SpecFormatter.RequiredBlockItems | 40.OpenAPISpec/bin/main/com/example/openapi/service/OpenAPISpecFormatter.kt:165-168 | the required block is its key line and one `- name` line per required name, absent when there are none |
| SpecFormatter.TagBlockItems | 40.OpenAPISpec/bin/main/com/example/openapi/service/OpenAPISpecFormatter.kt:43-46 | the tags block is its key line and one `- tag` line per tag, absent for no tags |
| SpecFormatter.NoColonInBool | 40.OpenAPISpec/bin/main/com/example/openapi/service/OpenAPISpecFormatter.kt:52 | "true" and "false" hold no colon |
| SpecFormatter.ParamRoundTrip | 40.OpenAPISpec/bin/main/com/example/openapi/service/OpenAPISpecFormatter.kt:51-60 | a stored parameter entry is rendered as name, location, required flag and type in that order |
| SpecFormatter.ParamSkipped | 40.OpenAPISpec/bin/main/com/example/openapi/service/OpenAPISpecFormatter.kt:53 | an entry with fewer than four `:`-parts is skipped |
| SpecFormatter.PropertyRoundTrip | 40.OpenAPISpec/bin/main/com/example/openapi/service/OpenAPISpecFormatter.kt:105-115 | a stored property entry is rendered as its name and type, plus the format when it is present and not blank |
| SpecFormatter.PropertySkipped | 40.OpenAPISpec/bin/main/com/example/openapi/service/OpenAPISpecFormatter.kt:107 | an entry without a colon is skipped |
| SpecFormatter.ArrayResponseRoundTrip | 40.OpenAPISpec/bin/main/com/example/openapi/service/OpenAPISpecFormatter.kt:82-86 | a schema ending in `[]` is rendered as an array of references to the name without the suffix |
| SpecFormatter.DirectResponse | 40.OpenAPISpec/bin/main/com/example/openapi/service/OpenAPISpecFormatter.kt:87-89 | any other schema is rendered as a direct reference |
| SpecFormatter.ItemBlock | 40.OpenAPISpec/bin/main/com/example/openapi/service/OpenAPISpecFormatter.kt:45 | the loop emits one item line per tag, in order |
| SpecFormatter.ParameterBlock | 40.OpenAPISpec/bin/main/com/example/openapi/service/OpenAPISpecFormatter.kt:51-61 | the loop emits each parameter's lines in order |
| SpecFormatter.ResponseBlock | 40.OpenAPISpec/bin/main/com/example/openapi/service/OpenAPISpecFormatter.kt:76-90 | the loop emits each response's lines in order |
| SpecFormatter.PropertyBlock | 40.OpenAPISpec/bin/main/com/example/openapi/service/OpenAPISpecFormatter.kt:105-116 | the loop emits each property's lines in order |
| SpecFormatter.SchemaBlock | 40.OpenAPISpec/bin/main/com/example/openapi/service/OpenAPISpecFormatter.kt:98-122 | the emitted lines of one schema are its name, type, description, properties and required blocks |
| SpecFormatter.ComponentBlock | 40.OpenAPISpec/bin/main/com/example/openapi/service/OpenAPISpecFormatter.kt:97-123 | the loop emits each related schema's lines in order |
| SpecFormatter.OptLineBlock | 40.OpenAPISpec/bin/main/com/example/openapi/service/OpenAPISpecFormatter.kt:34-40 | an optional line is emitted only when the value is present |
| SpecFormatter.TagSection | 40.OpenAPISpec/bin/main/com/example/openapi/service/OpenAPISpecFormatter.kt:43-46 | nothing for absent or empty tags, otherwise the `tags:` key and one item line per tag |
| SpecFormatter.ParametersSection | 40.OpenAPISpec/bin/main/com/example/openapi/service/OpenAPISpecFormatter.kt:49-62 | nothing for absent or empty parameters, otherwise the `parameters:` key and each parameter's lines |
| SpecFormatter.RequestSection | 40.OpenAPISpec/bin/main/com/example/openapi/service/OpenAPISpecFormatter.kt:65-71 | the five request body lines referring to the schema, only when a request schema is present |
| SpecFormatter.ResponsesSection | 40.OpenAPISpec/bin/main/com/example/openapi/service/OpenAPISpecFormatter.kt:74-91 | nothing for absent or empty response schemas, otherwise the `responses:` key and each response's lines |
| SpecFormatter.ComponentsSection | 40.OpenAPISpec/bin/main/com/example/openapi/service/OpenAPISpecFormatter.kt:94-124 | nothing for absent or empty related schemas, otherwise the `components:` and `schemas:` keys and each schema's lines |
| SpecFormatter.GeneratePathSpec | 40.OpenAPISpec/bin/main/com/example/openapi/service/OpenAPISpecFormatter.kt:11-127 | the built YAML is the rendering of the path spec lines, whose layout PathSpecLayout gives |
| SpecFormatter.GenerateComponentSpec | 40.OpenAPISpec/bin/main/com/example/openapi/service/OpenAPISpecFormatter.kt:130-171 | the built YAML is the rendering of the component spec lines, whose layout ComponentSpecLayout gives |
| SpecParser.ExtractSchemaName | 40.OpenAPISpec/bin/main/com/example/openapi/parser/OpenAPISpecParser.kt:159-161 | the name is the part after the last `/`: it holds no `/`, ends the reference, is preceded by a `/` when there is one, and is the whole reference otherwise |
| SpecParser.ParameterDefaults | 40.OpenAPISpec/bin/main/com/example/openapi/parser/OpenAPISpecParser.kt:94-100 | a parameter's type defaults to "string" and its required flag to false; name and location are copied |
| SpecParser.NameSetPrefix | 40.OpenAPISpec/bin/main/com/example/openapi/parser/OpenAPISpecParser.kt:106 | the names of a prefix are among the names of the whole list |
| SpecParser.NameSetSnoc | 40.OpenAPISpec/bin/main/com/example/openapi/parser/OpenAPISpecParser.kt:106-107 | adding a parameter adds its name |
| SpecParser.NameSetMapped | 40.OpenAPISpec/bin/main/com/example/openapi/parser/OpenAPISpecParser.kt:92-102 | the operation-level list carries exactly the operation parameters' names |
| SpecParser.MergeKeepsPrefix | 40.OpenAPISpec/bin/main/com/example/openapi/parser/OpenAPISpecParser.kt:105-117 | merging path-level parameters keeps the operation-level ones first and unchanged |
| SpecParser.MergeAddsNew | 40.OpenAPISpec/bin/main/com/example/openapi/parser/OpenAPISpecParser.kt:105-117 | every parameter the merge adds is a path-level parameter whose name was not yet present |
| SpecParser.MergeCoversNames | 40.OpenAPISpec/bin/main/com/example/openapi/parser/OpenAPISpecParser.kt:105-117 | after the merge every path-level parameter's name is present and no earlier name is lost |
| SpecParser.MergeIncludesFirst | 40.OpenAPISpec/bin/main/com/example/openapi/parser/OpenAPISpecParser.kt:105-117 | the first path-level parameter with a name not yet present is added itself |
| SpecParser.ParametersOrdered | 40.OpenAPISpec/bin/main/com/example/openapi/parser/OpenAPISpecParser.kt:88-120 | operation parameters come first and in order; each later one is a path-level parameter with a name not seen before |
| SpecParser.ParametersCovered | 40.OpenAPISpec/bin/main/com/example/openapi/parser/OpenAPISpecParser.kt:105-117 | every path-level name is present, and a path-level parameter whose name is new is included as it is |
| SpecParser.ParametersDistinct | 40.OpenAPISpec/bin/main/com/example/openapi/parser/OpenAPISpecParser.kt:88-120 | with distinct operation-level names, all merged names are distinct |
| SpecParser.ExtractParameters | 40.OpenAPISpec/bin/main/com/example/openapi/parser/OpenAPISpecParser.kt:88-120 | the two loops compute the merged parameter list |
| SpecParser.SchemaValueCases | 40.OpenAPISpec/bin/main/com/example/openapi/parser/OpenAPISpecParser.kt:127-137 | a media type gives the name of its `$ref`, or for an array the name of its items' `$ref` with `[]`, or nothing when it has neither |
| SpecParser.SchemaValues | 40.OpenAPISpec/bin/main/com/example/openapi/parser/OpenAPISpecParser.kt:127 | one schema value per media type, in order |
| SpecParser.LastSchemaValueOfValues | 40.OpenAPISpec/bin/main/com/example/openapi/parser/OpenAPISpecParser.kt:127-138 | the value kept for a status code is the last present value among its media types |
| SpecParser.LastSomeIsLast | 40.OpenAPISpec/bin/main/com/example/openapi/parser/OpenAPISpecParser.kt:127-138 | the last present value of a list is absent only when all are, and otherwise no later element is present |
| SpecParser.LastSchemaValueIsLast | 40.OpenAPISpec/bin/main/com/example/openapi/parser/OpenAPISpecParser.kt:126-139 | a status code gets no schema exactly when none of its media types has one, and otherwise the schema of the last media type that has one |
| SpecParser.MediaPairsLookup | 40.OpenAPISpec/bin/main/com/example/openapi/parser/OpenAPISpecParser.kt:127-138 | the media types of one status code set that code to their last value and leave every other code alone |
| SpecParser.MediaPairsKeys | 40.OpenAPISpec/bin/main/com/example/openapi/parser/OpenAPISpecParser.kt:127-138 | one status code's media types only set that code |
| SpecParser.ResponsePairsKeys | 40.OpenAPISpec/bin/main/com/example/openapi/parser/OpenAPISpecParser.kt:126-139 | every key of the response map is one of the operation's status codes |
| SpecParser.ResponseSchemasLast | 40.OpenAPISpec/bin/main/com/example/openapi/parser/OpenAPISpecParser.kt:126-139 | with distinct status codes each code maps to its last media type's schema |
| SpecParser.ResponseSchemasContents | 40.OpenAPISpec/bin/main/com/example/openapi/parser/OpenAPISpecParser.kt:123-142 | the response map holds exactly the status codes with a schema, each with the last one found |
| SpecParser.ResponseFormatsAsParsed | 40.OpenAPISpec/bin/main/com/example/openapi/parser/OpenAPISpecParser.kt:130-135 | the formatter renders a parsed `$ref` schema as a direct reference and an array schema as an array of item references |
| SpecParser.PutStepLookup | 40.OpenAPISpec/bin/main/com/example/openapi/parser/OpenAPISpecParser.kt:130 | one put on the response map updates that code and only that code |
| SpecParser.MediaPairsLast | 40.OpenAPISpec/bin/main/com/example/openapi/parser/OpenAPISpecParser.kt:127-138 | one more media type puts its value, if any, on the map so far |
| SpecParser.SchemaPutShape | 40.OpenAPISpec/bin/main/com/example/openapi/parser/OpenAPISpecParser.kt:128-136 | a media type contributes one pair when it has a schema value and none otherwise |
| SpecParser.AssociateOptionalPut | 40.OpenAPISpec/bin/main/com/example/openapi/parser/OpenAPISpecParser.kt:130 | an optional pair is a put or nothing |
| SpecParser.LastSchemaValueStep | 40.OpenAPISpec/bin/main/com/example/openapi/parser/OpenAPISpecParser.kt:127-138 | the last value of a list is that of the last media type when present, else that of the rest |
| SpecParser.MediaPairsStep | 40.OpenAPISpec/bin/main/com/example/openapi/parser/OpenAPISpecParser.kt:127-138 | the inner loop's map after j + 1 media types is one optional put from that after j |
| SpecParser.ResponsePairsStep | 40.OpenAPISpec/bin/main/com/example/openapi/parser/OpenAPISpecParser.kt:126-139 | the outer loop's pairs after i + 1 status codes extend those after i by that code's pairs |
| SpecParser.ExtractResponseSchemas | 40.OpenAPISpec/bin/main/com/example/openapi/parser/OpenAPISpecParser.kt:123-142 | the nested loops compute the response map |
| SpecParser.RefValue | 40.OpenAPISpec/bin/main/com/example/openapi/parser/OpenAPISpecParser.kt:149-152 | a media type yields a schema name exactly when it has a `$ref`, and then the name of that reference |
| SpecParser.FirstRefOfValues | 40.OpenAPISpec/bin/main/com/example/openapi/parser/OpenAPISpecParser.kt:148-155 | the request schema is the first present reference value |
| SpecParser.FirstSomeIsFirst | 40.OpenAPISpec/bin/main/com/example/openapi/parser/OpenAPISpecParser.kt:148-155 | the first present value is absent only when all are, and otherwise no earlier element is present |
| SpecParser.FirstRefIsFirst | 40.OpenAPISpec/bin/main/com/example/openapi/parser/OpenAPISpecParser.kt:145-156 | without a `$ref` anywhere there is no request schema; otherwise it is the name of the first media type's reference |
| SpecParser.ExtractRequestSchema | 40.OpenAPISpec/bin/main/com/example/openapi/parser/OpenAPISpecParser.kt:145-156 | the early-returning loop computes the request schema |
| SpecParser.PathContentLayout | 40.OpenAPISpec/bin/main/com/example/openapi/parser/OpenAPISpecParser.kt:164-206 | the content starts with method and path, then summary or else description, then parameters, request body and responses lines, each only when present |
| SpecParser.BuildPathContent | 40.OpenAPISpec/bin/main/com/example/openapi/parser/OpenAPISpecParser.kt:164-206 | the built content is the parts joined with ". " |
| SpecParser.CreatePathDocument | 40.OpenAPISpec/bin/main/com/example/openapi/parser/OpenAPISpecParser.kt:53-85 | a path document carries the method, path, id, summary, description, tags (empty when absent), parameters, request and response schemas, and content |
| SpecParser.PathDocumentsSound | 40.OpenAPISpec/bin/main/com/example/openapi/parser/OpenAPISpecParser.kt:40-50 | every path document is the document of one operation of one path, carrying that path and method |
| SpecParser.OperationDocumentsStep | 40.OpenAPISpec/bin/main/com/example/openapi/parser/OpenAPISpecParser.kt:44-46 | the inner loop's documents after j + 1 operations extend those after j by one |
| SpecParser.PathDocumentsStep | 40.OpenAPISpec/bin/main/com/example/openapi/parser/OpenAPISpecParser.kt:43-47 | the outer loop's documents after i + 1 paths extend those after i by that path's operations |
| SpecParser.ExtractOperations | 40.OpenAPISpec/bin/main/com/example/openapi/parser/OpenAPISpecParser.kt:44-46 | the inner loop emits one document per operation of a path, in order |
| SpecParser.ExtractPaths | 40.OpenAPISpec/bin/main/com/example/openapi/parser/OpenAPISpecParser.kt:40-50 | the nested loops emit the documents of all operations of all paths, in order |
| SpecParser.PropertiesFaithful | 40.OpenAPISpec/bin/main/com/example/openapi/parser/OpenAPISpecParser.kt:236-253 | one property per schema property, in order, with its name, its type defaulting to "object", its format, and required exactly when listed |
| SpecParser.ExtractProperties | 40.OpenAPISpec/bin/main/com/example/openapi/parser/OpenAPISpecParser.kt:236-253 | the loop computes the property list |
| SpecParser.ComponentContentLayout | 40.OpenAPISpec/bin/main/com/example/openapi/parser/OpenAPISpecParser.kt:256-281 | the content starts with "name schema", then the description and properties lines, each only when present |
| SpecParser.BuildComponentContent | 40.OpenAPISpec/bin/main/com/example/openapi/parser/OpenAPISpecParser.kt:256-281 | the built content is the parts joined with ". " |
| SpecParser.CreateComponentDocument | 40.OpenAPISpec/bin/main/com/example/openapi/parser/OpenAPISpecParser.kt:220-233 | a component document has type "schema", the name, description, properties, required names (empty when absent) and content |
| SpecParser.ExtractComponents | 40.OpenAPISpec/bin/main/com/example/openapi/parser/OpenAPISpecParser.kt:209-217 | one component document per named schema, in order |
| SpecParser.ExtractInfo | 40.OpenAPISpec/bin/main/com/example/openapi/parser/OpenAPISpecParser.kt:284-290 | title defaults to "Unknown" and version to "1.0.0"; the description is copied |
| SpecParser.ParseSpec | 40.OpenAPISpec/bin/main/com/example/openapi/parser/OpenAPISpecParser.kt:24-37 | an unreadable spec is an error; otherwise the documents of all paths and components and the info |
| YamlExtractor.Get | 40.OpenAPISpec/src/main/kotlin/com/example/openapi/service/YamlExtractor.kt:16-18 | a key lookup in a YAML mapping finds nothing exactly when no entry has that key, and otherwise a value stored under it |
| YamlExtractor.AsMapping | 40.OpenAPISpec/src/main/kotlin/com/example/openapi/service/YamlExtractor.kt:16-18 | the `as? Map` cast succeeds exactly on a mapping |
| YamlExtractor.RefsSound | 40.OpenAPISpec/src/main/kotlin/com/example/openapi/service/YamlExtractor.kt:68-90 | every collected name is the text after the last `/` of some `$ref` string reachable inside the operation |
| YamlExtractor.RefAtNonEmpty | 40.OpenAPISpec/src/main/kotlin/com/example/openapi/service/YamlExtractor.kt:74-76 | a `$ref` is always found inside some mapping entry, never at the root |
| YamlExtractor.RefsComplete | 40.OpenAPISpec/src/main/kotlin/com/example/openapi/service/YamlExtractor.kt:68-90 | every `$ref` string reachable through mappings and lists, and not under another `$ref` key, contributes its name |
| YamlExtractor.ReferencedSchemas | 40.OpenAPISpec/src/main/kotlin/com/example/openapi/service/YamlExtractor.kt:31-36 | the filtered schemas are non-empty and all referenced |
| YamlExtractor.PathFragment | 40.OpenAPISpec/src/main/kotlin/com/example/openapi/service/YamlExtractor.kt:13-45 | a path fragment exists exactly when the YAML is a mapping with that path and lower-cased method |
| YamlExtractor.PathFragmentContents | 40.OpenAPISpec/src/main/kotlin/com/example/openapi/service/YamlExtractor.kt:21-39 | the fragment is the header, then the single operation under its path and method, then a components block with the referenced schemas exactly when there are any |
| YamlExtractor.ReferencedSchemasExact | 40.OpenAPISpec/src/main/kotlin/com/example/openapi/service/YamlExtractor.kt:33 | the filtered schemas are exactly the stored schemas whose names are referenced |
| YamlExtractor.GetDistinct | 40.OpenAPISpec/src/main/kotlin/com/example/openapi/service/YamlExtractor.kt:16-18 | in a mapping with distinct keys, as the loader builds it, an entry is stored exactly when the lookup of its key finds its value |
| YamlExtractor.FilterDistinct | 40.OpenAPISpec/src/main/kotlin/com/example/openapi/service/YamlExtractor.kt:33 | `filterKeys` on a loaded map keeps one entry per key |
| YamlExtractor.PathFragmentLoaded | 40.OpenAPISpec/src/main/kotlin/com/example/openapi/service/YamlExtractor.kt:13-45 | the path fragment of a loaded document is itself a map with one entry per key at every depth |
| YamlExtractor.LoadedValue | 40.OpenAPISpec/src/main/kotlin/com/example/openapi/service/YamlExtractor.kt:16-18 | a value found in a loaded mapping is loaded |
| YamlExtractor.ComponentFragment | 40.OpenAPISpec/src/main/kotlin/com/example/openapi/service/YamlExtractor.kt:48-65 | a component fragment is the header and one components entry |
| YamlExtractor.ComponentFragmentFound | 40.OpenAPISpec/src/main/kotlin/com/example/openapi/service/YamlExtractor.kt:51-59 | a component fragment exists exactly when the schema is stored and not null, and it holds exactly that schema |
| YamlExtractor.HeaderDefaults | 40.OpenAPISpec/src/main/kotlin/com/example/openapi/service/YamlExtractor.kt:22-23 | a missing or null `openapi` becomes "3.0.0" and a missing `info` the default title and version; a given version is kept |
| McpServer.Wrap | 29.Annotations/sample01-server-annotations/src/main/kotlin/com/example/annotations/service/McpServerService.kt:16-18 | Kotlin `Int` arithmetic wraps modulo 2^32 into the 32-bit range and is exact inside it |
| McpServer.TruncDivSpec | 29.Annotations/sample01-server-annotations/src/main/kotlin/com/example/annotations/service/McpServerService.kt:19 | Kotlin `/` truncates toward zero: the remainder is smaller than the divisor, has the dividend's sign, and the quotient never overshoots |
| McpServer.TruncProduct | 29.Annotations/sample01-server-annotations/src/main/kotlin/com/example/annotations/service/McpServerService.kt:19 | the truncated quotient times the divisor is the dividend's magnitude rounded down to a multiple, with the dividend's sign |
| McpServer.TruncDivNegative | 29.Annotations/sample01-server-annotations/src/main/kotlin/com/example/annotations/service/McpServerService.kt:19 | -7 / 2 is -3 in Kotlin, where Euclidean division gives -4, and the other sign cases |
| McpServer.Calculate | 29.Annotations/sample01-server-annotations/src/main/kotlin/com/example/annotations/service/McpServerService.kt:14-22 | an unknown operation fails with its message; add, subtract and multiply wrap at 32 bits; divide by 0 gives 0, otherwise the truncating quotient, wrapped |
| McpServer.CalculateExact | 29.Annotations/sample01-server-annotations/src/main/kotlin/com/example/annotations/service/McpServerService.kt:16-17 | without overflow addition and subtraction are exact |
| McpServer.CalculateDivideExact | 29.Annotations/sample01-server-annotations/src/main/kotlin/com/example/annotations/service/McpServerService.kt:19 | apart from Int.MIN_VALUE / -1 the quotient needs no wrapping |
| McpServer.TruncDivFits | 29.Annotations/sample01-server-annotations/src/main/kotlin/com/example/annotations/service/McpServerService.kt:19 | a truncating quotient of 32-bit values fits in 32 bits apart from Int.MIN_VALUE / -1 |
| McpServer.CalculateWraps | 29.Annotations/sample01-server-annotations/src/main/kotlin/com/example/annotations/service/McpServerService.kt:16-19 | Int.MIN_VALUE / -1 gives Int.MIN_VALUE and Int.MAX_VALUE + 1 gives Int.MIN_VALUE |
| McpServer.CalculateAddExample | 29.Annotations/sample01-server-annotations/src/main/kotlin/com/example/annotations/service/McpServerService.kt:15-16 | the operation name is matched without regard to case |
| McpServer.Capitalize | 29.Annotations/sample01-server-annotations/src/main/kotlin/com/example/annotations/service/McpServerService.kt:28 | capitalising a word keeps its length |
| McpServer.TitleReference | 29.Annotations/sample01-server-annotations/src/main/kotlin/com/example/annotations/service/McpServerService.kt:28 | the word-by-word reference title-casing keeps the text's length |
| McpServer.TitleReferenceCons | 29.Annotations/sample01-server-annotations/src/main/kotlin/com/example/annotations/service/McpServerService.kt:28 | the reference title-cases the first word and continues after the space |
| McpServer.TitleReferenceWord | 29.Annotations/sample01-server-annotations/src/main/kotlin/com/example/annotations/service/McpServerService.kt:28 | a single word is title-cased by capitalising it |
| McpServer.JoinCapitalized | 29.Annotations/sample01-server-annotations/src/main/kotlin/com/example/annotations/service/McpServerService.kt:28 | capitalising the space-free pieces and joining them is the reference title-casing of their join |
| McpServer.TitleCaseIsReference | 29.Annotations/sample01-server-annotations/src/main/kotlin/com/example/annotations/service/McpServerService.kt:28 | split-capitalise-join equals capitalising the first letter of every word, keeps the length and keeps the spaces where they were |
| McpServer.ConvertCase | 29.Annotations/sample01-server-annotations/src/main/kotlin/com/example/annotations/service/McpServerService.kt:24-31 | "upper", "lower" and "title", in any case, convert the text; any other case name returns it unchanged; the length never changes |
| McpServer.GetPromptTemplate | 29.Annotations/sample01-server-annotations/src/main/kotlin/com/example/annotations/service/McpServerService.kt:48-55 | the three names, in any case, choose their template and any other name gives "Template not found" |
| McpServer.Placeholder | 29.Annotations/sample01-server-annotations/src/main/kotlin/com/example/annotations/service/McpServerService.kt:59 | a placeholder is the key in braces |
| McpServer.FilledNoParams | 29.Annotations/sample01-server-annotations/src/main/kotlin/com/example/annotations/service/McpServerService.kt:57-61 | without parameters the template is returned unchanged |
| McpServer.FilledWithoutBraces | 29.Annotations/sample01-server-annotations/src/main/kotlin/com/example/annotations/service/McpServerService.kt:57-61 | a template without `{` is returned unchanged by any parameters |
| McpServer.FillTemplate | 29.Annotations/sample01-server-annotations/src/main/kotlin/com/example/annotations/service/McpServerService.kt:57-61 | the loop replaces each key's placeholder by its value, in the order of the parameters |
| ImageValidation.MaxFileSizeMB | 10.2.ImageUploadAndAnalysis/sample/bin/main/com/example/springai/service/ImageValidationService.kt:61-63 | the reported limit is 20 MB, and 20 MB is exactly the byte limit |
| ImageValidation.ValidateImage | 10.2.ImageUploadAndAnalysis/sample/bin/main/com/example/springai/service/ImageValidationService.kt:25-49 | a file is valid exactly when it is not empty, at most 20 MiB and of an allowed type compared in lower case; the first failing check decides the message |
| ImageValidation.SupportedFormats | 10.2.ImageUploadAndAnalysis/sample/bin/main/com/example/springai/service/ImageValidationService.kt:54-56 | five distinct content types, all lower case |
| ImageValidation.SizeBoundary | 10.2.ImageUploadAndAnalysis/sample/bin/main/com/example/springai/service/ImageValidationService.kt:32 | exactly 20 MiB passes; one byte more is rejected for its size |
| ImageValidation.ContentTypeCaseInsensitive | 10.2.ImageUploadAndAnalysis/sample/bin/main/com/example/springai/service/ImageValidationService.kt:41 | two content types that agree in lower case get the same verdict |
| ImageValidation.MessagesDistinct | 10.2.ImageUploadAndAnalysis/sample/bin/main/com/example/springai/service/ImageValidationService.kt:28-48 | the four messages are different, so the message tells which check decided |
| ModelSelector.SelectModel | 2.2.LLM_Models/sample/src/main/kotlin/com/example/springai/service/ModelSelectorService.kt:22-29 | Ollama is chosen exactly when it is configured and the question is shorter than 50 UTF-16 code units |
| ModelSelector.SelectModelOnBasicPlane | 2.2.LLM_Models/sample/src/main/kotlin/com/example/springai/service/ModelSelectorService.kt:25 | for text without characters above U+FFFF the bound counts characters |
| ModelSelector.EmojiQuestionNotShort | 2.2.LLM_Models/sample/src/main/kotlin/com/example/springai/service/ModelSelectorService.kt:25 | 25 emoji are fewer than 50 characters but 50 code units, so they go to the primary model |
| ModelSelector.SmartChat | 2.2.LLM_Models/sample/src/main/kotlin/com/example/springai/service/ModelSelectorService.kt:34-46 | reports "Ollama" exactly when Ollama was chosen, the chosen model's first text or "응답 없음", and the question's length in UTF-16 code units |
| ModelSelector.CostOptimizedChat | 2.2.LLM_Models/sample/src/main/kotlin/com/example/springai/service/ModelSelectorService.kt:51-68 | the cost flag holds exactly for a configured Ollama and a message under 30 UTF-16 code units whose lower case contains a small-talk word; the name and the model follow the flag |
| ModelSelector.SmallTalkMatches | 2.2.LLM_Models/sample/src/main/kotlin/com/example/springai/service/ModelSelectorService.kt:54 | a small-talk word written literally in the message is found after lower-casing |
| ModelSelector.CostRuleWithinSelect | 2.2.LLM_Models/sample/src/main/kotlin/com/example/springai/service/ModelSelectorService.kt:25-55 | every message the cost rule sends to Ollama, selectModel also sends there |
| ModelSelector.GreetingUsesOllama | 2.2.LLM_Models/sample/src/main/kotlin/com/example/springai/service/ModelSelectorService.kt:53-57 | "hello" and "HELLO" use Ollama exactly when it is configured |
| VisionService.MimeTypeFromFilename | 10.1.VisionAPI/sample/bin/main/com/example/springai/service/VisionService.kt:148-158 | the detected type is always one of PNG, JPEG, GIF and WebP |
| VisionService.MimeTypeBySuffix | 10.1.VisionAPI/sample/bin/main/com/example/springai/service/VisionService.kt:150-157 | each extension, in any letter case, gives its type; GIF, WebP and PNG are reported only for their own extensions, and any other name falls back to JPEG |
| VisionService.MimeTypeMissingName | 10.1.VisionAPI/sample/bin/main/com/example/springai/service/VisionService.kt:149 | a resource without a file name is treated as JPEG |
| VisionService.ValidateImageSizeExact | 10.1.VisionAPI/sample/bin/main/com/example/springai/service/VisionService.kt:163-166 | the size in MB is within the limit exactly when the byte count is at most the limit times 1024 * 1024 |
| VisionService.ValidateImageSizeMonotone | 10.1.VisionAPI/sample/bin/main/com/example/springai/service/VisionService.kt:163-166 | a smaller image under a larger limit passes whenever the larger image passed |
| VisionService.DefaultLimitBoundary | 10.1.VisionAPI/sample/bin/main/com/example/springai/service/VisionService.kt:163 | with the default 20 MB, exactly 20 MiB passes and one byte more fails |
| RoleClient.SystemMessage | 3.2.RoleBasedMessage/sample/bin/main/com/example/springai/service/RoleClientService.kt:14-82 | teacher, doctor, chef and developer, matched on the lower-cased role, each get their own persona text; any other role gets the default assistant text |
| RoleClient.PersonasNotDefault | 3.2.RoleBasedMessage/sample/bin/main/com/example/springai/service/RoleClientService.kt:16-80 | none of the four persona texts is the default text |
| RoleClient.DefaultOnlyForOthers | 3.2.RoleBasedMessage/sample/bin/main/com/example/springai/service/RoleClientService.kt:15-80 | the default text is given exactly for roles outside the four personas |
| RoleClient.PersonaLiteralTrimmed | 3.2.RoleBasedMessage/sample/bin/main/com/example/springai/service/RoleClientService.kt:18-78 | trimIndent of a persona's raw literal is its lines joined without the margin or the blank first and last lines |
| RoleClient.TeacherShaped | 3.2.RoleBasedMessage/sample/bin/main/com/example/springai/service/RoleClientService.kt:18-30 | the teacher literal's lines fit the shape trimIndent strips cleanly |
| RoleClient.DoctorShaped | 3.2.RoleBasedMessage/sample/bin/main/com/example/springai/service/RoleClientService.kt:34-46 | the doctor literal's lines fit that shape |
| RoleClient.ChefShaped | 3.2.RoleBasedMessage/sample/bin/main/com/example/springai/service/RoleClientService.kt:50-62 | the chef literal's lines fit that shape |
| RoleClient.DeveloperShaped | 3.2.RoleBasedMessage/sample/bin/main/com/example/springai/service/RoleClientService.kt:66-78 | the developer literal's lines fit that shape |
| RoleClient.PersonaContains | 3.2.RoleBasedMessage/sample/bin/main/com/example/springai/service/RoleClientService.kt:16-78 | a phrase on one line of a persona is in its text |
| RoleClient.TeacherKeywordLines | 3.2.RoleBasedMessage/sample/bin/main/com/example/springai/service/RoleClientService.kt:19-22 | the teacher text names 선생님 and promises to explain simply |
| RoleClient.DoctorKeywordLines | 3.2.RoleBasedMessage/sample/bin/main/com/example/springai/service/RoleClientService.kt:35-38 | the doctor text names 의사 and its medical scope |
| RoleClient.ChefKeywordLines | 3.2.RoleBasedMessage/sample/bin/main/com/example/springai/service/RoleClientService.kt:51-54 | the chef text names 셰프 and cooking |
| RoleClient.DeveloperKeywordLines | 3.2.RoleBasedMessage/sample/bin/main/com/example/springai/service/RoleClientService.kt:67-70 | the developer text names 개발자 and code |
| RoleClient.SystemMessageCaseInsensitive | 3.2.RoleBasedMessage/sample/bin/main/com/example/springai/service/RoleClientService.kt:15 | the role's letter case never changes the message |
| RoleClient.CustomAgreesOnSingleLines | 3.2.RoleBasedMessage/sample/bin/main/com/example/springai/service/RoleClientService.kt:90-98 | for single-line inputs and at most one principle, the raw literal through trimIndent is the intended message |
| RoleClient.CustomMessageContents | 3.2.RoleBasedMessage/sample/bin/main/com/example/springai/service/RoleClientService.kt:90-98 | the custom message contains the role, the instructions and a "- p" line for every principle, also when there are none |
| RoleClient.CustomMessageLines | 3.2.RoleBasedMessage/sample/bin/main/com/example/springai/service/RoleClientService.kt:90-98 | for single-line inputs, the message's lines are the role line, the instructions, a blank, the heading and one bullet per principle |
| RoleClient.InterpolatedJoin | 3.2.RoleBasedMessage/sample/bin/main/com/example/springai/service/RoleClientService.kt:91-97 | interpolating the joined bullets into the literal gives the same text as one literal line per bullet |
| RoleClient.InterpolatedLinesFree | 3.2.RoleBasedMessage/sample/bin/main/com/example/springai/service/RoleClientService.kt:91-97 | for single-line inputs, none of those lines holds a line break |
| RoleClient.CustomAsWrittenKeepsMargin | 3.2.RoleBasedMessage/sample/bin/main/com/example/springai/service/RoleClientService.kt:90-98 | with two or more principles the source's trimIndent keeps the 12-space margin, so its message differs from the intended one |
| RoleClient.Chat | 3.2.RoleBasedMessage/sample/bin/main/com/example/springai/service/RoleClientService.kt:102-107 | the reply to the role's system message, or "응답 없음" when the client returns none |
| RoleClient.CustomChat | 3.2.RoleBasedMessage/sample/bin/main/com/example/springai/service/RoleClientService.kt:110-120 | the reply to the custom system message as the source builds it, `trimIndent` included, or "응답 없음" when there is none |
| RoleClient.CustomChatSends | 3.2.RoleBasedMessage/sample/bin/main/com/example/springai/service/RoleClientService.kt:90-120 | with single-line values and at most one principle customChat sends the intended message; with two or more the message it sends starts with the 12-space margin |
| RoleClient.CustomAsWrittenContents | 3.2.RoleBasedMessage/sample/bin/main/com/example/springai/service/RoleClientService.kt:90-98 | for single-line values, the message the source builds holds the role, the instructions, and a "- p" line and p for every principle |
| SimpleSemanticSearch.Scored | 5.1.EmbeddingClient/sample/src/main/kotlin/com/example/springai/service/SimpleSemanticSearchService.kt:32-35 | one result per stored document, in order, carrying its id, text and cosine score against the query |
| SimpleSemanticSearch.Rank | 5.1.EmbeddingClient/sample/src/main/kotlin/com/example/springai/service/SimpleSemanticSearchService.kt:38 | a negative topK fails with take's message, which names the count; otherwise min(topK, n) results in non-increasing similarity, drawn from the scored documents without repetition |
| SimpleSemanticSearch.RankFromStored | 5.1.EmbeddingClient/sample/src/main/kotlin/com/example/springai/service/SimpleSemanticSearchService.kt:32-38 | every returned result is the scored form of some stored document |
| SimpleSemanticSearch.RankOmittedNotAbove | 5.1.EmbeddingClient/sample/src/main/kotlin/com/example/springai/service/SimpleSemanticSearchService.kt:38 | no scored document left out of the top K scores above the last one returned |
| SimpleSemanticSearch.MismatchedLengthScoresZero | 5.1.EmbeddingClient/sample/src/main/kotlin/com/example/springai/service/SimpleSemanticSearchService.kt:45 | a document whose embedding length differs from the query's scores 0 |
| SimpleSemanticSearch.WithoutIdMembers | 5.1.EmbeddingClient/sample/src/main/kotlin/com/example/springai/service/SimpleSemanticSearchService.kt:68-70 | after removal a document remains exactly when it was stored and has another id |
| SimpleSemanticSearch.WithoutIdShorter | 5.1.EmbeddingClient/sample/src/main/kotlin/com/example/springai/service/SimpleSemanticSearchService.kt:68-70 | removal shortens the list exactly when some document had the id |
| SimpleSemanticSearch.WithoutAbsentId | 5.1.EmbeddingClient/sample/src/main/kotlin/com/example/springai/service/SimpleSemanticSearchService.kt:68-70 | removing an id nobody has leaves the list as it was |
| SimpleSemanticSearch.SimpleSemanticSearchService.constructor | 5.1.EmbeddingClient/sample/src/main/kotlin/com/example/springai/service/SimpleSemanticSearchService.kt:14 | the store starts empty |
| SimpleSemanticSearch.SimpleSemanticSearchService.AddDocument | 5.1.EmbeddingClient/sample/src/main/kotlin/com/example/springai/service/SimpleSemanticSearchService.kt:19-22 | appends the document after the existing ones, duplicates allowed |
| SimpleSemanticSearch.SimpleSemanticSearchService.Search | 5.1.EmbeddingClient/sample/src/main/kotlin/com/example/springai/service/SimpleSemanticSearchService.kt:27-39 | ranks the stored documents: a negative topK fails with take's message, which names the count; otherwise min(topK, n) results, sorted by non-increasing similarity, drawn from the store |
| SimpleSemanticSearch.SimpleSemanticSearchService.GetAllDocuments | 5.1.EmbeddingClient/sample/src/main/kotlin/com/example/springai/service/SimpleSemanticSearchService.kt:61-63 | the documents in insertion order |
| SimpleSemanticSearch.SimpleSemanticSearchService.RemoveDocument | 5.1.EmbeddingClient/sample/src/main/kotlin/com/example/springai/service/SimpleSemanticSearchService.kt:68-70 | drops every document with the id, keeps the others in order, and reports whether one existed |
| SimpleSemanticSearch.SimpleSemanticSearchService.ClearDocuments | 5.1.EmbeddingClient/sample/src/main/kotlin/com/example/springai/service/SimpleSemanticSearchService.kt:75-77 | leaves the store empty |
| SimilarityUtils.DotSymmetric | 5.2.TextSimilarity/sample/src/main/kotlin/com/example/springai/util/SimilarityUtils.kt:14 | the dot product does not depend on the order of the vectors |
| SimilarityUtils.DotSelfNonNegative | 5.2.TextSimilarity/sample/src/main/kotlin/com/example/springai/util/SimilarityUtils.kt:15-16 | a vector's sum of squares is never negative |
| SimilarityUtils.Cosine | 5.2.TextSimilarity/sample/src/main/kotlin/com/example/springai/util/SimilarityUtils.kt:11-23 | vectors of different length, or with a norm that is not positive, score 0; otherwise the score times the product of norms is the dot product |
| SimilarityUtils.CosineSymmetric | 5.2.TextSimilarity/sample/src/main/kotlin/com/example/springai/util/SimilarityUtils.kt:11-23 | swapping the vectors does not change the score |
| SimilarityUtils.CosineZeroVector | 5.2.TextSimilarity/sample/src/main/kotlin/com/example/springai/util/SimilarityUtils.kt:18-22 | a zero vector scores 0 against anything |
| SimilarityUtils.BandIndex | 5.2.TextSimilarity/sample/src/main/kotlin/com/example/springai/util/SimilarityUtils.kt:29-35 | the band is chosen by the inclusive lower bounds 0.9, 0.7, 0.5 and 0.3, each band holding exactly its interval |
| SimilarityUtils.InterpretSimilarity | 5.2.TextSimilarity/sample/src/main/kotlin/com/example/springai/util/SimilarityUtils.kt:28-36 | the wording is the one of the score's band |
| SimilarityUtils.BandsDistinct | 5.2.TextSimilarity/sample/src/main/kotlin/com/example/springai/util/SimilarityUtils.kt:30-34 | the five wordings are different |
| SimilarityUtils.InterpretMonotone | 5.2.TextSimilarity/sample/src/main/kotlin/com/example/springai/util/SimilarityUtils.kt:29-35 | a higher score never gets a lower band |
| SimilarityUtils.InterpretSameBand | 5.2.TextSimilarity/sample/src/main/kotlin/com/example/springai/util/SimilarityUtils.kt:28-36 | two scores get the same wording exactly when they share a band |
| SimilarityUtils.BandBoundsInclusive | 5.2.TextSimilarity/sample/src/main/kotlin/com/example/springai/util/SimilarityUtils.kt:30-34 | each bound belongs to the band above it, and 0.29 is 다름 |
| TextClustering.OwnerBelow | 5.2.TextSimilarity/sample/src/main/kotlin/com/example/springai/service/TextClusteringService.kt:22-38 | the first earlier centre that claims a text is itself a centre, scores at least the threshold with it, and no earlier centre claimed it |
| TextClustering.OwnerNone | 5.2.TextSimilarity/sample/src/main/kotlin/com/example/springai/service/TextClusteringService.kt:29-37 | a text no earlier centre claimed scores below the threshold with every earlier centre |
| TextClustering.OwnerStable | 5.2.TextSimilarity/sample/src/main/kotlin/com/example/springai/service/TextClusteringService.kt:30 | once a text is claimed, later centres never take it again |
| TextClustering.OwnerFixedFrom | 5.2.TextSimilarity/sample/src/main/kotlin/com/example/springai/service/TextClusteringService.kt:30 | the claiming centre is settled as soon as that centre has run |
| TextClustering.OwnerIsFirstSimilarCenter | 5.2.TextSimilarity/sample/src/main/kotlin/com/example/springai/service/TextClusteringService.kt:22-38 | each text belongs to the first centre at or before it that scores at least the threshold with it, and is its own centre when none does |
| TextClustering.Taken | 5.2.TextSimilarity/sample/src/main/kotlin/com/example/springai/service/TextClusteringService.kt:29-37 | the texts a centre claims lie in the scanned range |
| TextClustering.TakenMembers | 5.2.TextSimilarity/sample/src/main/kotlin/com/example/springai/service/TextClusteringService.kt:29-37 | a text in the range is claimed by a centre exactly when that centre is its first owner |
| TextClustering.Members | 5.2.TextSimilarity/sample/src/main/kotlin/com/example/springai/service/TextClusteringService.kt:25-37 | a cluster lists its centre first and then only later texts within the list |
| TextClustering.MembersAreOwned | 5.2.TextSimilarity/sample/src/main/kotlin/com/example/springai/service/TextClusteringService.kt:25-37 | a text is in a centre's cluster exactly when that centre owns it |
| TextClustering.MembersSimilarToCenter | 5.2.TextSimilarity/sample/src/main/kotlin/com/example/springai/service/TextClusteringService.kt:34-36 | every text after the centre in a cluster scores at least the threshold with the centre |
| TextClustering.TextsAt | 5.2.TextSimilarity/sample/src/main/kotlin/com/example/springai/service/TextClusteringService.kt:43 | a cluster's texts are the input texts at its indices, in order |
| TextClustering.CentersOf | 5.2.TextSimilarity/sample/src/main/kotlin/com/example/springai/service/TextClusteringService.kt:44 | the centre of each cluster, in order |
| TextClustering.RawClustersShape | 5.2.TextSimilarity/sample/src/main/kotlin/com/example/springai/service/TextClusteringService.kt:40-47 | before sorting, cluster k has id k and is the cluster of a centre below the bound |
| TextClustering.RawCentersIncrease | 5.2.TextSimilarity/sample/src/main/kotlin/com/example/springai/service/TextClusteringService.kt:22 | before sorting, the centres increase |
| TextClustering.RawCentersComplete | 5.2.TextSimilarity/sample/src/main/kotlin/com/example/springai/service/TextClusteringService.kt:23 | every centre below the bound has a cluster |
| TextClustering.CountTakenSplitLow | 5.2.TextSimilarity/sample/src/main/kotlin/com/example/springai/service/TextClusteringService.kt:29-37 | peels the first text off the count of claimed texts |
| TextClustering.CountTakenCenterStep | 5.2.TextSimilarity/sample/src/main/kotlin/com/example/springai/service/TextClusteringService.kt:29-37 | a centre adds the texts it claims to the count of claimed texts |
| TextClustering.CountTakenSkipStep | 5.2.TextSimilarity/sample/src/main/kotlin/com/example/springai/service/TextClusteringService.kt:23 | a skipped text claims nothing |
| TextClustering.RawSizes | 5.2.TextSimilarity/sample/src/main/kotlin/com/example/springai/service/TextClusteringService.kt:22-48 | after the first i texts, the cluster sizes add up to i plus the later texts already claimed |
| TextClustering.CountTakenNone | 5.2.TextSimilarity/sample/src/main/kotlin/com/example/springai/service/TextClusteringService.kt:20 | before any centre runs nothing is claimed |
| TextClustering.ClusterSizesSumToCount | 5.2.TextSimilarity/sample/src/main/kotlin/com/example/springai/service/TextClusteringService.kt:14-51 | the cluster sizes add up to the number of texts |
| TextClustering.ClustersWellFormed | 5.2.TextSimilarity/sample/src/main/kotlin/com/example/springai/service/TextClusteringService.kt:40-50 | each cluster has a centre in range, lists the centre's member texts with the centre first, has the size of that list and an id below the number of clusters |
| TextClustering.ClustersCoverCenters | 5.2.TextSimilarity/sample/src/main/kotlin/com/example/springai/service/TextClusteringService.kt:22-48 | every centre has a cluster |
| TextClustering.ClusterFromRaw | 5.2.TextSimilarity/sample/src/main/kotlin/com/example/springai/service/TextClusteringService.kt:50 | every sorted cluster is one of the clusters built |
| TextClustering.ClustersNoDuplicates | 5.2.TextSimilarity/sample/src/main/kotlin/com/example/springai/service/TextClusteringService.kt:40-50 | no cluster appears twice |
| TextClustering.ClustersDistinctCenters | 5.2.TextSimilarity/sample/src/main/kotlin/com/example/springai/service/TextClusteringService.kt:44 | no two clusters share a centre |
| TextClustering.ClustersDistinctIds | 5.2.TextSimilarity/sample/src/main/kotlin/com/example/springai/service/TextClusteringService.kt:42 | no two clusters share an id |
| TextClustering.EveryTextInOneCluster | 5.2.TextSimilarity/sample/src/main/kotlin/com/example/springai/service/TextClusteringService.kt:14-51 | every text is in exactly one cluster, its owner's |
| TextClustering.NoTextsNoClusters | 5.2.TextSimilarity/sample/src/main/kotlin/com/example/springai/service/TextClusteringService.kt:14-51 | no texts give no clusters |
| TextClustering.GrowCluster | 5.2.TextSimilarity/sample/src/main/kotlin/com/example/springai/service/TextClusteringService.kt:25-37 | the inner loop collects exactly the centre's members and marks as used every text claimed so far |
| TextClustering.SkipKeepsOwners | 5.2.TextSimilarity/sample/src/main/kotlin/com/example/springai/service/TextClusteringService.kt:23 | a used text changes no one's owner |
| TextClustering.RawClustersStep | 5.2.TextSimilarity/sample/src/main/kotlin/com/example/springai/service/TextClusteringService.kt:22-48 | a centre appends its cluster with the next id; a used text adds nothing |
| TextClustering.ClusterTexts | 5.2.TextSimilarity/sample/src/main/kotlin/com/example/springai/service/TextClusteringService.kt:14-51 | the loop builds exactly the greedy clustering, sorted by size, largest first, whose sizes add up to the number of texts |
| SimilarityPairs.RowStep | 5.2.TextSimilarity/sample/src/main/kotlin/com/example/springai/service/DuplicateDetectionService.kt:23-38 | the inner loop's row grows by the cell of the next j |
| SimilarityPairs.CollectRow | 5.2.TextSimilarity/sample/src/main/kotlin/com/example/springai/service/DuplicateDetectionService.kt:23-38 | the inner loop appends exactly the kept pairs (i, j) for j after i, in order |
| SimilarityPairs.CollectPairs | 5.2.TextSimilarity/sample/src/main/kotlin/com/example/springai/service/DuplicateDetectionService.kt:22-39 | the nested loops collect exactly the kept pairs, row by row |
| SimilarityPairs.RowSound | 5.2.TextSimilarity/sample/src/main/kotlin/com/example/springai/service/DuplicateDetectionService.kt:23-38 | every pair in a row starts at i, ends before the bound and is a kept pair of the texts |
| SimilarityPairs.RowsSound | 5.2.TextSimilarity/sample/src/main/kotlin/com/example/springai/service/DuplicateDetectionService.kt:22-39 | every pair in the first rows is a kept pair starting before the bound |
| SimilarityPairs.PairsSound | 5.2.TextSimilarity/sample/src/main/kotlin/com/example/springai/service/DuplicateDetectionService.kt:22-39 | every collected pair is a kept pair i < j with its texts and score |
| SimilarityPairs.RowComplete | 5.2.TextSimilarity/sample/src/main/kotlin/com/example/springai/service/DuplicateDetectionService.kt:23-38 | every kept pair (i, j) inside the row's range is in the row |
| SimilarityPairs.RowsComplete | 5.2.TextSimilarity/sample/src/main/kotlin/com/example/springai/service/DuplicateDetectionService.kt:22-39 | every kept pair whose first index is within the rows is collected |
| SimilarityPairs.RowDistinct | 5.2.TextSimilarity/sample/src/main/kotlin/com/example/springai/service/DuplicateDetectionService.kt:23-38 | a row holds no pair twice |
| SimilarityPairs.RowsDistinct | 5.2.TextSimilarity/sample/src/main/kotlin/com/example/springai/service/DuplicateDetectionService.kt:22-39 | the rows together hold no pair twice |
| SimilarityPairs.PairsCount | 5.2.TextSimilarity/sample/src/main/kotlin/com/example/springai/service/DuplicateDetectionService.kt:22-39 | each pair i < j is collected once if kept and otherwise not at all |
| SimilarityPairs.RowLength | 5.2.TextSimilarity/sample/src/main/kotlin/com/example/springai/controller/PairwiseSimilarityController.kt:31-43 | a row has at most one pair per later text, and exactly that many when every pair is kept |
| SimilarityPairs.RowsLength | 5.2.TextSimilarity/sample/src/main/kotlin/com/example/springai/controller/PairwiseSimilarityController.kt:30-44 | the first rows hold at most, and with every pair kept exactly, their share of the n(n-1)/2 pairs |
| SimilarityPairs.PairsLength | 5.2.TextSimilarity/sample/src/main/kotlin/com/example/springai/controller/PairwiseSimilarityController.kt:30-50 | at most n(n-1)/2 pairs are collected, and exactly that many when every pair is kept |
| SimilarityPairs.PairsDistinct | 5.2.TextSimilarity/sample/src/main/kotlin/com/example/springai/service/DuplicateDetectionService.kt:22-39 | no pair is collected twice |
| SimilarityPairs.SortedPairs | 5.2.TextSimilarity/sample/src/main/kotlin/com/example/springai/service/DuplicateDetectionService.kt:41 | sorting by score, highest first, keeps exactly the collected pairs, once each |
| DuplicateDetection.DetectDuplicates | 5.2.TextSimilarity/sample/src/main/kotlin/com/example/springai/service/DuplicateDetectionService.kt:14-42 | every pair i < j scoring at least the threshold, exactly once, with its texts and score, sorted by score, highest first |
| PairwiseSimilarity.CalculatePairwiseSimilarity | 5.2.TextSimilarity/sample/src/main/kotlin/com/example/springai/controller/PairwiseSimilarityController.kt:23-62 | all n(n-1)/2 pairs, once each, sorted by score; mostSimilar is the first and leastSimilar the last, both absent exactly when there are fewer than two texts |
| PairwiseSimilarity.PairCountPositive | 5.2.TextSimilarity/sample/src/main/kotlin/com/example/springai/controller/PairwiseSimilarityController.kt:54-58 | there is a pair exactly when there are at least two texts |
| TopKSimilarity.AllResults | 5.2.TextSimilarity/sample/src/main/kotlin/com/example/springai/controller/TopKSimilarityController.kt:29-36 | one result per text, in order, with its score and the score times 100 |
| TopKSimilarity.RankAll | 5.2.TextSimilarity/sample/src/main/kotlin/com/example/springai/controller/TopKSimilarityController.kt:46-53 | the k-th kept result gets rank k + 1 and keeps its text and scores |
| TopKSimilarity.Unranked | 5.2.TextSimilarity/sample/src/main/kotlin/com/example/springai/controller/TopKSimilarityController.kt:46-53 | dropping the rank gives back the text and scores |
| TopKSimilarity.FindTopKSimilar | 5.2.TextSimilarity/sample/src/main/kotlin/com/example/springai/controller/TopKSimilarityController.kt:23-55 | a negative topK fails with take's message, which names the count; otherwise echoes the query, topK and text count and returns min(topK, n) results ranked 1, 2, ... in non-increasing similarity, the first ones of the stable descending sort of all results |
| TopKSimilarity.TopKFromInput | 5.2.TextSimilarity/sample/src/main/kotlin/com/example/springai/controller/TopKSimilarityController.kt:38-40 | every returned result is the result of one of the texts |
| TopKSimilarity.TopKOmittedNotAbove | 5.2.TextSimilarity/sample/src/main/kotlin/com/example/springai/controller/TopKSimilarityController.kt:38-40 | no text left out scores above the last one returned |
| ThresholdSimilarity.FindSimilarTexts | 5.2.TextSimilarity/sample/src/main/kotlin/com/example/springai/controller/ThresholdSimilarityController.kt:23-49 | echoes the query, threshold and count; the results are the stable descending sort of the texts' results, in input order, filtered to those scoring at least the threshold; they are sorted and are exactly those results, and filteredCount is their number |
| ThresholdSimilarity.ResultMultiplicity | 5.2.TextSimilarity/sample/src/main/kotlin/com/example/springai/controller/ThresholdSimilarityController.kt:38-46 | a result occurs as often as among the scored texts when it reaches the threshold, and never otherwise |
| ThresholdSimilarity.RepeatedTextCountedTwice | 5.2.TextSimilarity/sample/src/main/kotlin/com/example/springai/controller/ThresholdSimilarityController.kt:38-46 | two equal texts with equal scores at the threshold are both reported and counted |
| ThresholdSimilarity.ReportedIffAtThreshold | 5.2.TextSimilarity/sample/src/main/kotlin/com/example/springai/controller/ThresholdSimilarityController.kt:39 | a text is reported exactly when its score reaches the threshold, the bound included |
| ThresholdSimilarity.ThresholdMonotone | 5.2.TextSimilarity/sample/src/main/kotlin/com/example/springai/controller/ThresholdSimilarityController.kt:38-40 | lowering the threshold never drops a result |
| ThresholdSimilarity.LowThresholdKeepsAll | 5.2.TextSimilarity/sample/src/main/kotlin/com/example/springai/controller/ThresholdSimilarityController.kt:39 | when every score reaches the threshold every text is reported |
| MultipleSimilarity.Entries | 5.2.TextSimilarity/sample/src/main/kotlin/com/example/springai/controller/MultipleSimilarityController.kt:29-38 | one entry per text with its index, text, score, percentage and band wording |
| MultipleSimilarity.CompareMultiple | 5.2.TextSimilarity/sample/src/main/kotlin/com/example/springai/controller/MultipleSimilarityController.kt:23-55 | all entries, sorted by similarity, highest first, as a permutation of the per-text entries; mostSimilar is the first one, absent for no texts |
| MultipleSimilarity.EntriesFaithful | 5.2.TextSimilarity/sample/src/main/kotlin/com/example/springai/controller/MultipleSimilarityController.kt:29-40 | every result is the entry of its own index |
| MultipleSimilarity.OneEntryPerText | 5.2.TextSimilarity/sample/src/main/kotlin/com/example/springai/controller/MultipleSimilarityController.kt:29-40 | every text appears exactly once |
| MultipleSimilarity.MostSimilarIsMaximum | 5.2.TextSimilarity/sample/src/main/kotlin/com/example/springai/controller/MultipleSimilarityController.kt:41-53 | mostSimilar is absent exactly for no texts and otherwise scores at least as high as every text |
| MultipleSimilarity.TiesKeepInputOrder | 5.2.TextSimilarity/sample/src/main/kotlin/com/example/springai/controller/MultipleSimilarityController.kt:40 | texts with equal scores keep their input order, as the stable sort does |
| SemanticSearch.Scored | 23.EmbeddingModel/sample03-similarity-calculation/bin/main/com/example/embedding/service/SemanticSearchService.kt:22-30 | one result per document, in order, with its score |
| SemanticSearch.Search | 23.EmbeddingModel/sample03-similarity-calculation/bin/main/com/example/embedding/service/SemanticSearchService.kt:14-33 | a negative topK fails with take's message, which names the count; otherwise min(topK, n) results sorted by non-increasing similarity, drawn from the scored documents without repetition |
| SemanticSearch.ResultsFromDocuments | 23.EmbeddingModel/sample03-similarity-calculation/bin/main/com/example/embedding/service/SemanticSearchService.kt:22-32 | every result is the scored form of some document |
| SemanticSearch.OmittedNotAbove | 23.EmbeddingModel/sample03-similarity-calculation/bin/main/com/example/embedding/service/SemanticSearchService.kt:31-32 | no document left out scores above the last one returned |
| SemanticSearch.DefaultReturnsThree | 23.EmbeddingModel/sample03-similarity-calculation/bin/main/com/example/embedding/service/SemanticSearchService.kt:14 | with the default topK of 3 and at least three documents, three results come back |
| RagService.Blocks | 14.WikiKMS/sample/bin/main/com/example/wikichatbot/service/RAGService.kt:37-42 | one block per retrieved document, numbered from 1 in retrieval order, each the text the source's `trimIndent` gives for that document |
| RagService.IntendedBlocks | 14.WikiKMS/sample/bin/main/com/example/wikichatbot/service/RAGService.kt:37-42 | one intended block per retrieved document, numbered from 1, its header at column 0 |
| RagService.ContextAgreesOnSingleLines | 14.WikiKMS/sample/bin/main/com/example/wikichatbot/service/RAGService.kt:37-43 | for single-line contents and sources, the source's blocks and context are the intended ones |
| RagService.Sources | 14.WikiKMS/sample/bin/main/com/example/wikichatbot/service/RAGService.kt:49-51 | the text sources listed carry no duplicates |
| RagService.AskQuestion | 14.WikiKMS/sample/bin/main/com/example/wikichatbot/service/RAGService.kt:21-58 | no retrieved document gives the fixed answer and no sources without calling the model; otherwise the model's answer to the prompt as the source builds it, `trimIndent` included, from the blocks as the source builds them, and the distinct text sources |
| RagService.SourcesExact | 14.WikiKMS/sample/bin/main/com/example/wikichatbot/service/RAGService.kt:49-51 | a source is listed exactly when some document's source metadata is that text |
| RagService.SourcesFirstAppearance | 14.WikiKMS/sample/bin/main/com/example/wikichatbot/service/RAGService.kt:49-51 | sources are listed in the order of their first appearance |
| RagService.ContextHoldsEveryDocument | 14.WikiKMS/sample/bin/main/com/example/wikichatbot/service/RAGService.kt:37-43 | the intended context holds every document's numbered header and its content |
| RagService.MissingSourceShownUnknown | 14.WikiKMS/sample/bin/main/com/example/wikichatbot/service/RAGService.kt:38 | a document without a source is headed "알 수 없음" in the intended context and contributes no source |
| RagService.PromptHoldsQuestionAndContext | 14.WikiKMS/sample/bin/main/com/example/wikichatbot/service/RAGService.kt:63-81 | the prompt holds the question and the context |
| RagService.IntendedPromptHoldsDocuments | 14.WikiKMS/sample/bin/main/com/example/wikichatbot/service/RAGService.kt:63-81 | the intended prompt holds the question and every document's content |
| RagService.SentPromptKeepsMargins | 14.WikiKMS/sample/bin/main/com/example/wikichatbot/service/RAGService.kt:37-81 | for single-line documents whose context has a line at column 0, the prompt the source sends is the intended prompt's lines, each behind the 12-space margin |
| RagService.AskedPromptHoldsDocuments | 14.WikiKMS/sample/bin/main/com/example/wikichatbot/service/RAGService.kt:37-47 | for single-line documents whose context has a line at column 0, the prompt the source sends holds the question, every document's numbered header and its content |
| RagService.PromptStartsAtColumnZero | 14.WikiKMS/sample/bin/main/com/example/wikichatbot/service/RAGService.kt:63-81 | the intended prompt starts with its introduction, unindented |
| RagService.BlockStartsWithHeader | 14.WikiKMS/sample/bin/main/com/example/wikichatbot/service/RAGService.kt:37-42 | the intended block starts with its header at column zero |
| RagService.HeaderSingleLine | 14.WikiKMS/sample/bin/main/com/example/wikichatbot/service/RAGService.kt:40 | a header of a single-line source is one line |
| RagService.BlockAgreesOnSingleLine | 14.WikiKMS/sample/bin/main/com/example/wikichatbot/service/RAGService.kt:37-42 | for one-line content and source, the source's trimIndent gives the intended block |
| RagService.BlockAsWrittenKeepsMargin | 14.WikiKMS/sample/bin/main/com/example/wikichatbot/service/RAGService.kt:39-42 | when the content has a second line at column zero, trimIndent keeps the 12-space margin before the header |
| RagService.IntroSingle | 14.WikiKMS/sample/bin/main/com/example/wikichatbot/service/RAGService.kt:65 | the introduction is one line |
| RagService.InstructionSingle | 14.WikiKMS/sample/bin/main/com/example/wikichatbot/service/RAGService.kt:66 | the instruction is one line |
| RagService.HeadingsSingle | 14.WikiKMS/sample/bin/main/com/example/wikichatbot/service/RAGService.kt:68-74 | the headings are one line each |
| RagService.Rule1Single | 14.WikiKMS/sample/bin/main/com/example/wikichatbot/service/RAGService.kt:75 | the first rule is one line |
| RagService.Rule2Single | 14.WikiKMS/sample/bin/main/com/example/wikichatbot/service/RAGService.kt:76 | the second rule is one line |
| RagService.Rule3Single | 14.WikiKMS/sample/bin/main/com/example/wikichatbot/service/RAGService.kt:77 | the third rule is one line |
| RagService.Rule45Single | 14.WikiKMS/sample/bin/main/com/example/wikichatbot/service/RAGService.kt:78-79 | the last two rules are one line each |
| RagService.PromptBodySingle | 14.WikiKMS/sample/bin/main/com/example/wikichatbot/service/RAGService.kt:64-80 | for a one-line question, every prompt line except the context is one line |
| RagService.PaddedPromptSingle | 14.WikiKMS/sample/bin/main/com/example/wikichatbot/service/RAGService.kt:64-80 | the same holds for the indented literal lines |
| RagService.SplicedLinesSingle | 14.WikiKMS/sample/bin/main/com/example/wikichatbot/service/RAGService.kt:69 | splicing a two-line context into the literal gives lines without breaks |
| RagService.PromptLiteralLines | 14.WikiKMS/sample/bin/main/com/example/wikichatbot/service/RAGService.kt:64-80 | the literal with a two-line context splits into 18 lines, the context's second line at column zero |
| RagService.PromptAsWrittenKeepsMargin | 14.WikiKMS/sample/bin/main/com/example/wikichatbot/service/RAGService.kt:63-81 | with a multi-line context, the source's trimIndent keeps the 12-space margin before the introduction |
| RagService.PromptAsWrittenOnOneDocument | 14.WikiKMS/sample/bin/main/com/example/wikichatbot/service/RAGService.kt:37-81 | for one retrieved document with one-line content, the source's block is the intended one, yet the prompt it sends starts with the 12-space margin and differs from the intended prompt |
| Strings.Trim | 4.2.ParseListAndMap/sample/src/main/kotlin/com/example/springai/util/ListOutputParser.kt:25 | Kotlin trim leaves no whitespace at either end |
| Strings.TrimStripped | 4.2.ParseListAndMap/sample/src/main/kotlin/com/example/springai/util/ListOutputParser.kt:25 | trim removes a whitespace prefix and a whitespace suffix and nothing else |
| Strings.TrimIsSubstring | 4.2.ParseListAndMap/sample/src/main/kotlin/com/example/springai/util/ListOutputParser.kt:25 | the trimmed text is a contiguous part of the original |
| Strings.TrimEmptyIffBlank | 4.2.ParseListAndMap/sample/src/main/kotlin/com/example/springai/util/ListOutputParser.kt:25-26 | a line trims to empty exactly when it is blank |
| Strings.TrimIdempotent | 4.2.ParseListAndMap/sample/src/main/kotlin/com/example/springai/util/ListOutputParser.kt:31 | trimming twice is trimming once |
| Strings.IndexOf | 4.1.BeanOutputParserNDataClass/sample/src/main/kotlin/com/example/springai/util/JsonCleaner.kt:31-32 | indexOf finds the first occurrence, and none exactly when the pattern is absent |
| Strings.SplitJoin | 4.2.ParseListAndMap/sample/src/main/kotlin/com/example/springai/util/ListOutputParser.kt:30 | joining the pieces of split with the separator gives back the text |
| Strings.Lower | 29.Annotations/sample01-server-annotations/src/main/kotlin/com/example/annotations/service/McpServerService.kt:26 | lowercase maps every ASCII letter and keeps the length |
| Strings.Upper | 29.Annotations/sample01-server-annotations/src/main/kotlin/com/example/annotations/service/McpServerService.kt:27 | uppercase maps every ASCII letter and keeps the length |
| Strings.ReplaceAbsent | 29.Annotations/sample01-server-annotations/src/main/kotlin/com/example/annotations/service/McpServerService.kt:59 | replacing a pattern that does not occur changes nothing |
| Strings.RemoveRunLeavesNone | 4.1.BeanOutputParserNDataClass/sample/src/main/kotlin/com/example/springai/util/JsonCleaner.kt:12-13 | removing every occurrence of a run such as three backticks leaves none behind |
| Strings.Filter | 4.2.ParseListAndMap/sample/src/main/kotlin/com/example/springai/util/ListOutputParser.kt:26 | filter keeps only elements that pass, drawn from the input, and every element that passes |
| Strings.FilterMultiset | 4.2.ParseListAndMap/sample/src/main/kotlin/com/example/springai/util/ListOutputParser.kt:26 | filter keeps every passing element as often as it occurs, and no other |
| Strings.FilterConcat | 4.2.ParseListAndMap/sample/src/main/kotlin/com/example/springai/util/ListOutputParser.kt:26 | filter distributes over concatenation, so it keeps the input order |
| Strings.Utf16RoundTrip | 2.2.LLM_Models/sample/src/main/kotlin/com/example/springai/service/ModelSelectorService.kt:25 | decoding the UTF-16 code units of a text gives the text back |
| Strings.Utf16LengthBounds | 2.2.LLM_Models/sample/src/main/kotlin/com/example/springai/service/ModelSelectorService.kt:25 | a text has between one and two code units per character, one each below U+10000 and two each above |
| Strings.MapNotNullSound | 14.WikiKMS/sample/bin/main/com/example/wikichatbot/service/RAGService.kt:49-50 | every value mapNotNull returns comes from some element |
| Strings.MapNotNullComplete | 14.WikiKMS/sample/bin/main/com/example/wikichatbot/service/RAGService.kt:49-50 | every non-null value is returned |
| Strings.Distinct | 4.2.ParseListAndMap/sample/src/main/kotlin/com/example/springai/util/ListOutputParser.kt:37 | distinct keeps every element once and adds nothing |
| Strings.DistinctMembers | 4.2.ParseListAndMap/sample/src/main/kotlin/com/example/springai/util/ListOutputParser.kt:37 | an element survives distinct exactly when it was there |
| Strings.DistinctFirstOccurrenceOrder | 4.2.ParseListAndMap/sample/src/main/kotlin/com/example/springai/util/ListOutputParser.kt:37 | distinct keeps elements in the order of their first occurrence |
| Strings.TrimIndentLiteral | 4.2.ParseListAndMap/sample/src/main/kotlin/com/example/springai/util/ListOutputParser.kt:14-17 | trimIndent of a raw string whose lines share a margin, with a blank first line and a margin-only last line, is its lines without the margin |
| Sorting.SortDesc | 5.2.TextSimilarity/sample/src/main/kotlin/com/example/springai/controller/MultipleSimilarityController.kt:40 | sortedByDescending gives a non-increasing permutation of its input |
| Sorting.SortDescStable | 5.2.TextSimilarity/sample/src/main/kotlin/com/example/springai/controller/MultipleSimilarityController.kt:40 | equal keys keep their input order |
| Sorting.SortDescSum | 5.2.TextSimilarity/sample/src/main/kotlin/com/example/springai/service/TextClusteringService.kt:50 | sorting does not change a sum over the elements |
| Sorting.SortedBounds | 5.2.TextSimilarity/sample/src/main/kotlin/com/example/springai/controller/MultipleSimilarityController.kt:41 | in a non-increasing list the first key is the largest and the last the smallest |
| Sorting.Take | 5.2.TextSimilarity/sample/src/main/kotlin/com/example/springai/controller/TopKSimilarityController.kt:40 | take keeps the first min(k, n) elements |
| Sorting.TopK | 5.2.TextSimilarity/sample/src/main/kotlin/com/example/springai/controller/TopKSimilarityController.kt:38-40 | sorting then taking k gives min(k, n) elements in non-increasing order, drawn from the input |
| Sorting.TopKOmittedNotHigher | 5.2.TextSimilarity/sample/src/main/kotlin/com/example/springai/controller/TopKSimilarityController.kt:38-40 | nothing left out ranks above the last one kept |
| Sorting.TopKMembers | 5.2.TextSimilarity/sample/src/main/kotlin/com/example/springai/controller/TopKSimilarityController.kt:38-40 | everything kept comes from the input |
| Sorting.SortDescSameElements | 5.2.TextSimilarity/sample/src/main/kotlin/com/example/springai/controller/MultipleSimilarityController.kt:40 | sorting keeps exactly the same elements |
| Strings.AfterLast | 40.OpenAPISpec/src/main/kotlin/com/example/openapi/service/YamlExtractor.kt:75 | substringAfterLast keeps the suffix after the last separator, which holds none, or the whole text when there is no separator |
| Strings.FindFirst | 4.1.BeanOutputParserNDataClass/sample/src/main/kotlin/com/example/springai/util/JsonCleaner.kt:30 | indexOf of a character finds its first position |
| Strings.FindLast | 4.1.BeanOutputParserNDataClass/sample/src/main/kotlin/com/example/springai/util/JsonCleaner.kt:31 | lastIndexOf finds its last position |
| Strings.OuterSpan | 4.1.BeanOutputParserNDataClass/sample/src/main/kotlin/com/example/springai/util/JsonCleaner.kt:29-38 | the span from the first opening to the last closing bracket is part of the text |
| Strings.OuterSpanCases | 4.1.BeanOutputParserNDataClass/sample/src/main/kotlin/com/example/springai/util/JsonCleaner.kt:32-37 | with an opening before a closing bracket the span runs from the first to the last of them, and otherwise the text is returned whole |
| Strings.OuterSpanIdempotent | 4.1.BeanOutputParserNDataClass/sample/src/main/kotlin/com/example/springai/util/JsonCleaner.kt:29-38 | taking the span twice is taking it once |

## Left out

- Model calls are not modelled. ChatModel, ChatClient, EmbeddingModel, VectorStore search and the LLM calls inside the parsers' controllers are foreign code. Their results are inputs: reply strings, score functions or matrices, document sequences, and answer functions.
- The cosine arithmetic is not modelled. `sqrt` is a function parameter, and the floating-point sums are exact real sums. Only the guards and the symmetry of `cosineSimilarity` are proved. The clustering, duplicate, pairwise and comparison endpoints take the score of each pair or text as a given function.
- Floating point is not modelled. Doubles are reals, so NaN, rounding and the `similarity * 100` percentage are taken as exact.
- MD5 hashing in `DocumentTracker.calculateFileHash` and the file system are not modelled. Hashes are given strings, and the directory listing is a given list of files with a flag for whether each one reads and loads.
- Base64 encoding and the model call of the vision service's `analyzeImage`/`compareImages` are not modelled. Only `getMimeTypeFromResource` and `validateImageSize` are.
- SnakeYAML `load`/`dump` and the swagger `OpenAPIV3Parser` are not modelled. They become datatypes (a YAML tree, swagger objects) and function parameters.
- The swagger `Schema` is read one level deep, as the parser reads it. Nested properties are not modelled.
- A swagger parameter's name is modelled as always present. A null name would make the Kotlin code throw.
- `readOperationsMap` order is taken as the given order of the operation list.
- Jackson/reflection code is not modelled. This covers `BeanOutputParser.parse`/`format`/`generateJsonSchema` and the schema builder.
- Concurrency is not modelled. `ConcurrentHashMap` and `mutableMapOf` fields are Dafny `map`s, or ordered entry lists where iteration order matters.
- OrderService orders are values. Aliasing of a mutable `Order` object held elsewhere is not captured.
- `ConversationController.getConversationHistory` is modelled only as messages plus count. The per-message `toString()` reshaping belongs to the library.
- Metadata values that are not strings (RagService sources) are represented by their given `toString` text.
- `SpecDocumentService.getAllDocuments` and `getStats` are not modelled. They run a similarity search as a workaround to list the store, which is foreign code. `init` only calls `clearAll`, which is modelled.
- `McpServerService.getSystemInfo` and `getUserProfile` are not modelled. They return constant maps and carry no logic.
- `RagService.simpleAsk` is not modelled. It only forwards the question to the chat model.
- `SimpleSemanticSearch.Rank`, `SemanticSearch.Search` and `SimpleSemanticSearch.SimpleSemanticSearchService.Search` state only that results are drawn from the scored documents (multiset inclusion) and sorted. Tie order among equal scores is proved only for the multiple comparison (`MultipleSimilarity.TiesKeepInputOrder`).
- `RagService.AskedPromptHoldsDocuments` and `RagService.SentPromptKeepsMargins` are proved only for single-line contents and sources whose context has a line at column 0. Any context of two or more documents has one. Without such a line, `trimIndent` strips the common indent from the content too: one document whose content starts with a blank loses that blank. With multi-line content the margins depend on every line. So the model does not promise that such content arrives unchanged.
- `RoleClient.CustomAsWrittenContents` is proved only for single-line role, instructions and principles, for the same reason.
- `DocumentChunker.SplitIntoChunks` reports a zero chunk size on non-empty text as an error. The source loops there for ever; see "## Findings".
- `DocumentChunker.SplitIntoChunks` does not wrap `start + chunkSize` at 32 bits. The sum can pass `Int.MAX_VALUE` only after a first full chunk, so only for a text longer than 2^30 code units with a chunk size above 2^30.
- `DocumentChunker.EmbedDocument` answers a zero chunk size on non-empty text with the same error, where the source never returns.
- `YamlExtractor.ReferencedSchemas` promises one entry per schema name only for a tree as the loader builds it (`Loaded`). The entry-list datatype can hold repeated keys, but SnakeYAML keeps only the last of them, so a loaded tree never does.
- `Strings.Lines` splits on `'\n'` only, where Kotlin's `lines()` also breaks at `"\r\n"` and at a lone `'\r'`. This affects `ListOutputParser.Parse`, `MapOutputParser.Parse`, `ComplexParser.ParseStructured`, `JsonCleaner.CleanJsonText` and `Strings.TrimIndent`, which `RoleClient` and `RagService` use. The three parsers trim every line, and `'\r'` is whitespace, so `"\r\n"` line ends give the same result there; a lone `'\r'` inside a line is not a break in the model. In `CleanJsonText` and `TrimIndent` a kept line keeps its trailing `'\r'`.
- `SpecParser.ParseSpec` fails with "Failed to parse OpenAPI spec" without the `: ${parseResult.messages}` suffix. The messages come from the swagger parser, which is not modelled.
- `Strings.Lower` and `Strings.Upper` map only ASCII letters. Kotlin's `lowercase` and `uppercase` use the full Unicode case tables; the small-talk words are ASCII or Hangul, which has no case.
- `SimilarityUtils.Cosine` states the quotient through `r * (normA * normB) == dot`, because the square root is a parameter.

## Findings

| source | as written | input that shows it | evidently intended | confidence | as-written member | corrected member |
|---|---|---|---|---|---|---|
| 3.2.RoleBasedMessage/sample/src/main/kotlin/com/example/springai/controller/ConversationController.kt:114 | `maxMessages - systemMessages.size` is 32-bit `Int` arithmetic and wraps | `maxMessages` = -2147483648 with one system message gives 2147483647, so every message is kept | at least one and at most `maxMessages - #system` other messages are kept | not executed | Conversation.LimitedAsWrittenKeepsAll | Conversation.LimitedSmallBoundKeepsOne |
| 3.2.RoleBasedMessage/sample/bin/main/com/example/springai/service/RoleClientService.kt:90-98 | `trimIndent()` runs after `joinToString("\n")` is interpolated: the second bullet lands at column 0, so the 12-space margin of every other line is kept | two principles, e.g. `["a", "b"]` | the message lines start at column 0 | not executed | RoleClient.CustomAsWrittenKeepsMargin | RoleClient.CustomAgreesOnSingleLines |
| 14.WikiKMS/sample/bin/main/com/example/wikichatbot/service/RAGService.kt:37-43 | `trimIndent()` runs after `doc.content` is interpolated: a second content line lands at column 0, so the header keeps its 12-space margin | content `"x\ny"` | each block starts with its `[문서 n: source]` header at column 0 | not executed | RagService.BlockAsWrittenKeepsMargin | RagService.BlockStartsWithHeader |
| 14.WikiKMS/sample/bin/main/com/example/wikichatbot/service/RAGService.kt:63-81 | `trimIndent()` runs after the multi-line context is interpolated, so the prompt keeps its 12-space margin | one retrieved document with content `"x"` and a one-line question: its block is already two lines, the second at column 0 | the prompt starts at column 0 | not executed | RagService.PromptAsWrittenOnOneDocument | RagService.PromptStartsAtColumnZero |
| 5.1.EmbeddingClient/sample/src/main/kotlin/com/example/springai/controller/DocumentEmbeddingController.kt:53-57 | `start = end` with `end = minOf(start + chunkSize, length)` never advances when `chunkSize` is 0 | text `"a"` with `chunkSize` 0: `start` stays 0 and the chunk list grows without end | a chunk size below 1 is rejected | not executed | DocumentChunker.ZeroSizeStalls | DocumentChunker.SplitIntoChunks |
