# Bank of Maharashtra loan assistant: a Dafny model of its deterministic core

The system answers questions about the loan products of Bank of Maharashtra.
Building the knowledge base takes four steps:

- A scraper fetches the bank's loan pages and labels each page with a loan type guessed from its URL.
- The pages are cleaned, grouped by loan type and written into one Markdown knowledge-base document.
- The document is cut into chunks, and each chunk gets an id, its position and a label guessed from its wording.
- The chunks are stored in a vector database.

At question time the pipeline works as follows:

- The question is embedded, and the nearest chunks are fetched.
- The chunks are numbered into a context, and a language model answers from that context.
- The answer comes back with the chunks, their metadata and distances, and a confidence derived from the distances.

This project models these stages, with the foreign services, HTML parsing
and the other parts listed under "## Left out" as parameters or omitted, and
proves what they do.

- `Text`: string utilities with Python's meaning.
  - `str.strip` over the `str.isspace` characters, and `str.lower`.
  - Substring tests, `split`, and `join` (`sep.join` and `"".join`).
  - Decimal numerals, zero padding, and lexicographic order.
- `KeywordRules`: the shape shared by both loan-type classifiers. It is an ordered table of `elif` arms, each with keywords and a label, and the first arm with a keyword in the text wins.
- `Scraper`: `_extract_loan_type`, the URL classifier, as a table of 14 arms, and the `rstrip('/')` applied to the base URL.
- `UrlExamples`: four URLs of the bank's site whose label is decided by the order of the arms.
- `DataCleaner`: `normalize_text`, step by step:
  - runs of spaces collapse;
  - runs of three or more newlines shrink to two;
  - lines are split, stripped and filtered;
  - the result is re-joined and stripped.
- `DataConsolidator`: `structure_by_product` and `consolidate_loan_data`.
  - Each is specified as a function: the grouping of the pages, and the document of a grouping.
  - Each is implemented as the source's loops (a dictionary filled page by page, then the document built with `+=`) and proved equal to that function.
- `TextChunker`: `chunk_text` and `_extract_loan_type_from_chunk`.
  - The splitter is a parameter of the `Chunker` class.
  - `chunk_text` is a loop proved to build one record per piece.
- `VectorStore`: the projection `add_documents` makes from chunk records onto ids, documents and metadata.
- `Llm`: `LLMClient`.
  - The prompt built around context and question.
  - The request sent.
  - The answer taken from the reply, or the apology built from the error a failed call ends in.
  - The service is a function given to the client, and a ghost log records every request sent.
- `RagPipeline`: `_calculate_confidence`, `_build_context`, and the class `Pipeline` whose `Query` models `RAGPipeline.query`.
  - `Query` is proved to leave the language model uncalled when the search finds nothing.
  - Otherwise it makes exactly one call with the numbered context.

The classifiers are modelled as written.

- A URL containing "card", such as `/kisan-credit-card`, is labelled "Vehicle Loan", because the "car" arm is tested before the agriculture arm.
- A fragment's label is decided by the first arm, in chain order, that has a matching phrase, whatever else the fragment says.

## Model

| member | source | states |
|---|---|---|
| Text.Strip | src/data_processor.py:80 | the result has no leading or trailing whitespace, is a contiguous slice of the input, and is the input itself when that is already stripped |
| Text.StripRemovesSpace | src/data_processor.py:80 | every character `strip` removes is whitespace |
| Text.NonSpaceStrip | src/data_processor.py:80 | `strip` keeps every non-whitespace character, in order |
| Text.Lower | src/scraper.py:185 | no ASCII upper-case letter is left; each becomes its lower-case letter and every other character is kept in place |
| Text.LowerOfLowercase | src/scraper.py:185 | a string without ASCII upper-case letters is its own lowercase form |
| Text.LowerIdempotent | src/scraper.py:185 | lowercasing an already lowercased string changes nothing, which is what makes the classifiers case-insensitive |
| Text.Split | src/data_processor.py:77 | `split('\n')` gives at least one piece and no piece contains the separator |
| Text.JoinSplit | src/data_processor.py:77-78 | joining the pieces of a split with the separator gives back the text |
| Text.SplitJoin | src/data_processor.py:77-78 | splitting a join of separator-free pieces gives back the pieces |
| Text.InsertSorted | src/data_processor.py:143 | inserting a key into a strictly ascending list keeps it strictly ascending and adds exactly that key |
| Text.StrictlySortedUnique | src/data_processor.py:143 | two strictly ascending lists with the same elements are equal, so `sorted` over a key set has one result |
| Text.DecimalRoundTrip | src/rag_pipeline.py:216 | the decimal numeral of `n` reads back as `n` |
| Text.PadLeftValue | src/data_processor.py:173 | zero padding does not change the value of a numeral |
| KeywordRules.FirstMatch | src/scraper.py:184-238 | an if/elif chain returns either the default label or the label of one of its arms |
| KeywordRules.FirstMatchPicks | src/scraper.py:188-235 | an arm that fires after no earlier arm fired decides the label |
| KeywordRules.FirstMatchNone | src/scraper.py:237-238 | when no arm fires the default is returned |
| KeywordRules.FirstMatchExact | src/scraper.py:184-238 | with distinct labels, the result is arm `i`'s label if and only if arm `i` is the first to fire |
| KeywordRules.FirstMatchDefaultIff | src/scraper.py:237-238 | with distinct labels, the default comes out if and only if no arm fires |
| KeywordRules.NoneInByAbsentChars | src/scraper.py:194 | no keyword of an arm occurs in a text lacking one character of each keyword |
| Scraper.UrlLabelsDistinct | src/scraper.py:188-238 | the 14 arm labels are pairwise different and differ from "Other Loan" |
| Scraper.UrlLoanType | src/scraper.py:184-238 | the label is always one of the 15 fixed labels |
| Scraper.UrlLoanTypeCaseInsensitive | src/scraper.py:185 | the label depends only on the lowercase form of the URL |
| Scraper.UrlLoanTypeOtherIff | src/scraper.py:237-238 | "Other Loan" comes out if and only if no keyword of any arm occurs |
| Scraper.UrlLoanTypeExact | src/scraper.py:184-238 | a URL gets arm `i`'s label if and only if arm `i` is the first arm with a keyword in it |
| Scraper.RetailInterestBeforeAdvance | src/scraper.py:188-191 | a URL containing both "retail-interest" and "advance" is labelled "Retail Interest Rates" |
| Scraper.NormalizeBaseUrl | src/scraper.py:22 | the stored base URL is a prefix of the given one, does not end in "/", and only slashes were removed |
| Scraper.NormalizeBaseUrlIdempotent | src/scraper.py:22 | normalising a normalised base URL changes nothing |
| UrlExamples.PersonalLoanForHomeLoanCustomers | src/scraper.py:194-207 | "/personal-loan-for-businessclass-having-home-loan-with-us" is labelled "Home Loan", the home arm preceding the personal arm |
| UrlExamples.KisanCreditCardIsVehicleLoan | src/scraper.py:198-235 | "/kisan-credit-card" is labelled "Vehicle Loan", the "car" test preceding the "kisan" test |
| UrlExamples.PersonalLoanForProfessionals | src/scraper.py:202-207 | "/personal-loan-for-professionals" is labelled "Professional Loan" |
| UrlExamples.MsmeGoldLoanIsGoldLoan | src/scraper.py:214-231 | "/msme-gold-loan" is labelled "Gold Loan", the gold arm preceding the MSME arm |
| DataCleaner.Without | src/data_processor.py:71 | the removed character no longer occurs |
| DataCleaner.SpaceKept | src/data_processor.py:71 | the positions the space substitution keeps are ascending and are exactly those that are not a space directly after a space |
| DataCleaner.CollapseSpacesPositions | src/data_processor.py:71 | the result is the input read at exactly those positions, in order: a character is dropped if and only if it is a space right after a space |
| DataCleaner.CollapseSpaces | src/data_processor.py:71 | after `re.sub(' +', ' ', ...)` no two spaces are adjacent, only spaces were removed, and the last character is kept; `CollapseSpacesPositions` gives the exact positions |
| DataCleaner.CapNewlines | src/data_processor.py:74 | the text does not grow and keeps its last two characters; `CapNewlinesPositions` gives the exact positions |
| DataCleaner.NewlineKept | src/data_processor.py:74 | the positions the newline substitution keeps are ascending and are exactly those that are not a newline directly after two newlines |
| DataCleaner.CapNewlinesPositions | src/data_processor.py:74 | the result is the input read at exactly those positions, in order: a character is dropped if and only if it is a newline right after two newlines |
| DataCleaner.CapNewlinesCaps | src/data_processor.py:74 | after `re.sub('\n{3,}', '\n\n', ...)` no three newlines are adjacent |
| DataCleaner.CapNewlinesOnlyNewlines | src/data_processor.py:74 | capping removes newlines and nothing else |
| DataCleaner.CapNewlinesKeepsSpacing | src/data_processor.py:71-74 | capping newlines does not make two spaces adjacent |
| DataCleaner.StripLines | src/data_processor.py:77-78 | the kept lines are non-empty and stripped, and there are no more of them than lines; `StripLinesPositions` says which they are |
| DataCleaner.KeptLinesIff | src/data_processor.py:77-78 | the positions of the kept lines are ascending and are exactly those of the lines that are non-empty once stripped |
| DataCleaner.StripLinesPositions | src/data_processor.py:77-78 | the `j`-th kept line is the stripped form of the `j`-th line that is non-empty once stripped: every such line is kept, in input order, and no other |
| DataCleaner.StripKeeps | src/data_processor.py:77 | stripping a line adds neither a newline nor two adjacent spaces |
| DataCleaner.SplitKeepsNoAdjacent | src/data_processor.py:77 | the lines of a text without two adjacent spaces have none either |
| DataCleaner.StripLinesKeeps | src/data_processor.py:77-78 | stripped and filtered lines are clean: non-empty, stripped, free of newlines and double spaces |
| DataCleaner.LinesClean | src/data_processor.py:71-78 | the lines `normalize_text` keeps are clean |
| DataCleaner.JoinClean | src/data_processor.py:78 | joining clean lines gives a stripped text with no double space and no empty line |
| DataCleaner.StripLinesOfClean | src/data_processor.py:77-78 | stripping and filtering clean lines again changes nothing |
| DataCleaner.NormalizeText | src/data_processor.py:63-80 | an empty text gives an empty result, and the result has no whitespace at either end |
| DataCleaner.NormalizeTextIsJoin | src/data_processor.py:78-80 | the final `strip()` never removes anything |
| DataCleaner.NormalizeTextShape | src/data_processor.py:63-80 | the output is empty for an empty input, stripped, free of double spaces and of empty lines, and each of its lines is non-empty and stripped |
| DataCleaner.NormalizeTextIdempotent | src/data_processor.py:63-80 | normalising twice is normalising once |
| DataCleaner.NonSpaceWithout | src/data_processor.py:71-74 | removing a whitespace character everywhere keeps every other character, in order |
| DataCleaner.NonSpaceJoin | src/data_processor.py:78 | joining lines with newlines adds only whitespace |
| DataCleaner.NonSpaceStripLines | src/data_processor.py:77-78 | stripping the lines and dropping the empty ones keeps every non-whitespace character, in order |
| DataCleaner.NormalizeTextKeepsContent | src/data_processor.py:63-80 | `normalize_text` changes whitespace only: the non-whitespace characters of the output are exactly those of the input, in the same order |
| DataCleaner.CollapseSpacesFixed | src/data_processor.py:71 | a text without double spaces passes the space step unchanged |
| DataCleaner.CapNewlinesFixed | src/data_processor.py:74 | a text without three newlines in a row passes the newline step unchanged |
| DataConsolidator.TypesOfIff | src/data_processor.py:131-135 | a loan type is a key if and only if some successful page has it (default "Other Loans") |
| DataConsolidator.Pages | src/data_processor.py:131-140 | a type's list is non-empty exactly for the keys, and holds only successful pages of that type |
| DataConsolidator.PagesCount | src/data_processor.py:131-140 | every successful page lands in its type's list exactly as often as it occurs in the input, and a failed page never does |
| DataConsolidator.PagesAppend | src/data_processor.py:131-140 | the lists of `a + b` are those of `a` followed by those of `b`, so input order is kept within each group |
| DataConsolidator.FailedPageIgnored | src/data_processor.py:132-133 | a page without `success` changes nothing in the grouping |
| DataConsolidator.TypeOf | src/data_processor.py:135 | a page is grouped under its recorded loan type, and under "Other Loans" when it records none |
| DataConsolidator.KeysSorted | src/data_processor.py:143 | the keys of a grouping ascend strictly exactly when its groups are ordered by loan type |
| DataConsolidator.SortedTypes | src/data_processor.py:143 | the keys come out strictly ascending, each type of a successful page once |
| DataConsolidator.Grouping | src/data_processor.py:128-143 | the grouping has ascending keys, exactly the types of the successful pages, each with its pages in input order |
| DataConsolidator.GroupingUnique | src/data_processor.py:128-143 | there is only one such grouping |
| DataConsolidator.GroupedStep | src/data_processor.py:131-140 | one pass of the loop extends the dictionary of the first `i` pages to that of the first `i + 1` |
| DataConsolidator.GroupByType | src/data_processor.py:129-140 | the dictionary's keys are the types of the successful pages and each maps to that type's pages in input order |
| DataConsolidator.SortKeys | src/data_processor.py:143 | `sorted` gives the keys strictly ascending, each once |
| DataConsolidator.StructureByProduct | src/data_processor.py:128-143 | the method returns the grouping |
| DataConsolidator.BlocksStep | src/data_processor.py:106-123 | the blocks of one more page are the earlier blocks followed by that page's block |
| DataConsolidator.AppendBlock | src/data_processor.py:107-123 | one pass of the inner loop appends exactly the page's block |
| DataConsolidator.AppendBlocks | src/data_processor.py:106-123 | the inner loop appends the blocks of the group's pages in order |
| DataConsolidator.SectionTextsPrefix | src/data_processor.py:103-104 | the sections of the first `i` groups are the first `i` sections |
| DataConsolidator.NextSection | src/data_processor.py:103-123 | writing a group's heading and blocks extends the document by that group's section |
| DataConsolidator.ConsolidateLoanData | src/data_processor.py:93-126 | the text built is the title, the introduction, then one section per group of the sorted grouping |
| DataConsolidator.CleanedContent | src/data_processor.py:110-117 | the content written into a block is normalised text: stripped and free of double spaces |
| DataConsolidator.Trailer | src/data_processor.py:122-123 | a blank line, "Source: " and the URL, a blank line and the separator "---\n\n", each at its offset, 17 characters plus the URL |
| DataConsolidator.BlockText | src/data_processor.py:120-123 | a block is "### ", the page name, a blank line, the content and the trailer with the URL, each at its offset, and ends with the separator |
| DataConsolidator.LoanBlock | src/data_processor.py:107-123 | a page yields a block if and only if it succeeded and its cleaned content is non-empty; the block carries the page's name (or "Unknown Loan") after "### ", its cleaned content after the blank line, the source line with its URL (or "N/A"), and ends with "---\n\n" |
| DataConsolidator.Section | src/data_processor.py:103-123 | a group's section opens with its "## type" heading |
| DataConsolidator.Document | src/data_processor.py:100-104 | the document opens with the fixed two-line header |
| DataConsolidator.SectionHeadingAt | src/data_processor.py:103-104 | each group's "## type" heading stands right after the sections of the groups before it |
| DataConsolidator.SectionsOrdered | src/data_processor.py:103-104 | a later group's section starts after an earlier group's heading |
| DataConsolidator.DocumentHeadingAt | src/data_processor.py:100-104 | each group's heading stands at its offset in the document |
| DataConsolidator.DocumentHeadingsOrdered | src/data_processor.py:103-104 | the headings appear in the order of the groups, which is ascending key order |
| DataConsolidator.EmptyContentSkipped | src/data_processor.py:119 | a page whose cleaned content is empty adds nothing |
| TextChunker.ChunkLabelsDistinct | src/data_processor.py:186-203 | the eight arm labels are pairwise different and differ from "General" |
| TextChunker.ChunkLoanType | src/data_processor.py:183-203 | the fragment label is always one of the nine fixed labels |
| TextChunker.ChunkLoanTypeCaseInsensitive | src/data_processor.py:184 | the label depends only on `chunk.lower()` |
| TextChunker.ChunkLoanTypeGeneralIff | src/data_processor.py:202-203 | "General" comes out if and only if no phrase of any arm occurs |
| TextChunker.ChunkLoanTypeExact | src/data_processor.py:183-203 | a fragment gets arm `i`'s label if and only if arm `i` is the first arm with a phrase in it |
| TextChunker.HomeLoanWins | src/data_processor.py:186-187 | a fragment mentioning "home loan" or "housing loan" is labelled "Home Loan" whatever else it says |
| TextChunker.ChunkId | src/data_processor.py:173 | the id is "chunk_" followed by the digits of the position, zero-padded to four when shorter and without a leading zero when longer |
| TextChunker.ChunkIdInjective | src/data_processor.py:173 | distinct positions give distinct ids |
| TextChunker.PositionalIdsDistinct | src/data_processor.py:172-173 | records whose ids follow their positions have pairwise distinct ids |
| TextChunker.ChunkIdWidth | src/data_processor.py:173 | below 10000 the id is exactly ten characters long |
| TextChunker.Chunker.constructor | src/data_processor.py:148-158 | the chunker keeps its size, overlap and splitter; size 500 and overlap 50 unless given |
| TextChunker.Chunker.ChunkText | src/data_processor.py:160-181 | one record per piece in order: the piece's text, its label, index `i`, total = number of pieces, id `chunk_{i:04d}`, ids pairwise distinct |
| VectorStore.AddDocuments | src/rag_pipeline.py:57-77 | ids, documents and metadata are as long as the chunks and follow their order; a missing loan type becomes "General", a missing index 0; the embeddings pass unchanged |
| VectorStore.AddChunkedDocuments | src/rag_pipeline.py:61-69 | records from the chunking stage are stored with their own label and index and under pairwise distinct ids |
| Llm.BuildPrompt | src/rag_pipeline.py:143-159 | the prompt is the fixed lead, the context, the fixed middle ending in "Question: ", the question and the fixed instructions, each unchanged at its offset |
| Llm.BuildPromptInjective | src/rag_pipeline.py:143-159 | for a given context length, context and question can be read back from the prompt |
| Llm.AnswerFromReply | src/rag_pipeline.py:136-141 | an answered reply gives its first choice stripped; any failure gives "I apologize, but I encountered an error: " followed by the exception's own text for a failed call, "list index out of range" for no choices, and the `NoneType` message for a missing content |
| Llm.LlmClient.constructor | src/rag_pipeline.py:105-108 | the client keeps its model ("gpt-4" unless given) and service and has sent nothing |
| Llm.LlmClient.RequestFor | src/rag_pipeline.py:116-134 | the request names the client's model, the system instructions then the prompt as the user message, the token limit and temperature 0.3 |
| Llm.LlmClient.GenerateAnswer | src/rag_pipeline.py:110-141 | exactly one request is sent, and the answer is the one taken from its reply, never an exception |
| RagPipeline.Clamp | src/rag_pipeline.py:227 | `max(0.0, min(1.0, x))` lies in [0, 1], is `x` inside it and the nearer end outside |
| RagPipeline.ClampMonotone | src/rag_pipeline.py:227 | clamping keeps order |
| RagPipeline.Round2 | src/rag_pipeline.py:229 | `round(x, 2)` is a whole number of hundredths within half a hundredth of `x` |
| RagPipeline.Round2Monotone | src/rag_pipeline.py:229 | rounding keeps order |
| RagPipeline.Round2OfCents | src/rag_pipeline.py:229 | a whole number of hundredths is left as it is |
| RagPipeline.Cents | src/rag_pipeline.py:229 | the hundredths kept lie within one half of `100 * x`, and an exact half goes to the even neighbour |
| RagPipeline.Confidence | src/rag_pipeline.py:220-229 | the confidence lies in [0, 1], is a whole number of hundredths, is 0 for no distances and otherwise within half a hundredth of the clamped `1 - mean` |
| RagPipeline.SumBounds | src/rag_pipeline.py:226 | bounds on every distance bound their sum |
| RagPipeline.MeanBetween | src/rag_pipeline.py:226 | bounds on every distance bound their mean |
| RagPipeline.ConfidenceMonotone | src/rag_pipeline.py:226-229 | a smaller mean distance never gives a smaller confidence |
| RagPipeline.ConfidenceBetween | src/rag_pipeline.py:226-229 | the confidence lies between the confidences of the largest and the smallest distance |
| RagPipeline.ConfidenceOfEqualDistances | src/rag_pipeline.py:226-229 | equal distances `d` give the rounded, clamped `1 - d` |
| RagPipeline.FarResultsGiveZeroConfidence | src/rag_pipeline.py:226-229 | results all at distance 1 or more give confidence 0 |
| RagPipeline.ExactResultsGiveFullConfidence | src/rag_pipeline.py:226-229 | results all at distance 0 give confidence 1 |
| RagPipeline.SourceBlock | src/rag_pipeline.py:216 | block `n` is "[Source ", the digits of `n`, "]\n", the document, and a final newline, each at its offset |
| RagPipeline.Context | src/rag_pipeline.py:213-218 | the context is empty if and only if there are no documents |
| RagPipeline.ContextBlockAt | src/rag_pipeline.py:215-218 | document `i` appears in block `i + 1` at its offset in the context |
| RagPipeline.ContextBlocksInOrder | src/rag_pipeline.py:215-218 | consecutive blocks follow each other in document order with one newline between them |
| RagPipeline.Pipeline.constructor | src/rag_pipeline.py:164-175 | the pipeline keeps its embedder, store search, language model and `top_k` (3 unless given) |
| RagPipeline.Pipeline.BuildContext | src/rag_pipeline.py:213-218 | the loop builds the numbered context of the found documents |
| RagPipeline.Pipeline.Query | src/rag_pipeline.py:177-211 | the search uses `top_k`; no documents gives the fixed answer, no sources, confidence 0 and no model call; otherwise one call with the numbered context, the sources, metadata and distances passed through unchanged, and the confidence of the distances |

## Left out

- Fetching pages, retries, delays and HTML parsing in the scraper are not modelled; they are network I/O and a third-party parser.
- `clean_html` and `remove_noise` are parameters of the consolidator. They depend on BeautifulSoup and on regular-expression semantics.
- The UTF-8 encode/decode step of `normalize_text` is the identity: a Dafny string holds no ill-formed characters.
- Text.Lower: lowercases the ASCII letters only, whereas Python's `str.lower` covers all of Unicode.
- The text splitter of `chunk_text` is a parameter of `Chunker`: an arbitrary function from a text to its pieces. Its size and overlap behaviour belongs to the LangChain library.
- The embedder, the vector store's search and the chat service are functions given to `Pipeline` and `LlmClient`.
- RagPipeline.Pipeline.Query: the embedder and the search are total functions, so `Query` always returns. In the source an exception raised by `embed_text` or `search` propagates out of `query` (src/rag_pipeline.py:181, 184); only the chat call's exceptions are caught.
- Llm.LlmClient.GenerateAnswer: the chat service is a deterministic function of the request, so the same request always gets the same reply; a real completion service promises no such thing.
- Nearest-neighbour ranking, persistence and `clear` belong to the vector database. `search`'s unpacking of the database's nested result lists is not modelled.
- RagPipeline.Confidence: computes over exact reals, not binary floats; `Round2` rounds the exact value to hundredths, ties to even, while Python rounds the float's binary value.
- VectorStore.AddDocuments: does not check that the embeddings are as many as the chunks; that check belongs to the vector database.
- Logging is not modelled; it has no effect on any result.
- `process_data`, `build_index`, `save_raw_data`, the command-line entry point and the web interface are not modelled. They are file I/O, environment reads and presentation.
