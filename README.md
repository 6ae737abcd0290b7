# Retrieval core of the Bedrock RAG tool (03/main.go), in Dafny

The program in `03/main.go` loads a text document from an S3 bucket, cuts it
into chunks of whole lines, and answers questions about it. For each question
it scores the chunks by keyword occurrences, ranks them, and puts the best
three into a prompt sent to a Claude model on Bedrock. It runs from the
command line or as an interactive loop (`/load <key>`, `/status`, `/quit`, or
a question).

This project models that retrieval pipeline and proves its contracts.

- **`GoStrings`**: the Go `strings` functions the pipeline relies on, over
  `seq<char>`. These are `TrimSpace`, `Split`, `Join`, `Fields`, `ToLower` and
  `Count`.
- **`Chunking`**: `Pack`, the line-packing rule of `splitIntoChunks` written as
  a function over the lines and the accumulator. Lemmas about it give the
  chunker's guarantees.
- **`Ranking`**: the keyword filter and the score, and the in-place bubble sort
  on an `array<ChunkScore>`. The sort's result is specified by
  `StableRanking`: a permutation of the entries (through a ghost index
  `order`), non-increasing in score, with ties kept in their original order.
  Also here: the selection rule with its fallback.
- **`Prompt`**: the fixed prompt template and the context block.
- **`Rag`**: class `RAGSystem`, whose field `chunks` is the loaded document.
  It has the methods `SplitIntoChunks`, `FindRelevantChunks`, `Query` and
  `ProcessS3Document`. Each is proved against the specification functions
  above.
- **`Session`**: the line dispatch of `runInteractiveMode` and the loop over a
  sequence of input lines. One step is specified by the predicate `Step`.

The object store and the model service are oracles passed in as function
parameters:

- `fetch(bucket, key)` yields the content, or the `GetObject` failure, or the
  read failure.
- `invoke(modelID, request)` yields the completion, or the invocation
  failure, or an unreadable response.

Two behaviours of the code are worth knowing, because a reader might expect
otherwise:

- Empty text yields one empty chunk `[""]`, not an empty sequence
  (`ChunkTextOfEmpty`).
- `maxChunks == 0` yields `[]` even when chunks exist (`SelectionFallback`).
  The fallback is then an empty prefix.

## Model

| member | source | states |
|---|---|---|
| GoStrings.TrimSpace | 03/main.go:156 | the result is at most as long as the input and has no whitespace at either end |
| GoStrings.TrimSpaceIsInnerRun | 03/main.go:156 | TrimSpace keeps a contiguous run of the input; everything before and after that run is whitespace |
| GoStrings.TrimSpaceIdempotent | 03/main.go:160 | trimming an already trimmed string (a chunk made of trimmed lines) changes nothing |
| GoStrings.TrimSpaceDropsTrailingSpace | 03/main.go:164 | a trimmed line followed by the "\n" the chunker writes trims back to the line |
| GoStrings.TrimLeft | 03/main.go:156 | the result is no longer than the input and, when not empty, starts with a non-space |
| GoStrings.TrimLeftIsSuffix | 03/main.go:156 | the left-trimmed string is a suffix of the input |
| GoStrings.TrimLeftDropsSpace | 03/main.go:156 | everything the left trim removes is whitespace |
| GoStrings.TrimRight | 03/main.go:156 | the result is a prefix of the input and, when not empty, ends with a non-space |
| GoStrings.TrimRightDropsSpace | 03/main.go:156 | everything the right trim removes is whitespace |
| GoStrings.TrimSpaceOfTrimmed | 03/main.go:160 | a string with no whitespace at either end trims to itself |
| GoStrings.TrimSpaceShortens | 03/main.go:164 | trimming a string that ends with whitespace makes it strictly shorter |
| GoStrings.Split | 03/main.go:151 | splitting yields at least one piece, and no piece contains the separator |
| GoStrings.JoinSplit | 03/main.go:151 | joining the pieces of a split with the separator restores the text |
| GoStrings.SplitJoin | 03/main.go:151 | splitting a join of separator-free pieces gives the pieces back |
| GoStrings.SplitNoSeparator | 03/main.go:151 | a text without the separator splits into itself alone |
| GoStrings.SplitAtSeparator | 03/main.go:151 | a separator-free piece followed by the separator splits off as the first piece |
| GoStrings.Fields | 03/main.go:177 | strings.Fields: at most one field per character of the input |
| GoStrings.Join | 03/main.go:249 | a one-element join is that element |
| GoStrings.FieldsAreWords | 03/main.go:177 | every field is non-empty and space-free; a string starting with a non-space starts with its first field |
| GoStrings.FieldsJoin | 03/main.go:317 | Fields of space-free words joined by blanks is the words |
| GoStrings.WordEnd | 03/main.go:177 | the leading word ends at the first whitespace character |
| GoStrings.WordEndNoSpace | 03/main.go:177 | the leading word holds no whitespace |
| GoStrings.WordEndOfWord | 03/main.go:317 | a space-free word followed by whitespace or nothing is the leading word |
| GoStrings.ToLower | 03/main.go:187 | lower-casing keeps the length |
| GoStrings.ToLowerIdempotent | 03/main.go:177 | lower-casing twice is lower-casing once |
| GoStrings.Utf8Width | 03/main.go:192 | a character takes one to four bytes in UTF-8, and one exactly when it is ASCII |
| GoStrings.ByteLen | 03/main.go:192 | Go's len of a string, the byte length of its UTF-8 encoding: between its number of characters and four times that |
| GoStrings.ByteLenAscii | 03/main.go:192 | on ASCII text the byte length is the number of characters |
| GoStrings.CountFrom | 03/main.go:193 | the non-overlapping, left-to-right count of a non-empty pattern is at most the text's length |
| GoStrings.Count | 03/main.go:193 | strings.Count: at most len+1, and at most len for a non-empty pattern |
| GoStrings.CountBound | 03/main.go:193 | non-overlapping matches of a non-empty pattern fit in the text; an empty pattern counts len+1 |
| GoStrings.CountFromBound | 03/main.go:193 | the matches counted, each of the pattern's length, fit in the text |
| GoStrings.CountPositiveIffContains | 03/main.go:193 | a non-empty pattern is counted at least once exactly when it occurs in the text |
| Chunking.JoinLines | 03/main.go:164 | the accumulator of a group ends with "\n" when the group is non-empty, and is empty exactly when the group is |
| Chunking.Lines | 03/main.go:151-156 | one trimmed line per piece of the split; there is always at least one |
| Chunking.Pack | 03/main.go:155-170 | the groups the loop emits from the lines still to read and the accumulator: at most one group per line plus the pending one |
| Chunking.ChunkText | 03/main.go:150-172 | splitIntoChunks as a function: at most one chunk per line of the text |
| Chunking.PackFlatten | 03/main.go:155-170 | the groups, flattened in order, are exactly the lines: no line is split, dropped, duplicated or reordered |
| Chunking.PackNonEmptyGroups | 03/main.go:159-170 | every emitted group holds at least one line |
| Chunking.PackGreedy | 03/main.go:158-162 | every flush was forced: the next group's first line did not fit after the flushed accumulator |
| Chunking.PackNoEarlyFlush | 03/main.go:158-164 | no flush came early: inside each group every later line fitted into the accumulator |
| Chunking.FitsWithinBound | 03/main.go:158-164 | a group of two or more lines that fitted has an accumulator of at most size+1 and a trimmed chunk of at most size |
| Chunking.ChunkTextStructure | 03/main.go:150-172 | splitIntoChunks always returns at least one chunk, one per group; the groups are non-empty and are the trimmed lines in order |
| Chunking.ChunkTextCoversText | 03/main.go:151-170 | the raw accumulators, concatenated, are every trimmed input line followed by "\n" |
| Chunking.ChunkTextOfEmpty | 03/main.go:150-172 | empty text yields [""] |
| Chunking.ChunkTextNoEarlyFlush | 03/main.go:158-164 | for any text, no chunk was flushed before a line that still fitted |
| Chunking.ChunkTextFlushesForced | 03/main.go:158-162 | for any text, each chunk boundary was forced by the size limit |
| Chunking.ChunkTextSoftBound | 03/main.go:158-164 | a chunk built from two or more lines is at most chunkSize long |
| Chunking.ChunkTextSingleLine | 03/main.go:164-169 | a chunk built from one line is that (trimmed) line |
| Chunking.ChunkTextLongLine | 03/main.go:158-164 | a line longer than chunkSize is emitted whole, alone in its chunk |
| Chunking.PackStep | 03/main.go:155-165 | one loop iteration either flushes the accumulator and restarts it with the line, or appends the line; either way the rest of the output is Pack's |
| Chunking.PackEnd | 03/main.go:167-170 | the final flush happens exactly when the accumulator is non-empty |
| Chunking.JoinLinesAppend | 03/main.go:164 | accumulating two runs of lines is accumulating the first then the second |
| Chunking.JoinLinesSnoc | 03/main.go:164 | writing line+"\n" extends the accumulator by exactly that |
| Chunking.RenderSnoc | 03/main.go:160 | appending a group appends the trimmed accumulator as one chunk |
| Chunking.Render | 03/main.go:160 | one chunk per group |
| Chunking.Accumulators | 03/main.go:159-169 | one accumulator per group |
| Ranking.IsKeyword | 03/main.go:192 | the keyword filter: a word counts when its UTF-8 encoding is longer than two bytes, or it is "go", "js" or "c+" |
| Ranking.KeywordExamples | 03/main.go:192 | "que", "go", "c+" and the accented two-letter words "él" and "tú" count; "de", "el", "a" and "" do not |
| Ranking.KeywordByLength | 03/main.go:192 | every word of three characters or more counts; a shorter one counts exactly when it is one of the three listed words or takes more than two bytes |
| Ranking.KeywordNotEmpty | 03/main.go:192 | a counted question word is never empty, so strings.Count never sees an empty pattern |
| Ranking.Score | 03/main.go:188-195 | the score of a lower-cased chunk: the sum, over the question's words in order, of the Count of each keyword (a natural number) |
| Ranking.ScoreZeroIff | 03/main.go:190-195 | a chunk scores 0 exactly when none of the counted question words (longer than 2, or one of go/js/c+) occurs in its lower-cased text |
| Ranking.Scored | 03/main.go:186-198 | one (chunk, score) entry per chunk |
| Ranking.BubbleSortByScore | 03/main.go:201-207 | the sorted array is the input permuted by `order`; that order is a stable ranking: a permutation with the same multiset, non-increasing scores, and equal scores in their original relative order |
| Ranking.CompareSwap | 03/main.go:203-205 | one comparison: only entries j and j+1 may move, they trade places exactly when the left score is strictly smaller, afterwards the left score is at least the right one, and equal scores never move |
| Ranking.CompareSwapMoves | 03/main.go:203-205 | a comparison leaves every entry other than j and j+1 in place, and it changes nothing exactly when the left score is already at least the right one |
| Ranking.PassTo | 03/main.go:202-206 | the array after the first j comparisons of an inner pass, with the length unchanged |
| Ranking.PassToKeepsTail | 03/main.go:202-206 | the first j comparisons leave every entry after index j unchanged |
| Ranking.CompareAndSwap | 03/main.go:203-205 | the array becomes CompareSwap of the old array and the recorded order swaps exactly when the entries do; the smallest score seen so far moves one place right, and the sorted tail, the tracking of original positions and the order of ties are kept |
| Ranking.SwapKeepsRanking | 03/main.go:203-205 | swapping two neighbours when the left score is strictly smaller keeps the multiset, the sorted tail, the position tracking and the order of ties |
| Ranking.SwapTracks | 03/main.go:203-205 | swapping two neighbours, in both the array and the recorded order, keeps the multiset and the tracking of original positions |
| Ranking.SwapStable | 03/main.go:203-205 | swapping two neighbours only when the left score is strictly smaller keeps equal scores in their original relative order |
| Ranking.BubblePass | 03/main.go:202-206 | the array becomes PassTo(old array, t - 1), the old array after the t - 1 comparisons of one pass: a permutation leaving a[t..] unchanged; the smallest score of the unsorted prefix reaches its end, so the sorted tail grows by one, and the tracking of original positions and the order of ties are kept |
| Ranking.SwapOrder | 03/main.go:203-205 | the recorded order after one comparison, of unchanged length |
| Ranking.CompareSwapKeepsRanking | 03/main.go:203-205 | one comparison keeps the multiset, the sorted tail, the tracking of original positions and the order of ties, and carries the smallest score seen so far to j+1 |
| Ranking.TracksMultiset | 03/main.go:201-207 | an array holding the original entries in the recorded order, where the order lists each index once, holds the same multiset of entries as the original |
| Ranking.PassRankingStep | 03/main.go:202-206 | each comparison of a pass keeps the pass's ranking state: tracking, order of ties, sorted tail and the smallest score at the current index |
| Ranking.PassValueStep | 03/main.go:202-206 | each comparison of a pass advances the array from PassTo(a0, j) to PassTo(a0, j + 1) |
| Ranking.PassRankingEnd | 03/main.go:202-206 | when a pass over the first t entries ends, the smallest of them sits at index t-1, so the sorted tail now starts at t-1 |
| Ranking.PassValueEnd | 03/main.go:202-206 | when a pass over the first t entries ends, every entry from t on is where it started |
| Ranking.SortedIsStableRanking | 03/main.go:201-207 | a fully sorted array whose positions are tracked and stable on ties is a stable ranking of the original |
| Ranking.CountPositivePermutation | 03/main.go:209-215 | a permutation has as many positive entries as the original |
| Ranking.SortedPositivesFirst | 03/main.go:209-215 | in a non-increasing ranking the positive entries are exactly the first #positive ones |
| Ranking.PositiveChunksOfSorted | 03/main.go:211-215 | on a sorted ranking, the selection loop takes the first min(maxChunks, #positive) entries |
| Ranking.PositiveChunks | 03/main.go:211-215 | the selection loop keeps at most as many chunks as it looks at |
| Ranking.CountPositive | 03/main.go:212 | there are at most as many positive entries as entries |
| Ranking.Selection | 03/main.go:209-226 | the result of findRelevantChunks from the ranked entries: the positive ones among the first maxChunks, or the first chunks when none is; never more than maxChunks |
| Ranking.SelectionBounds | 03/main.go:209-226 | there are at most maxChunks results and at most len(chunks); each result is one of the chunks |
| Ranking.SelectionRanked | 03/main.go:209-215 | when some chunk scores > 0 and maxChunks > 0, the result is the chunks of the first min(maxChunks, #positive) ranked entries, all with a positive score |
| Ranking.SelectionFallback | 03/main.go:217-224 | when no chunk scores > 0, or maxChunks is 0, the result is chunks[:min(maxChunks, len(chunks))] in document order |
| Ranking.SelectionNonEmpty | 03/main.go:209-226 | with a document loaded and maxChunks > 0 the result is never empty |
| Prompt.Context | 03/main.go:249 | the context block: the selected chunks joined by a blank line; a single chunk is the context itself |
| Prompt.BuildPrompt | 03/main.go:252-259 | the prompt starts with the template's header and ends with the instruction and the "\n\nAssistant:" cue |
| Prompt.TemplateBreaksAreLiteral | 03/main.go:252 | the template is a raw string: its "\n" are backslash-n pairs, not newlines |
| Prompt.PromptLayout | 03/main.go:249-259 | the context block and the question can be read back at fixed offsets of the prompt |
| Prompt.JoinContainsParts | 03/main.go:249 | every chunk joined into the context occurs in it |
| Prompt.PromptContainsChunksAndQuestion | 03/main.go:249-259 | every selected chunk and the question occur verbatim in the prompt |
| Rag.AfterLoad | 03/main.go:121-146 | the chunks after a load: those of the content split at 1000 on success, the previous ones otherwise |
| Rag.LoadError | 03/main.go:125-138 | the error a load returns: none on success, the GetObject failure, or the read failure |
| Rag.Reply | 03/main.go:273-289 | Query's result for what the model service returned: the completion, or the invocation or unmarshalling failure |
| Rag.LoadOutcome | 03/main.go:121-147 | a load succeeds exactly when fetch and read do; success always leaves at least one chunk, failure leaves the chunks as they were |
| Rag.QueryRequestGrounded | 03/main.go:236-263 | with a document loaded, the request holds at least one of its chunks and the question, asks for 500 tokens and stops at "\n\nHuman:" |
| Rag.RAGSystem.constructor | 03/main.go:111-117 | a new system keeps the bucket and model id and has no chunks |
| Rag.RAGSystem.SplitIntoChunks | 03/main.go:150-172 | the builder-and-reset loop computes ChunkText, so every Chunking lemma applies to its result; it returns at least one chunk |
| Rag.RAGSystem.FindRelevantChunks | 03/main.go:176-227 | the result is the selection from a stable ranking of the scored chunks: within maxChunks and len(chunks), and every result is a chunk |
| Rag.RAGSystem.ScoreChunks | 03/main.go:186-198 | the scoring loop fills one entry per chunk, the chunk with its Score |
| Rag.RAGSystem.ScoreChunk | 03/main.go:190-195 | the inner word loop adds the Count of every counted word |
| Rag.RAGSystem.PickPositive | 03/main.go:210-215 | the selection loop keeps the positive entries among the first maxChunks, in ranking order |
| Rag.RAGSystem.Query | 03/main.go:230-289 | with no document, an error and no request sent; otherwise exactly one request built from the selection of 3 chunks, and its reply or error |
| Rag.RAGSystem.ProcessS3Document | 03/main.go:121-147 | chunks become splitIntoChunks(content, 1000) on success and are unchanged on a download or read failure; the error is reported |
| Session.Classify | 03/main.go:310-356 | how a line is understood: trimmed, then dispatched |
| Session.Dispatch | 03/main.go:311-356 | an empty trimmed line is skipped, one starting with "/" is a command named by its fields, anything else is a question |
| Session.SlashCommand | 03/main.go:317-345 | the command named by the first field: "/quit", "/status", "/load" with the second field as key or the usage hint without one, else unknown |
| Session.ClassifyBlank | 03/main.go:310-313 | a line is skipped exactly when it is empty once trimmed |
| Session.ClassifyQuestionIff | 03/main.go:310-356 | a line is a question exactly when, trimmed, it is non-empty and does not start with "/"; the question is the trimmed line |
| Session.CommandWord | 03/main.go:316-318 | a trimmed line starting with "/" has a first field, which starts with "/" and begins the line |
| Session.ClassifyLoadSpec | 03/main.go:330-335 | a load takes the second field as key, a non-empty space-free word; "/load" alone gives only the usage hint |
| Session.ClassifyUnknownSpec | 03/main.go:343-344 | an unknown command is named by its first field, which starts with "/" and is none of the three commands |
| Session.SlashLoad | 03/main.go:330-335 | the fields "/load" and a key name a load of that key |
| Session.ClassifyLoad | 03/main.go:330-335 | "/load k" for a space-free key k loads k |
| Session.ClassifyQuestion | 03/main.go:310-316 | a trimmed line not starting with "/" is asked as it is |
| Session.TwoWordLine | 03/main.go:310-318 | a command word, a blank and an argument trim to themselves and split into the two words |
| Session.TwoWordTrimmed | 03/main.go:310 | a command word, a blank and an argument trim to themselves |
| Session.TwoWordJoin | 03/main.go:317 | two words joined by a blank are the word, the blank and the other word |
| Session.Commands | 03/main.go:304-310 | one command per input line |
| Session.CommandAt | 03/main.go:304-310 | command k is input line k classified |
| Session.Step | 03/main.go:310-356 | what handling one understood line does to the chunks and what it reports, given the chunks before it |
| Session.Replied | 03/main.go:356-361 | an answered question got the model's reply to a request Query builds from the chunks of that moment and the question |
| Session.StepStateRule | 03/main.go:310-356 | only a load whose download succeeded changes the chunks; a load reports success exactly when the download succeeded, and then leaves a document; a question is answered only with a document, and without one it is refused; only "/quit" says goodbye |
| Session.StepKeepsDocument | 03/main.go:310-361 | no line unloads a loaded document |
| Session.TraceExtend | 03/main.go:304-362 | handling the next command after a trace extends the trace by that step |
| Session.DocumentStaysLoaded | 03/main.go:304-362 | once a document is loaded, every later state of the session has one |
| Session.SessionStateRules | 03/main.go:330-356 | in a session, every answer comes from a question asked with a document loaded, and every change of the document is a successful load of that line's key, replacing the chunks by those of the content split at 1000 |
| Session.AnswerGrounded | 03/main.go:349-361 | an answered line is a question asked with a document loaded, and its answer is the model's reply to a request whose prompt holds the question and some chunk of that document |
| Session.ReplyGrounded | 03/main.go:356-361 | a reply given with a document loaded answers a prompt holding the question and some chunk of the document |
| Session.HandleLine | 03/main.go:310-361 | handling one line does what Step prescribes for the state before it; an answer is the model's reply to the request Query builds from that state and the question |
| Session.HandleNext | 03/main.go:304-361 | handling input line i is a step of the i-th command, with its answer replied as HandleLine states |
| Session.AllReplied | 03/main.go:349-361 | every question answered so far got the model's reply to the request built from the chunks of that moment |
| Session.AllRepliedExtend | 03/main.go:304-361 | one more replied line extends the replies of a session |
| Session.SessionAnswerGrounded | 03/main.go:304-362 | every answer given in a session is a question asked with a document loaded, answered by the model's reply to a prompt holding that question and a chunk of that document |
| Session.NoEarlyGoodbyeExtend | 03/main.go:321-323 | an event after a non-goodbye keeps goodbye, if any, last |
| Session.SessionExtend | 03/main.go:304-362 | handling the next command of a session that has not said goodbye extends the session |
| Session.RunInteractiveMode | 03/main.go:304-362 | every handled line obeys Step from the state before it to the state after it, starting from the initial chunks and ending at the final ones; every answer is the model's reply to the request Query builds at that moment; goodbye comes only as the last event; the loop stops after the first "/quit" or at the end of the input |

## Left out

- The AWS SDK is not modelled: configuration loading, `GetObject`, `io.ReadAll` and `InvokeModel` are network calls. The model takes their outcomes from the `fetch` and `invoke` oracles. The object store is a fixed function of (bucket, key) for the whole session.
- JSON marshalling of the request and unmarshalling of the response belong to the standard library. The marshal error cannot arise for the request shape, so it is not modelled; an unreadable response is the oracle outcome `UnmarshalError`.
- The `Temperature` of 0.7 is a float and is left out of `ModelRequest`.
- Rag.RAGSystem.Query: the model service is the total function `invoke`, so the model fixes the reply for a given (model id, request). The real call samples at temperature 0.7, and two identical requests may get different replies. The contracts only say that each answer is the reply to the request actually sent, which holds either way.
- Flag parsing, `log.Fatal`, `os.Exit`, the banner, every log line, and the stdin scanner are not modelled. In the interactive loop the input is a sequence of lines, and each line yields one `Event`.
- The command-line path of `main` (process a key, then one query) is not modelled separately. It is one `ProcessS3Document` call followed by one `Query` call.
- 02/main.go, the HTTP server, is not part of this model.
- GoStrings.IsSpace: Go's Unicode whitespace classes are reduced to the Latin-1 whitespace characters. Lower-casing is ASCII only.
- Chunking.ChunkText: chunk sizes count characters, while Go's `len` and `Builder.Len` count UTF-8 bytes. The two agree on ASCII text (`ByteLenAscii`); on accented text Go flushes earlier than the model. The keyword filter does use the byte length (`ByteLen`). Occurrences are counted on characters, which gives the same count as on bytes because UTF-8 matches start at character boundaries; that equivalence is not proved here.
- Ranking.BubbleSortByScore: the ranking is specified relationally, by a stable ranking through a ghost index order. The model does not prove that this ranking is the unique stable sort.
- Rag.RAGSystem.FindRelevantChunks: it requires `maxChunks >= 0` when chunks exist. The Go slice `r.chunks[:limit]` would panic on a negative limit, and the only caller passes 3.
