# rag_agent in Dafny

A model of the conversational agent in `rag_agent/`. On each chat turn the
agent does four things:

- It recalls up to three long-term memories and three knowledge documents by
  inner-product search over text embeddings.
- It builds a prompt around the user input.
- It asks a language model for the response.
- It tracks the conversation. While the user stays on topic the turn is appended
  to a topic buffer. When a turn's tokens are too dissimilar from the previous
  input, measured by Jaccard similarity, the buffer is summarised into a new
  memory chunk and the buffer starts over.

The project has one module per source file:

| module | file | form |
|---|---|---|
| `Strings` | (Python built-ins the code relies on: `strip`, `join`, slices, `replace`, `str`, zero padding) | functions and lemmas |
| `Text` | `rag_agent/utils/text.py` (tokenizer, Jaccard, embedding shape) | functions and lemmas |
| `ContextSwitch` | `rag_agent/detector/context_switch.py` | functions and lemmas |
| `Summarizer` | `rag_agent/memory/summarizer.py` (`re.split` on sentence ends) | functions and lemmas |
| `FaissUtils` | `rag_agent/utils/faiss_utils.py` (the pure-Python `IndexFlatIP`) | a class with `Add` and a looping `Search`, specified by functions on values |
| `Memory` | `rag_agent/memory/memory_store.py` | the `MemoryStore` class |
| `Retriever` | `rag_agent/retriever/rag_retriever.py` | the `DocumentRetriever` class |
| `RagPrompt` | `rag_agent/prompt/rag_prompt.py` | the looping `BuildPrompt` method, specified by `PromptLines` |
| `App` | `rag_agent/app.py` | the `Agent` class; the state change of a turn is the function `Step` |

Both classes keep an invariant `Valid()`: their index holds one vector per item,
in the same order, and vector `i` is the embedding of item `i`. Every method that
changes state preserves it.

The index's `search` is specified through three functions on values:
- `Ranking`: the stable descending sort of positions by score.
- `Top`: the first `k` positions of that ranking.
- `RowScores`/`RowIds`: the padded rows.

Both retrievers return `Pick(items, Hits(vectors, q, k))`. `Hits` is the
reported positions whose score is positive, in reported order.

## Model

| member | source | states |
|---|---|---|
| Strings.IsSpace | rag_agent/memory/summarizer.py:14 | the characters `str.isspace()` accepts, which are those `\s` matches and `strip()` removes (a definition; used by the lemmas below) |
| Strings.Strip | rag_agent/memory/summarizer.py:14 | `strip()`: the result is the input with only a whitespace prefix and a whitespace suffix removed; it neither starts nor ends with whitespace, and it is empty exactly when the input is blank |
| Strings.SliceTo | rag_agent/memory/summarizer.py:15 | a Python prefix slice `s[:k]` is a prefix of `s`; it is `min(k, n)` long for `k >= 0` and `max(0, n + k)` long for negative `k` |
| Strings.ReplaceChar | rag_agent/prompt/rag_prompt.py:23 | `replace("\n", " ")` keeps the length and changes exactly the characters equal to the one replaced |
| Strings.NatToDecimal | rag_agent/prompt/rag_prompt.py:24 | `str(i)` is a non-empty string of decimal digits with no leading zero: it starts with `0` only for 0 itself, and then it is that one digit |
| Strings.IntToDecimal | rag_agent/memory/memory_store.py:43 | `str` of a possibly negative integer: a minus sign before the digits of its magnitude (a definition; its digits are described by `NatToDecimal`) |
| Strings.Fill | rag_agent/utils/faiss_utils.py:28-30 | `n` copies of `x`, none for `n <= 0`: the padding of a search row, and the `[0.0] * dim` of `model_embedding` |
| Strings.ZeroPad | rag_agent/memory/memory_store.py:43 | `{n:03d}`: exactly `width` characters when `n` has fewer digits, otherwise exactly the digits of `n`, all decimal digits; with `ZeroPadRoundTrip` and `SameDigits` this determines the string |
| Strings.DecimalRoundTrip | rag_agent/prompt/rag_prompt.py:24 | the decimal digits of `n` denote `n` |
| Strings.ZeroPadRoundTrip | rag_agent/memory/memory_store.py:43 | `{n:03d}` is still `n`: zero padding preserves the value |
| Strings.SameDigits | rag_agent/memory/memory_store.py:43 | two digit strings of the same length that denote the same number are equal, so length and value pin the padded count |
| Strings.DecimalExamples | rag_agent/prompt/rag_prompt.py:24 | `str(1)` is `1` and `str(1234)` is `1234` |
| Strings.ZeroPadExamples | rag_agent/memory/memory_store.py:43 | `{1:03d}` is `001` and `{1234:03d}` is `1234` |
| Strings.PadZerosKeepsDigits | rag_agent/memory/memory_store.py:43 | padding a digit string with leading zeros to `width` keeps it all digits and keeps the number it denotes |
| Strings.Join | rag_agent/prompt/rag_prompt.py:28 | `sep.join(parts)`: the parts with one separator between neighbours (a definition; `JoinAppend` is its property) |
| Strings.JoinAppend | rag_agent/prompt/rag_prompt.py:28 | joining two non-empty lists is joining each and putting one separator between them |
| Text.Matches | rag_agent/utils/text.py:14 | the spans `re.findall(r"[一-鿿]+\|[a-zA-Z]+", text)` matches, scanning from a position: each lies inside the text after that position. What they are is stated by `MatchesAreMaximalRuns` and `MatchesCoverSignificant` |
| Text.RunEnd | rag_agent/utils/text.py:14 | the greedy `+` of either alternative: the run from `i` is non-empty, stays in the class of `s[i]`, and ends at the end of the text or at a character of another class (used by `MatchesAreMaximalRuns`) |
| Text.Tokenize | rag_agent/utils/text.py:12-15 | `tokenize`: the matched substrings, lower-cased (a definition; its properties are `TokensAreWellFormed`, `TokensConcatenateToSignificant`, `NoTokensWithoutLetters` and `IdeographRunIsOneToken`) |
| Text.Lowered | rag_agent/utils/text.py:15 | `[t.lower() for t in tokens]` over the matched spans: one token per span, and token `k` is span `k` lower-cased |
| Text.LowerAll | rag_agent/utils/text.py:15 | `lower()` on a token keeps the length and lowers each character; only ASCII capitals change |
| Text.MatchesAreMaximalRuns | rag_agent/utils/text.py:14 | every span `findall` takes for `[一-鿿]+\|[a-zA-Z]+` is a run of one class that neither neighbour extends |
| Text.MatchesCoverSignificant | rag_agent/utils/text.py:14 | the matches are in text order, and no ideograph or ASCII letter lies before the first, between two, or after the last |
| Text.TokensAreWellFormed | rag_agent/utils/text.py:12-15 | every token is a non-empty run of ideographs or of lower-case ASCII letters |
| Text.TokensConcatenateToSignificant | rag_agent/utils/text.py:12-15 | the tokens concatenate to the text with every other character deleted and ASCII capitals lowered: nothing is lost or reordered |
| Text.NoTokensWithoutLetters | rag_agent/utils/text.py:12-15 | text without ideographs and ASCII letters has no tokens |
| Text.IdeographRunIsOneToken | rag_agent/utils/text.py:12-15 | a text made of ideographs only is a single token, with no word segmentation |
| Text.Jaccard | rag_agent/utils/text.py:18-23 | the similarity lies in [0, 1]; it is 1 exactly when the token sets are equal (including both empty), and 0 exactly when they are disjoint and not both empty |
| Text.JaccardSymmetric | rag_agent/utils/text.py:18-23 | `jaccard(a, b) == jaccard(b, a)` |
| Text.JaccardOfSetsOnly | rag_agent/utils/text.py:20 | only the token sets matter, not order or repetition |
| Text.ModelEmbedding | rag_agent/utils/text.py:35-45 | the embedding has `dim` entries, all zero when the text has no tokens |
| ContextSwitch.IsContextSwitch | rag_agent/detector/context_switch.py:8-16 | `is_context_switch`: the Jaccard similarity of the two token lists is strictly below the threshold (a definition; its properties are the lemmas below) |
| ContextSwitch.SameInputNeverSwitches | rag_agent/detector/context_switch.py:8-16 | an input compared with itself is never a switch for a threshold of at most 1 |
| ContextSwitch.NoTokensNoSwitch | rag_agent/detector/context_switch.py:8-16 | two inputs without tokens are not a switch for a threshold of at most 1 |
| ContextSwitch.DisjointTokensSwitch | rag_agent/detector/context_switch.py:8-16 | disjoint token sets, the current one non-empty, are a switch for every positive threshold |
| ContextSwitch.SwitchIsSymmetric | rag_agent/detector/context_switch.py:8-16 | swapping the current input and the previous one does not change the verdict |
| ContextSwitch.SwitchIsMonotone | rag_agent/detector/context_switch.py:16 | a switch at one threshold is a switch at every higher threshold |
| ContextSwitch.SwitchExamples | tests/test_context_switch.py:4-6 | "聊聊天气" against "讨论机器学习" is a switch at 0.5, and "你好" against itself is not |
| Summarizer.Summarize | rag_agent/memory/summarizer.py:6-15 | `summarize`: the first `max_sentences` pieces of `re.split` on the stripped text, joined by single spaces (a definition; its properties are the lemmas below) |
| Summarizer.SpaceRunEnd | rag_agent/memory/summarizer.py:14 | `\s+` is greedy: the run is non-empty, all whitespace, and followed by the end or by non-whitespace |
| Summarizer.SplitFrom | rag_agent/memory/summarizer.py:14 | `re.split` returns at least one piece |
| Summarizer.SplitRoundTrip | rag_agent/memory/summarizer.py:14 | there is one more piece than separators, and interleaving the pieces with the removed separators gives back the text |
| Summarizer.SeparatorsFollowTerminators | rag_agent/memory/summarizer.py:14 | every removed separator is a non-empty whitespace run that follows a piece ending in `.`, `!` or `?` |
| Summarizer.PiecesAreTrimmed | rag_agent/memory/summarizer.py:14 | in a text that starts and ends with non-whitespace, every piece is non-empty and starts and ends with non-whitespace |
| Summarizer.PiecesHaveNoBoundary | rag_agent/memory/summarizer.py:14 | the split misses no cut: no piece holds a `.`, `!` or `?` directly followed by whitespace |
| Summarizer.SentenceShape | rag_agent/memory/summarizer.py:14 | every sentence but the last ends with a terminator; no sentence holds a terminator followed by whitespace; for non-blank text no sentence is empty or padded with whitespace |
| Summarizer.NoBoundaryKeepsText | rag_agent/memory/summarizer.py:14-15 | without a terminator followed by whitespace, the summary is the whole stripped text |
| Summarizer.NoSentencesNoSummary | rag_agent/memory/summarizer.py:15 | `max_sentences = 0` gives the empty summary |
| Summarizer.SummaryNoLonger | rag_agent/memory/summarizer.py:14-15 | the summary is never longer than the stripped text, for any `max_sentences` |
| FaissUtils.Dot | rag_agent/utils/faiss_utils.py:23 | `sum(qi * vi for qi, vi in zip(q, v))`: the inner product over the shorter of the two vectors (a definition; `DotWithZeros` is its property) |
| FaissUtils.Similarities | rag_agent/utils/faiss_utils.py:23 | the `sims` list: one score per stored vector |
| FaissUtils.DotWithZeros | rag_agent/utils/faiss_utils.py:23 | the zero query scores 0 against every vector |
| FaissUtils.Ranking | rag_agent/utils/faiss_utils.py:24 | the order holds every position exactly once and is sorted by descending score, with ties in ascending position |
| FaissUtils.RankingIsTheStableSort | rag_agent/utils/faiss_utils.py:24 | any stable descending sort of the positions, as Python's `sorted(..., reverse=True)` is, equals `Ranking` |
| FaissUtils.Insert | rag_agent/utils/faiss_utils.py:24 | one step of the sort behind `Ranking`: inserting a new position into a sorted order gives a sorted order holding exactly the old positions and the new one |
| FaissUtils.RankPrefix | rag_agent/utils/faiss_utils.py:24 | the first `n` positions, each exactly once, sorted by descending score with ties in ascending position |
| FaissUtils.Top | rag_agent/utils/faiss_utils.py:24 | `order[:k]`: every position it reports is a stored position |
| FaissUtils.ScoresAt | rag_agent/utils/faiss_utils.py:25 | `[sims[i] for i in order]`: one score per reported position, score `j` being the similarity of position `order[j]` |
| FaissUtils.RowScores | rag_agent/utils/faiss_utils.py:24-30 | the padded score row of one query (a definition; its properties are `RowLayout`, `RowOrder` and `RowLeavesOnlyWorse`) |
| FaissUtils.RowIds | rag_agent/utils/faiss_utils.py:24-30 | the padded index row of one query (a definition; its properties are `RowLayout`, `RowOrder` and `RowLeavesOnlyWorse`) |
| FaissUtils.RowLayout | rag_agent/utils/faiss_utils.py:24-30 | both rows have the same length, `k` for `k >= 0`. The first `min(k, n)` entries are distinct stored positions with their scores; a negative `k` counts as a slice does. The rest are `(0.0, -1)` padding |
| FaissUtils.RowOrder | rag_agent/utils/faiss_utils.py:24-25 | reported scores never increase, and equal scores come in ascending position order |
| FaissUtils.RowLeavesOnlyWorse | rag_agent/utils/faiss_utils.py:24 | a position not reported scores at most the last reported one, and on a tie lies after it |
| FaissUtils.SingleVectorHits | rag_agent/utils/faiss_utils.py:23-30 | an index holding one vector reports it, for any `k >= 1`, exactly when its score is positive |
| FaissUtils.Kept | rag_agent/memory/memory_store.py:64-66 | the positions the `zip(scores, idx)` walk keeps: those with a non-negative position and a positive score (a definition; `KeptRow` is its property) |
| FaissUtils.Positive | rag_agent/memory/memory_store.py:64-66 | the `score > 0` filter on a ranked row: every position it keeps is reported with a positive score, and every reported position with a positive score is kept |
| FaissUtils.KeptRow | rag_agent/memory/memory_store.py:64-66 | filtering a padded row keeps exactly the reported positions whose score is positive; the padding never survives |
| FaissUtils.SearchRowFilters | rag_agent/memory/memory_store.py:62-67 | the row `search` returns for a query holds only positions of the stored items, and filtering it gives the hits |
| FaissUtils.Hits | rag_agent/memory/memory_store.py:61-67 | the positions a retrieve returns: every one of them is a stored position; `HitsSpec` says which they are |
| FaissUtils.HitsSpec | rag_agent/retriever/rag_retriever.py:30-36 | hits are at most `k` and at most the item count, all score positively, keep the search's order, and are exactly the top-`k` positions whose score is positive; an empty index has none |
| FaissUtils.HitsBound | rag_agent/retriever/rag_retriever.py:30-36 | hits are at most `k`, and an empty index has none |
| FaissUtils.PickHits | rag_agent/memory/memory_store.py:58-68 | a retrieve returns at most `k` items, and none from an empty collection |
| FaissUtils.Pick | rag_agent/memory/memory_store.py:63-67 | the `results` list: one item per kept position, item `j` being the stored item at position `j` (also rag_agent/retriever/rag_retriever.py:32-36) |
| FaissUtils.ZeroQueryHitsNothing | rag_agent/retriever/rag_retriever.py:30-36 | the zero query vector retrieves nothing |
| FaissUtils.KeepHits | rag_agent/memory/memory_store.py:63-67 | the `for score, i in zip(...)` loop returns the items at the kept positions, in order |
| FaissUtils.ScoreRowAt | rag_agent/utils/faiss_utils.py:20-33 | score row `qi` of a search is the score row of query `qi` |
| FaissUtils.ScoreRows | rag_agent/utils/faiss_utils.py:20-33 | the `scores_list` accumulation: one score row per query (which row belongs to which query is `ScoreRowAt`) |
| FaissUtils.IdRows | rag_agent/utils/faiss_utils.py:20-33 | the `idx_list` accumulation: one index row per query (which row belongs to which query is `IdRowAt`) |
| FaissUtils.IdRowAt | rag_agent/utils/faiss_utils.py:20-33 | index row `qi` of a search is the index row of query `qi` |
| FaissUtils.IndexFlatIP.constructor | rag_agent/utils/faiss_utils.py:12-14 | a new index has the given dimension and no vectors |
| FaissUtils.IndexFlatIP.Add | rag_agent/utils/faiss_utils.py:16-17 | `add` appends the vectors at the end, in order |
| FaissUtils.IndexFlatIP.SearchRow | rag_agent/utils/faiss_utils.py:23-30 | one query's loop body (rank, cut at `k`, pad with `(0.0, -1)`) returns `RowScores` and `RowIds` of its similarities |
| FaissUtils.IndexFlatIP.Search | rag_agent/utils/faiss_utils.py:19-33 | `search` returns one score row and one index row per query, in query order |
| Memory.MemoryChunk | rag_agent/memory/memory_store.py:15-21 | the memory record: id, timestamp, summary, content and topic, in the dataclass's field order (a datatype; `AddMemory` states the chunk it builds) |
| Memory.Truncate | rag_agent/memory/memory_store.py:43 | `int(x)` truncates toward zero |
| Memory.ChunkId | rag_agent/memory/memory_store.py:43 | `f"chunk-{int(time.time())}-{n+1:03d}"` with the clock as a parameter (a definition; its properties are `ChunkIdsDistinct` and `ChunkIdShape`) |
| Memory.ChunkIdsDistinct | rag_agent/memory/memory_store.py:43 | chunks with different counts get different ids, whatever the clock reads |
| Memory.ChunkIdShape | rag_agent/memory/memory_store.py:43 | an id is `chunk-<int clock>-<count>`, where the count part is exactly three digits, or the count's own digits when it has more, and denotes the count |
| Memory.OneMemoryRecall | tests/test_memory_store.py:5-10 | a store holding one memory returns it for any `top_k >= 1` exactly when the query embedding scores positively against its summary |
| Memory.MemoryStore.constructor | rag_agent/memory/memory_store.py:27-39 | the store holds the loaded chunks, and its index holds one summary embedding per chunk |
| Memory.MemoryStore.AddMemory | rag_agent/memory/memory_store.py:42-55 | the store gains the given chunk at the end, and the index gains that chunk's summary embedding. The id holds the clock and the new count; the other data are as given. `Valid` is kept |
| Memory.MemoryStore.Retrieve | rag_agent/memory/memory_store.py:58-68 | the result is the memories at the hits of the query embedding: at most `top_k` of them, and none from an empty store |
| Retriever.NoTokensNoDocuments | rag_agent/retriever/rag_retriever.py:30-36 | a query without tokens retrieves no document |
| Retriever.DocumentRetriever.constructor | rag_agent/retriever/rag_retriever.py:15-25 | the retriever holds the texts in order, and its index holds one embedding per text |
| Retriever.DocumentRetriever.Retrieve | rag_agent/retriever/rag_retriever.py:27-37 | the result is the documents at the hits of the query embedding: at most `top_k`, none from an empty corpus, none for a query without tokens |
| RagPrompt.Snippet | rag_agent/prompt/rag_prompt.py:23 | `doc.strip().replace("\n", " ")[:200]` (a definition; `SnippetShape` is its property) |
| RagPrompt.MemoryLine | rag_agent/prompt/rag_prompt.py:16 | `f"- {m}"` (a definition; `MemoryLineAt` places it in the prompt) |
| RagPrompt.DocumentLine | rag_agent/prompt/rag_prompt.py:24 | `f"[文档{i}] {snippet}"` (a definition; `KnowledgeItem` places it in the prompt) |
| RagPrompt.UserLine | rag_agent/prompt/rag_prompt.py:26 | `f"当前用户输入:\n{user_input}\n"` (a definition; `PromptEnd` and `DocumentBlock` place it in the prompt) |
| RagPrompt.PromptLines | rag_agent/prompt/rag_prompt.py:13-27 | the `lines` list `build_prompt` joins (a definition; `BuildPrompt` is proved to build it and the lemmas below describe it) |
| RagPrompt.SnippetShape | rag_agent/prompt/rag_prompt.py:23 | a snippet is the first (at most) 200 characters of the stripped document with newlines turned into spaces, so it contains no newline |
| RagPrompt.BuildPrompt | rag_agent/prompt/rag_prompt.py:11-28 | the loops build exactly the line list `PromptLines`, and the prompt is those lines joined by newlines |
| RagPrompt.PromptStart | rag_agent/prompt/rag_prompt.py:8-13 | the prompt opens with the system prompt, an empty line and the memory header |
| RagPrompt.MemoryBlock | rag_agent/prompt/rag_prompt.py:13-19 | the three head lines come first, then exactly the memory block, then an empty line |
| RagPrompt.MemoryLinesShape | rag_agent/prompt/rag_prompt.py:14-18 | the memory block has one line per memory, or is the single `- (无)` line when there are none |
| RagPrompt.MemoryLineAt | rag_agent/prompt/rag_prompt.py:15-16 | memory line `i` is `- ` followed by memory `i`, so the lines follow the memories' order |
| RagPrompt.DocumentBlock | rag_agent/prompt/rag_prompt.py:20-27 | after the memory block's empty line come exactly the knowledge block's lines, and then the user line and the closing line, which are the last two lines |
| RagPrompt.KnowledgeLines | rag_agent/prompt/rag_prompt.py:20-25 | the knowledge block is empty without documents; otherwise it is the `知识:` header, one line per document and an empty line |
| RagPrompt.KnowledgeItem | rag_agent/prompt/rag_prompt.py:22-24 | knowledge line `1 + i` is `[文档{i+1}] ` followed by the snippet of document `i`: numbering starts at 1 and follows document order |
| RagPrompt.KnowledgeIffDocuments | rag_agent/prompt/rag_prompt.py:20-25 | the knowledge header is an entry of the `lines` list exactly when there are documents (in the joined text, a user input can still produce a line that reads the same) |
| RagPrompt.PromptEnd | rag_agent/prompt/rag_prompt.py:26-28 | the prompt text ends with the user line and, after a newline, the closing instruction, which has no newline |
| App.Turn | rag_agent/app.py:40 | `f"用户: {user_input}\n助手: {response}\n"` (a definition; used by the lemmas below) |
| App.Session | rag_agent/app.py:22-23 | the two fields `chat` updates, `topic_buffer` and `last_user_input` (a datatype; `Step` gives their next values) |
| App.Initial | rag_agent/app.py:22-23 | the state a new agent starts in: an empty buffer and no previous input (a constant; `FirstTurnKeepsNothing` describes the turn that follows) |
| App.Switches | rag_agent/app.py:32-34 | the guard of the switch branch: a previous input that is neither `None` nor empty, and a context switch away from it (a definition) |
| App.Step | rag_agent/app.py:31-41 | the state change of `chat`: the next buffer and previous input, and the `add_memory` arguments if a memory is consolidated (a definition; its properties are the lemmas below, and `Agent.Remember` is proved to follow it) |
| App.StepRecordsTurn | rag_agent/app.py:40-41 | after any turn the previous input is this one, and the buffer ends with this turn and is not blank |
| App.StepBuffer | rag_agent/app.py:32-40 | without a switch the buffer grows by exactly this turn; on a switch it becomes exactly this turn |
| App.StepConsolidation | rag_agent/app.py:32-37 | a memory is added exactly on a switch away from a non-blank buffer. Its content is the whole old buffer and its summary is `summarize(buffer)`, no longer than the stripped buffer. Its topic is the first (at most) 20 characters of the summary |
| App.FirstTurnKeepsNothing | rag_agent/app.py:22-34 | the first turn of a new agent never consolidates |
| App.RepeatedInputKeepsTopic | rag_agent/app.py:32-41 | repeating the previous input never consolidates, for a threshold of at most 1 |
| App.Agent.constructor | rag_agent/app.py:17-23 | the agent starts with an empty buffer and no previous input |
| App.Summaries | rag_agent/app.py:26 | `[m.summary for m in ...]` (a definition) |
| App.Agent.PromptFor | rag_agent/app.py:26-28 | the prompt `chat` builds from the summaries of the recalled memories and the recalled documents, as the state stands when the turn starts (a definition; `Respond` and `Chat` state that the response is generated from it) |
| App.Agent.Respond | rag_agent/app.py:26-29 | the response is the model's answer to the prompt built from the recalled memories and documents |
| App.Agent.Remember | rag_agent/app.py:32-41 | the buffer and previous input move as `Step` says. The store stays unchanged, or gains exactly the chunk `Step` consolidates, numbered after the existing ones |
| App.Agent.Chat | rag_agent/app.py:25-42 | `chat` returns the model's answer to the turn's prompt and updates the state as `Step` says; the store grows by at most one memory |

## Left out

- Persistence: loading the JSON file (rag_agent/memory/memory_store.py:30-35) and `save` (rag_agent/memory/memory_store.py:71-74), which `add_memory` calls at line 54, are I/O. The store's constructor takes the loaded chunks, and nothing is written.
- Document loading (rag_agent/retriever/rag_retriever.py:19-20): globbing and reading files is I/O. The retriever's constructor takes the texts in the order the glob would yield them, which is not specified.
- The embedding internals are left out: MD5 seeding, `random.Random`, float averaging and `sqrt` normalisation (rag_agent/utils/text.py:28-32, 40-44). `ModelEmbedding` keeps the branch on an empty token list. The rest is the function parameter `pool`, of which only "keeps the dimension" is assumed (`KeepsDimension`).
- `hash_embedding`: memory_store.py imports it at line 11 from text.py, but text.py does not define it, so the import fails as written. The store takes its embedding as the function parameter `embed`, with no assumption about it.
- context_switch.py imports `_tokenize` and `_jaccard` from memory_store.py at line 5, but memory_store.py defines neither, so this import fails as written too. The model uses text.py's `tokenize` and `jaccard`, the two functions these names evidently refer to.
- The native FAISS branch (rag_agent/utils/faiss_utils.py:7-9) is a library whose code is not part of this model. Only the pure-Python fallback is modelled.
- `time.time()` (rag_agent/memory/memory_store.py:43, 46): the two clock readings are the parameters `idClock` and `timestamp`.
- rag_agent/model/llm_runner.py stands in for a remote model. `Agent.generate` is an arbitrary function from prompt to response, so no particular stub output is modelled.
- rag_agent/config.py is not part of this model: it only holds constants. Its paths belong to the I/O left out above, and the agent takes its threshold (0.3 by default there), store and retriever as constructor arguments.
- Floating point: scores, Jaccard values and clock readings are exact reals. Rounding, NaN and infinities are not modelled, so ties between scores are exact ties.
- Retriever.DocumentRetriever.constructor: requires `KeepsDimension(pool)`. This is the one property of the left-out embedding internals the model relies on, and the source's averaging has it for `dim`-long token vectors.
- FaissUtils.IndexFlatIP.Search: the `ensures` gives the two lists as `ScoreRows`/`IdRows`. Which row belongs to which query is stated by the lemmas `ScoreRowAt` and `IdRowAt`, not by the method.
