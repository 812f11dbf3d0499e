# Keyword-overlap retrieval and prompt augmentation

This project models the retrieval core of a small retrieval-augmented chat
script (`index.js`). The script does two things:

- `retrieveData(query, documents)` cuts every loaded document into sentences.
  It splits the document at runs of `\r`/`\n` and drops the blank lines. It
  scores each sentence by how many of its lower-cased word tokens also occur
  among the query's tokens. It returns the earliest sentence with the highest
  score, provided that score is at least 1. The running maximum starts at 0,
  and only a strictly higher score replaces it. When no sentence scores, it
  returns `"No relevant information found."`.
- `generateResponse(query)` appends the retrieved sentence to the query as a
  "fact" and sends the resulting prompt to the chat model as one human message.

There are five modules:

- `Lines` covers `split(/[\r\n]+/)`, `trim()` and the blank-line filter.
- `Scoring` covers the token-overlap score. The lower-casing and the word
  tokenizer are function-valued fields of an `Analyzer`, so every result holds
  for any tokenizer.
- `Retriever` has the spec function `Retrieve`, a fold over all candidate
  sentences, and the method `RetrieveData`. The method keeps the source's two
  nested loops and is proved equal to `Retrieve`.
- `Prompt` has the augmentation and `GenerateResponse`. The chat model is a
  function parameter.
- `Wrappers` holds `Option`, used for `null`/`undefined`.

A document list entry is an `Option<Document>`, where `None` is a missing
entry. A document's `pageContent` is an `Option<string>`. An entry is skipped
when it is missing, or when its content is missing or empty. These are the
falsy cases of `!document || !document.pageContent` for string contents.

One might expect the "no information" fallback to suppress the fact. The code
does not do that. The fallback is a non-empty string and so truthy, and
`index.js:66` appends it like any other fact. `Prompt.AugmentationAlwaysFires`
and `Prompt.NoOverlapPrompt` state this behaviour.

## Model

| member | source | states |
|---|---|---|
| Lines.Split | index.js:40 | `s.split(/[\r\n]+/)`. `SplitAtRun` and `NoTerminatorSplit` determine it on every input. `SplitIsWellFormed`, `SplitKeepsText` and `SplitJoinLines` describe its result. |
| Lines.NoTerminatorSplit | index.js:40 | A string without `\r` or `\n`, the empty string included, splits into itself alone. |
| Lines.Trim | index.js:40 | `line.trim()`. `TrimEmptyIffBlank` states when the result is empty. |
| Lines.KeepNonBlank | index.js:40 | `.filter(line => line.trim() !== '')`. `KeepNonBlankMembers` states which lines are kept, and `KeepNonBlankAppend` states that the order is kept. |
| Lines.Sentences | index.js:40 | The split followed by the filter. `SentencesAreCleanLines` and `SentencesAtRun` describe it. |
| Scoring.Tokens | index.js:31 | `tokenizer.tokenize(s.toLowerCase())`, the same for the query and for each sentence (`index.js:43`), for any lower-casing and tokenizer. |
| Scoring.Score | index.js:44-45 | The length of the filtered token list. `ScoreCountsPositions`, `ScoreDependsOnQuerySet`, `ScoreAppend`, `ScoreBounds` and `ScoreEmptyQuery` describe it. |
| Retriever.Skipped | index.js:36 | The guard that holds when `document` is falsy or `document.pageContent` is falsy, for string contents. `SkippedDocumentsIrrelevant` and `CandidatesMembers` describe its effect. |
| Retriever.ScanLines | index.js:41-50 | The state of `bestMatch` and `highestScore` after a list of sentences. `ScanLinesKeepsFirstBest` and `ScanLinesKeepsALine` describe it. |
| Retriever.OrNoMatch | index.js:54 | `bestMatch` when it is truthy, else `"No relevant information found."`. `RetrieveIsNoMatchOrSentence` and `RetrieveNoOverlap` describe its use. |
| Retriever.Retrieve | index.js:30-55 | What `retrieveData` resolves to. `RetrieveFindsFirstBest`, `RetrieveNoOverlap`, `RetrieveDegenerateInputs`, `RetrieveIsNoMatchOrSentence` and `SkippedDocumentsIrrelevant` describe it, and `RetrieveData` computes it. |
| Prompt.Augment | index.js:66 | The augmented query. `AugmentRoundTrip` describes it through its inverse `FactOf`, and `AugmentationAlwaysFires` covers its use on retrieved data. |
| Lines.SplitIsWellFormed | index.js:40 | `split(/[\r\n]+/)` always returns at least one piece. No piece contains `\r` or `\n`. Only the first and last pieces can be empty. That they are empty for a leading or trailing run follows from `SplitAtRun` with an empty line, and for empty content from `NoTerminatorSplit("")`. |
| Lines.SplitKeepsText | index.js:40 | Joining the pieces end to end gives the content with every terminator removed. No other character is lost, and the order is kept. |
| Lines.SplitAtRun | index.js:40 | A run of terminators of any length, mixing `\r` and `\n`, acts as one separator. The line before the run becomes one piece, followed by the pieces of the rest. |
| Lines.SplitJoinLines | index.js:40 | Round trip: joining well-formed pieces with `"\n"` and splitting the result gives the same pieces back. |
| Lines.TrimEmptyIffBlank | index.js:40 | `line.trim() === ''` holds exactly when every character of the line is ECMAScript whitespace or a line terminator. |
| Lines.KeepNonBlankMembers | index.js:40 | The filter keeps exactly the lines that are not whitespace-only. |
| Lines.KeepNonBlankAppend | index.js:40 | Filtering keeps the order: filtering a concatenation is the concatenation of the filtered parts. |
| Lines.SentencesAreCleanLines | index.js:40 | A document's sentences are exactly the split pieces that are not blank. Each sentence is non-empty and has no terminator. |
| Lines.SentencesAtRun | index.js:40 | A line followed by a run of terminators contributes itself, unless blank, ahead of the sentences of the rest of the content. |
| Scoring.ScoreCountsPositions | index.js:43-45 | The score equals the number of positions in the sentence's token list whose token occurs in the query, so a repeated sentence token counts each time. |
| Scoring.ScoreDependsOnQuerySet | index.js:44 | Two queries with the same set of tokens give every sentence the same score, so repeats and order in the query do not matter. |
| Scoring.ScoreAppend | index.js:44-45 | The scores of two consecutive token runs add up. |
| Scoring.ScoreBounds | index.js:44-45 | The score is at most the number of sentence tokens. It is at least 1 exactly when some sentence token occurs in the query. |
| Scoring.ScoreEmptyQuery | index.js:44 | A query without tokens gives every sentence the score 0. |
| Retriever.ScanLinesKeepsFirstBest | index.js:41-50 | After scanning any list of lines, `highestScore` is the maximum score, or 0 for no lines. `bestMatch` is null exactly when that maximum is 0. Otherwise it is the earliest line that reaches the maximum, which scores at least 1. |
| Retriever.FirstBestIsUnique | index.js:47-50 | At most one line is the earliest line with the highest score. |
| Retriever.ScanLinesKeepsALine | index.js:47-50 | A kept `bestMatch` is always one of the scanned lines. |
| Retriever.Candidates | index.js:35-41 | The visit order of the nested `forEach`: documents first, then the lines of each. `GatherSnoc` states that one more document appends its sentences at the end, and `CandidatesMembers` states which sentences occur. |
| Retriever.GatherSnoc | index.js:35-41 | Appending one entry to the list appends that entry's sentences at the end of the visited sentences. |
| Scoring.LineScore | index.js:43-45 | The score of one sentence against the query tokens, that is `Score` of the sentence's tokens. `ScoreCountsPositions` and `ScoreBounds` describe it. |
| Retriever.CandidatesMembers | index.js:35-41 | The scanned sentences are exactly the sentences of the entries that are not skipped. |
| Retriever.CandidatesAreCleanLines | index.js:35-41 | Every scanned sentence is non-blank and free of terminators, so it is never empty. |
| Retriever.Present | index.js:36-39 | The entries that survive the guard against a missing document or content. None of them is skipped, and every entry that is not skipped is kept. |
| Retriever.PresentKeepsOrder | index.js:35-39 | The guard keeps the order of the list: the surviving entries of a concatenation are those of the first part followed by those of the second. |
| Retriever.PresentSingle | index.js:36-39 | A single entry survives exactly when it is not skipped. |
| Retriever.SkippedDocumentsIrrelevant | index.js:36-39 | Removing the missing entries and the entries without content does not change the result. |
| Retriever.RetrieveIsNoMatchOrSentence | index.js:30-55 | The result is never empty. It is either the fallback string or a sentence of an entry that is not skipped. |
| Retriever.RetrieveFindsFirstBest | index.js:30-55 | When some sentence shares a token with the query, the result is the first sentence, in document order and then line order, with the highest score of all. |
| Retriever.RetrieveNoOverlap | index.js:54 | When no sentence shares a token with the query, the result is `"No relevant information found."`. |
| Retriever.RetrieveDegenerateInputs | index.js:31-54 | A query without tokens, or an empty document list, gives the fallback string. |
| Retriever.ScanSentences | index.js:41-51 | The inner loop over one document's sentences advances the scan state exactly as the spec fold does over those sentences. |
| Retriever.RetrieveData | index.js:30-55 | The method with both loops returns exactly `Retrieve`, the spec fold over all candidate sentences, and never returns an empty string. |
| Prompt.AugmentRoundTrip | index.js:66 | The prompt always starts with the query. The appended fact can be read back from the prompt. With no fact, the prompt is the bare query. |
| Prompt.AugmentationAlwaysFires | index.js:64-66 | The retrieved data is never empty, so the prompt is always `query + " Considering the following fact: " + retrieved`. |
| Prompt.NoOverlapPrompt | index.js:54-66 | With no overlap, the prompt embeds the fallback sentence as its fact. |
| Prompt.AllSkippedPrompt | index.js:36-66 | A non-empty list whose entries are all skipped still produces a prompt, with the fallback sentence as its fact. |
| Prompt.GenerateResponse | index.js:57-75 | An empty document list returns `"Failed to load documents or documents are empty."`. Otherwise the reply is the model's response to the single message `["human", query + " Considering the following fact: " + Retrieve(...)]`. |

## Left out

- Loading the environment with `dotenv` and constructing the chat model and the tokenizer (`index.js:2-21`) are configuration and are not modelled.
- `loadDocuments` (`index.js:23-28`) reads a file. The model takes the loaded list as the `documents` parameter.
- `model.invoke` (`index.js:68-73`) is a network call. It is the function parameter `invoke`, which always returns a response.
- The `try`/`catch` of `generateResponse` (`index.js:58`, `76-79`) is not modelled, nor is its reply `"An error occurred while generating the response."`. The model takes the loaded list `documents` and a total `invoke` as parameters, so a loader that throws or a model call that fails cannot be expressed.
- The top-level call and the printing of `response.content` (`index.js:82-84`) are not modelled.
- The `console.log` and `console.error` diagnostics (`index.js:26`, `37`, `42`, `77`) are output only and are not modelled.
- `String.prototype.toLowerCase` and `natural.WordTokenizer.tokenize` are not reimplemented. They appear as the two fields of `Scoring.Analyzer`, and every lemma holds for any choice of them.
- `pageContent` values that are not strings, such as numbers or objects with their own truthiness and `split`, are not modelled. A content is either a string or missing.
- `documents` is always a list. The `documents.length` check on a `null` list, which would throw, is not modelled.
- Strings are sequences of Unicode scalar values rather than UTF-16 code units. A lone surrogate cannot be expressed.
- `async`/`await` is not modelled. The calls run in sequence, which is how the source awaits them.
- `Retriever.ScanSentences`: the source's inner `forEach` is written inline in `retrieveData`. Here it is a method of its own, so that each loop is proved separately. The updates it makes to `bestMatch` and `highestScore` are returned as out-parameters.
