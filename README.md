# AI-flavor remover and conversation memory indexer, modelled in Dafny

This project models two small tools.

**The AI-flavor remover** (`ai-flavor-remover/ai-flavor-remover.py`) rewrites
Chinese prose to read less machine-written.
- Its lexicon holds thirteen marker phrases. Each marker has candidate
  replacements.
- `detect_ai_flavor` counts how often each marker occurs and reports the
  mechanical sentence patterns. It suggests a light, medium or heavy pass from
  how many distinct markers it found.
- The light pass replaces every marker that occurs, then rewrites
  `首先，`/`其次，`/`最后，`.
- The medium pass runs the light pass, then splits the text at `。！？`,
  keeping each terminator as a segment of its own. Bodies and terminators
  alternate, so the position test `i % 3 == 0` admits only every sixth
  segment, that is every third sentence body. Such a body longer than twenty
  characters may get a colloquial lead-in, chosen at random. The pass then
  re-joins the text and rewrites `此外，`/`然而，`/`因此，`.
- The heavy pass is the medium pass.
- `process` dispatches on the configured mode.

**The conversation memory indexer** (`conversation-memory-indexer/index.js`)
works on one JSON index file per day.
- `generateIndex` builds the day's record: numbered topics, defaults for
  missing fields, and statistics.
- `searchIndex` scores every topic of every recent index against a query. It
  keeps the topics that score above zero and sorts them by relevance, highest
  first.
- `searchBySentiment` lists the topics that carry a given sentiment.

## Modules

| File | Module | Content |
|---|---|---|
| `wrappers.dfy` | `Wrappers` | `Option` |
| `strings.dfy` | `Strings` | The string operations the sources rely on:<br>• substring test (`in` / `includes`)<br>• Python's non-overlapping `count` and `replace`<br>• JavaScript's first-occurrence `replace`<br>• `padStart` and `lstrip` |
| `decimal.dfy` | `Decimal` | Decimal rendering of naturals (`String(n)`, f-string `{count}`) and its inverse |
| `lexicon.dfy` | `FlavorLexicon` | The tables: `AI_WORDS` in dictionary order, `MECHANICAL_PATTERNS`, the keys of `DOMAIN_PROMPTS`, the casual prefixes |
| `detect.dfy` | `FlavorDetect` | What detection reports, as functions, and its properties |
| `rewrite.dfy` | `FlavorRewrite` | The light and medium passes, as functions, and their properties |
| `remover.dfy` | `FlavorRemover` | The class `AIFlavorRemover`: the source's loops, each proved to compute the function that specifies it |
| `index_records.dfy` | `IndexRecords` | The index record and `generateIndex` |
| `index_search.dfy` | `IndexSearch` | `calculateMatchScore`, `searchIndex` with its stable sort, `searchBySentiment` |

Things the model does not run are parameters:
- The random source of `_add_casual_touch` is an oracle `nat -> Draw`. For segment `i`, it either keeps the sentence or fires with one of the four prefixes.
- The regular-expression search in detection is a predicate `matches(pattern, text)`.
- `toLowerCase` is a function `lower`.
- The comparison "the file's date is before the cutoff" is a predicate `beforeCutoff` on the date string.
- The directory listing is a sequence `entries`, and reading and parsing a file is a function `read`.

Relevance scores are exact integers in tenths: a title match is worth 10, a
keyword match 8 and a decision match 6.

### A proved property of the rewrite passes

The comma rewrites of the light pass never change anything. The connective rewrites of the medium pass never change anything either, whatever the casual touch draws.
- The marker loop replaces every occurrence of `首先`, `其次` and `最后` before those rewrites run.
- The loop also replaces `此外`, `然而` and `因此`, and none of the chosen replacements can re-create any of the six comma forms.
- The casual touch cannot create `此外，`, `然而，` or `因此，` either:
  - a lead-in contains none of `此`, `然` and `因`, and ends in a full-width comma;
  - a touched body follows a terminator, which cannot begin one of these patterns;
  - the stripped body is a suffix of the original body.

So:
- the light pass equals the marker loop alone (`LightCommaRewritesInert`);
- the medium pass's final rewrites leave the light output unchanged (`ConnectiveRewritesInertOnLight`);
- for every sequence of draws, the medium pass is exactly the re-joined segments, so its final rewrites never fire (`MediumConnectiveRewritesInert`);
- a medium pass in which the casual touch never fires returns exactly the light result (`MediumWithoutTouchIsLight`).

The passes are modelled as written, with the rewrites kept.

## Model

| member | source | states |
|---|---|---|
| `FlavorLexicon.ChooseReplacement` | ai-flavor-remover/ai-flavor-remover.py:126 | The chosen replacement is the first candidate when that is non-empty. Otherwise it is the second candidate, or empty when there is none. It is empty exactly when no usable candidate exists. |
| `FlavorLexicon.MarkerIndex` | ai-flavor-remover/ai-flavor-remover.py:24-38 | Locates a phrase in the lexicon. It returns the phrase's position, or the table length when the phrase is no marker. |
| `FlavorLexicon.LexiconWellFormed` | ai-flavor-remover/ai-flavor-remover.py:24-38 | The lexicon has thirteen pairwise distinct markers. Every marker's chosen replacement is non-empty. |
| `FlavorLexicon.ChosenReplacements` | ai-flavor-remover/ai-flavor-remover.py:24-38 | The light pass turns `值得注意的是` into `有意思的是`, because its first candidate is empty. Every other marker becomes its first candidate. |
| `FlavorLexicon.MarkerIndexOfMarker` | ai-flavor-remover/ai-flavor-remover.py:96-99 | Each marker is found at its own position in the table. |
| `Strings.CountPositiveIff` | ai-flavor-remover/ai-flavor-remover.py:97-98 | The non-overlapping count is positive exactly when the word occurs. So "count > 0" in detection and "word in result" in the light pass agree. |
| `Strings.CountBound` | ai-flavor-remover/ai-flavor-remover.py:97 | Non-overlapping occurrences fit in the text: count times word length is at most the text length. |
| `Strings.ReplaceAbsent` | ai-flavor-remover/ai-flavor-remover.py:127 | Replacing a word that does not occur leaves the text unchanged. |
| `Strings.ReplaceAllLength` | ai-flavor-remover/ai-flavor-remover.py:127 | Replacing changes the length by the count times the length difference. |
| `Strings.ReplaceAllKeepsAbsent` | ai-flavor-remover/ai-flavor-remover.py:127 | A replacement that shares no character with a pattern cannot create that pattern. |
| `Strings.ReplaceAllRemoves` | ai-flavor-remover/ai-flavor-remover.py:127 | After replacing a two-character marker, no phrase that starts with the marker remains. This needs a replacement that cannot rebuild the phrase, inside itself or across a boundary. |
| `Strings.LStrip` | ai-flavor-remover/ai-flavor-remover.py:178 | `lstrip` removes exactly the leading whitespace. The result is a suffix that does not start with whitespace. |
| `FlavorDetect.HitsAreOrderedCounts` | ai-flavor-remover/ai-flavor-remover.py:95-99 | Every reported word is a marker that occurs, with its exact non-overlapping count. Reports follow table order, so no marker is reported twice. |
| `FlavorDetect.HitCompleteAt` | ai-flavor-remover/ai-flavor-remover.py:95-99 | A marker scanned so far is reported exactly when it occurs in the text. |
| `FlavorDetect.HitsAreComplete` | ai-flavor-remover/ai-flavor-remover.py:95-99 | Every marker in the scanned range is reported if and only if it occurs. |
| `FlavorDetect.RecommendThresholds` | ai-flavor-remover/ai-flavor-remover.py:107-114 | Heavy is suggested exactly for more than five distinct markers, medium for three to five, and light for at most two. |
| `FlavorDetect.SuggestionInjective` | ai-flavor-remover/ai-flavor-remover.py:110-114 | The three suggestion texts are distinct, so each names its mode unambiguously. |
| `FlavorDetect.RenderHitReadsBack` | ai-flavor-remover/ai-flavor-remover.py:99 | A rendered entry `word (N次)` starts with the word, then ` (`. It ends with `次)`, and the digits between parse back to the count. |
| `FlavorDetect.RenderAllAt` | ai-flavor-remover/ai-flavor-remover.py:99 | The i-th rendered entry is the rendering of the i-th hit. |
| `FlavorDetect.PatternsUpTo` | ai-flavor-remover/ai-flavor-remover.py:101-105 | A pattern is reported exactly when it is a mechanical pattern that matches the text. |
| `FlavorDetect.MarkerFreeTextSuggestsLight` | ai-flavor-remover/ai-flavor-remover.py:95-114 | A text that contains no marker gets no hits and a light suggestion. |
| `FlavorRewrite.MarkerStepIsReplaceAll` | ai-flavor-remover/ai-flavor-remover.py:123-127 | The guarded replacement equals an unguarded replace with the chosen replacement. The `in` test only skips a no-op. |
| `FlavorRewrite.CommaRewritesNeedMarkers` | ai-flavor-remover/ai-flavor-remover.py:130-132 | The three comma rewrites change nothing in a text without `首先`, `其次` and `最后`. |
| `FlavorRewrite.MarkersUpToIdentity` | ai-flavor-remover/ai-flavor-remover.py:123-127 | The marker loop leaves a marker-free text unchanged. |
| `FlavorRewrite.LightIdentityWithoutMarkers` | ai-flavor-remover/ai-flavor-remover.py:118-134 | The light pass is the identity on text that contains no marker. |
| `FlavorRewrite.LaterStepsKeepAbsent` | ai-flavor-remover/ai-flavor-remover.py:123-127 | Later marker steps cannot re-create a pattern absent so far, when their replacements share no character with it. |
| `FlavorRewrite.MarkerStepRemoves` | ai-flavor-remover/ai-flavor-remover.py:123-127 | Once marker k's step has run, no phrase that starts with that marker remains, when its replacement cannot rebuild the phrase. |
| `FlavorRewrite.AbsentAfterMarkers` | ai-flavor-remover/ai-flavor-remover.py:123-127 | A phrase removed by marker k's step is still absent after the whole marker loop. |
| `FlavorRewrite.NoFirstComma` | ai-flavor-remover/ai-flavor-remover.py:123-130 | After the marker loop, `首先，` never occurs. |
| `FlavorRewrite.NoSecondComma` | ai-flavor-remover/ai-flavor-remover.py:123-131 | After the marker loop, `其次，` never occurs. |
| `FlavorRewrite.NoLastComma` | ai-flavor-remover/ai-flavor-remover.py:123-132 | After the marker loop, `最后，` never occurs. |
| `FlavorRewrite.NoThereforeComma` | ai-flavor-remover/ai-flavor-remover.py:123-127 | After the marker loop, `因此，` never occurs. |
| `FlavorRewrite.NoBesidesComma` | ai-flavor-remover/ai-flavor-remover.py:123-127 | After the marker loop, `此外，` never occurs. |
| `FlavorRewrite.NoHoweverComma` | ai-flavor-remover/ai-flavor-remover.py:123-127 | After the marker loop, `然而，` never occurs. |
| `FlavorRewrite.LightCommaRewritesInert` | ai-flavor-remover/ai-flavor-remover.py:118-134 | The light pass equals its marker loop alone. The comma rewrites never fire. |
| `FlavorRewrite.ConnectiveRewritesInertOnLight` | ai-flavor-remover/ai-flavor-remover.py:153-156 | The medium pass's connective rewrites leave the light output unchanged. |
| `FlavorRewrite.SplitKeep` | ai-flavor-remover/ai-flavor-remover.py:141 | Splitting with the captured terminator yields an odd number of parts. |
| `FlavorRewrite.SplitJoinRoundTrip` | ai-flavor-remover/ai-flavor-remover.py:141-151 | Joining the split parts gives back the text. |
| `FlavorRewrite.SplitShape` | ai-flavor-remover/ai-flavor-remover.py:141 | The parts alternate: bodies without terminators at even positions, single terminators at odd positions. |
| `FlavorRewrite.AddCasualTouch` | ai-flavor-remover/ai-flavor-remover.py:172-179 | The touch either keeps the sentence or prefixes one of the four lead-ins and a full-width comma to the left-stripped sentence. A keeping draw returns the sentence unchanged. A firing draw starts with the drawn prefix and a comma, and is exactly one character longer than that prefix plus the stripped sentence. The result always ends with the stripped sentence. |
| `FlavorRewrite.ProcessUpTo` | ai-flavor-remover/ai-flavor-remover.py:142-150 | The walk yields one output segment per input segment. |
| `FlavorRewrite.ProcessUpToAt` | ai-flavor-remover/ai-flavor-remover.py:143-150 | Output segment i is input segment i processed at position i. |
| `FlavorRewrite.ProcessedSegments` | ai-flavor-remover/ai-flavor-remover.py:143-150 | Punctuation and untouchable segments pass unchanged. Any other segment is either kept or gets a lead-in. |
| `FlavorRewrite.ProcessWithoutFiring` | ai-flavor-remover/ai-flavor-remover.py:143-150 | When the random draw never fires, the walk is the identity. |
| `FlavorRewrite.MediumWithoutTouch` | ai-flavor-remover/ai-flavor-remover.py:136-158 | Without a firing draw, the medium pass is the light pass followed by the connective rewrites. |
| `FlavorRewrite.MediumWithoutTouchIsLight` | ai-flavor-remover/ai-flavor-remover.py:136-158 | Without a firing draw, the medium pass returns exactly the light result. |
| `FlavorRewrite.TerminatorIsPunctuation` | ai-flavor-remover/ai-flavor-remover.py:144 | A captured terminator is on the pass-through list. |
| `FlavorRewrite.LeadInInert` | ai-flavor-remover/ai-flavor-remover.py:174-178 | A lead-in followed by its comma contains no connective pattern and ends in no partial one. |
| `FlavorRewrite.ChangedSegment` | ai-flavor-remover/ai-flavor-remover.py:143-151 | A segment the loop changes is at a positive position with a firing draw. It becomes the drawn lead-in, a comma and the stripped segment, and the output before it ends in a terminator. |
| `FlavorRewrite.WalkKeepsAbsent` | ai-flavor-remover/ai-flavor-remover.py:141-151 | When the joined segments lack a connective pattern, the joined output lacks it too. The output ends in a partial pattern only where the original text does. |
| `FlavorRewrite.MediumConnectiveRewritesInert` | ai-flavor-remover/ai-flavor-remover.py:136-158 | For every sequence of draws, the medium pass equals the re-joined output of the loop: the three connective rewrites never fire. |
| `FlavorRewrite.TouchedPositions` | ai-flavor-remover/ai-flavor-remover.py:143-149 | A segment can change only at a nonzero position divisible by six (a body position that is a multiple of three), and only when it is longer than twenty characters. |
| `FlavorRemover.AIFlavorRemover.constructor` | ai-flavor-remover/ai-flavor-remover.py:80-85 | Each setting is the configured value or its default: mode `medium`, domain `general`, empty replacements and patterns. |
| `FlavorRemover.AIFlavorRemover.DetectAIFlavor` | ai-flavor-remover/ai-flavor-remover.py:87-116 | The loops compute the rendered hits, the matching patterns, and the single suggestion for the number of hits. |
| `FlavorRemover.AIFlavorRemover.RemoveAIFlavorLight` | ai-flavor-remover/ai-flavor-remover.py:118-134 | The loop computes the light pass. |
| `FlavorRemover.AIFlavorRemover.RemoveAIFlavorMedium` | ai-flavor-remover/ai-flavor-remover.py:136-158 | The loop computes the medium pass for the given draws. |
| `FlavorRemover.AIFlavorRemover.RemoveAIFlavorHeavy` | ai-flavor-remover/ai-flavor-remover.py:160-170 | The heavy pass returns the medium result for every domain. |
| `FlavorRemover.AIFlavorRemover.Process` | ai-flavor-remover/ai-flavor-remover.py:181-188 | Mode `light` gives the light pass. Every other mode, `heavy` and unknown modes included, gives the medium pass. |
| `Decimal.Show` | conversation-memory-indexer/index.js:30 | `String(n)` is a non-empty digit string with no leading zero unless n is 0, and it parses back to n. |
| `Decimal.ShowInjective` | conversation-memory-indexer/index.js:30 | Distinct numbers render differently. |
| `Decimal.ParseLeadingZeros` | conversation-memory-indexer/index.js:30 | Zero padding does not change the parsed value. |
| `Strings.PadStart` | conversation-memory-indexer/index.js:30 | `padStart` yields max(n, length) characters: fill characters, then the original string. |
| `IndexRecords.TopicId` | conversation-memory-indexer/index.js:30 | The id is `topic_` followed by digits that parse back to the position, padded to at least three. |
| `IndexRecords.TopicIdsDistinct` | conversation-memory-indexer/index.js:30 | Distinct positions give distinct ids. |
| `IndexRecords.GeneratedTopics` | conversation-memory-indexer/index.js:29-38 | The index keeps the number and order of topics. Topic i has the i-th title and time range, the id for position i+1 (nine characters below 1000), and the day's blog reference. |
| `IndexRecords.ShortNumbersHaveAtMostThreeDigits` | conversation-memory-indexer/index.js:30 | A number below 1000 renders in at most three digits, so its padded id has exactly three. |
| `IndexRecords.GeneratedIdsDistinct` | conversation-memory-indexer/index.js:29-30 | Topic ids in one index are pairwise distinct. |
| `IndexRecords.GeneratedDefaults` | conversation-memory-indexer/index.js:32-45 | Missing keywords, decisions and action lists default to `[]`. A missing or empty sentiment becomes `casual`, and missing participants become `["chenmj"]`. When `actions` is missing, all four action lists are `[]`. When it is present, each of its lists is kept, even an empty one, and each missing list is `[]`. A missing or empty snapshot becomes `""`, and a present one is kept. Present fields are kept. |
| `IndexRecords.GeneratedSentimentsNonEmpty` | conversation-memory-indexer/index.js:34 | Every built topic has a non-empty sentiment. |
| `IndexRecords.CountSentiment` | conversation-memory-indexer/index.js:48-49 | A sentiment count never exceeds the number of topics. |
| `IndexRecords.GeneratedStats` | conversation-memory-indexer/index.js:46-51 | The total is the topic count. The problem-solving and architecture-design counts together are at most the total, and each equals the number of built topics with that sentiment. |
| `IndexRecords.DisjointSentimentCounts` | conversation-memory-indexer/index.js:48-49 | No topic is counted for both statistics. |
| `IndexRecords.BuiltSentimentCount` | conversation-memory-indexer/index.js:34 | Defaulting does not change the count of any non-empty sentiment other than `casual`. |
| `IndexSearch.MatchCountPositiveIff` | conversation-memory-indexer/index.js:106-113 | The number of matching items is positive exactly when some item matches. When all match, it is the length. |
| `IndexSearch.CalculateMatchScore` | conversation-memory-indexer/index.js:98-116 | The loops compute the score: 10 for a title match, plus 8 per matching keyword and 6 per matching decision. |
| `IndexSearch.ScorePositiveIff` | conversation-memory-indexer/index.js:98-116 | The score is positive exactly when the title, some keyword or some decision contains the lower-cased query. |
| `IndexSearch.ScoreBounds` | conversation-memory-indexer/index.js:98-116 | The score is at most the all-match total. It is at least the title weight when the title matches. |
| `IndexSearch.EmptyQueryMatchesEverything` | conversation-memory-indexer/index.js:99-113 | An empty (lower-cased) query scores every title, keyword and decision. |
| `IndexSearch.JsonFiles` | conversation-memory-indexer/index.js:68 | A listed entry is kept exactly when its name ends in `.json`. |
| `IndexSearch.DateOfIndexFile` | conversation-memory-indexer/index.js:71 | Removing `.json` from `<date>.json` gives back the date. |
| `IndexSearch.TopicHitsMembers` | conversation-memory-indexer/index.js:78-89 | A hit is produced exactly for a topic whose score is positive, and it carries that score. |
| `IndexSearch.FileHitsMembers` | conversation-memory-indexer/index.js:70-89 | A file yields exactly the hits of its topics, or none when it is before the cutoff. |
| `IndexSearch.CollectedMembers` | conversation-memory-indexer/index.js:70-90 | The collected hits are exactly the hits of some listed file. |
| `IndexSearch.CollectedRelevant` | conversation-memory-indexer/index.js:80 | Every collected hit has a positive relevance. |
| `IndexSearch.InsertPermutes` | conversation-memory-indexer/index.js:92 | Insertion adds exactly the inserted hit. |
| `IndexSearch.InsertDescending` | conversation-memory-indexer/index.js:92 | Insertion keeps the order by descending relevance. |
| `IndexSearch.InsertStable` | conversation-memory-indexer/index.js:92 | Insertion puts a hit after every hit of equal relevance. |
| `IndexSearch.SortDescending` | conversation-memory-indexer/index.js:92 | The sorted hits are in descending relevance. |
| `IndexSearch.SortPermutes` | conversation-memory-indexer/index.js:92 | The sorted hits are a permutation of the input. |
| `IndexSearch.SortStable` | conversation-memory-indexer/index.js:92 | Hits of equal relevance keep their input order (JavaScript's sort is stable). |
| `IndexSearch.SortByRelevanceCorrect` | conversation-memory-indexer/index.js:92 | The sort is descending, a permutation, and stable. |
| `IndexSearch.ScoreTopics` | conversation-memory-indexer/index.js:78-89 | The inner loop produces the hits of one index's topics, in topic order. |
| `IndexSearch.SearchIndex` | conversation-memory-indexer/index.js:63-93 | The loops compute the collected hits, sorted by relevance. |
| `IndexSearch.SearchResultsCorrect` | conversation-memory-indexer/index.js:63-93 | A hit is in the results exactly when some `.json` entry yields it. Every result is relevant, and the results are sorted descending. They are a permutation of the collected hits, and ties keep collection order. |
| `IndexSearch.MatchSentiment` | conversation-memory-indexer/index.js:136-144 | The inner loop lists one index's topics with that exact sentiment, in topic order. |
| `IndexSearch.SearchBySentiment` | conversation-memory-indexer/index.js:121-148 | The loops compute the sentiment hits of the files on or after the cutoff, unsorted. |
| `IndexSearch.SentimentTopicHitsMembers` | conversation-memory-indexer/index.js:136-144 | A hit is listed exactly for a topic with that exact sentiment. |
| `IndexSearch.SentimentResultsMembers` | conversation-memory-indexer/index.js:128-145 | The results are exactly the matching topics of files not before the cutoff. Each carries its index's date. |
| `IndexSearch.SentimentHitsCount` | conversation-memory-indexer/index.js:136-144 | The number of sentiment hits in an index is the number of its topics with that sentiment. |
| `IndexSearch.SentimentSearchMatchesStats` | conversation-memory-indexer/index.js:46-49 | On a generated index, searching by `problem-solving` or `architecture-design` finds as many topics as the statistics record. |

## Left out

- File and console I/O is not modelled:
  - the index directory creation, `readdirSync`, `readFileSync` and `writeFileSync`;
  - `console.log` and the command-line handling of both tools;
  - `load_config` and its file lookup.
- The directory listing and file contents are the parameters `entries` and `read`.
- A file that fails to parse is not modelled. Neither is a stored index whose topics lack `keywords` or `decisions`, or a topic without a title: these throw in `calculateMatchScore`. Stored topics are assumed to have every field.
- The regular-expression engine behind `MECHANICAL_PATTERNS` is not modelled. Detection takes the predicate `matches` instead.
- The substitutions `re.sub(r"首先，", …)` and the others are modelled as literal replacements, since their patterns contain no metacharacters.
- `random.random()` and `random.choice` are not modelled. The oracle `Draw` stands for the outcome of both at each segment position.
- The texts of `DOMAIN_PROMPTS` are not modelled, only their keys. The heavy pass reads nothing else.
- `customReplacements` and `preservePatterns` are stored by the constructor but never used by any operation, so no behaviour depends on them.
- `Date` construction and comparison are not modelled; the predicate `beforeCutoff` on the file's date string stands for them. An unparseable date makes `new Date` invalid, and the comparison is then false, so the file is kept; `beforeCutoff` can express that.
- `toLowerCase` is not modelled. It is the parameter `lower`.
- IndexSearch.CalculateMatchScore: relevance is counted in exact integer tenths, not as JavaScript floating-point sums of 1.0, 0.8 and 0.6. Rounding in the source can make two mathematically equal scores differ slightly, so their order after sorting may differ from the model's.
- A raw topic without a title is not modelled: `generateIndex` would copy the missing title into the record, but every raw topic in the model carries a title string. A stored topic without a title makes `calculateMatchScore` throw, as noted above.
- The `Topic.timeRange` field is modelled as an `Option`. JSON serialisation drops an undefined value, and the model does not describe serialisation.
