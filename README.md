# DIRT path extraction and scoring, modelled in Dafny

This project models DIRT (Discovery of Inference Rules from Text) as the Hadoop driver
`DirtDriver` implements it, together with the evaluation script `evaluate_dirt.py`. The
model covers:

- the parse of a syntactic n-gram into tokens `word/POS/DEP/HEAD` and the token classes;
- the suffix-stripping stemmer;
- the breadth-first search for the shortest path between two nouns in the dependency graph,
  the validity test (a content verb on the path) and the rendering of the path as
  `N:<dep:V:verb:>dep:N`;
- the extraction of one line per noun pair;
- Job 1: the mapper emits seven records per extracted path; the combiner and reducer sum
  with 64-bit wrap-around and route each key to its named output by its prefix;
- `readTotalN`, the total count N;
- the composite `PathSlotKey` and its sort and grouping orders, a join by secondary sort;
- Job 2: the mapper shapes records and the reducer computes mutual information;
- Job 3: the mapper holds the test-set adjacency and the reducer computes the per-slot
  feature overlap;
- from the evaluation script: phrase-to-path conversion, pair normalisation, the score map,
  the optimal-threshold sweep, the precision/recall curve and the error-analysis bucketing.

Modules, one per file:

| module | what it holds |
|---|---|
| `Wrappers` | `Option`, standing for `null` and for a call aborted by an exception |
| `Strings` | Java's `split`, `compareTo`, `toLowerCase` and `Long.parseLong`, and 64-bit wrap-around |
| `Tokens` | tokens and the stemmer |
| `SortKeys` | the composite key and its two orders |
| `TokenParser` | `parse` |
| `DepGraph` | the breadth-first search, over an `array` of predecessors |
| `PathRender` | `isValid` and `buildPath` |
| `Extraction` | `extractPaths` |
| `Job1`, `Job2`, `Job3` | the three jobs |
| `Evaluate` | the evaluation script |

Imperative source code stays imperative in the model:

- loops are methods with invariants;
- the Job 3 mapper, whose `loadTestSet` fills a field, is a class;
- each method is proved against a specification function, and the properties are proved
  about that function.

Parameters stand in for these external pieces:

- Java's `Double.parseDouble` and the logarithm in the scores (`parseDouble`, `score`);
- the stemmer used by the evaluation script (`stem`);
- the iteration order of Python sets (`posOrder`, `negOrder`).

Reals stand in for doubles.

## Model

| member | source | states |
|---|---|---|
| Strings.ToLowerIsLower | src/main/java/com/dirt/DirtDriver.java:78 | a lower-cased string holds no upper-case letter |
| Strings.CompareZeroIff | src/main/java/com/dirt/DirtDriver.java:55-61 | `compareTo` is 0 exactly when the two strings are equal |
| Strings.CompareAntisymmetric | src/main/java/com/dirt/DirtDriver.java:55-61 | swapping the operands of `compareTo` negates the result |
| Strings.CompareTransitive | src/main/java/com/dirt/DirtDriver.java:55-61 | `compareTo` order is transitive |
| Strings.SplitAny | src/main/java/com/dirt/DirtDriver.java:179 | splitting yields at least one field, and no field holds a separator |
| Strings.JoinSplit | src/main/java/com/dirt/DirtDriver.java:179 | joining the fields of a split with its separator gives back the string |
| Strings.SplitJoin | src/main/java/com/dirt/DirtDriver.java:194-205 | splitting a join of separator-free fields gives back the fields |
| Strings.JavaSplitJoin | src/main/java/com/dirt/DirtDriver.java:179 | `String.split`, which drops trailing empty fields, returns the separator-free non-empty fields that were joined |
| Strings.DropTrailingEmpty | src/main/java/com/dirt/DirtDriver.java:179 | the result is a prefix of the fields that does not end in an empty field, and every field it drops is empty |
| Strings.PySplit | analysis/evaluate_dirt.py:17 | Python's `split()` yields non-empty fields free of whitespace |
| Strings.PySplitRuns | analysis/evaluate_dirt.py:17 | the fields are the maximal runs of non-whitespace, in order: leading whitespace is skipped, a non-whitespace character joins the run that follows it, and the empty string has no fields |
| Strings.ParseBounded | src/main/java/com/dirt/DirtDriver.java:184-189 | a parsed number lies within the type's bounds |
| Strings.ParseRejectsNonDigit | src/main/java/com/dirt/DirtDriver.java:184-189 | a string with a character that is neither a digit nor a leading sign does not parse |
| Strings.NatToStringValue | src/main/java/com/dirt/DirtDriver.java:194-205 | the printed digits of a number denote that number |
| Strings.ParseLongToString | src/main/java/com/dirt/DirtDriver.java:591-594 | `Long.parseLong` reads back every printed `long` |
| Strings.Wrap64 | src/main/java/com/dirt/DirtDriver.java:237-242 | a `long` sum always lies within the 64-bit range |
| Strings.WrapAdd | src/main/java/com/dirt/DirtDriver.java:237-242 | adding to a wrapped sum wraps like adding to the exact sum |
| Tokens.TokenClassesExclusive | src/main/java/com/dirt/DirtDriver.java:34-36 | no token is both a noun and a verb, and a preposition is neither |
| Tokens.StemLowerAndNoLonger | src/main/java/com/dirt/DirtDriver.java:75-87 | a stem is lower-case and no longer than its word |
| Tokens.StemAvoids | src/main/java/com/dirt/DirtDriver.java:75-87 | the stem introduces no character that is absent from the word, such as a tab |
| Tokens.StemShortWord | src/main/java/com/dirt/DirtDriver.java:78-79 | words of at most two characters are only lower-cased |
| Tokens.StemKeepsDoubleS | src/main/java/com/dirt/DirtDriver.java:82 | a word ending in "ss" but not in "sses" is only lower-cased |
| Tokens.StemSsesBeforeS | src/main/java/com/dirt/DirtDriver.java:80-82 | "sses" loses two characters, so the first matching rule wins |
| Tokens.StemFlies | src/main/java/com/dirt/DirtDriver.java:81 | the "ies" rule yields "flii" for "flies" |
| Tokens.StemNotIdempotent | src/main/java/com/dirt/DirtDriver.java:82-83 | stemming twice differs from stemming once ("sings" gives "sing", then "s") |
| SortKeys.CompareKeysZeroIff | src/main/java/com/dirt/DirtDriver.java:55-61 | the key order returns 0 exactly for equal keys |
| SortKeys.GroupCompareZeroIff | src/main/java/com/dirt/DirtDriver.java:64-73 | the grouping order returns 0 exactly when path and slot agree |
| SortKeys.MarginSortsFirst | src/main/java/com/dirt/DirtDriver.java:55-73 | the margin key sorts before the triple key of its group and groups with it |
| SortKeys.SortRefinesGrouping | src/main/java/com/dirt/DirtDriver.java:55-73 | the sort order agrees with the grouping order across groups and orders by type within one |
| SortKeys.CompareKeysAntisymmetric | src/main/java/com/dirt/DirtDriver.java:55-61 | keys ordered both ways are equal |
| SortKeys.CompareKeysTransitive | src/main/java/com/dirt/DirtDriver.java:55-61 | the key order is transitive |
| SortKeys.GroupsContiguous | src/main/java/com/dirt/DirtDriver.java:64-73 | in sorted keys, a key between two keys of one group belongs to that group |
| SortKeys.MarginsLeadTheirGroup | src/main/java/com/dirt/DirtDriver.java:55-73 | in sorted keys, any key before a margin key of the same group is a margin key |
| TokenParser.LastIndexSpec | src/main/java/com/dirt/DirtDriver.java:217-221 | `lastIndexOf` finds the last occurrence before the bound, or -1 when there is none |
| TokenParser.LastSlashes | src/main/java/com/dirt/DirtDriver.java:217-222 | the three slashes found lie in increasing order inside the token |
| TokenParser.ParseTokenSound | src/main/java/com/dirt/DirtDriver.java:216-231 | every parsed token is its word, POS, DEP and numeric head joined by slashes, with slash-free POS, DEP and head |
| TokenParser.ParseTokenComplete | src/main/java/com/dirt/DirtDriver.java:216-231 | every string so shaped parses to exactly that token |
| TokenParser.KeptHasThreeSlashes | src/main/java/com/dirt/DirtDriver.java:217-222 | a token that parses has at least three slashes |
| TokenParser.FilterMapKeepsOrder | src/main/java/com/dirt/DirtDriver.java:214-232 | the parsed tokens are those of the pieces that parse, in input order, and none is lost |
| TokenParser.ParsePiece | src/main/java/com/dirt/DirtDriver.java:216-231 | the loop body for one piece computes the token specification |
| TokenParser.Parse | src/main/java/com/dirt/DirtDriver.java:212-234 | `parse` returns the parsed tokens of the space-separated pieces |
| DepGraph.Reversed | src/main/java/com/dirt/DirtDriver.java:165 | `Collections.reverse` mirrors the walk |
| DepGraph.Adjacency | src/main/java/com/dirt/DirtDriver.java:150-155 | the adjacency lists hold exactly the head links, in both directions |
| DepGraph.Visit | src/main/java/com/dirt/DirtDriver.java:160 | visiting a neighbour keeps the search invariant: a tree of shortest distances, a level-ordered queue, closed nodes |
| DepGraph.VisitNeighbour | src/main/java/com/dirt/DirtDriver.java:160 | one neighbour step marks the neighbour visited and enqueues it only when it was new |
| DepGraph.Expand | src/main/java/com/dirt/DirtDriver.java:159-160 | expanding a node visits all its neighbours and keeps the search invariant |
| DepGraph.UnvisitedShrinks | src/main/java/com/dirt/DirtDriver.java:157-161 | the search terminates: each enqueue visits a new node |
| DepGraph.WalkBack | src/main/java/com/dirt/DirtDriver.java:163-164 | following predecessors from the target reaches the source in `dist` steps along edges |
| DepGraph.Unreachable | src/main/java/com/dirt/DirtDriver.java:162 | a target left unvisited has no path from the source |
| DepGraph.NoShorterWalk | src/main/java/com/dirt/DirtDriver.java:156-161 | no walk to a visited node is shorter than its distance |
| DepGraph.ReadBackShortest | src/main/java/com/dirt/DirtDriver.java:163-166 | the reversed walk back is a shortest path |
| DepGraph.ReadPath | src/main/java/com/dirt/DirtDriver.java:163-166 | reading the path back yields a shortest path |
| DepGraph.ShortestPath | src/main/java/com/dirt/DirtDriver.java:148-167 | `null` exactly when the target is unreachable; otherwise a shortest path from source to target |
| PathRender.IsValid | src/main/java/com/dirt/DirtDriver.java:120-126 | true exactly when some node of the path is a verb whose lower-cased word is not in `AUX` |
| PathRender.RenderNext | src/main/java/com/dirt/DirtDriver.java:130-144 | each loop round appends the next segment and, before the last node, its relation |
| PathRender.BuildPath | src/main/java/com/dirt/DirtDriver.java:128-146 | `buildPath` renders the path |
| PathRender.RelDirection | src/main/java/com/dirt/DirtDriver.java:141 | a relation points up (`<dep`) exactly when the next node is the head, and names the lower node's dependency |
| PathRender.WeaveSuffix | src/main/java/com/dirt/DirtDriver.java:130-144 | the first k rounds followed by the interleaving of the rest are the whole interleaving |
| PathRender.RenderIsInterleaving | src/main/java/com/dirt/DirtDriver.java:128-146 | the rendering alternates the segments and the relations, separated by colons |
| PathRender.RenderEnds | src/main/java/com/dirt/DirtDriver.java:131-133 | a rendered path starts with `N:` and ends with `:N` |
| PathRender.RenderAvoids | src/main/java/com/dirt/DirtDriver.java:128-146 | a character absent from every word, POS and DEP, such as a tab, is absent from the rendering |
| Extraction.NounIndices | src/main/java/com/dirt/DirtDriver.java:99-102 | the noun positions, increasing |
| Extraction.NounIndicesComplete | src/main/java/com/dirt/DirtDriver.java:99-102 | every noun's position is listed |
| Extraction.Nouns | src/main/java/com/dirt/DirtDriver.java:99-102 | the loop collects the noun positions |
| Extraction.ShortestOnPath | src/main/java/com/dirt/DirtDriver.java:108-110 | a shortest path stays inside the sentence and is non-empty |
| Extraction.ExtractPair | src/main/java/com/dirt/DirtDriver.java:106-114 | a pair yields a line `path\tstemX\tstemY` from a valid shortest path, or no line when it has no path or no valid one |
| Extraction.ExtractFrom | src/main/java/com/dirt/DirtDriver.java:105-115 | the inner loop pairs one noun with every later noun, in order, and covers each pair |
| Extraction.PairCountClosed | src/main/java/com/dirt/DirtDriver.java:104-116 | the nested loops consider k(k-1)/2 pairs |
| Extraction.ExtractPaths | src/main/java/com/dirt/DirtDriver.java:97-118 | every line comes from a valid shortest path of a noun pair, pairs in lexicographic order; every pair either yields a line or has no valid path; at most k(k-1)/2 lines |
| Job1.CountOfPrinted | src/main/java/com/dirt/DirtDriver.java:184-189 | a printed count column reads back as itself |
| Job1.CountOfDefault | src/main/java/com/dirt/DirtDriver.java:184-189 | a count column that does not parse counts 1 |
| Job1.ParsedTabFree | src/main/java/com/dirt/DirtDriver.java:179-192 | tokens parsed from a tab-free text column hold no tab |
| Job1.LineFields | src/main/java/com/dirt/DirtDriver.java:194-196 | an extraction line splits into exactly path, stemX and stemY |
| Job1.EmitAccepted | src/main/java/com/dirt/DirtDriver.java:194-205 | an extracted line produces the seven records TRIPLE X, TRIPLE Y, SW_MARGIN X, SW_MARGIN Y, PS_MARGIN X, PS_MARGIN Y and GLOBAL, with count, count and so on, and GLOBAL 2*count |
| Job1.EmitAllSeven | src/main/java/com/dirt/DirtDriver.java:193-205 | the mapper emits seven records per extracted path |
| Job1.MapLine | src/main/java/com/dirt/DirtDriver.java:177-206 | a line of fewer than three columns or with no tokens emits nothing; otherwise the records are those of the extracted paths |
| Job1.SumValues | src/main/java/com/dirt/DirtDriver.java:239 | the loop computes the 64-bit wrapped sum |
| Job1.Combine | src/main/java/com/dirt/DirtDriver.java:237-242 | the combiner keeps the key and writes the wrapped sum |
| Job1.Reduce | src/main/java/com/dirt/DirtDriver.java:243-255 | the reducer writes the wrapped sum to the named output of the key's prefix, and nothing for any other key |
| Job1.RoutesByKind | src/main/java/com/dirt/DirtDriver.java:249-252 | every record key goes to the output of its kind |
| Job1.RouteEmitted | src/main/java/com/dirt/DirtDriver.java:194-205 | of the seven records, two go to triples, two to wordmargins, two to pathmargins and one to global |
| Job1.CombinerTransparent | src/main/java/com/dirt/DirtDriver.java:237-247 | summing partial sums from the combiners gives the reducer the same wrapped total as summing all values |
| Job1.ColumnOf | src/main/java/com/dirt/DirtDriver.java:593 | a column that is read is a `long` |
| Job1.TotalN | src/main/java/com/dirt/DirtDriver.java:582-600 | N is the wrapped sum of the second columns, 1 in place of 0, and a parse failure throws |
| Job1.CountsNone | src/main/java/com/dirt/DirtDriver.java:593 | one unreadable count column makes the whole read fail |
| Job1.CountsOfGlobal | src/main/java/com/dirt/DirtDriver.java:246-252 | reading back the global output lines yields the sums that were written |
| Job2.ShapeMargin | src/main/java/com/dirt/DirtDriver.java:289-292 | a Job 1 path-margin line becomes a margin record of its path and slot carrying the sum |
| Job2.ShapeTriple | src/main/java/com/dirt/DirtDriver.java:293-297 | a Job 1 triple line becomes a triple record with the word, sum and word margin when that margin is known, and is dropped otherwise |
| Job2.MiReduce | src/main/java/com/dirt/DirtDriver.java:301-326 | the reducer reads the first value as the margin count and scores the remaining values |
| Job2.ScoredLines | src/main/java/com/dirt/DirtDriver.java:321-322 | each output line names the group's path and slot and has a score above 0.001, at most one per value |
| Job2.TripleFirstFails | src/main/java/com/dirt/DirtDriver.java:305-308 | a group whose first value is a triple fails, because the margin is not checked for |
| Job2.MarginFirst | src/main/java/com/dirt/DirtDriver.java:305-310 | with the margin count in front, the group is scored against that count |
| Job3.AppendCount | src/main/java/com/dirt/DirtDriver.java:369-370 | `computeIfAbsent(..).add` adds one occurrence of the pair and no other |
| Job3.LoadSymmetric | src/main/java/com/dirt/DirtDriver.java:366-371 | loading a line keeps the adjacency symmetric |
| Job3.LoadExtends | src/main/java/com/dirt/DirtDriver.java:366-371 | loading never removes a neighbour |
| Job3.LoadedHasPair | src/main/java/com/dirt/DirtDriver.java:363-374 | each test pair lists each path under the other |
| Job3.PairKeySymmetric | src/main/java/com/dirt/DirtDriver.java:383-385 | both sides of a pair emit the same key |
| Job3.PairKeySplits | src/main/java/com/dirt/DirtDriver.java:383-393 | the reducer splits the key back into the two paths, smaller first |
| Job3.OverlapMapper.constructor | src/main/java/com/dirt/DirtDriver.java:349 | the adjacency starts empty |
| Job3.OverlapMapper.LoadTestSet | src/main/java/com/dirt/DirtDriver.java:363-374 | the adjacency becomes the old one with every line loaded, and stays symmetric |
| Job3.OverlapMapper.Map | src/main/java/com/dirt/DirtDriver.java:376-388 | a test path's line goes, unchanged, to the pair key of each of its pairs, in list order; other lines emit nothing |
| Job3.BothSidesMeet | src/main/java/com/dirt/DirtDriver.java:366-388 | in a symmetric adjacency both paths of a pair reach the same reducer key |
| Job3.SharedSumRemove | src/main/java/com/dirt/DirtDriver.java:404-411 | one feature's contribution to the overlap sum is its two scores when shared and on the side, and nothing otherwise |
| Job3.SharedSumZero | src/main/java/com/dirt/DirtDriver.java:404-411 | features that are not shared or not on the side contribute nothing |
| Job3.Reduce | src/main/java/com/dirt/DirtDriver.java:390-414 | `(numX, numY)` sums the scores of the shared features per slot, or fails on a malformed key or value |
| Job3.SamePathScoresZero | src/main/java/com/dirt/DirtDriver.java:396-403 | a key pairing a path with itself scores zero, since every record lands in the first map |
| Job3.DisjointScoresZero | src/main/java/com/dirt/DirtDriver.java:404-411 | paths sharing no feature score zero |
| Job3.FeatureEndsLower | src/main/java/com/dirt/DirtDriver.java:408-409 | a feature `slot:word` with a stemmed word ends in a lower-case character |
| Job3.AsWrittenNoSide | src/main/java/com/dirt/DirtDriver.java:408-409 | as written, a feature that ends lower is on neither side |
| Job3.AsWrittenScoresNothing | src/main/java/com/dirt/DirtDriver.java:404-411 | as written, the overlap is zero on both sides whatever the features share |
| Job3.IntendedSide | src/main/java/com/dirt/DirtDriver.java:408-409 | the intended test puts `slot:word` on the side its slot names |
| Job3.SharedXFeature | src/main/java/com/dirt/DirtDriver.java:404-411 | for a shared `X:dog` the overlap is 0 as written and the sum of both scores as intended |
| Evaluate.DropXY | analysis/evaluate_dirt.py:17 | removing the slot letters leaves no X or Y |
| Evaluate.SlotLetterIgnored | analysis/evaluate_dirt.py:17 | inserting a slot letter anywhere leaves the path unchanged |
| Evaluate.ConvertIdempotentInput | analysis/evaluate_dirt.py:17 | the conversion ignores X and Y however they appear |
| Evaluate.ActiveMatchesRender | analysis/evaluate_dirt.py:23-26 | the active template is what `buildPath` renders for subject, verb, object |
| Evaluate.PrepMatchesRender | analysis/evaluate_dirt.py:28-32 | the prepositional template is what `buildPath` renders for subject, verb, preposition, object |
| Evaluate.PassiveMatchesRender | analysis/evaluate_dirt.py:34-36 | the passive template is what `buildPath` renders for passive subject, verb, "by", object |
| Evaluate.ConvertActive | analysis/evaluate_dirt.py:16-25 | for any stemmer the script uses, a one-word phrase whose verb it stems to the extractor's stem of the clause's verb converts to exactly the path `buildPath` renders for subject, verb, object |
| Evaluate.ConvertPrep | analysis/evaluate_dirt.py:16-31 | for any stemmer the script uses, a verb-and-preposition phrase whose verb it stems to the extractor's stem converts to exactly the path `buildPath` renders for subject, verb, that preposition, object |
| Evaluate.ConvertPassive | analysis/evaluate_dirt.py:16-36 | for any stemmer the script uses, a verb-and-"by" phrase whose verb it stems to the extractor's stem converts to exactly the path `buildPath` renders for passive subject, verb, agent "by", object |
| Evaluate.NormalizePairSorted | analysis/evaluate_dirt.py:40-42 | the pair is ordered, holds the same two paths and does not depend on argument order |
| Evaluate.ScoreMapMax | analysis/evaluate_dirt.py:92-101 | the score map holds exactly the listed pairs, each with a score listed for it and no smaller than any listed for it |
| Evaluate.GetScoreMap | analysis/evaluate_dirt.py:92-101 | the loop computes the score map, which holds exactly the listed pairs, each with the largest score listed for it |
| Evaluate.TallyPartition | analysis/evaluate_dirt.py:112-117 | true and false positives together count the labelled pairs |
| Evaluate.RatioBounds | analysis/evaluate_dirt.py:120 | precision lies between 0 and 1, its true positives being counted among the true and false positives |
| Evaluate.RecallCountsEntries | analysis/evaluate_dirt.py:112-121 | recall counts output entries, not distinct pairs: a gold positive listed twice gives recall 2 |
| Evaluate.F1NonNegative | analysis/evaluate_dirt.py:122 | F1 is never negative |
| Evaluate.ScoreCounts | analysis/evaluate_dirt.py:120-122 | the loop body computes the F1 of the counts, and it is non-negative |
| Evaluate.FindOptimalThreshold | analysis/evaluate_dirt.py:103-134 | 0 when no pair is labelled; otherwise the score of the first labelled pair with the greatest F1 |
| Evaluate.CurveShape | analysis/evaluate_dirt.py:136-154 | one curve point per labelled pair, each precision between 0 and 1 |
| Evaluate.PrCurve | analysis/evaluate_dirt.py:136-154 | the loop builds the recalls and precisions of the curve |
| Evaluate.PositivesMembers | analysis/evaluate_dirt.py:172-179 | the candidate hits (misses) are exactly the output entries of gold positives at or above (below) the threshold |
| Evaluate.AlarmsMembers | analysis/evaluate_dirt.py:172-176 | a candidate false alarm is an output entry of a gold negative at or above the threshold, and every such entry that the hit branch passes over (not a gold positive, or five hits already) is one |
| Evaluate.UnscoredMembers | analysis/evaluate_dirt.py:185-189 | the top-up candidates are exactly the gold positives the map lacks, with score 0 |
| Evaluate.QuietMembers | analysis/evaluate_dirt.py:193-198 | the true-negative candidates are exactly the gold negatives whose `score_map.get(n, 0.0)` is below the threshold, with that score |
| Evaluate.FullStays | analysis/evaluate_dirt.py:181-182 | once all three lists hold five, the rest of the output adds nothing to any of them, so the early exit loses no example |
| Evaluate.FillDone | analysis/evaluate_dirt.py:186-187 | once five misses are listed, the remaining positives add nothing |
| Evaluate.RankedExamples | analysis/evaluate_dirt.py:171-182 | the true positives, false positives and false negatives are the first five (or all) of their candidates in output order, a positive at or above the threshold going to the hits while they have room |
| Evaluate.MissingPositives | analysis/evaluate_dirt.py:185-189 | the misses are left alone when five are listed, and otherwise followed by the first unscored positives, in iteration order, that still fit |
| Evaluate.TrueNegatives | analysis/evaluate_dirt.py:193-198 | the true negatives are the first five (or all) gold negatives, in iteration order, whose score is below the threshold |
| Evaluate.ErrorAnalysis | analysis/evaluate_dirt.py:156-198 | the four lists are exactly `Examples`, given iteration orders that visit each gold pair once |
| Evaluate.ExamplesSound | analysis/evaluate_dirt.py:156-198 | each list holds at most five, each entry is of its kind by label and threshold, and a true negative carries the pair's highest listed score or 0 |
| Evaluate.ExamplesComplete | analysis/evaluate_dirt.py:156-198 | a list holding fewer than five skipped nothing: it holds every entry that qualified for it |

## Left out

- Hadoop plumbing is not modelled: job configuration, the output files, the task `setup` that
  reads the word margins and the test set from the cache, and `mos.close`. The word margins
  and test-set lines are parameters.
- `DirtDriver.main` and the jobs that only rank results (Job 2.5 and Job 4) are not part of
  this model.
- Doubles are not modelled bit-for-bit. Scores are reals, and `Double.parseDouble` and the
  logarithm of the MI formula are parameters, so rounding and NaN are not captured.
- `FileSystem` I/O in `readTotalN` is not modelled. The model takes the lines of the matching
  files in listing order.
- Java's `String.compareTo` and Hadoop's `Text.compareTo` are both modelled as comparing
  characters. `Text` actually compares UTF-8 bytes, which differs only outside the Basic
  Multilingual Plane.
- A `null` token field in `isNoun`, `isVerb` and `stem` is not modelled, because `parse`
  never produces one.
- Evaluate.ConvertPhraseToPath: the NLTK stemmer is a parameter `stem`, and the Porter rules
  are not modelled. Python's `strip()` before `split()` changes nothing and is omitted.
- Evaluate.ErrorAnalysis: Python set iteration order is arbitrary, so the model takes it as
  the parameters `posOrder` and `negOrder`. The printing of the four buckets is not modelled.
- Evaluate.FindOptimalThreshold: `find_optimal_threshold` returns only the threshold. The best
  F1, precision and recall that it prints are display and are not modelled.
- Evaluate.RatioBounds: bounds precision only. Recall counts output entries, so it exceeds 1
  when a gold positive is listed more than once (`RecallCountsEntries`).
- `load_ground_truth`, `load_system_output`, `main` and the plotting of the evaluation
  script are file I/O and display, and are not modelled. The system output is a sequence of
  (pair, score) entries in file order.
- Job2.MiReduce: a `NumberFormatException` in the source aborts the task. The model returns `None` instead.
- Strings.ToLower: only the ASCII letters `A`-`Z` are lowered. Java's `toLowerCase` uses the
  default locale and all of Unicode, and can change the string's length, so the model is
  exact only for ASCII words and the stemmer, `isValid` and `buildPath` inherit this.
- Strings.ParseBounded: only the ASCII digits `0`-`9` are accepted. `Long.parseLong` and
  `Integer.parseInt` also accept the decimal digits of other scripts.

Where the code and its design description disagree, the model follows the code:

- The stemmer is the suffix stripper (a short-word rule and five suffix rules) of `DirtDriver.java:75-87`, not the Porter
  algorithm. It is not idempotent, and it turns "flies" into "flii".
- `readTotalN` returns 1 for an empty total and propagates a `NumberFormatException`.
- Job 3 compares features with `endsWith(":X")` (see Findings).
- Job 3's `loadTestSet` (`DirtDriver.java:363-374`) keys the adjacency by the raw test-set
  strings as they stand in the file; it converts no phrases.
- An empty adjacency is not an error: the Job 3 mapper then emits nothing.

## Findings

| source | as written | input that shows it | evidently intended | confidence | as-written member | corrected member |
|---|---|---|---|---|---|---|
| src/main/java/com/dirt/DirtDriver.java:408-409 | the side of a feature `slot:word` is decided by `feat.endsWith(":X")` / `endsWith(":Y")`; features are written slot first and words are stemmed to lower case, so no feature ever matches and `numX` and `numY` are always 0 | two paths sharing the feature `X:dog` with scores 1.0 and 2.0: as written both sums stay 0 | test the slot prefix (`startsWith("X:")` / `startsWith("Y:")`), so the shared X feature adds 3.0 to `numX` | not executed | Job3.AsWrittenScoresNothing | Job3.IntendedSide |
