# Soteria / Cyber Sentinel: the decision logic, in Dafny

Soteria (also called Cyber Sentinel in places) is a code-security scanner. It has three parts:
- a React front end;
- a Flask backend that scans pasted code for dangerous patterns;
- an ML middleware that classifies code by the shape of its syntax tree.

Around them sit a few dataset scripts that build the classifier's training data. This project models the small, deterministic rules under the glue as pure Dafny functions over sequences, strings and maps. It proves what those rules promise.

| file | module | models |
|---|---|---|
| `wrappers.dfy` | `Wrappers` | `Option` |
| `strings.dfy` | `Strings` | string helpers: `startswith`/`endswith`, `in`, `lower`, `strip`, `split`/`join`, decimal text |
| `seqs.dfy` | `Seqs` | sequence helpers: `slice(0, n)`, order-keeping `filter`, `map`, duplicate-freedom |
| `language_detector.dfy` | `LanguageDetector` | extension lookup, signature scoring, tie-break, confidence |
| `ansi.dfy` | `Ansi` | the terminal's ANSI colour segmenter `parseAnsi` |
| `training_stream.dfy` | `TrainingStream` | the neural-engine page's `startTraining` stream consumer |
| `scanner.dfy` | `Scanner` | the scanner page: `analyzeCode`, history store, typewriter reveal |
| `knowledge_graph.dfy` | `KnowledgeGraph` | `buildGraphFromHistory` and the page's counters |
| `batch_scanner.dfy` | `BatchScanner` | the batch page: file filter, merge, removal, scan state machine, token drop |
| `game.dfy` | `Game` | the XP level ladder, `addXp`, roast-mode switch, stored state |
| `code_editor.dfy` | `CodeEditor` | vulnerability markers, editor change, active-line jump |
| `middleware.dfy` | `Middleware` | `/analyze` of the ML middleware: keyword net, risk hierarchy, model reload, reindexing |
| `backend_app.dfy` | `BackendApp` | the backend's pattern scan, `/analyze`, roast key, auth guards, signup, `/scan-repo` |
| `backend_example.dfy` | `BackendExample` | the reference backend's `/analyze` |
| `treesitter.dfy` | `Treesitter` | `parse_code`, the node census, normalised feature map |
| `normalizer.dfy` | `Normalizer` | the identifier normaliser `codeNormalizer` |
| `data_pipeline.dfy` | `DataPipeline` | the dataset builder: function rows, hash dedup, fence stripping |
| `ingest.dfy` | `Ingest` | `ingest_data`: preference rows into labelled pairs |
| `logos.dfy` | `Logos` | the per-pixel logo transform |

Everything the code reaches outside itself is a parameter of the model. This covers:
- regular-expression matches: match counts, or predicates such as `sqlFString`;
- the Python parser, `ast.unparse` and SHA-256: `parse`, `render` and `hash`;
- the classifier's probability: `maliciousProb`;
- clocks: `stamp`, `time` and `id`;
- the LLM's answer: `llm`;
- browser storage: a `map<string, …>`;
- JWT decoding and the user table: `decode` and `users`;
- the file-system walk of a cloned repository: `walk`.

Every network answer is a datatype of its possible outcomes: thrown, non-OK status, or answer.

## Model

| member | source | states |
|---|---|---|
| `LanguageDetector.SupportedLanguages` | backend/src/language_detector.py:186-188 | exactly ten languages, pairwise distinct, every language among them |
| `LanguageDetector.EveryLanguageMapped` | backend/src/language_detector.py:107-118 | every language has an entry in the tree-sitter language map |
| `LanguageDetector.ScoreZeroIffNoMatch` | backend/src/language_detector.py:139-144 | a language scores 0 iff none of its patterns matches; scores are sums of count × positive weight |
| `LanguageDetector.Scores` | backend/src/language_detector.py:137-144 | one score per language in table order, each the weighted match sum of that language's signatures |
| `LanguageDetector.FirstMax` | backend/src/language_detector.py:149 | `max(scores, key=scores.get)`: a maximal score, and every earlier position strictly smaller (ties go to table order) |
| `LanguageDetector.DetectFromExtension` | backend/src/language_detector.py:158-183 | `None` iff the lower-cased name ends in none of the 16 suffixes; otherwise the language of a suffix it ends with |
| `LanguageDetector.FirstSuffix` | backend/src/language_detector.py:179-183 | the first table entry whose suffix ends the name, none iff no entry does |
| `LanguageDetector.ExtensionsSuffixFree` | backend/src/language_detector.py:160-177 | no listed suffix ends with another, so the lookup's order cannot change its answer |
| `LanguageDetector.DetectLanguage` | backend/src/language_detector.py:121-155 | a known extension gives that language with confidence 1.0 whatever the code; all-zero scores give (python, 0.0); otherwise the earliest best-scoring language with confidence in (0, 1], exactly `score/50` below 50 and 1 from 50 on |
| `LanguageDetector.ExtensionPrecedence` | backend/src/test_language_detector.py:38-43 | `test.py` is Python with confidence 1.0 whatever the content |
| `LanguageDetector.MixedCaseExtension` | backend/src/language_detector.py:180 | `Main.java` is Java with confidence 1.0: the name is lower-cased before the lookup |
| `LanguageDetector.NoMatchDefaultsToPython` | backend/src/test_language_detector.py:45-54 | code on which no pattern matches, with no file name, is (python, 0.0) |
| `Ansi.Scan` | frontend/src/components/TrainingTerminal.tsx:15-37 | the scanning loop only ever emits parts with non-empty text |
| `Ansi.ParseAnsi` | frontend/src/components/TrainingTerminal.tsx:8-40 | never empty; with no visible character it is the whole text in `text-slate-300`; otherwise its parts, read character by character, are exactly the visible characters in order, each in the class set by the last sequence before it (reference `Painted`) |
| `Ansi.ScanPaints` | frontend/src/components/TrainingTerminal.tsx:15-37 | the loop's output equals the parts so far followed by the reference painting of the rest of the text |
| `Ansi.ConcatenatedTextIsStripped` | frontend/src/components/TrainingTerminal.tsx:15-37 | when some visible text remains, concatenating the parts' texts gives the input with every `ESC[<digits;>m` removed, in order |
| `Ansi.RedThenReset` | frontend/src/components/TrainingTerminal.tsx:22-23 | `ESC[1;31mfail ESC[0m ok` gives `fail` in red and ` ok` back in the default class |
| `Ansi.UnknownCodeKeepsClass` | frontend/src/components/TrainingTerminal.tsx:22-29 | code `4` changes no class: both pieces stay in `text-slate-300` |
| `TrainingStream.FrameOfLine` | frontend/src/pages/NeuralEngine.tsx:76-78 | a line carries a frame iff it starts with `data: `; the payload is the rest of the line; the end marker is exactly `data: [STREAM_END]` |
| `TrainingStream.ConsumeLines` | frontend/src/pages/NeuralEngine.tsx:75-92 | the line loop only appends to the log, at most one line per input line |
| `TrainingStream.ConsumeChunks` | frontend/src/pages/NeuralEngine.tsx:68-93 | the chunk loop only appends to the log |
| `TrainingStream.RenderAt` | frontend/src/pages/NeuralEngine.tsx:83-90 | each message becomes one line: green-wrapped for `[DONE]…`, red-wrapped for `[ERROR]…`, else prefixed with its own timestamp |
| `TrainingStream.LinesFollowFrames` | frontend/src/pages/NeuralEngine.tsx:75-92 | the line loop appends exactly the rendered messages before the first end marker, in order |
| `TrainingStream.LinesStopAtEnd` | frontend/src/pages/NeuralEngine.tsx:78-82 | the line loop stops iff some line is a `[STREAM_END]` frame |
| `TrainingStream.ChunksAreLines` | frontend/src/pages/NeuralEngine.tsx:68-75 | the chunk loop is the line loop over the lines of every chunk in turn, each chunk split on its own |
| `TrainingStream.StopIgnoresLaterChunks` | frontend/src/pages/NeuralEngine.tsx:78-82 | after `[STREAM_END]` no later chunk has any effect |
| `TrainingStream.LineAlignedChunks` | frontend/src/pages/NeuralEngine.tsx:72-73 | when every read but the last ends on a newline, chunking gives the same frames as the whole stream |
| `TrainingStream.SplitFrameIsMisread` | frontend/src/pages/NeuralEngine.tsx:72-73 | a frame cut across two reads loses its tail: only the head arrives as a message |
| `TrainingStream.WholeFrameIsRead` | frontend/src/pages/NeuralEngine.tsx:72-77 | a frame inside one read arrives whole |
| `TrainingStream.StartTraining` | frontend/src/pages/NeuralEngine.tsx:52-100 | the log restarts as the single `[INIT]` line and is only appended to; `isTraining` ends false on every path; each failure appends exactly one red `[ERROR] Training failed` line; `[STREAM_END]` ends with no extra line; a stream that simply ends appends nothing more |
| `Seqs.Take` | frontend/src/pages/Scanner.tsx:142 | `slice(0, n)`: a prefix, of length n when there are enough elements |
| `Scanner.Preview` | frontend/src/pages/Scanner.tsx:138 | the first 35 characters of the trimmed code followed by `...`, so at most 38 characters |
| `Scanner.VerdictOf` | frontend/src/pages/Scanner.tsx:131 | the verdict is `malicious` iff `data.malicious` is truthy |
| `Scanner.Prepend` | frontend/src/pages/Scanner.tsx:142 | the new item first, the rest a prefix of the old history, length at most 15 |
| `Scanner.Request` | frontend/src/pages/Scanner.tsx:118-151 | the loading state first; then on a thrown request the fixed offline error with the history unchanged, or on an answer the verdict (malicious iff the flag is truthy) with the server's reason, confidence and risk, and the item at the head of the history |
| `Scanner.AnalyzeAsWritten` | frontend/src/pages/Scanner.tsx:110-152 | blank code returns before loading, and the history stays unchanged; oversized non-blank code still goes to loading and the request; a failure keeps the history and ends on the offline error; an answer records the item at the head and shows verdict, reason, confidence and risk |
| `Scanner.Analyze` | frontend/src/pages/Scanner.tsx:111-117 | with the early return: oversized code shows only the size error and sends nothing; other code behaves as written |
| `Scanner.OversizeIsStillSent` | frontend/src/pages/Scanner.tsx:111-118 | as written, oversized code is sent and the error is overwritten by a clean verdict |
| `Scanner.LoadHistory` | frontend/src/pages/Scanner.tsx:66-69 | no stored history means an empty one |
| `Scanner.SaveHistory` | frontend/src/pages/Scanner.tsx:71-73 | the whole history is written under its key, nothing else changes |
| `Scanner.SaveThenLoad` | frontend/src/pages/Scanner.tsx:66-73 | a saved history is what the next page load starts with |
| `Scanner.ClearEmptiesStore` | frontend/src/pages/Scanner.tsx:71-73 | clearing leaves an empty stored history |
| `Scanner.HistoryStaysBounded` | frontend/src/pages/Scanner.tsx:142 | any run of scans keeps at most 15 items |
| `Scanner.Typewriter` | frontend/src/pages/Scanner.tsx:32-47 | after n ticks the shown text is the first min(n, length) characters |
| `Scanner.TypewriterReveals` | frontend/src/pages/Scanner.tsx:38-44 | the shown text is always a prefix, grows by one character per tick, and ends equal to the text |
| `KnowledgeGraph.Lookup` | frontend/src/pages/KnowledgeGraph.tsx:113 | a table lookup: none iff the key is absent, otherwise a value stored under it |
| `KnowledgeGraph.LanguageOf` | frontend/src/pages/KnowledgeGraph.tsx:91 | `item.language \|\| 'unknown'` is never empty |
| `KnowledgeGraph.Capitalize` | frontend/src/pages/KnowledgeGraph.tsx:96 | the first character upper-cased, the rest unchanged |
| `KnowledgeGraph.DistinctMembers` | frontend/src/pages/KnowledgeGraph.tsx:70-108 | the `Set`-guarded loops keep each value once, and exactly the values that occur |
| `KnowledgeGraph.DistinctKeepsFirstOccurrenceOrder` | frontend/src/pages/KnowledgeGraph.tsx:70-108 | the kept values come in order of first occurrence |
| `KnowledgeGraph.BuildGraph` | frontend/src/pages/KnowledgeGraph.tsx:51-138 | no nodes and no links for an empty history; otherwise 1 + V + L + n nodes and V + L + 2n links, the hub first |
| `KnowledgeGraph.VerdictPart` | frontend/src/pages/KnowledgeGraph.tsx:69-87 | after the hub come one node per distinct verdict, and the first links are one hub link per distinct verdict |
| `KnowledgeGraph.LanguagePart` | frontend/src/pages/KnowledgeGraph.tsx:89-108 | then one node per distinct language (capitalised label), each with one hub link |
| `KnowledgeGraph.ScanPart` | frontend/src/pages/KnowledgeGraph.tsx:110-135 | then one node per history item in order, each with a link from its verdict node and one from its language node |
| `KnowledgeGraph.ScanNodeColor` | frontend/src/pages/KnowledgeGraph.tsx:113 | a scan node has its risk level's `RISK_COLORS` colour, or `#6b7280` for a risk level the table lacks |
| `KnowledgeGraph.LinkEnds` | frontend/src/pages/KnowledgeGraph.tsx:81-134 | both ends of each link are nodes of the graph |
| `KnowledgeGraph.LinksJoinNodes` | frontend/src/pages/KnowledgeGraph.tsx:51-138 | every link starts and ends at an emitted node |
| `KnowledgeGraph.CountMalicious` | frontend/src/pages/KnowledgeGraph.tsx:227 | the threat count is the number of items whose verdict is malicious (their multiplicity among the verdicts); zero iff none is |
| `KnowledgeGraph.CountMaliciousAppend` | frontend/src/pages/KnowledgeGraph.tsx:227 | the count of a concatenation is the sum of the counts, as a filter's length is |
| `KnowledgeGraph.StatsOf` | frontend/src/pages/KnowledgeGraph.tsx:226-228 | totalScans is the number of items and threats the number of malicious ones; languages is the number of distinct languages (empty counted as `unknown`), zero iff there are no scans |
| `KnowledgeGraph.LanguageCountMatchesGraph` | frontend/src/pages/KnowledgeGraph.tsx:228 | the language counter equals the number of language nodes of the graph |
| `BatchScanner.Extension` | frontend/src/pages/BatchScanner.tsx:96 | a dot followed by the lower-cased text after the last dot |
| `BatchScanner.ExtensionAfterLastDot` | frontend/src/pages/BatchScanner.tsx:96 | `base.ext` has extension `.ext` lower-cased, whatever the base |
| `BatchScanner.ExtensionWithoutDot` | frontend/src/pages/BatchScanner.tsx:96 | a name without a dot is its own extension, so a file named `go` passes |
| `BatchScanner.AcceptedByExtension` | frontend/src/pages/BatchScanner.tsx:89-98 | a file is kept iff its extension is one of the 24 listed and its size is under 50,000 |
| `BatchScanner.AcceptedFiles` | frontend/src/pages/BatchScanner.tsx:95-98 | exactly the accepted files of the drop, each as often as it was dropped |
| `BatchScanner.AcceptedFilesInOrder` | frontend/src/pages/BatchScanner.tsx:95-98 | the accepted files keep the drop's order: filtering distributes over concatenation, and a single file is kept iff accepted |
| `BatchScanner.Merge` | frontend/src/pages/BatchScanner.tsx:101-105 | the previous files unchanged in order, then the accepted files whose name was not already present, each as often as it was dropped |
| `BatchScanner.MergeInOrder` | frontend/src/pages/BatchScanner.tsx:101-105 | the appended files keep the drop's order: the part appended for `a + b` is that for `a` then that for `b` |
| `BatchScanner.SameNamedPairBothAdded` | frontend/src/pages/BatchScanner.tsx:102-104 | two same-named new files in one drop are both added |
| `BatchScanner.Remove` | frontend/src/pages/BatchScanner.tsx:128-130 | every file with the name goes, every other stays as often as it was there |
| `BatchScanner.RemoveKeepsOrder` | frontend/src/pages/BatchScanner.tsx:128-130 | the kept files stay in order: removal distributes over concatenation, and a single file stays iff it has another name |
| `BatchScanner.AddThenRemove` | frontend/src/pages/BatchScanner.tsx:101-130 | adding a new file and removing it restores the list |
| `BatchScanner.RemoveIdempotent` | frontend/src/pages/BatchScanner.tsx:128-130 | removing twice is removing once |
| `BatchScanner.BeginScan` | frontend/src/pages/BatchScanner.tsx:134-136 | scanning, with results cleared and summary null; nothing else changes |
| `BatchScanner.BatchRequest` | frontend/src/pages/BatchScanner.tsx:143 | the request lists every file's name and code in order |
| `BatchScanner.RunBatchScan` | frontend/src/pages/BatchScanner.tsx:132-156 | nothing with no files; a failure returns to idle with empty results; a success is done with the server's results and summary |
| `BatchScanner.RunGithubScan` | frontend/src/pages/BatchScanner.tsx:158-180 | the same, guarded by a non-empty repository URL |
| `BatchScanner.ResetScan` | frontend/src/pages/BatchScanner.tsx:182-187 | no files, no results, no summary, idle |
| `BatchScanner.RunsSettle` | frontend/src/pages/BatchScanner.tsx:132-180 | a finished scan never leaves the page scanning; done iff there were files and the answer was good |
| `BatchScanner.InitialToken` | frontend/src/pages/BatchScanner.tsx:39 | the token starts as the stored one, if any |
| `BatchScanner.FetchRepos` | frontend/src/pages/BatchScanner.tsx:44-66 | no request without a token; only a 401 changes the token, to null, and removes it from storage |
| `BatchScanner.UnauthorizedDropsToken` | frontend/src/pages/BatchScanner.tsx:55-58 | a 401 nulls the token and removes the stored copy |
| `Game.LevelOf` | frontend/src/context/GameContext.tsx:32-38 | the level's rank is the number of thresholds 100, 500, 2000, 5000 reached; `NaN` fails every test and is Grandmaster |
| `Game.LevelMonotone` | frontend/src/context/GameContext.tsx:32-38 | more XP never gives a lower level |
| `Game.Load` | frontend/src/context/GameContext.tsx:17-30 | xp 0, streak 1, roast mode off unless a stored non-empty value overrides each: the numbers by `parseInt` (possibly `NaN`), roast mode iff the text is `true` |
| `Game.AddXp` | frontend/src/context/GameContext.tsx:40-44 | xp grows by the amount (`NaN` stays `NaN`) and its text is stored; nothing else changes |
| `Game.CorruptedXpStaysGrandmaster` | frontend/src/context/GameContext.tsx:27-44 | a stored total that parses to `NaN` shows Grandmaster, and stays so after earning experience |
| `Game.ToggleRoastMode` | frontend/src/context/GameContext.tsx:46-50 | the switch flips and is stored |
| `Game.ToggleTwice` | frontend/src/context/GameContext.tsx:46-50 | toggling twice restores the switch |
| `Game.ToggleSurvivesReload` | frontend/src/context/GameContext.tsx:25-50 | a toggled switch is what the next load reads back |
| `Game.AddXpSurvivesReload` | frontend/src/context/GameContext.tsx:23-44 | the stored total is what the next load reads back |
| `Game.IntToStringInjective` | frontend/src/context/GameContext.tsx:43 | different totals are stored as different texts |
| `CodeEditor.MessageOf` | frontend/src/components/CodeEditor.tsx:49 | the description, followed by ` (<cwe>)` iff the CWE is a non-empty string |
| `CodeEditor.MarkerOf` | frontend/src/components/CodeEditor.tsx:48-57 | an error iff the severity is CRITICAL or HIGH; the vulnerability's line, columns 1 to 1000 |
| `CodeEditor.Markers` | frontend/src/components/CodeEditor.tsx:48-57 | one marker per vulnerability, in order |
| `CodeEditor.MarkerUpdate` | frontend/src/components/CodeEditor.tsx:42-63 | markers are set iff the editor and its model exist; no vulnerabilities clears them |
| `CodeEditor.MarkersLineUp` | frontend/src/components/CodeEditor.tsx:48-57 | marker i sits on vulnerability i's line, with its severity and message |
| `CodeEditor.EditedText` | frontend/src/components/CodeEditor.tsx:73-75 | an undefined value gives the empty text |
| `CodeEditor.Jump` | frontend/src/components/CodeEditor.tsx:65-71 | a jump to (line, column 1) iff the editor is mounted and the line is neither null nor 0 |
| `Middleware.Triggers` | middleware/app.py:125 | exactly the table's keywords that occur case-sensitively |
| `Middleware.TriggersInTableOrder` | middleware/app.py:125 | the triggers keep table order: they distribute over concatenation of the table, and a single entry triggers iff its keyword occurs |
| `Middleware.FirstTriggerIsFirstInTable` | middleware/app.py:153 | the first trigger is the earliest table keyword that occurs |
| `Middleware.Reindex` | middleware/app.py:95-96 | one value per model column, the count of that node type, 0 when absent |
| `Middleware.ReindexIgnoresUnknownTypes` | middleware/app.py:96 | node types outside the columns do not change the row |
| `Middleware.LoadIfUpdated` | middleware/app.py:69-81 | reloads iff the file time is strictly newer, then records it; the recorded time never decreases |
| `Middleware.LoadIsIdempotent` | middleware/app.py:76-79 | a second check with the same file time loads nothing |
| `Middleware.RiskHierarchy` | middleware/app.py:149-173 | a keyword gives CRITICAL with the first keyword's description; otherwise HIGH above 0.85, MEDIUM above 0.40, else LOW; malicious iff CRITICAL or HIGH |
| `Middleware.Analyze` | middleware/app.py:110-185 | over 50,000 characters is 400 first, empty is 400, a syntax error is a harmless INVALID whose reply carries no node count, another failure is 500; only parsed code reloads the model and goes through the hierarchy, whose reply counts one node per model column |
| `Middleware.KeywordOverridesModel` | middleware/app.py:150-155 | a keyword makes the verdict critical and malicious whatever the probability |
| `Middleware.SyntaxErrorMasksKeywords` | middleware/app.py:131-136 | unparsable code is never malicious, even with a keyword in it |
| `BackendApp.StaticMatches` | backend/app.py:252-255 | exactly the patterns whose lower-cased form occurs in the lower-cased content, in list order |
| `BackendApp.StaticMatchesAppend` | backend/app.py:253-255 | the scan keeps list order |
| `BackendApp.FirstStaticMatch` | backend/app.py:253-255 | the first match is the earliest listed pattern that occurs |
| `BackendApp.ScanWith` | backend/app.py:247-263 | the static matches, then `Direct SQL F-String Interpolation` once iff the SQL expression matches; empty iff neither finds anything |
| `BackendApp.FirstContained` | backend/app.py:329-330 | the first key that occurs, none iff no key does |
| `BackendApp.RoastKey` | backend/app.py:325-331 | `sql_injection` when the first pattern holds SQL, DROP or DELETE; otherwise the first key of the table, in table order, that the pattern contains, and `default` when none does |
| `BackendApp.RoastKeysOfPatterns` | backend/app.py:326-330 | the static patterns `eval(`, `exec(`, `DROP TABLE` and `rm -rf` get the `eval`, `exec`, `sql_injection` and `rm -rf` roast lists |
| `BackendApp.AnalyzeCode` | backend/app.py:290-343 | empty code is 400; otherwise malicious iff some pattern matched, with confidence 0.95/0.99 and risk CRITICAL/LOW; the roast reason comes from the LLM when it answers, else from the fallback key of the first pattern, or the clean-code roast when nothing matched |
| `BackendApp.BearerToken` | backend/app.py:65-67 | a token iff the header starts with `Bearer `: the text after it up to the next space or the end |
| `BackendApp.BearerRoundTrip` | backend/app.py:66-67 | `Bearer t` gives back t |
| `BackendApp.TokenRequiredGuard` | backend/app.py:61-80 | no token is 401 `Token required`; access iff the token decodes to a known user; every refusal is 401 |
| `BackendApp.AdminRequiredGuard` | backend/app.py:82-103 | the same checks, then 403 for a user who is not an admin |
| `BackendApp.Signup` | backend/app.py:106-131 | with the name trimmed and the email trimmed and lower-cased: blank fields 400, then a short password 400, then a taken email 409, else 201 with the cleaned name and email; each case pinned |
| `BackendApp.ShortPasswordReportedBeforeTakenEmail` | backend/app.py:116-120 | a short password is reported even when the email is taken |
| `BackendApp.RepoResultsSound` | backend/app.py:362-376 | every result entry is the report of a walked file that is not skipped and matched |
| `BackendApp.RepoResultsComplete` | backend/app.py:362-376 | every such file has its entry |
| `BackendApp.RepoResultsEmpty` | backend/app.py:362-376 | no entries iff no file matched |
| `BackendApp.ScanRepo` | backend/app.py:345-398 | a missing URL is 400, a failed clone 500; a walked clone always gives a verdict listing the reports of the walk's matching files; HIGH and malicious iff some file matched, else LOW |
| `BackendApp.GithubDirectoryIsSkipped` | backend/app.py:365 | files under `.github` are skipped too, since the test is a substring test |
| `BackendExample.FirstMatch` | frontend/backend-example.py:43-45 | the first listed pattern occurring case-insensitively, none iff none does |
| `BackendExample.AnalyzeCode` | frontend/backend-example.py:34-56 | empty code is 400; malicious iff some pattern occurs, confidence 0.85, else 0.95; the pattern named is the first of the list that occurs, case aside |
| `BackendExample.FirstMatchIsHead` | frontend/backend-example.py:44-50 | the named pattern is the head of the ordered list of all matches |
| `BackendExample.AgreesWithMainBackend` | frontend/backend-example.py:42-56 | without SQL f-strings and roast mode, the two backends agree on the verdict |
| `Treesitter.Parsers` | backend/src/treesitter_parser.py:25-67 | the parsers are exactly the listed languages whose grammar loaded |
| `Treesitter.ParseCode` | backend/src/treesitter_parser.py:70-91 | an unloaded language raises; otherwise the parser's answer, none on failure |
| `Treesitter.WalkVisitsEveryNode` | backend/src/treesitter_parser.py:112-117 | the walk visits every node exactly once |
| `Treesitter.Bump` | backend/src/treesitter_parser.py:113 | `counts[kind] += 1` raises that one count by one |
| `Treesitter.TallyCounts` | backend/src/treesitter_parser.py:112-117 | walking a tree adds to each type's count the number of its nodes of that type |
| `Treesitter.Census` | backend/src/treesitter_parser.py:110-119 | each type's count is its number of nodes in the walk; types that do not occur are absent |
| `Treesitter.CensusCoversTree` | backend/src/treesitter_parser.py:110-119 | the counts sum to the tree's size, and every present count is positive |
| `Treesitter.NodeCounts` | backend/src/treesitter_parser.py:94-119 | an unsupported language raises, a failed parse gives `{}`, otherwise the census |
| `Treesitter.EveryCategoryListed` | backend/src/treesitter_parser.py:137-161 | all ten categories are in the mapping |
| `Treesitter.RawFeatures` | backend/src/treesitter_parser.py:166-167 | each raw count appears unchanged under `<language>_<type>` |
| `Treesitter.CommonFeatures` | backend/src/treesitter_parser.py:170-172 | each category total is the sum of its types' counts, missing ones as 0 |
| `Treesitter.NormalizedFeatures` | backend/src/treesitter_parser.py:163-177 | raw keys, the ten category totals and `is_<language>` = 1, and nothing else |
| `Treesitter.Features` | backend/src/treesitter_parser.py:122-177 | an unsupported language raises; otherwise the flag is 1 and all ten categories are present; for a parsed tree each category total is the number of its nodes of the category's types, and each raw key is a type of the tree with its node count |
| `Treesitter.FailedParseGivesZeroTotals` | backend/src/treesitter_parser.py:107-108 | a failed parse still succeeds, with all ten category totals 0 and no raw keys |
| `Treesitter.CategoryTypesDistinct` | backend/src/treesitter_parser.py:137-161 | no category lists a node type twice |
| `Treesitter.CategoryTotalCountsNodes` | backend/src/treesitter_parser.py:170-172 | a category total is the number of tree nodes whose type is in the category |
| `Normalizer.InitialIsValid` | backend/src/normalizer_AST.py:10-12 | a fresh normaliser has an empty map and counter 0, which satisfies the invariant |
| `Normalizer.GetId` | backend/src/normalizer_AST.py:14-18 | a known key returns its id with no change; a new key gets `VAR_<counter>` and the counter rises by one; the invariant (counter = number of keys, ids exactly VAR_0…VAR_{counter-1}, pairwise distinct) is kept |
| `Normalizer.AddKeepsValid` | backend/src/normalizer_AST.py:15-17 | giving a new key the next number keeps the invariant |
| `Normalizer.NewKeyGetsNewName` | backend/src/normalizer_AST.py:15-17 | a new key's id differs from every earlier one |
| `Normalizer.VarNameInjective` | backend/src/normalizer_AST.py:16 | different numbers give different ids |
| `Normalizer.Visit` | backend/src/normalizer_AST.py:21-28 | each identifier gets the number its key holds at the end; the invariant is kept |
| `Normalizer.VisitKeepsKnownKeys` | backend/src/normalizer_AST.py:14-18 | a traversal never renumbers a known key |
| `Normalizer.VisitPrefix` | backend/src/normalizer_AST.py:14-18 | visiting more never changes earlier numbers |
| `Normalizer.SameParameterSameName` | backend/src/normalizer_AST.py:26-28 | same-named arguments share an id |
| `Normalizer.DistinctNameNodesDiffer` | backend/src/normalizer_AST.py:21-24 | two different `Name` nodes get different ids, even for the same variable |
| `Normalizer.FirstIsVarZero` | backend/src/normalizer_AST.py:11-17 | from fresh, the first identifier becomes `VAR_0` |
| `DataPipeline.StartIsValid` | backend/src/dataPipeline_AST.py:22-25 | the empty start state satisfies the builder's invariant |
| `DataPipeline.FunctionRowAsWritten` | backend/src/dataPipeline_AST.py:66-78 | as written, the raw column equals the normalised column |
| `DataPipeline.AsWrittenRawColumnIsNormalized` | backend/src/dataPipeline_AST.py:69-74 | a concrete function whose raw column, as written, loses its own text |
| `DataPipeline.FunctionRow` | backend/src/dataPipeline_AST.py:73-78 | the row of a function: its own text, its normalised text, its folder label, source `<file>_<func>` |
| `DataPipeline.ProcessStatement` | backend/src/dataPipeline_AST.py:53-78 | a row is added iff the statement is a function whose digest was not seen; the first occurrence wins; the row's normalised text uses the names the shared normaliser gives, and the normaliser moves on past them; a skipped statement changes nothing |
| `DataPipeline.ProcessStatements` | backend/src/dataPipeline_AST.py:53-78 | only top-level functions become rows, each with the folder's label and the file's name |
| `DataPipeline.ProcessFiles` | backend/src/dataPipeline_AST.py:41-81 | a folder's rows carry its label; a hidden file, a directory or a file that does not parse adds nothing and the walk goes on with the next file |
| `DataPipeline.RowsComeFromParsedFiles` | backend/src/dataPipeline_AST.py:44-66 | every row a folder adds is a function of one of its kept files that parsed |
| `DataPipeline.ProcessFolder` | backend/src/dataPipeline_AST.py:33-41 | a missing folder changes nothing; dot-files are skipped |
| `DataPipeline.DuplicateFunctionSkipped` | backend/src/dataPipeline_AST.py:58-62 | a function whose digest was seen adds nothing |
| `DataPipeline.StripFences` | backend/src/dataPipeline_AST.py:103-110 | code whose trim does not start with a fence is kept as it is; fenced code is the lines of its trim after the first, without the last when that one starts with a fence, joined with newlines |
| `DataPipeline.DropClosingFence` | backend/src/dataPipeline_AST.py:108-109 | drops at most the last line, and keeps the rest as a prefix |
| `DataPipeline.OpeningLineIsFence` | backend/src/dataPipeline_AST.py:104-107 | when the trimmed text starts with a fence, so does its first line, so the opening line is always dropped |
| `DataPipeline.UnclosedFence` | backend/src/dataPipeline_AST.py:104-110 | a fence line with a tag followed by a body with no closing fence gives back the body exactly |
| `DataPipeline.StripFenceLines` | backend/src/dataPipeline_AST.py:104-110 | fenced text loses its first and last lines, and the rest is rejoined with newlines |
| `DataPipeline.FenceRoundTrip` | backend/src/dataPipeline_AST.py:104-110 | a fenced block gives back exactly the code between its fences |
| `DataPipeline.ProcessSample` | backend/src/dataPipeline_AST.py:95-135 | a missing or blank code is skipped; otherwise its digest is recorded before parsing, so an unparsable sample still blocks its duplicates; a new row's normalised text and the normaliser's next state come from the shared normaliser; without a row, rows and normaliser are unchanged |
| `DataPipeline.ProcessSamples` | backend/src/dataPipeline_AST.py:95-135 | the samples in order, keeping the invariant |
| `DataPipeline.SameCodeNeverTwice` | backend/src/dataPipeline_AST.py:113-117 | a later sample with the same code adds nothing |
| `DataPipeline.Build` | backend/src/dataPipeline_AST.py:17-135 | no two rows share a digest: one seen-set for both folders and the CSV |
| `DataPipeline.FolderRowsLabelled` | backend/src/dataPipeline_AST.py:27-41 | `clean` rows come first with label 0, then `corrupted` rows with label 1 |
| `Ingest.SourceTextInjective` | backend/ingest_huggingface.py:56-64 | different entries get different source names |
| `Ingest.EntriesOf` | backend/ingest_huggingface.py:51-65 | a taken row gives the preferred code labelled 0, then the rejected code labelled 1, normalised column empty |
| `Ingest.Collect` | backend/ingest_huggingface.py:37-71 | entries come in pairs labelled 0, 1, at most 2·(3000 − count) of them, none once the limit is reached |
| `Ingest.IngestData` | backend/ingest_huggingface.py:34-71 | a result iff the dataset loads, of even length at most 6000 |
| `Ingest.CollectIsFilterThenPairs` | backend/ingest_huggingface.py:34-67 | the loop equals: filter the rows, take the first 3000, expand each into its pair |
| `Ingest.EntryCount` | backend/ingest_huggingface.py:35-39 | entries are exactly twice min(taken rows, 3000) |
| `Ingest.RejectedNeverInspected` | backend/ingest_huggingface.py:48-49 | a row whose preferred code does not look like Python adds nothing, whatever its rejected code |
| `Logos.ProcessPixel` | process_logos.py:11-15 | output always white; near-white input (all channels > 200) becomes transparent, any other keeps its alpha |
| `Logos.Transform` | process_logos.py:9-19 | same number of pixels, each transformed in place |
| `Logos.ProcessLogo` | process_logos.py:8-19 | the loop builds exactly the transformed image |
| `Logos.BoundaryPixelKeepsAlpha` | process_logos.py:11 | a channel of exactly 200 is not near-white |
| `Logos.TwiceIsTransparent` | process_logos.py:11-15 | transforming a pixel's output makes it fully transparent |
| `Logos.TransformTwiceIsTransparent` | process_logos.py:9-19 | transforming an image twice makes every pixel transparent |

## Left out

- Network, storage and file I/O are not modelled. This includes `fetch`, response bodies, `TextDecoder`, `localStorage`, the file system, `git clone`, temporary directories and the CSV and PNG writes. Each appears as an input or an output value. The stream is a sequence of already-decoded chunks.
- Regular expressions are not interpreted. A language signature is a match count from an uninterpreted `matches(pattern, code)`. The SQL f-string expression is a predicate `sqlFString`. The ANSI expression is hand-coded as a character scanner.
- Libraries outside the code are parameters:
  - the Python parser, `ast.unparse`, the tree-sitter grammars and SHA-256 become `parse`, `render`, `parsers`/`parse` and `hash`;
  - JWT decoding and the user table become `decode` and `users`;
  - the classifier's `predict_proba` becomes `maliciousProb`;
  - the Ollama answer becomes `llm`;
  - `Date` becomes `stamp`, `time` and `id`.
- `random.choice` in the roast fallback is not modelled. Only the chosen roast list is modelled, as `BackendApp.RoastKey`.
- Floating-point rounding is not modelled. Confidences are exact `real`s. The middleware's `round(max(probability) * 100, 1)` confidence and the rounded percentage in its HIGH message are left out. The verdict and risk do not depend on them.
- `LanguageDetector.Scores` receives the signature table as a parameter. `LanguageDetector.SignaturesOf` holds the detector's own table, but nothing proved depends on its particular patterns or weights. The tie-break order and the extension map are the code's own.
- Graph ids and colours are structured values (`NodeId`, `Tint`) rather than strings. `IdText` and `TintText` give the page's text. The proofs state node and link identity on the structured values. Nothing is proved about the text form.
- The history page and the graph page read different storage keys. The page writes `sentinel_audit_v2` and the graph reads `soteria_audit_v2`. The graph's history is therefore an independent input, and no round trip between the two is stated.
- `backend/app.py` defines `scan_file_content` twice. Only the second, active definition is modelled (`BackendApp.ScanWith`).
- The PDF report endpoint, `/train`, login, the admin pages and the GitHub OAuth exchange are not modelled. They are glue around I/O with no separate decision logic.
- In `backend/app.py`, only the control flow of `token_required` and `admin_required` is modelled. The decorated handler is not called. Token expiry and invalidity both appear as a decode error answered with 401.
- `split('\n')` and `splitlines()` are both modelled as a split on `'\n'` (`Strings.Split`). `splitlines` also splits on `\r` and other separators and drops a trailing empty line. The fence stripper in `DataPipeline.StripFences` is therefore exact only for text with `'\n'` line ends.
- Case-folding and whitespace are ASCII-only. `Strings.Lower` maps `A`–`Z`, and `Strings.Trim` strips space, tab, newline, carriage return, vertical tab and form feed. JavaScript's and Python's Unicode rules are wider.
- `Ingest.Collect` does not model rows whose `chosen` is not a string. A `None` or numeric `chosen` makes the membership test `'def ' not in secure_code` raise a `TypeError`, which the loop's `except AttributeError` does not catch. A list, dict or tuple `chosen` is membership-tested element by element without raising, and is kept only when it holds the element `'def '` or `'import '`. The model takes `chosen` to be a string when present.
- `Normalizer` does not model the whole tree transformer. A `Name` node's identity is a number, and the traversal is the sequence of identifiers met in visit order. The rewriting of the tree is modelled by the `render` parameter.
- `Scanner.AnalyzeAsWritten` and `Scanner.Analyze` count the code's length in Unicode scalar values. JavaScript's `code.length` counts UTF-16 code units, so text with characters outside the Basic Multilingual Plane (emoji, say) can exceed the 50,000 limit in the page while staying under it in the model.
- `Scanner.Preview` takes 35 scalar values where `substring(0, 35)` takes 35 UTF-16 code units, which can also split a surrogate pair. The two agree on text within the Basic Multilingual Plane.
- `Scanner.Typewriter` reveals one scalar value per tick where the page's `slice` reveals one UTF-16 code unit, so a character outside the Basic Multilingual Plane takes two ticks in the page.
- `KnowledgeGraph.Capitalize` upper-cases the first scalar value where `charAt(0)` takes the first UTF-16 code unit. The two agree unless the first character lies outside the Basic Multilingual Plane.
- `Game.Load` models a JavaScript number as an integer or `NaN`. Fractional totals, infinities and the exponent form `toString` uses from 1e21 on are not modelled. The amount passed to `addXp` is taken to be an integer.
- Image decoding is not modelled. `Logos` starts from the list of RGBA pixels.
- Timers, animation scheduling, cancellation and React render order are not modelled. `Scanner.Typewriter` counts ticks.
- Concurrency between overlapping requests is not modelled.
- UI layout, routing, marketing pages, the ML training scripts and the Supabase auth wrappers are not modelled. None of them holds decision logic of the modelled core.

## Findings

| source | as written | input that shows it | evidently intended | confidence | as-written member | corrected member |
|---|---|---|---|---|---|---|
| frontend/src/pages/Scanner.tsx:111-117 | the size check sets an error but does not return, so oversized code is still sent and the answer overwrites the error | any non-blank code of 50,001 characters, answered by the server's refusal | return after setting the "payload too large" error | not executed | `Scanner.OversizeIsStillSent` | `Scanner.Analyze` |
| backend/src/dataPipeline_AST.py:74 | `ast.unparse(node)` runs after the normaliser has rewritten `node` in place, so the raw column holds the normalised code | `def f(a): return a` gives raw code `def f(VAR_0): return VAR_1` | the function's own text, taken before normalising (`funcRaw`) | not executed | `DataPipeline.AsWrittenRawColumnIsNormalized` | `DataPipeline.ProcessStatement` |
