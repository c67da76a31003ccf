# dotquiz99 in Dafny

A Dafny model of the logic inside dotquiz99, a quiz web application. In the browser, a user loads a quiz from JSON, generates one through a model API, or picks one saved in the cloud. They answer it one question at a time and see a score broken down by topic. Every attempt is recorded in the browser's storage. On the server, quizzes are generated, validated, saved, listed and deleted, in memory, on disk or in PostgreSQL.

Modelled, one module per source file:

- **Categoriser** (`QuizUtils`): the keyword table, tag stripping, first-match search and fallbacks of `categorizeQuestion`, and `sanitizeHTML`.
- **Scoring** (`ResultsSection`): the one-pass loop over questions and answers (`ScoreWith`/`Score`), proved equal to a specification pass with its counting invariants. Also the rounded percentage, the topic panel (filter, stable sort, bar colour) and the heading.
- **Validators of three strengths**:
  - the cloud panel's `validateJSON` (`JsonQuizzesSection`);
  - the upload check (`UploadSection`);
  - the generator's type check (`QuizGeneratorUtil`);
  - the server's save-quiz check and the generated-question filter (`Routes`, `GeneratedQuestions`);
  - the lemmas that relate them.
- **Client state**:
  - the panels' handlers as classes (`JsonQuizzesSection.Panel`, `UploadSection.Editor`, `QuizGeneratorPanel.GeneratorForm`);
  - question navigation (`QuizSection.Session`) and the page's view machine with attempt recording (`Home.HomePage`);
  - the browser-storage list helpers (`StorageUtils`) and the visitor counter (`VisitorCounter`), over `BrowserStore.LocalStorage`.
- **Server storage**:
  - the `.env.local` loader (`EnvFile`);
  - backend selection and the map-backed `MemStorage` and `FileStorage` (`ServerStorage`);
  - the PostgreSQL store with its bootstrap retries and readiness poll (`NeonStorage`).
- **Generation and dispatch**:
  - the mock and fallback quizzes and the bracket-span extraction;
  - the status codes of the Express routes (`Routes`) and of the serverless function (`GenerateQuizFunction`);
  - the entry point's error status, log filter and port (`ServerIndex`).

Helper modules:

- `Wrappers`: `Option`, and `Outcome` for calls that may throw.
- `Text`: ASCII case and white space, search, split, `parseInt`.
- `Json`: parsed values, JavaScript truthiness, property access, `includes`, numeric conversion.
- `OrderedMap`: a JavaScript `Map` as an insertion-ordered entry list.
- `Ordering`: `Array.prototype.sort` with a descending comparator, stable.
- `QuizTypes`: the shared records and their JSON form.

Environment and nondeterminism are parameters:

- `JSON.parse` is a function `string -> Option<JsonValue>` (None: it throws).
- The model API's reply is a `Reply` value.
- Each SQL call's success is a boolean, and the readiness flag seen by a poll is an oracle.
- Fresh ids (`randomUUID`, `nanoid`) and the clock are arguments.
- Timestamps are integers.

## Model

| member | source | states |
|---|---|---|
| QuizUtils.Tagged | client/src/lib/quiz-utils.ts:4-100 | each keyword group of the table is paired, position by position, with its topic |
| QuizUtils.HardwareKeywordsFirst | client/src/lib/quiz-utils.ts:4-20 | the table holds 78 keywords and its first fifteen, in source order, are the fundamentals keywords |
| QuizUtils.FunctionIsAKeyword | client/src/lib/quiz-utils.ts:62 | 'function' is a table keyword (entry 48) |
| QuizUtils.StripTagsChars | client/src/lib/quiz-utils.ts:103 | removing tags only deletes characters: every character of the result occurs in the input |
| QuizUtils.StripTagsLeavesNoTag | client/src/lib/quiz-utils.ts:103 | after the global replacement no `<` is followed anywhere later by a `>` |
| QuizUtils.StripTagsNoAngle | client/src/lib/quiz-utils.ts:103 | text without `<` is left unchanged by the tag removal |
| QuizUtils.LowerStripCommute | client/src/lib/quiz-utils.ts:103 | removing tags and lower-casing can be done in either order |
| QuizUtils.FirstMatchFromSpec | client/src/lib/quiz-utils.ts:106-110 | the search from position i returns a position whose keyword occurs, with no occurring keyword between i and it, and returns nothing exactly when no keyword from i on occurs |
| QuizUtils.FirstMatchIsFirst | client/src/lib/quiz-utils.ts:106-110 | the search finds k exactly when k is the first table position whose keyword occurs in the text |
| QuizUtils.CategorizeSpec | client/src/lib/quiz-utils.ts:102-118 | the category is the topic of the first matching keyword; with no match it is the programming topic when the text contains 'code' or 'syntax' and the fundamentals topic otherwise; the 'function' test of the fallback can never fire |
| QuizUtils.CategorizeByEarlyKeyword | client/src/lib/quiz-utils.ts:106-110 | when keyword j occurs and every keyword up to j has topic t, the category is t |
| QuizUtils.HardwareKeywordDecides | client/src/lib/quiz-utils.ts:6-20 | any of the fifteen fundamentals keywords in the cleaned text makes the category the fundamentals topic |
| QuizUtils.RamOrRomMeansHardware | client/src/lib/quiz-utils.ts:10-11 | text containing "ram" or "rom" (inside "program" or "from" too) is always a fundamentals question |
| QuizUtils.ProgrammingMeansHardware | client/src/lib/quiz-utils.ts:60 | the keyword 'programming' can never decide a category: its "ram" matches first |
| QuizUtils.CategorizeIgnoresCase | client/src/lib/quiz-utils.ts:103 | a text and its lower-cased form get the same category |
| QuizUtils.CategorizeCpuExample | client/src/lib/quiz-utils.ts:14 | "What is CPU?" is a fundamentals question |
| QuizUtils.SanitizeHtml | client/src/lib/quiz-utils.ts:120-135 | the sanitiser returns its input unchanged: nothing is removed |
| ResultsSection.IndexOfTopic | client/src/components/quiz/ResultsSection.tsx:32 | the position found holds the topic and no earlier position does |
| ResultsSection.Touch | client/src/components/quiz/ResultsSection.tsx:32-34 | after the check-and-create the topic has an entry |
| ResultsSection.TouchKeepsStats | client/src/components/quiz/ResultsSection.tsx:32-34 | creating a missing topic entry changes no topic's numbers |
| ResultsSection.TouchKeepsTally | client/src/components/quiz/ResultsSection.tsx:32-34 | creating a topic entry keeps topics distinct, keeps the sums and drops no topic |
| ResultsSection.CreditKeepsTally | client/src/components/quiz/ResultsSection.tsx:38-42 | crediting a topic adds one to the total sum, one to the correct sum exactly when the answer was right, and keeps correct within total per topic |
| ResultsSection.SumsAppend | client/src/components/quiz/ResultsSection.tsx:33 | appending an entry adds its numbers to the sums |
| ResultsSection.SumsUpdate | client/src/components/quiz/ResultsSection.tsx:38-42 | replacing an entry changes the sums by the difference |
| ResultsSection.RoundPercent | client/src/components/quiz/ResultsSection.tsx:56 | the rounded percentage is the integer p with p - 1/2 <= 100 * correct / answered < p + 1/2, between 0 and 100, and 0 with nothing answered |
| ResultsSection.StepKeepsCounts | client/src/components/quiz/ResultsSection.tsx:29-53 | one question keeps the counters, the review list's length and the topic sums in agreement |
| ResultsSection.StepKeepsTopics | client/src/components/quiz/ResultsSection.tsx:30-34 | one question adds its own topic and drops no topic |
| ResultsSection.StepKeepsReviews | client/src/components/quiz/ResultsSection.tsx:43-50 | one question appends its own entry (its text, the answer given, its correct answer, its topic, marked incorrect) exactly when its answer is given and wrong, so the list stays that of the wrong answers in question order |
| ResultsSection.StepKeepsInvariant | client/src/components/quiz/ResultsSection.tsx:29-53 | one question keeps the whole pass invariant |
| ResultsSection.ScanInvariantHolds | client/src/components/quiz/ResultsSection.tsx:23-53 | the pass invariant holds after every prefix of the questions |
| ResultsSection.NullAnswerChangesNothing | client/src/components/quiz/ResultsSection.tsx:36 | a `null` answer changes no counter, no topic's numbers and no review entry |
| ResultsSection.WrongIndices | client/src/components/quiz/ResultsSection.tsx:36-50 | the positions whose answer is given and differs from the correct one, each exactly once, in increasing order |
| ResultsSection.ReviewsAtFlags | client/src/components/quiz/ResultsSection.tsx:44-50 | every entry built for a wrong answer is marked incorrect, carries its question's topic and shows an answer other than the correct one |
| ResultsSection.SummaryFacts | client/src/components/quiz/ResultsSection.tsx:55-65 | the shown numbers: total is the answered count, correct <= total <= number of questions, incorrect = total - correct = review length, percentage within 0..100, topic sums equal to the counts, every question's topic present; the review list is exactly one entry per wrongly answered question, in question order, recording that question, the answer given, its correct answer and its topic, each marked incorrect |
| ResultsSection.SummaryBounds | client/src/components/quiz/ResultsSection.tsx:55-65 | correct <= total <= number of questions, incorrect = total - correct = review length, percentage within 0..100 |
| ResultsSection.ScoreWith | client/src/components/quiz/ResultsSection.tsx:23-67 | the loop computes the summary of the specification pass for any categoriser, with the three bounds |
| ResultsSection.Score | client/src/components/quiz/ResultsSection.tsx:23-67 | the component's pass with the keyword categoriser equals the specification pass and keeps the three bounds |
| ResultsSection.HeadingOf | client/src/components/quiz/ResultsSection.tsx:120 | "Perfect Score!" exactly when the review list is empty |
| ResultsSection.AllSkipped | client/src/components/quiz/ResultsSection.tsx:36-56 | with every answer skipped nothing is answered, the review list is empty, the percentage is 0 and the heading is "Perfect Score!" |
| ResultsSection.AnsweredTopics | client/src/components/quiz/ResultsSection.tsx:95 | exactly the entries with a positive total are kept |
| ResultsSection.TopicPanelCorrect | client/src/components/quiz/ResultsSection.tsx:94-96 | the panel shows exactly the answered topics, sorted by total, largest first, as a permutation of them, with equal totals in insertion order |
| ResultsSection.BarColourOf | client/src/components/quiz/ResultsSection.tsx:99-101 | red exactly below 50, orange exactly from 50 to below 75, green exactly from 75 |
| ResultsSection.TopicPercent | client/src/components/quiz/ResultsSection.tsx:98 | a topic card's percentage lies within 0..100 |
| JsonQuizzesSection.CheckFromSpec | client/src/components/quiz/JsonQuizzesSection.tsx:144-160 | the loop from question i accepts exactly when every later question passes all four rules; a refusal names a question n > i that breaks rule r with every question before it passing |
| JsonQuizzesSection.ValidIffAllPass | client/src/components/quiz/JsonQuizzesSection.tsx:135-161 | a document is valid exactly when it is not `null`, has a non-empty `data` array and every entry passes all four rules |
| JsonQuizzesSection.FirstFailureReported | client/src/components/quiz/JsonQuizzesSection.tsx:144-157 | a refusal names the first failing question, numbered from 1, and the first rule it breaks |
| JsonQuizzesSection.TooFewOptionsFirst | client/src/components/quiz/JsonQuizzesSection.tsx:149-151 | a question with text and fewer than two options is refused for its options, whatever its answer |
| JsonQuizzesSection.OneOptionExample | client/src/components/quiz/JsonQuizzesSection.tsx:149-151 | a one-option question whose answer is not an option is refused as "Question 1: must have at least 2 options" |
| JsonQuizzesSection.TruthinessExamples | client/src/components/quiz/JsonQuizzesSection.tsx:146-155 | the rules test truthiness, not type: numbers pass, an empty question text fails |
| JsonQuizzesSection.TitleFromFileName | client/src/components/quiz/JsonQuizzesSection.tsx:62 | a name ending in ".json" loses exactly that suffix; any other name is kept |
| JsonQuizzesSection.TitleFromFileNameStripsOnce | client/src/components/quiz/JsonQuizzesSection.tsx:62 | adding ".json" to a name and loading it gives the name back |
| JsonQuizzesSection.SearchQuizzes | client/src/components/quiz/JsonQuizzesSection.tsx:460 | a quiz is listed exactly when its lower-cased title contains the lower-cased term |
| JsonQuizzesSection.SearchAppend | client/src/components/quiz/JsonQuizzesSection.tsx:460 | the search keeps stored order: searching a concatenation is searching each part in turn |
| JsonQuizzesSection.EmptySearchKeepsAll | client/src/components/quiz/JsonQuizzesSection.tsx:440 | an empty search lists every quiz, in stored order |
| JsonQuizzesSection.Panel.constructor | client/src/components/quiz/JsonQuizzesSection.tsx:15-24 | the panel starts with empty editor, title and password, no pending delete, dialog closed, not loading |
| JsonQuizzesSection.Panel.ProcessFile | client/src/components/quiz/JsonQuizzesSection.tsx:46-83 | a file loads exactly when it is a JSON file by type or name and its content parses; loading sets the editor text and the title without ".json"; otherwise nothing changes |
| JsonQuizzesSection.Panel.SaveQuiz | client/src/components/quiz/JsonQuizzesSection.tsx:163-229 | blank JSON, then a blank title, are refused first; a quiz is posted only if it parses and validates, with the trimmed title; a successful post clears editor and title; the loading flag is reset except after the two blank-input guards |
| JsonQuizzesSection.Panel.AskToDelete | client/src/components/quiz/JsonQuizzesSection.tsx:239-243 | opens the dialog for that quiz with an empty password |
| JsonQuizzesSection.Panel.ConfirmDelete | client/src/components/quiz/JsonQuizzesSection.tsx:245-286 | the delete request goes out exactly when the password is "Ansh123" and a non-empty quiz id is pending; success closes the dialog and clears the id and password; anything else keeps the dialog as it was |
| UploadSection.EveryLooseSpec | client/src/components/quiz/UploadSection.tsx:121 | the `every` test succeeds exactly when every entry is non-null with truthy question, options and answer |
| UploadSection.StartIff | client/src/components/quiz/UploadSection.tsx:119-130 | a quiz starts exactly when the document has a `data` array whose entries all have truthy question, options and answer; "Invalid Format" exactly when there is no `data` array |
| UploadSection.LooseStartsUntyped | client/src/components/quiz/UploadSection.tsx:119-123 | a document whose entry has a number as question, a string as options and `true` as answer starts a quiz, yet it does not read as `QuizData` |
| UploadSection.StrictImpliesLoose | client/src/components/quiz/UploadSection.tsx:119-130 | every document the cloud panel's validator accepts also starts a quiz here |
| UploadSection.LooseAcceptsEmptyQuiz | client/src/components/quiz/UploadSection.tsx:120-123 | an empty `data` array starts a quiz here although the cloud panel refuses it |
| UploadSection.Editor.constructor | client/src/components/quiz/UploadSection.tsx:28 | the editor starts empty |
| UploadSection.Editor.LoadQuiz | client/src/components/quiz/UploadSection.tsx:98-117 | blank text is refused exactly when blank; otherwise a parse failure or a throwing check gives "Invalid JSON format" and anything else the check's decision |
| UploadSection.Editor.ProcessFile | client/src/components/quiz/UploadSection.tsx:39-72 | a file is refused exactly when it is not JSON by type or name; a file that parses replaces the editor text and is checked; otherwise the text is unchanged |
| QuizGeneratorUtil.EveryTypedSpec | client/src/lib/quiz-generator.ts:13-20 | the `every` succeeds exactly when every entry is non-null and passes the type test |
| QuizGeneratorUtil.ValidatorEdgeCases | client/src/lib/quiz-generator.ts:9-21 | `null`, booleans, numbers, strings, arrays and objects without a `data` array are refused; an empty `data` array passes |
| QuizGeneratorUtil.TypedOkEncoded | client/src/lib/quiz-generator.ts:14-19 | an encoded question passes the type test exactly when its answer is among its options |
| QuizGeneratorUtil.EveryTypedEncoded | client/src/lib/quiz-generator.ts:13-20 | encoded questions all pass exactly when every answer is among its options |
| QuizGeneratorUtil.ValidateEncodedQuiz | client/src/lib/quiz-generator.ts:9-21 | an encoded quiz is accepted exactly when every answer is among its question's options |
| QuizGeneratorUtil.MockOption | client/src/lib/quiz-generator.ts:57-60 | the option text carries its letter at position 7, so the four options differ |
| QuizGeneratorUtil.MockQuestionShape | client/src/lib/quiz-generator.ts:54-63 | every mock question has four pairwise-distinct options and its answer is the first |
| QuizGeneratorUtil.GenerateMockQuiz | client/src/lib/quiz-generator.ts:47-70 | the quiz is titled "<topic> Quiz" and holds numQuestions questions (none below 1), the i-th being mock question i |
| QuizGeneratorUtil.MockQuizValid | client/src/lib/quiz-generator.ts:47-70 | the mock quiz passes the generator's own validator |
| QuizGeneratorUtil.FormatQuizData | client/src/lib/quiz-generator.ts:75-80 | the questions are kept unchanged; an absent or empty title becomes "Generated Quiz", any other is kept |
| QuizGeneratorPanel.CountAcceptedCases | client/src/components/quiz/QuizGenerator.tsx:77 | the count guard refuses NaN, accepts 1 and 50 inclusive and fractions between them, refuses 0.5 and 50.5; "5" passes and "" does not |
| QuizGeneratorPanel.CountTextCases | client/src/components/quiz/QuizGenerator.tsx:77 | the count text "2.5" and "1e1" pass the guard, "-5" is refused |
| QuizGeneratorPanel.CheckFile | client/src/components/quiz/QuizGenerator.tsx:36-62 | a file is too large exactly when over 20 MB; it is kept exactly when within the size and of the image or PDF type the chosen generator asks for |
| QuizGeneratorPanel.ResponseAcceptedIffArray | client/src/components/quiz/QuizGenerator.tsx:108-110 | a response is accepted exactly when it is not `null` and its `data` is an array |
| QuizGeneratorPanel.GeneratorForm.constructor | client/src/components/quiz/QuizGenerator.tsx:23-28 | the dialog starts closed, with no type, an empty prompt, count "5", no file and not loading |
| QuizGeneratorPanel.GeneratorForm.ResetForm | client/src/components/quiz/QuizGenerator.tsx:202-210 | type, prompt, count and file return to their initial values; nothing else changes |
| QuizGeneratorPanel.GeneratorForm.Close | client/src/components/quiz/QuizGenerator.tsx:212-215 | the dialog closes and the form is reset |
| QuizGeneratorPanel.GeneratorForm.SelectFile | client/src/components/quiz/QuizGenerator.tsx:32-65 | the file check's verdict is returned and the file is kept exactly when it passes |
| QuizGeneratorPanel.GeneratorForm.GenerateFromPrompt | client/src/components/quiz/QuizGenerator.tsx:67-133 | a blank prompt, then a count whose `Number` reading is NaN or outside 1..50, are refused before any request; the quiz is handed on exactly when the request succeeds with a `data` array; success closes and resets the form, anything else leaves it |
| QuizGeneratorPanel.GeneratorForm.GenerateFromFile | client/src/components/quiz/QuizGenerator.tsx:135-200 | a missing file, then a count whose `Number` reading is NaN or outside 1..50, are refused before any request; the quiz is handed on exactly when the request succeeds with a `data` array; success closes and resets the form, anything else leaves it |
| QuizSection.Session.constructor | client/src/components/quiz/QuizSection.tsx:13-22 | the quiz opens on the first question with one `null` answer per question and the submit dialog closed |
| QuizSection.Session.SelectOption | client/src/components/quiz/QuizSection.tsx:38-50 | only the current question's answer becomes the chosen option; the index advances by one unless on the last question; the index stays on a question |
| QuizSection.Session.Next | client/src/components/quiz/QuizSection.tsx:52-59 | one step forward before the last question; on the last question the index stays and the submit dialog opens; answers unchanged |
| QuizSection.Session.Prev | client/src/components/quiz/QuizSection.tsx:61-66 | one step back, never below the first question; answers and dialog unchanged |
| QuizSection.Session.KeyDown | client/src/components/quiz/QuizSection.tsx:25-36 | ArrowLeft acts as Prev, ArrowRight as Next, any other key changes nothing |
| QuizSection.Session.SubmitConfirm | client/src/components/quiz/QuizSection.tsx:68-71 | the dialog closes and exactly the current answers, one per question, are handed on |
| QuizSection.OptionLabel | client/src/components/quiz/QuizSection.tsx:126 | the label of option `idx` is the letter `idx` places after 'A' |
| QuizSection.OptionLabelsDistinct | client/src/components/quiz/QuizSection.tsx:126 | two options share a label exactly when they are the same option; the first is A and the fourth D |
| StorageUtils.FindById | client/src/lib/storage-utils.ts:31 | the index found is that of the first quiz with the id; there is none exactly when no quiz carries it |
| StorageUtils.PatchLaws | client/src/lib/storage-utils.ts:33 | merging the empty update changes nothing, merging the same update twice equals merging it once, fields the update lacks keep their value |
| StorageUtils.RemoveId | client/src/lib/storage-utils.ts:44 | the kept quizzes are exactly those of the list whose id differs |
| StorageUtils.RemoveIdAppend | client/src/lib/storage-utils.ts:44 | filtering a concatenation filters each part, so the kept quizzes keep their order |
| StorageUtils.RemoveIdIdempotent | client/src/lib/storage-utils.ts:41-49 | deleting an id twice leaves the list deleting it once leaves |
| StorageUtils.RemoveIdAbsent | client/src/lib/storage-utils.ts:41-49 | deleting an id no quiz carries leaves the list unchanged |
| StorageUtils.DeleteAfterSave | client/src/lib/storage-utils.ts:18-49 | saving a quiz and then deleting its id gives the list the delete alone gives |
| StorageUtils.GetSavedQuizzes | client/src/lib/storage-utils.ts:8-16 | the stored list, or the empty list when the key is missing, does not parse or the store is blocked |
| StorageUtils.SaveQuiz | client/src/lib/storage-utils.ts:18-26 | the key afterwards holds the list read plus the new quiz at the end; a blocked store is left as it was; no other key changes |
| StorageUtils.UpdateQuiz | client/src/lib/storage-utils.ts:28-39 | only the first quiz with the id has the updates merged in; with no such quiz nothing is written |
| StorageUtils.DeleteQuiz | client/src/lib/storage-utils.ts:41-49 | the key afterwards holds the list read without every quiz of that id |
| StorageUtils.GetHistory | client/src/lib/storage-utils.ts:52-60 | the stored history, or the empty list when the key is missing, corrupt or the store blocked |
| StorageUtils.AddToHistory | client/src/lib/storage-utils.ts:62-70 | the history afterwards is the history read plus the item at the end; quizzes and visitor keys unchanged |
| StorageUtils.ClearHistory | client/src/lib/storage-utils.ts:72-78 | the history key holds the empty list; nothing else changes |
| StorageUtils.ExportQuizzes | client/src/lib/storage-utils.ts:81-89 | exactly the list `getSavedQuizzes` gives is exported |
| StorageUtils.ImportQuizzes | client/src/lib/storage-utils.ts:91-105 | succeeds exactly when the text is an array and the store is usable; the imported records are then appended after the existing ones; otherwise nothing is written |
| Home.CountMatches | client/src/pages/home.tsx:34-36 | the score counted is at most the number of answers looked at |
| Home.StepCorrectCount | client/src/pages/home.tsx:34-36 | one question of the results screen's pass adds one to its correct count exactly when the reduce adds one |
| Home.CountMatchesScan | client/src/pages/home.tsx:34-36 | over any prefix, the reduce's count equals the results screen's correct count |
| Home.HistoryScoreMatchesResults | client/src/pages/home.tsx:34-41 | the score written to the history equals the correct count the results screen shows for the same answers |
| Home.TitleOf | client/src/pages/home.tsx:40 | a non-empty quiz title is kept; a missing or empty one becomes "Quiz " and the date |
| Home.BumpedSpec | client/src/pages/home.tsx:69-75 | only the first quiz with the id changes, and only its attempts, by exactly one; without the id the list is unchanged |
| Home.HomePage.constructor | client/src/pages/home.tsx:16-19 | the page starts on the upload view with no quiz, no answers and no quiz id |
| Home.HomePage.QuizStart | client/src/pages/home.tsx:21-26 | the quiz view opens on the given quiz; an empty or missing id is kept as no id |
| Home.HomePage.QuizComplete | client/src/pages/home.tsx:28-80 | the results view shows the answers; with a quiz loaded, one history item is appended, then a quiz without an id is saved as new with one attempt and adopts its new id, and a quiz with an id has its attempts bumped; a throw part-way leaves what was written before it |
| Home.HomePage.Restart | client/src/pages/home.tsx:82-88 | back to the upload view with no quiz, answers or id |
| VisitorCounter.VisitorIdOf | client/src/lib/visitor-counter.ts:9-11 | a generated visitor id is never empty and starts with "visitor_" |
| VisitorCounter.NumberTextRoundTrip | client/src/lib/visitor-counter.ts:29-38 | a count written with `toString` reads back through `parseInt` as the same count, NaN included |
| VisitorCounter.ParseZero | client/src/lib/visitor-counter.ts:29 | the default text "0" reads back as zero |
| VisitorCounter.Initialize | client/src/lib/visitor-counter.ts:17-43 | a visitor without an id gets a fresh id and the stored count goes up by one from 0; a returning visitor keeps id and count; every visit stamps the time; the stored count is returned, 1 on a first visit to an empty store, 0 when the store is blocked |
| VisitorCounter.GetVisitorCount | client/src/lib/visitor-counter.ts:48-55 | the stored count as `parseInt` reads it, 0 when none is stored or the store is blocked |
| VisitorCounter.Reset | client/src/lib/visitor-counter.ts:60-68 | the three visitor keys are removed and the quiz keys untouched |
| VisitorCounter.ResetThenInitialize | client/src/lib/visitor-counter.ts:17-68 | after a reset the next visit is counted as the first: count 1, stored as "1" |
| VisitorCounter.InitializeTwice | client/src/lib/visitor-counter.ts:24-38 | a second visit leaves the count and reports the same count as the first; only the timestamp moves |
| VisitorCounter.Pad3 | client/src/lib/visitor-counter.ts:75 | a group of the formatted count is exactly three digits, reading as the number it stands for |
| VisitorCounter.GroupedDigits | client/src/lib/visitor-counter.ts:75 | without its commas the formatted count is the count's decimal text |
| VisitorCounter.GroupedShape | client/src/lib/visitor-counter.ts:75 | commas sit exactly every four places from the end, with digits between: a first group of one to three digits, then groups of three |
| VisitorCounter.NatToStringThousands | client/src/lib/visitor-counter.ts:75 | the decimal text of a count of 1000 or more is that of its thousands followed by its last three digits |
| VisitorCounter.CountText | client/src/lib/visitor-counter.ts:75 | `toLocaleString()`: "NaN" for NaN, the grouped digits otherwise, after a "-" for a negative count |
| VisitorCounter.FormatVisitorCount | client/src/lib/visitor-counter.ts:73-76 | the singular "1 visitor" exactly for a count of one; every other count is its locale text followed by " visitors" |
| VisitorCounter.FormatSmallCounts | client/src/lib/visitor-counter.ts:73-76 | zero and two take the plural |
| VisitorCounter.FormatThousands | client/src/lib/visitor-counter.ts:75 | thousands are separated by a comma: 1234 is "1,234 visitors" |
| EnvFile.ApplyLine | server/storage.ts:13-19 | a variable already set to a non-empty value keeps it; the only variable a line can add is its own trimmed key, and only when the line counts |
| EnvFile.LoadLines | server/storage.ts:10-20 | the variables after the loop over the file's lines are those of applying each line in turn |
| EnvFile.NeverOverrides | server/storage.ts:16-17 | a variable set before loading keeps its value whatever the file says |
| EnvFile.NewKeysFromLines | server/storage.ts:13-17 | every variable the file adds is named by the trimmed key of some counted line |
| EnvFile.FirstDefinitionWins | server/storage.ts:16-17 | of two lines with the same key, the first with a non-empty value wins |
| EnvFile.ExampleKey | server/storage.ts:14 | the key is the text before the first '=' |
| EnvFile.ExampleValue | server/storage.ts:15 | the value is everything after the first '=', later '=' signs included |
| EnvFile.SplitsAtFirstEquals | server/storage.ts:14-17 | the line `A=b=c` sets `A` to `b=c` |
| EnvFile.CommentIgnored | server/storage.ts:13 | a line starting with '#' changes nothing |
| EnvFile.LoadForStorage | server/storage.ts:7-23 | the file is loaded only when no database URL is set and the file exists |
| EnvFile.LoadForIndex | server/index.ts:5-19 | the file is loaded whenever it exists |
| ServerStorage.SelectBackend | server/storage.ts:206-225 | the database is chosen exactly when a database URL is set; otherwise memory exactly on a serverless host or with any `NETLIFY` value; otherwise the disk |
| ServerStorage.NewQuiz | server/storage.ts:77-87 | saving `null` throws; otherwise the record carries the id, title and time given, and `quizData.data` when truthy, else `quizData` itself |
| ServerStorage.NewestCorrect | server/storage.ts:89-93 | the listing is sorted newest first, holds exactly the stored records, and records with the same time keep their insertion order |
| ServerStorage.FirstWithUsername | server/storage.ts:64-68 | the user found is the first stored user with that name; none exactly when no stored user has it |
| ServerStorage.PutQuizKeyed | server/storage.ts:85 | filing a quiz under its own id keeps every quiz filed under its own id, once |
| ServerStorage.RemoveQuizKeyed | server/storage.ts:96 | deleting keeps every quiz filed under its own id, once |
| ServerStorage.GetIsEntry | server/storage.ts:60-62 | what a map lookup returns is the value of an entry filed under that key |
| ServerStorage.MemStorage.constructor | server/storage.ts:55-58 | both maps start empty |
| ServerStorage.MemStorage.GetUser | server/storage.ts:60-62 | the user filed under the id, whose own id is that id; none exactly when the id is not stored |
| ServerStorage.MemStorage.GetUserByUsername | server/storage.ts:64-68 | the first stored user with the name, in insertion order |
| ServerStorage.MemStorage.CreateUser | server/storage.ts:70-75 | the new user carries the fresh id and the given fields and is filed under that id; quizzes unchanged |
| ServerStorage.MemStorage.SaveQuiz | server/storage.ts:77-87 | the record built from the request is filed under its fresh id, appended after the existing quizzes; a `null` body throws and changes nothing |
| ServerStorage.MemStorage.GetStoredQuizzes | server/storage.ts:89-93 | exactly the stored records, newest first |
| ServerStorage.MemStorage.DeleteQuiz | server/storage.ts:95-97 | true exactly when the id was stored; afterwards it is not, and exactly one record is gone |
| ServerStorage.LoadedIds | server/storage.ts:118-138 | an id is loaded exactly when some readable `.json` file holds a quiz with that id, whatever the file's name |
| ServerStorage.LoadedKeyed | server/storage.ts:118-138 | after loading, every quiz is filed under its own id, once |
| ServerStorage.FileStorage.constructor | server/storage.ts:106-138 | the directory is `server/quizzes` below the working directory; the map holds what the start-up load reads from the listed `.json` files, each read at `path.join(dir, name)`, in listing order; a failed listing loads nothing; the file system is unchanged |
| ServerStorage.FileStorage.GetUser | server/storage.ts:140-142 | as for the in-memory store |
| ServerStorage.FileStorage.GetUserByUsername | server/storage.ts:144-148 | as for the in-memory store |
| ServerStorage.FileStorage.CreateUser | server/storage.ts:150-155 | as for the in-memory store; the directory unchanged |
| ServerStorage.FileStorage.SaveQuiz | server/storage.ts:157-177 | the map is updated as in memory; the file at `path.join(dir, id + ".json")` holds the record when the write succeeds; a failed write leaves the file system and does not undo the map |
| ServerStorage.FileStorage.GetStoredQuizzes | server/storage.ts:179-183 | exactly the stored records, newest first |
| ServerStorage.FileStorage.DeleteQuiz | server/storage.ts:185-199 | the result says whether the map held the id, whatever happens on disk; the file at `path.join(dir, id + ".json")` is removed when the unlink succeeds, wherever the id's "/" and ".." segments lead, and no other file changes |
| ServerStorage.QuizPathPlain | server/storage.ts:189 | an id without "/" names the file `<id>.json` directly inside the quizzes directory |
| ServerStorage.QuizPathInside | server/storage.ts:189 | an id none of whose segments is ".." names a file below the quizzes directory |
| ServerStorage.QuizPathBackIn | server/storage.ts:189 | an id that climbs out of the directory and back in by name, such as "../quizzes/abc", names another quiz's file in the same directory |
| ServerStorage.QuizPathEscapes | server/storage.ts:189 | an id that climbs two levels, such as "../../package", names a file outside the quizzes directory (`package.json` beside `server/`) |
| ServerStorage.Listing | server/storage.ts:122-127 | one entry per listed name, in listing order, carrying that name |
| NodePath.Walk | server/storage.ts:189 | following segments from a normal path yields a normal path: no empty, "." or ".." segment |
| NodePath.WalkStaysBelow | server/storage.ts:189 | without ".." segments the walk only descends: the result extends the start |
| NodePath.JoinStaysBelow | server/storage.ts:189 | a relative name without ".." segments joins to a path below the base |
| NodePath.JoinPlain | server/storage.ts:126 | a name without "/" that is not empty, "." or ".." is appended as one segment |
| NodePath.SplitAtSlash | server/storage.ts:189 | a relative name is cut into segments at each "/", the first segment being the text before the first "/" |
| NeonStorage.UnwrapWrap | server/storage-neon.ts:146-165 | a record stored as `{ data }` reads back with the same id, title, questions and time |
| NeonStorage.UnwrapAll | server/storage-neon.ts:179-187 | one record per row, each the row read back |
| NeonStorage.WithoutId | server/storage-neon.ts:197-201 | the rows kept are exactly those whose id differs, and a row goes away exactly when one has the id |
| NeonStorage.UserWithId | server/storage-neon.ts:109-110 | the user returned is a stored user with the id; none exactly when no stored user has it |
| NeonStorage.InitializeDatabase | server/storage-neon.ts:24-68 | at most three attempts; success exactly when one of the three gets through, reported after the first that does; a two-second wait between attempts and none after the last; after the third failure the error is rethrown |
| NeonStorage.Neon.constructor | server/storage-neon.ts:79-84 | the store starts not initialized, with empty tables |
| NeonStorage.Neon.Init | server/storage-neon.ts:86-93 | the flag is set exactly when the bootstrap succeeds; a failure is swallowed and leaves it unset; the tables are untouched |
| NeonStorage.Neon.EnsureInitialized | server/storage-neon.ts:95-104 | returns at once when initialized; otherwise polls at most thirty times and returns at the first poll that sees the flag, else times out after exactly thirty |
| NeonStorage.Neon.GetUser | server/storage-neon.ts:106-115 | the user with the id when the gate opens and the query succeeds; no user on any failure, the timeout included |
| NeonStorage.Neon.GetUserByUsername | server/storage-neon.ts:117-126 | the first user with the name when the gate opens and the query succeeds; no user on any failure |
| NeonStorage.Neon.CreateUser | server/storage-neon.ts:128-141 | succeeds exactly when the gate opens, the query succeeds and neither the id nor the username is taken; the new user is appended; every failure propagates and leaves the table |
| NeonStorage.Neon.SaveQuiz | server/storage-neon.ts:143-170 | succeeds exactly when the gate opens, the body is not `null`, the query succeeds and the id is new; the caller then gets the same record the in-memory store builds, and one row holding it wrapped is appended; every failure propagates and leaves the table |
| NeonStorage.Neon.GetStoredQuizzes | server/storage-neon.ts:172-192 | every stored record, newest first, when the gate opens and the query succeeds; the empty list on any failure |
| NeonStorage.Neon.DeleteQuiz | server/storage-neon.ts:194-206 | true exactly when a row with the id went away; the other rows stay in order; any failure reads as false and changes nothing |
| NeonStorage.DeleteIsFinal | server/storage-neon.ts:194-206 | after a delete no row has the id, and deleting it again changes nothing |
| NeonStorage.WithoutIdKeepsValid | server/storage-neon.ts:44-49 | deleting keeps quiz ids unique, as the primary key demands |
| NeonStorage.NoIdUnchanged | server/storage-neon.ts:197-201 | deleting an id no row has changes nothing |
| Routes.MockQuiz | server/routes.ts:19-36 | the mock quiz has exactly the number of questions asked for |
| Routes.MockQuestionKept | server/routes.ts:23-32 | a mock question has four options, its answer is the first, and it passes the generated-question filter |
| Routes.MockQuizKept | server/routes.ts:19-36 | every question of the mock quiz passes the filter |
| Routes.GenerateMockQuiz | server/routes.ts:19-36 | the loop from 1 while `i <= numQuestions` builds the mock questions 1, 2, ... in order, as many as the count allows |
| Routes.MockCount | server/routes.ts:22 | a fractional count is rounded down; a NaN count gives no questions |
| GeneratedQuestions.ValidInputBounds | server/routes.ts:142 | a count from 1 to 50 passes the guard, fractions included; below 1 or above 50 fails; a missing type fails |
| GeneratedQuestions.ValidInputText | server/routes.ts:142 | a count sent as text is compared as the number it reads as: "2.5" passes, "-5" is refused |
| GeneratedQuestions.BracketSpan | server/routes.ts:100 | a span exists exactly when some '[' precedes some ']'; it runs from the first '[' to the last ']' |
| GeneratedQuestions.GreedySpan | server/routes.ts:100 | the span runs past inner ']' to the last one |
| GeneratedQuestions.Filter | server/routes.ts:113-120 | a `null` entry anywhere throws; otherwise exactly the entries passing the test are kept |
| GeneratedQuestions.FilterAppend | server/routes.ts:113-120 | filtering keeps order: filtering a concatenation filters each part |
| GeneratedQuestions.FilterAllPass | server/routes.ts:113-120 | a list whose entries all pass comes back unchanged |
| GeneratedQuestions.FilterIdempotent | server/routes.ts:113-120 | filtering twice is filtering once |
| GeneratedQuestions.Extract | server/routes.ts:100-120 | questions come back exactly when there is a span, it parses to an array without `null`; all of them pass the filter |
| GeneratedQuestions.ExtractWellFormed | server/routes.ts:100-120 | a reply whose span parses to questions that all pass yields exactly those questions, in order |
| GeneratedQuestions.KeepsEncoded | server/routes.ts:113-120 | a question passes the filter exactly when its text and answer are not empty and its answer is one of its options |
| GeneratedQuestions.EncodedAllPass | server/routes.ts:113-120 | questions that each pass, encoded, all pass and hold no `null` |
| Routes.GenerateFromPromptWithClaude | server/routes.ts:41-125 | the filtered questions of the reply when the key is set, the request succeeds and the reply yields questions; the mock quiz for the trimmed prompt otherwise; every question returned passes the filter |
| Routes.GenerateQuizRoute | server/routes.ts:137-184 | a `null` body answers 500; a failed guard 400; 200 exactly for a prompt request whose prompt is a non-blank string, with the prompt as sent as title and the generated questions; a missing prompt 400, a non-string prompt 500; image and pdf 400 naming the type; any other type "Invalid type" |
| Routes.TitleIsUntrimmed | server/routes.ts:157-164 | the reply's title is the prompt as sent, spaces included, not the trimmed text used for generation |
| Routes.SaveQuizRoute | server/routes.ts:187-225 | the quiz is stored exactly when the title is a non-blank string and the data is a non-empty array whose every question has a truthy question, array options and a truthy answer; it is stored under the trimmed title; each guard answers its own 400 in order; a non-string title or a `null` question answers 500 |
| Routes.StoredQuestions | server/routes.ts:225 | an accepted request stores exactly the posted questions under the title given |
| Routes.StrictImpliesServer | server/routes.ts:214-222 | whatever the client's strict validator accepts, the server accepts question by question |
| Routes.ServerSkipsMembership | server/routes.ts:216 | the server accepts a question whose answer is not among its options, which the client's validator and the generated-question filter refuse |
| Routes.SaveQuizReply | server/routes.ts:225-234 | 201 with the stored record exactly when storage returned; 500 when it threw |
| Routes.ListRoute | server/routes.ts:238-249 | the list with 200 exactly when storage returned; 500 when it threw |
| Routes.DeleteRoute | server/routes.ts:252-278 | an empty id is refused with 400 before storage is asked; 200 exactly when storage deleted, 404 exactly when it reported false, 500 exactly when it threw |
| Routes.DeleteTwice | server/routes.ts:252-278 | with the in-memory store, deleting a stored id answers 200 and deleting it again 404 |
| GenerateQuizFunction.FallbackQuiz | netlify/functions/generate-quiz.ts:74-91 | the fallback quiz has exactly the number of questions asked for |
| GenerateQuizFunction.GenerateFallbackQuiz | netlify/functions/generate-quiz.ts:74-91 | the loop from 1 while `i <= numQuestions` builds the sample questions 1, 2, ... in order; the title plays no part |
| GenerateQuizFunction.FallbackQuizKept | netlify/functions/generate-quiz.ts:77-88 | every fallback question has four distinct options with the first as answer, and passes the generated-question filter |
| GenerateQuizFunction.ParseClaudeResponse | netlify/functions/generate-quiz.ts:44-69 | the filtered questions of the reply when it yields any; otherwise exactly five fallback questions, whatever count was asked for; every question returned passes the filter |
| GenerateQuizFunction.NoBracketFallsBack | netlify/functions/generate-quiz.ts:47-50 | a reply without '[' gives five questions |
| GenerateQuizFunction.GenerateFromPrompt | netlify/functions/generate-quiz.ts:96-160 | the fallback quiz of the requested size when the key is missing or the request fails; the parsed reply otherwise; every question passes the filter |
| GenerateQuizFunction.GenerateFromPdf | netlify/functions/generate-quiz.ts:250-266 | always the fallback quiz of the requested size |
| GenerateQuizFunction.Handler | netlify/functions/generate-quiz.ts:271-367 | 405 for any method but POST, before the body is read; 500 when the body does not parse or is `null`; a failed guard 400; 200 exactly for a prompt request with a truthy prompt, titled by the prompt and carrying the generated questions, all of which pass the filter; every other case 400 |
| GenerateQuizFunction.FileTypesRefused | netlify/functions/generate-quiz.ts:317-340 | image, pdf and unknown types are refused with 400 once the guard passes |
| ServerIndex.ErrorStatus | server/index.ts:88 | the error's own status when truthy, else its status code when truthy, else 500; never a falsy status |
| ServerIndex.ZeroStatusFallsThrough | server/index.ts:88 | a status of 0 counts as missing and the status code is used; with neither, 500 |
| ServerIndex.ErrorMessage | server/index.ts:89 | the error's own message when truthy, else "Internal Server Error" |
| ServerIndex.LogFilterExamples | server/index.ts:70 | the request log is a plain prefix test on "/api": "/apiary" is logged, "/" and "/health" are not |
| ServerIndex.Port | server/index.ts:109 | the port read from `PORT` when it is set to a non-empty value, else 5000 |
| ServerIndex.PortDefault | server/index.ts:109 | the default text reads back as 5000 |
| ServerIndex.PortRoundTrip | server/index.ts:109 | a port written in decimal is read back as itself |
| Text.LowerIdempotent | client/src/lib/quiz-utils.ts:103 | lower-casing twice is lower-casing once |
| Text.TrimStartEmpty | server/routes.ts:149 | trimming the start leaves nothing exactly when every character is white space |
| Text.TrimEndEmpty | server/routes.ts:149 | trimming the end leaves nothing exactly when every character is white space |
| Text.TrimStartSuffix | server/routes.ts:149 | trimming the start drops a prefix made only of white space |
| Text.BlankIffAllSpace | server/routes.ts:149 | `s.trim()` is empty exactly when every character of `s` is white space |
| Text.TrimUnchanged | server/storage.ts:15 | text that neither starts nor ends with white space is its own trim |
| Text.ContainsEmpty | client/src/lib/quiz-utils.ts:107 | every text includes the empty text |
| Text.ContainsTransitive | client/src/lib/quiz-utils.ts:107 | a text that includes `mid` includes everything `mid` includes |
| Text.FirstIndex | server/storage.ts:14 | the position found holds the character and none before it does |
| Text.LastIndex | server/routes.ts:100 | the position found holds the character and none after it does |
| Text.Split | server/storage.ts:11 | splitting always yields at least one piece |
| Text.SplitPiecesFree | server/storage.ts:11-14 | no piece of a split contains the separator |
| Text.BeforeAfterFirst | server/storage.ts:14-15 | the text is the key, the first '=', and the value, in that order; without '=' the key is the whole line and the value empty; the key never contains '=' |
| Text.SplitJoin | server/storage.ts:11-15 | joining the pieces of a split with the separator gives the text back |
| Text.JoinCons | server/storage.ts:15 | joining a first piece and a non-empty rest puts the separator between them |
| Text.AfterFirstIsRejoin | server/storage.ts:14-15 | the value after the first "=" is the later pieces of the split joined again with "=" |
| Text.FirstIndexAt | server/storage.ts:14 | the first separator after a prefix without one is at the prefix's end |
| Text.DigitRun | client/src/lib/visitor-counter.ts:29 | the run read is all digits and stops at the first non-digit |
| Text.NatToStringDigits | client/src/lib/visitor-counter.ts:31 | the decimal text of a number is non-empty digits whose value is the number |
| Text.AllDigitsRun | client/src/lib/visitor-counter.ts:38 | a text of digits is read whole |
| Text.ParseIntOfIntToString | client/src/lib/visitor-counter.ts:29-38 | `parseInt(String(i), 10)` is `i` for every integer |
| Json.IncludesString | server/routes.ts:119 | for a string, `includes` is plain membership |
| Json.Pow10 | client/src/components/quiz/QuizGenerator.tsx:77 | powers of ten are at least 1 |
| Json.ExponentMark | client/src/components/quiz/QuizGenerator.tsx:77 | the first "e" or "E" of a literal, or its end when there is none |
| Json.NumberOfUnpadded | client/src/components/quiz/QuizGenerator.tsx:77 | `Number` trims white space first: a text without leading or trailing white space is read as it stands, with an optional sign |
| Json.DigitsHaveNoMark | client/src/components/quiz/QuizGenerator.tsx:77 | a digit run has no exponent mark and no decimal point |
| Json.ExponentMarkAfter | client/src/components/quiz/QuizGenerator.tsx:77 | the exponent mark is the first one after any prefix without a mark |
| Json.MantissaOfDigits | client/src/components/quiz/QuizGenerator.tsx:77 | a digit run is a mantissa worth its decimal value |
| Json.NumberOfDigits | client/src/components/quiz/QuizGenerator.tsx:77 | `Number` of a digit run is its decimal value |
| Json.NumberOfNatText | client/src/components/quiz/QuizGenerator.tsx:77 | `Number(String(n))` is `n` for every natural number |
| Json.MantissaOfFraction | client/src/components/quiz/QuizGenerator.tsx:77 | digits, ".", digits read as the whole part plus the fraction over a power of ten; one side may be empty |
| Json.NumberOfFraction | client/src/components/quiz/QuizGenerator.tsx:77 | `Number` of digits, ".", digits is the whole part plus the fraction |
| Json.NumberOfNegative | client/src/components/quiz/QuizGenerator.tsx:77 | a leading "-" negates the value |
| Json.ScaledDigits | client/src/components/quiz/QuizGenerator.tsx:77 | digits, "e", digits read as the mantissa scaled by that power of ten |
| Json.NumberOfExponent | client/src/components/quiz/QuizGenerator.tsx:77 | `Number` of digits, "e", digits is the mantissa scaled by the power of ten |
| Json.NumberOfFractionExample | client/src/components/quiz/QuizGenerator.tsx:77 | "2.5" reads as 2.5 |
| Json.NumberOfExponentExample | client/src/components/quiz/QuizGenerator.tsx:77 | "1e1" reads as 10 |
| Json.NumberOfNegativeExample | client/src/components/quiz/QuizGenerator.tsx:77 | "-5" reads as -5 |
| QuizTypes.StringsToJson | client/src/lib/quiz-types.ts:3 | one JSON string per option, in order |
| QuizTypes.StringsToJsonHas | server/routes.ts:119 | an answer is among the encoded options exactly when it is among the options |
| QuizTypes.QuestionsToJson | client/src/lib/quiz-types.ts:1-10 | one encoded question per question, in order |
| QuizTypes.StringsOf | client/src/lib/quiz-types.ts:3 | a list reads as options exactly when every entry is a string, and the options encode back to the list |
| QuizTypes.QuestionOf | client/src/lib/quiz-types.ts:1-5 | a value that reads as a question has a string question, an array of string options and a string answer, which are the question's; a value whose question is not a string does not read |
| QuizTypes.QuestionsOf | client/src/lib/quiz-types.ts:7-10 | a list reads as questions exactly when every entry does, one question per entry in order |
| QuizTypes.QuestionRoundTrip | client/src/lib/quiz-types.ts:1-5 | reading back an encoded question gives the question |
| QuizTypes.QuizDataRoundTrip | client/src/lib/quiz-types.ts:7-10 | reading back an encoded quiz gives the quiz |
| OrderedMap.Put | server/storage.ts:85 | `set` makes the key map to the value, leaves every other key, appends a new key at the end and keeps the length for a present one |
| OrderedMap.Remove | server/storage.ts:96 | `delete` leaves the key absent and every other key as it was; a missing key changes nothing |
| OrderedMap.Values | server/storage.ts:90 | the values in entry order |
| OrderedMap.RemovePresent | server/storage.ts:96 | deleting a present key from a map with unique keys removes exactly one entry |
| OrderedMap.NotHas | server/storage.ts:96 | a key no entry carries is absent |
| OrderedMap.HasIffEntry | server/storage.ts:61 | a key is present exactly when some entry carries it |
| OrderedMap.PutKeepsUnique | server/storage.ts:85 | `set` keeps keys unique |
| OrderedMap.PutInPlace | server/storage.ts:85 | `set` on a present key keeps every entry's key and position |
| OrderedMap.RemoveKeepsUnique | server/storage.ts:96 | `delete` keeps keys unique |
| Ordering.WithKey | server/storage.ts:90-92 | the elements with a given key are a subsequence, no longer than the list |
| Ordering.Insert | server/storage.ts:90-92 | inserting adds exactly one element |
| Ordering.SortDesc | server/storage.ts:90-92 | sorting keeps the length |
| Ordering.InsertBounded | server/storage.ts:90-92 | inserting never exceeds a bound on the keys |
| Ordering.InsertSorted | server/storage.ts:90-92 | inserting into a descending list keeps it descending |
| Ordering.InsertPermutes | server/storage.ts:90-92 | inserting adds exactly the element |
| Ordering.WithKeyCons | server/storage.ts:90-92 | the key class of a list with a head is the head's contribution followed by the tail's |
| Ordering.InsertWithKey | server/storage.ts:90-92 | inserting appends the element to its own key class and leaves every other class |
| Ordering.NoneWithKey | server/storage.ts:90-92 | a descending list headed by a smaller key holds no element of the larger key |
| Ordering.SortDescCorrect | server/storage.ts:90-92 | the comparator sort orders newest first and is a permutation of its input |
| Ordering.WithKeyAppend | server/storage.ts:90-92 | appending an element extends its own key class only |
| Ordering.SortDescStable | server/storage.ts:90-92 | the sort is stable: elements with equal keys keep their input order |

## Left out

- React rendering, animation, toasts, dialogs' markup, drag and drop and the clipboard. SubmitConfirmModal.tsx, Header.tsx, theme-toggle.tsx, main.tsx and HistorySection.tsx only render, so they are not part of this model. The progress-bar width is not modelled either.
- netlify/functions/api.ts and the `/api/health` route only report a clock value, so they are not part of this model.
- Network, database and file-system I/O. Each call's outcome is a parameter:
  - `fetch` to the model API is a `Reply`;
  - SQL queries are an `ok` flag;
  - `writeFileSync`/`unlinkSync` are `writeOk`/`unlinkOk`;
  - the directory listing is a list of files.
  - The prompt text sent to the model is not modelled.
- `JSON.parse` and `JSON.stringify` are opaque. Parsing is a parameter, and a stringified value is assumed to read back as itself. The JSONB round trip in PostgreSQL is assumed the same way.
- Timers are left out: the 2-second retry delay, the 100 ms poll sleep and the 300 ms auto-advance. Only the number of attempts, waits and polls is modelled.
- Scheduling is left out:
  - `init` runs concurrently with the store's first calls; what a poll sees is the `observe` oracle.
  - The exported `storage` is assigned asynchronously in server/storage.ts:203-227; only the selection rule is modelled.
- QuizSection.Session.SelectOption: takes the 300 ms auto-advance as immediate. In the source, the timer captures the index at selection time, so a manual Next inside the delay can push the index one past the last question. The model keeps the index on a question.
- QuizSection.Session.constructor: requires at least one question, because the screen reads `data.data[0]` as soon as it renders.
- Floating point is left out. `Math.round((correctCount / answeredCount) * 100)` (and the same per topic) is computed exactly as (200·correct + answered) div (2·answered), so an exact half rounds up. Double division can land just below a half (29 of 200 gives 14 in the source, 15 here). Numbers in parsed JSON are exact reals.
- Json.NumberOfText: reads blank text and signed decimal literals (fraction, exponent). "Infinity", "-Infinity" and the 0x, 0o and 0b forms read as NaN, where JavaScript reads them as numbers ("0x10" is 16). The count field of the generator dialog is a number input, whose value never takes those forms.
- Json.ToNumber: a one-element array reads as NaN, where JavaScript converts its element.
- GeneratedQuestions.ValidInputBounds: a count sent as the text "Infinity", "-Infinity" or in 0x, 0o or 0b form reads as NaN, so it always passes the guard. In the source such a count passes only when its number lies in 1..50 ("0x10" passes, "Infinity" and "0x100" answer 400).
- QuizGeneratorPanel.GeneratorForm.GenerateFromPrompt: a count text "Infinity" or in 0x, 0o or 0b form would read as NaN and be refused, where JavaScript reads a number and accepts it when it lies in 1..50 ("0x10"). The number input never holds such text.
- QuizGeneratorPanel.GeneratorForm.GenerateFromFile: the same as the line above.
- Routes.GenerateQuizRoute: a count sent as the text "Infinity" or in 0x, 0o or 0b form reads as NaN and passes the count guard. An in-range hex count passes in the source too, but there the mock loop (Routes.GenerateMockQuiz) builds that many questions ("0x10" gives 16) where the model builds none. An out-of-range hex count or "Infinity" answers 400 in the source only.
- GenerateQuizFunction.Handler: a count sent as the text "Infinity" or in 0x, 0o or 0b form reads as NaN and passes the count guard. An in-range hex count passes in the source too, but there the fallback loop (GenerateQuizFunction.GenerateFallbackQuiz) builds that many questions ("0x10" gives 16) where the model builds none. An out-of-range hex count or "Infinity" answers 400 in the source only.
- Text.Lower and Text.IsSpace: ASCII only. Unicode case mapping and Unicode white space are left out.
- VisitorCounter.FormatVisitorCount: assumes the en-US locale for `toLocaleString`.
- Home.HomePage.QuizComplete: the date text of the default title is the parameter `today`, and the ISO timestamps are the integer `now`. A stored value that parses to something other than a list is treated like a list; the source's `push` would throw on it.
- StorageUtils.GetSavedQuizzes: the stored value is a list, corrupt or missing. Valid JSON that is not an array, such as "null" or "{}", is not modelled. The source returns what it parsed, and `push` then throws inside `saveQuiz`'s `try`, so nothing is written.
- StorageUtils.GetHistory: the same as the line above, for the history and `addToHistory`.
- ServerStorage.FileStorage.constructor: the file system holds files only, as absolute paths; directories, links and permissions are left out. The working directory is taken to be a normal path. A `.json` file is either a quiz record or unreadable. A file that parses to a value without an `id` is not modelled; the source files it under `undefined`. Creating the missing directory is left out.
- Home.HomePage.QuizStart: takes a typed `QuizData`. The upload screen hands on any document whose entries have truthy fields, cast without a check (UploadSection.LooseStartsUntyped). When such a document does not read as `QuizData` (QuizTypes.QuizDataOf), the source goes on and throws later: the quiz screen calls `map` on non-array options, and scoring calls `replace` on a non-string question. That path is not modelled.
- ResultsSection.Score: takes typed questions, so the exception that scoring throws on a non-string question (see the line above) is not modelled.
- NeonStorage.Neon.constructor: does not start `init`. The source starts it without awaiting, so the model calls `Init` separately.
- NeonStorage.Neon.GetStoredQuizzes: states the rows are sorted newest first and are a permutation of the table. The order PostgreSQL gives rows with equal timestamps is unspecified, so no tie order is promised.
- NeonStorage.Neon.SaveQuiz: the timestamp returned is the row's default `created_at`, passed as `now`.
- The user table is modelled only as far as the storage classes use it. shared/schema.ts is not part of this model.
- Decoding of a base64 request body in the serverless function is the `decode` parameter.
- `generateFromImage` in netlify/functions/generate-quiz.ts:165-245 is left out: the handler never calls it, because the image type is refused first.
- `parseImageContent`, `parsePdfContent` and `callAIAPI` in client/src/lib/quiz-generator.ts are left out. They are placeholders that throw or return fixed text, and no modelled code calls them.
- QuizGeneratorUtil.GenerateMockQuiz: takes the count as a natural number. The fractional and NaN counts of the server loops are modelled in Routes.GenerateMockQuiz and GenerateQuizFunction.GenerateFallbackQuiz.
- A reply whose first content block has no string `text` is not a separate case. It is given as `Content("")`: in both servers `match` then throws inside a `try` and the same fallback follows. For the serverless function that is five questions.
- ServerIndex: the error handler's rethrow after answering, the log line's format and timing, static serving, the Vite set-up, listening and signal handling are left out.
