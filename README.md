# English-learning workspace: review engine, labs and import, in Dafny

This project models the deterministic core of a browser application for learners of
English. The app has a material library, a listening lab, a speaking lab, a vocabulary
and grammar collection with spaced-repetition review, and an import dialog. What is
modelled:

- **Store** (`store.dfy`, `review.dfy`). The key-value store is the class
  `Storage.Store`, with one field per storage key. A field is `None` while its key is
  absent; the first read then seeds it with the mock list.
  - Review follows the Ebbinghaus-style interval table `[1, 2, 4, 7, 15, 30]` days.
  - Completing an item advances its stage, capped at 5, and sets the next review to
    `now + interval(stage) * 86400000`.
  - The review queue is the word tasks followed by the grammar tasks, sorted stably by
    due time.
- **Dashboard** (`dashboard.dfy`). It counts due tasks (inclusive boundary) and labels
  due dates (today, tomorrow, or `n天后`). "Start review" is the class
  `Dashboard.DashboardView`: its loop completes every due task through the store.
- **Transcript segmentation** (`transcript.dfy`). Both labs cut a transcript at
  `mm:ss` stamps; the speaking lab also accepts `m:ss`. Sentences are split as
  `/[^.!?]+[.!?]+/g` splits them.
- **Listening lab** (`listening.dfy`):
  - the material filters, including the `parseInt` duration buckets;
  - the shadowing sentence list and where each sentence ends;
  - the workflow steps and sentence navigation (class `Listening.ListeningSession`).
- **Speaking lab** (`speaking.dfy`):
  - `parseTimestampedText`, which builds the practice items;
  - the initial items built from stored sentences;
  - focus clamps, loop mode, the recording guard and the translation toggle (class
    `Speaking.SpeakingSession`).
- **Import dialog** (`import.dfy`): extension stripping, the reading-time estimate,
  file type selection, the confirm-button rule, and the material `handleSubmit` builds.
- **Model reply post-processing** (`gemini.dfy`): difficulty, topic and translation
  taken from a reply text, and the 500-character input truncation.
- **String helpers** (`strings.dfy`): the JavaScript string built-ins used, namely
  `trim`, ASCII `toLowerCase`, `includes`, `split`, `replace(/c/g,'')` and `parseInt`
  (white space, sign, `0x` prefix, leading digits, NaN), plus number printing.

Inputs:

- The clock (`Date.now()`), generated ids, object URLs, the probed media duration and the
  model's replies are parameters.
- A reply is `NoClient` (no API key), `Failed`, or `Answered(text)`. A missing reply text
  behaves as the empty text everywhere it is used.

Speaking-lab placeholders: the speaking lab's two translation placeholders are kept
exactly as its file spells them. Those spellings are UTF-8 Chinese text decoded as Mac
Roman. The component both displays them and compares against them, so its behaviour
does not depend on the spelling.

## Model

| member | source | states |
|---|---|---|
| Review.NextStage | services/storageService.ts:241 | the next stage is one more than the current, capped at 5 (`min(stage+1, 5)`), and always between 1 and 5 |
| Review.CompleteWord | services/storageService.ts:237-250 | completing a word sets stage to the next stage and the next review to `now + REVIEW_INTERVALS[stage] * 86400000`, and changes no other field |
| Review.CompleteGrammar | services/storageService.ts:252-266 | the same for a grammar item |
| Review.CompletedNotDue | services/storageService.ts:141-146 | a completed item falls due between 2 and 30 days after `now` |
| Review.DueAfter | services/storageService.ts:241-246 | no contract of its own; Review.CompleteWord, Review.CompletedNotDue and Review.ScheduleExamples characterise it |
| Review.StageMonotoneAndCapped | services/storageService.ts:241 | completion never lowers a stage, and completing a stage-5 item leaves it at 5 |
| Review.ScheduleExamples | services/storageService.ts:241-246 | stage 0 completed at T is due at T + 2 days; stage 5 is due at T + 30 days |
| Review.MarkWords | services/storageService.ts:238-251 | the list keeps its length and order; exactly the items with the matching id are completed |
| Review.MarkGrammar | services/storageService.ts:253-266 | the same for the grammar list |
| Review.WordTasks | services/storageService.ts:218-223 | one word task per item, in order, with the item's id, its word as title and its due time |
| Review.GrammarTasks | services/storageService.ts:225-230 | one grammar task per item, with the rule as title |
| Review.SortByDue | services/storageService.ts:232 | the result is sorted ascending by due time and is a permutation of the input |
| Review.SortStable | services/storageService.ts:232 | for each due time, the tasks with that time keep their input order (stable sort) |
| Review.QueueContents | services/storageService.ts:214-233 | the queue is sorted, is a permutation of word tasks ++ grammar tasks, and holds exactly those tasks |
| Review.BuildQueue | services/storageService.ts:214-233 | no contract of its own; Review.QueueContents, Review.QueueTieBreak and Review.CountQueue characterise it |
| Review.QueueTieBreak | services/storageService.ts:232 | on equal due times every word task comes before every grammar task |
| Review.CountQueue | services/storageService.ts:232 | sorting neither adds nor loses tasks: any count over the queue is the word count plus the grammar count |
| Storage.OrElse | services/storageService.ts:177-181 | `field || fallback`: a present nonempty field is kept; a missing or empty one gives the fallback |
| Storage.NewWord | services/storageService.ts:176-185 | a new word has stage 0, is added at `now`, is due one day later, and takes its fields (or `''`, or a fresh id) from the draft |
| Storage.NewGrammar | services/storageService.ts:200-209 | the same for a grammar item |
| Storage.NewWordSchedule | services/storageService.ts:183-184 | a new word is not due within its first day, and reviewing it moves it to stage 1 |
| Storage.ReplaceById | services/storageService.ts:161 | the list keeps its length; each entry with the material's id is replaced and the others are kept |
| Storage.ReplaceByIdFacts | services/storageService.ts:159-164 | updating twice is updating once; with no matching id nothing changes; with one, the material is in the list |
| Storage.UniqueNew | services/storageService.ts:295 | the kept sentences are exactly the input sentences not already stored |
| Storage.UniqueNewConcat | services/storageService.ts:295 | the filter distributes over concatenation, so the kept sentences keep their input order and repeats |
| Storage.UniqueNewOne | services/storageService.ts:295 | a single sentence is kept exactly when it is not stored yet |
| Storage.MergeSpeaking | services/storageService.ts:293-299 | no contract of its own; Storage.MergeSpeakingFacts, Storage.MergeSpeakingIdempotent and Storage.NothingNew characterise it |
| Storage.MergeSpeakingFacts | services/storageService.ts:293-299 | the stored list survives intact as a suffix; everything before it is new and from the input; every input sentence ends up in the list |
| Storage.MergeSpeakingIdempotent | services/storageService.ts:293-299 | adding the same sentences again changes nothing |
| Storage.NothingNew | services/storageService.ts:295 | sentences that are all stored already add nothing |
| Storage.Store.GetMaterials | services/storageService.ts:143-150 | returns the stored list, or seeds the key with the mock list and returns it |
| Storage.Store.SaveMaterial | services/storageService.ts:152-157 | prepends the material, so the list grows by one |
| Storage.Store.UpdateMaterial | services/storageService.ts:159-164 | writes and returns the list with the matching entries replaced |
| Storage.Store.GetVocabulary | services/storageService.ts:166-173 | returns the stored vocabulary, seeding it with the mock list when absent |
| Storage.Store.GetGrammar | services/storageService.ts:190-197 | the same for grammar |
| Storage.Store.AddVocabulary | services/storageService.ts:175-188 | prepends the new word; the existing items follow unchanged |
| Storage.Store.AddGrammar | services/storageService.ts:199-211 | prepends the new grammar item; the existing items follow unchanged |
| Storage.Store.GetReviewItems | services/storageService.ts:214-233 | returns the sorted queue of the (seeded) vocabulary and grammar lists |
| Storage.Store.MarkReviewComplete | services/storageService.ts:235-267 | completes the matching items of the list the kind selects and writes only that list |
| Storage.Store.GetSpeakingSentences | services/storageService.ts:288-291 | returns the stored sentences or the defaults, and does not write the key |
| Storage.Store.AddSpeakingSentences | services/storageService.ts:293-299 | writes and returns the new sentences followed by the stored ones |
| Dashboard.DueTasks | components/Dashboard.tsx:24 | the due tasks are exactly the tasks with `nextReviewAt <= now` (inclusive) |
| Dashboard.IsDue | components/Dashboard.tsx:24 | no contract of its own; the due test `nextReviewAt <= now`, which Dashboard.DueLength ties to Dashboard.DueTasks |
| Dashboard.DueLength | components/Dashboard.tsx:24 | the due count is the number of tasks passing the due test |
| Dashboard.DueTasksConcat | components/Dashboard.tsx:24 | the filter distributes over concatenation, so the due tasks keep the queue's order |
| Dashboard.DueTasksOne | components/Dashboard.tsx:24 | a single task is kept exactly when `nextReviewAt <= now` |
| Dashboard.DaysUntil | components/Dashboard.tsx:43 | `ceil(diff / 86400000)` for a positive difference: the day count `d` with `(d-1)·day < diff <= d·day` |
| Dashboard.DueLabel | components/Dashboard.tsx:41-47 | '今天' whenever the difference is at most 0, '明天' within the next day, and otherwise the day count followed by '天后' |
| Dashboard.DueLabelDays | components/Dashboard.tsx:43-46 | a due time `d >= 2` days ahead is labelled with `d` followed by '天后' |
| Dashboard.Listed | components/Dashboard.tsx:140 | the listed tasks are the first five (or all, when there are fewer) |
| Dashboard.ReviewEnabledIff | components/Dashboard.tsx:155 | the review button is enabled exactly when some task is due |
| Dashboard.DueCountSplits | components/Dashboard.tsx:20-26 | the due count of the queue is the due words plus the due grammar items |
| Dashboard.StartReviewWords | components/Dashboard.tsx:28-39 | with distinct ids, "start review" completes each due word exactly once and leaves the others untouched |
| Dashboard.StartReviewGrammars | components/Dashboard.tsx:28-39 | the same for grammar items |
| Dashboard.DashboardView.constructor | components/Dashboard.tsx:20-26 | the view starts with the store's queue and its due count |
| Dashboard.DashboardView.Refresh | components/Dashboard.tsx:20-26 | reloads the queue and sets the due count to the number of due tasks |
| Dashboard.DashboardView.StartReview | components/Dashboard.tsx:28-39 | completes every due task in queue order through the store, reports their number, and refreshes |
| Transcript.StampLen | components/ListeningLab.tsx:281 | the stamp at a position is `dd:dd` (5 characters), or `d:dd` (4) where one minute digit is allowed, or none |
| Transcript.StampSeconds | components/ListeningLab.tsx:288-289 | a stamp's value is `min * 60 + sec`, with seconds not range-checked |
| Transcript.NextStamp | components/ListeningLab.tsx:281 | the position of the first stamp: no stamp before it, and one there unless it is the end |
| Transcript.MarksWhenStamped | components/ListeningLab.tsx:280-283 | the transcript yields marks exactly when the stamp test succeeds |
| Transcript.Marks | components/ListeningLab.tsx:280-290 | no contract of its own (the speaking lab's scan at components/SpeakingLab.tsx:42-52 is the same function with the other stamp flavour); Transcript.MarksWhenStamped and Transcript.MarksRender characterise it |
| Transcript.StampRoundTrip | components/ListeningLab.tsx:288-289 | a `mm:ss` stamp written for `t` seconds reads back as `t` |
| Transcript.MarksRender | components/ListeningLab.tsx:281-289 | a transcript written as stamps and texts reads back as exactly those marks: one per stamp, in order, with seconds and trimmed text |
| Transcript.Sentences | components/ListeningLab.tsx:311 | each match of `[^.!?]+[.!?]+` is nonempty, starts with a non-terminator and ends with a terminator |
| Transcript.SentencesCover | components/ListeningLab.tsx:311 | for text starting with a non-terminator and ending with a terminator, the matches concatenated give the text back |
| Transcript.TrimNonEmpty | components/ListeningLab.tsx:312 | every kept piece is trimmed and nonempty, and there are no more of them than pieces; Transcript.TrimNonEmptyConcat and Transcript.TrimNonEmptyOne fix which ones, in order |
| Transcript.TrimNonEmptyConcat | components/ListeningLab.tsx:312 | trimming and dropping empty pieces distributes over concatenation |
| Transcript.TrimNonEmptyOne | components/ListeningLab.tsx:312 | one piece gives its trimmed text when that is nonempty, and nothing otherwise |
| Transcript.TrimNonEmptyKeeps | components/ListeningLab.tsx:312 | pieces already trimmed and nonempty come through unchanged |
| Transcript.PlainRunIs | components/ListeningLab.tsx:311 | a prefix free of terminators and followed by one (or by the end) is the text part of a match |
| Transcript.TerminatorRunIs | components/ListeningLab.tsx:311 | a prefix of terminators followed by a non-terminator (or the end) is the terminator part of a match |
| Transcript.FirstSentence | components/ListeningLab.tsx:311 | a written sentence after at most one separator, followed by a separator or nothing, is the first match, and matching goes on after it |
| Transcript.TerminatorsThen | components/ListeningLab.tsx:311 | a run of terminators ends where a non-terminator follows |
| Transcript.SentencesOfJoined | components/ListeningLab.tsx:311-312 | written sentences joined by a white-space character are matched and trimmed back to exactly those sentences, in order |
| Listening.ShadowDuration | components/ListeningLab.tsx:263-271 | a nonzero audio duration wins; else an `m:ss` material duration; else `ceil(2·words/5)` with words split on single spaces |
| Listening.ShadowDurationClock | components/ListeningLab.tsx:265-267 | an `m:ss` duration gives `m * 60 + ss` seconds |
| Listening.ClockSeconds | components/ListeningLab.tsx:265-267 | no contract of its own; Listening.ShadowDurationClock and Listening.ClockWithoutSeconds characterise it |
| Listening.ClockWithoutSeconds | components/ListeningLab.tsx:264-297 | an `m:` duration is NaN, so the last sentence ends five seconds after its start |
| Listening.ShadowNodes | components/ListeningLab.tsx:284-305 | one sentence per mark with the mark's start; text "..." for an empty mark; each ends at the next start; the last ends at the duration, or `start + 5` when that is 0 or NaN |
| Listening.ShadowOfRendered | components/ListeningLab.tsx:280-305 | a transcript written from marks gives back those texts and starts, tiled end to start |
| Listening.ShadowSentences | components/ListeningLab.tsx:278-331 | no contract of its own; Listening.ShadowOfRendered (stamped) and Listening.ShadowOfJoined (unstamped) characterise it |
| Listening.ShadowOf | components/ListeningLab.tsx:261-331 | no contract of its own; ShadowSentences of the material's transcript with Listening.ShadowDuration as the duration |
| Listening.CleanSentences | components/ListeningLab.tsx:311-312 | the clean sentences are trimmed and nonempty |
| Listening.CleanJoined | components/ListeningLab.tsx:311-312 | written sentences joined by a white-space character clean back to exactly those sentences, in order (none for the empty text) |
| Listening.ShadowOfJoined | components/ListeningLab.tsx:309-331 | an unstamped transcript of written sentences gives one node per sentence, in order, with zero times |
| Listening.CleanUnterminated | components/ListeningLab.tsx:311-312 | text with no terminator is kept whole |
| Listening.BucketOfClock | components/ListeningLab.tsx:350-355 | a duration `m:...` is short iff `m < 3`, medium iff `3 <= m <= 5`, long iff `m > 5` |
| Listening.DurationBuckets | components/ListeningLab.tsx:350-355 | a numeric duration is in exactly one bucket, and a non-numeric one is in none |
| Listening.DurationMatches | components/ListeningLab.tsx:350-355 | no contract of its own; Listening.DurationBuckets, Listening.BucketOfClock and Listening.UnknownIsNaN characterise it |
| Listening.UnknownIsNaN | components/ListeningLab.tsx:351 | `parseInt('Unknown')` is NaN |
| Listening.TopicCaseInsensitive | components/ListeningLab.tsx:347 | the topic filter ignores case |
| Listening.MatchesFilters | components/ListeningLab.tsx:345-358 | no contract of its own; Listening.TopicCaseInsensitive, Listening.NoFilters and Listening.FilterMaterials characterise it |
| Listening.FilterMaterials | components/ListeningLab.tsx:345-358 | the shown materials are exactly those passing all three filters |
| Listening.NoFilters | components/ListeningLab.tsx:346-349 | with every filter empty, all materials are shown in order |
| Listening.FilterMaterialsConcat | components/ListeningLab.tsx:345-358 | the filter distributes over concatenation, so the grid keeps the library's order |
| Listening.FilterMaterialsOne | components/ListeningLab.tsx:345-358 | a single material is shown exactly when it passes the filters |
| Listening.ListeningSession.StartPractice | components/ListeningLab.tsx:365-372 | opening a material enters the blind-listening step, clears completion and resets loop mode |
| Listening.ListeningSession.InitShadowing | components/ListeningLab.tsx:261-331 | at the shadowing step the sentence list is rebuilt from the transcript and the first sentence selected |
| Listening.ListeningSession.StepBack | components/ListeningLab.tsx:1136-1137 | back goes to `max(BLIND_LISTENING, step - 1)`; loop mode is reset exactly when the step changes, and kept at `BLIND_LISTENING` |
| Listening.ListeningSession.StepForward | components/ListeningLab.tsx:1143-1152 | below shadowing, forward goes one step on, and arriving at shadowing with a material rebuilds the sentence list and selects the first; at shadowing, the button completes and syncs instead, and without a material changes nothing |
| Listening.ListeningSession.CompleteAndSync | components/ListeningLab.tsx:664-671 | the transcript's clean sentences are merged into the stored speaking list and the completion dialog opens |
| Listening.ListeningSession.NextSentence | components/ListeningLab.tsx:522-535 | moves on by exactly one only while not at the last sentence, and sets the loop stop to that sentence's end |
| Listening.ListeningSession.PrevSentence | components/ListeningLab.tsx:537-547 | moves back by exactly one only while not at the first |
| Listening.ListeningSession.ToggleLoop | components/ListeningLab.tsx:549-560 | toggles loop mode; in loop mode the stop is the current sentence's end |
| Listening.ListeningSession.Exit | components/ListeningLab.tsx:825 | returns to the grid |
| Speaking.StampedItems | components/SpeakingLab.tsx:46-68 | one item per mark, with its start; the text is "No text content" when empty; each ends at the next start and the last at `start + 5`; translation hidden |
| Speaking.PlainItems | components/SpeakingLab.tsx:70-79 | without stamps every item is trimmed and nonempty, with `start = end = 0` and the translation hidden |
| Speaking.PlainItemsTexts | components/SpeakingLab.tsx:70-79 | the items' texts are exactly the pieces trimmed, empty ones dropped, in order |
| Speaking.ParseTimestampedText | components/SpeakingLab.tsx:41-80 | one item per stamp when there are stamps; otherwise the texts are the trimmed nonempty sentences (or else lines), in order, with zero times; never showing a translation |
| Speaking.SpeakingOfJoined | components/SpeakingLab.tsx:69-79 | an unstamped text of written sentences joined by a white-space character comes back as exactly those sentences, in order, with zero times |
| Speaking.SpeakingOfRendered | components/SpeakingLab.tsx:42-68 | a text written from marks gives back their texts and starts, each ending at the next start and the last five seconds on |
| Speaking.OneDigitMinute | components/SpeakingLab.tsx:42-52 | `m:ss text` with a one-digit minute is one item from `m*60+ss` to five seconds later |
| Speaking.InitialItems | components/SpeakingLab.tsx:87-94 | stored sentence `i` becomes item `s-i` from `5i` to `5(i+1)`, back to back |
| Speaking.InitialIdsDistinct | components/SpeakingLab.tsx:88 | the initial items' ids are distinct |
| Speaking.NextIndex | components/SpeakingLab.tsx:162 | `min(len-1, i+1)`: one on, never past the last item |
| Speaking.PrevIndex | components/SpeakingLab.tsx:177 | `max(0, i-1)`: one back, never before the first |
| Speaking.ClampsStayInside | components/SpeakingLab.tsx:162-177 | inside a nonempty list both clamps stay inside it and move by one except at the ends |
| Speaking.SpeakingSession.constructor | components/SpeakingLab.tsx:84-97 | the lab starts with the items built from the stored sentences |
| Speaking.SpeakingSession.PlayNext | components/SpeakingLab.tsx:161-174 | focuses `min(len-1, i+1)` and, when that item exists, seeks to its start, plays, and stops at its end in loop mode |
| Speaking.SpeakingSession.PlayPrev | components/SpeakingLab.tsx:176-189 | focuses `max(0, i-1)` and plays it the same way |
| Speaking.SpeakingSession.ArrowDown | components/SpeakingLab.tsx:395-398 | the down key moves the focus with the same clamp |
| Speaking.SpeakingSession.ArrowUp | components/SpeakingLab.tsx:399-402 | the up key moves the focus with the same clamp |
| Speaking.SpeakingSession.ToggleLoop | components/SpeakingLab.tsx:191-201 | toggles loop mode, stopping at the focused item's end in loop mode |
| Speaking.SpeakingSession.ToggleRecording | components/SpeakingLab.tsx:309-358 | while another item records the request is ignored; for the recording item it stops; otherwise, with the microphone granted, it records that item and stops both players |
| Speaking.SpeakingSession.ToggleTranslation | components/SpeakingLab.tsx:360-387 | hides a shown translation; replaces a placeholder with the translator's answer; shows any other; only that item changes |
| Speaking.SpeakingSession.ImportText | components/SpeakingLab.tsx:428-440 | a nonempty text replaces the items with its parse; an empty one changes nothing |
| ImportModal.StripExtension | components/ImportModal.tsx:79 | the result is a prefix of the name; when shorter, a '.' and one or more characters other than '/' and '.' were removed from the end |
| ImportModal.StripIff | components/ImportModal.tsx:79 | a name is shortened exactly when it ends in `.ext` with `ext` nonempty and free of '/' and '.' |
| ImportModal.StripAppended | components/ImportModal.tsx:79 | `base.ext` becomes `base`: only the final extension goes |
| ImportModal.WordCount | components/ImportModal.tsx:108 | the number of pieces of `text.split(/\s+/)`, at least 1 even for an empty text; ImportModal.WordCountRun and ImportModal.WordCountOfWords state what is counted |
| ImportModal.WordCountRun | components/ImportModal.tsx:108 | a white-free word followed by a run of white space of any length counts one word more than the rest of the text; leading white space counts an empty first word |
| ImportModal.WordCountOfWords | components/ImportModal.tsx:108 | `n` nonempty white-free words separated by spaces count `n` words |
| Strings.SplitWhite | components/ImportModal.tsx:108 | `split(/\s+/)` yields at least one piece and no piece holds white space |
| Strings.SplitWhiteNoWhite | components/ImportModal.tsx:108 | text without white space is a single piece, itself |
| Strings.SplitWhiteRun | components/ImportModal.tsx:108 | the first piece is the text before the first white-space run, and the whole run is one separator: `split(a + w + b) == [a] + split(b)` |
| Strings.TrimStartWhiteRun | components/ImportModal.tsx:108 | a maximal run of leading white space is dropped whole, also when nothing follows it |
| Strings.SplitWhiteJoin | components/ImportModal.tsx:108 | words joined by single spaces split back into exactly those words, in order |
| ImportModal.EstimateDuration | components/ImportModal.tsx:108-110 | no contract of its own; ImportModal.EstimateReadsBack and ImportModal.ImportedTextBucket characterise it |
| ImportModal.ReadingMinutes | components/ImportModal.tsx:130-131 | `ceil(words/150)`, at least 1 for a nonzero count |
| ImportModal.EstimateReadsBack | components/ImportModal.tsx:130-132 | the estimate `m:00` reads back through `parseInt` as `ceil(words/150)`, with words split on white-space runs |
| ImportModal.ImportedTextBucket | components/ImportModal.tsx:130-132 | an imported text is short up to 300 words, medium up to 750, long beyond |
| ImportModal.FileKind | components/ImportModal.tsx:80-95 | `text/plain` is text; other types starting with "video" are video; the rest are audio |
| ImportModal.SubmitEnabledPerTab | components/ImportModal.tsx:270 | the confirm button is enabled exactly when not processing and the active tab's input is present |
| ImportModal.SubmitEnabled | components/ImportModal.tsx:270 | no contract of its own; ImportModal.SubmitEnabledPerTab characterises it |
| ImportModal.DefaultMaterial | components/ImportModal.tsx:65-75 | every import starts as 'New Material', text, 'Unknown', 'User Import', intermediate, 'General', empty transcript |
| ImportModal.BuildMaterial | components/ImportModal.tsx:62-141 | per tab, the fields `handleSubmit` sets; a probed duration is kept only when not 'Unknown'; the link tab sets source, video and the fixed title |
| Gemini.PromptInput | services/geminiService.ts:113 | classifier input is the first 500 characters (all of a shorter input) |
| Gemini.EstimateDifficulty | services/geminiService.ts:126-146 | beginner iff the trimmed lower-cased reply includes "beginner"; advanced iff not that and it includes "advanced"; no client and failure give intermediate |
| Gemini.DifficultyOfName | services/geminiService.ts:139-142 | a reply that is a level's name gives that level back |
| Gemini.DifficultyIgnoresPadding | services/geminiService.ts:139 | surrounding white space does not change the level |
| Gemini.DifficultyIgnoresCase | services/geminiService.ts:139 | letter case does not change the level |
| Gemini.ClassifyTopic | services/geminiService.ts:107-124 | the topic is nonempty and has no '.'; no client and failure give "General" |
| Gemini.TopicOfCategory | services/geminiService.ts:119 | a padded category name followed by full stops gives the name |
| Gemini.BlankTopicIsGeneral | services/geminiService.ts:119 | a blank reply gives "General" |
| Gemini.TranslateText | services/geminiService.ts:89-105 | the fixed stand-in without a client, the apology on failure, "翻译失败" for a blank reply; always nonempty and trimmed |
| Gemini.TranslationOfPadded | services/geminiService.ts:100 | a padded translation comes back trimmed |
| Gemini.GenerateTranscriptFromText | services/geminiService.ts:148-150 | the transcript of a text is the text |

## Left out

- Persistence (`localStorage`, JSON) is not modelled: each key holds an in-memory list, and a missing key is `None`.
- The statistics key, the trends and the weakness analysis are not modelled: they only return fixed mock values.
- The vocabulary lab, the sidebar, the app shell and all rendering and styling are not modelled: they are presentation only.
- `analyzeWord` is not modelled: it returns parsed JSON from the model.
- `gradePronunciation` is not modelled: its scores are random and arrive after a timer.
- The network calls to the model are not modelled; only their reply is, as a parameter.
- Media, file, microphone and clipboard APIs are parameters or are left out: `getMediaDuration`, `FileReader`, `MediaRecorder`, `getUserMedia` and object URLs.
- Playback syncing by current time, progress bars and the audio `onEnded` handlers are not modelled: they run on fractional seconds.
- Listening.ShadowSentences: untimed transcripts keep start and end at 0. The proportional-by-characters timing is floating point and is not modelled.
- Speaking.ParseTimestampedText: the last-item stretch to the audio duration after import and on metadata load is not modelled (floating point).
- Speaking.SpeakingSession.ToggleTranslation: the intermediate "translating" text is not modelled; the asynchronous reply is applied in one step.
- Async interleavings are sequenced as plain steps: `Promise.all` in imports, the recorder's `onstop` and the translation await.
- Durations and playback times are whole seconds, including the audio element's duration; fractional seconds are not modelled.
- Storage.NewWord: one `now` gives both `addedAt` and `nextReviewAt - 86400000`, whereas the application reads the clock twice, so the two can differ by a millisecond.
- Storage.NewGrammar: one `now` gives both `addedAt` and `nextReviewAt - 86400000`; the application reads the clock twice here as well.
- Speaking.PlainItems: one `now` is used in every item id, whereas the application reads the clock once per item.
- Speaking.StampedItems: one `now` is used in every item id, whereas the application reads the clock once per item.
- Dashboard.DashboardView.StartReview: one `now` is used for the due filter and every completion, whereas the store reads the clock again for each completion.
- Strings.ToLower: only ASCII letters are lower-cased; Unicode case mapping is not modelled.
- Gemini.PromptInput: strings are sequences of Unicode scalar values, so a character outside the Basic Multilingual Plane counts once here where `substring` counts two UTF-16 units.
- The speaking lab's `toggleTranslation` and keyboard `t` on an item index outside the list would throw in the application; `ToggleTranslation` requires an index inside the list.
