# liseur-sync: the deciding logic, modelled and proved

liseur-sync keeps e-books, audiobooks and reading positions in step. This project models the parts of it that decide
something hard and proves what they promise.

| module | models |
|---|---|
| `Roman`, `AudioMap`, `Locator`, `RomanLaws`, `MappingLaws` | chapter numerals; the piecewise-linear map between seconds of audio and book progression; Readium locators written for a position and read back |
| `SplitPlan`, `SplitAlign`, `Align`, `SplitLaws`, `AlignLaws` | pairing numbered audio chapters with a table of contents, with the dynamic program for chapters cut over two tracks |
| `Passage`, `PassageMatch`, `Context`, `PassageLaws`, `ContextLaws` | finding a spoken or quoted passage in a document by its words, and the text written around a place |
| `Exchange`, `ExchangeRuns`, `Sessions`, `ExchangeLaws`, `SessionsLaws` | passes of the two-way position exchange with Audiobookshelf, and the import of listening sessions |
| `Catalog`, `CatalogMatch`, `CatalogLaws` | matching the catalog's audiobooks to its books in five stages |
| `RateLimiter`, `RateLimiterRuns`, `RateLimiterLaws` | the per-key fixed-window limiter with its recency list and sweep |
| `TableLines`, `TableRewrite`, `TableLaws` | replacing one kind of section in an operator's TOML file |
| `ReaderToken`, `ReaderTokenLaws` | minting and reaping the browser reader's credentials |
| `Library`, `CalibreWriter`, `LibraryRuns`, `LibraryLaws` | all-or-nothing writes to a Calibre library, with failure at any step |
| `ConflictAudit`, `ConflictVersions`, `ConflictLaws` | settling Syncthing's conflict copies, and which version of a file that keeps |
| `Text`, `Wrappers` | the string functions and result types the others share |

Code that updates variables is a method with the source's loops, arrays, maps and fields, proved equal to a function or
a relation on values; the main results are lemmas about those, over every input or every run. The modules named `...Laws`
tell what those functions answer without naming them: in the times, places, rows and names that go in and come out, with
the code's own constants written out. Where Go visits a map, the
method picks the next key nondeterministically. Failures of a store, a peer or a disk are parameters, one for each step
that can fail. `internal/audiobookshelf/mapping.go` repeats the alignment and mapping code of
`internal/audiomap/audiomap.go`; it is modelled once.

## Where the code is not what its comments promise

- A position pulled twice: when the operation a pull would append is already in the log the cursor is set to that older
  operation, and the next pass may push the newer local head. So a pull is not always followed by rest; `DuplicatePull`
  says exactly when it is. At most one write still happens (`AtMostOneWrite`).
- The later position does not always win: a reading made without a connection can come to the log after a newer row was
  pulled, and is then pushed over that row (`AnOlderReadingWins`). `LaterRowWinsExactly`, `LaterReadingWinsExactly` and
  `OlderReadingIsPushedExactly` say when each side prevails.
- A push whose readback fails is recorded so that the next pass knows it for its own, but that pass does so only
  when the peer's stamp is no later than the cursor. Otherwise it compares the row anew, and may pull it back or push it
  again (`AfterAnUnreadPush`, `UnreadPushWritesTwiceExactly`, `TheEndIsWrittenTwice`).
- `AddFormat` calls itself all-or-nothing. An error of the copy itself that `errors.Is` takes for `os.ErrExist` is read as
  the file having been there before, and the half-written file stays without a row (`LeavesFile`, `StrayIsAnOrphan`,
  `TheStrayFile`).
- `DeleteBook` removes files before it commits, so that a failed removal rolls the row back. Rows stay without their files
  exactly when the commit fails after the removal, or the removal breaks off inside the book's own files
  (`DeletionIsSoundExactly`, `CommitFailureStrandsTheRows`). No other operation has that effect.
- A book's directory is not always a directory in its author's: an author ".." becomes "." in `FilenameSafe`, and
  the book stands at the top of the library. A later book by an author of that directory's name lies inside it and
  loses its files when the first is deleted (`NestedBooksAreLost`). Every row keeps its file over a run exactly when no
  book is added inside another's directory and no deletion strands its rows (`RowsKeepTheirFilesExactly`).
- `rewriteTable` is idempotent except on a file without the section whose text after the last newline is white space
  (`IdempotentExactly`).
- `MintReaderToken` keeps the browser's identity only if it writes its token within a minute of first reading the clock,
  or something of the inherited device survives (`DevicesKept`, `LateMintForgets`).
- `resolve_conflicts` does not always keep the newest version of a file: a copy identical to what stays is dropped with its
  later time, and an in-between version may then displace it (`TheNewerCopyLoses`). The file's own version, if it is there,
  always comes first; the newest stays in every order of the copies exactly when no older twins, the file's own the first
  of them, can keep it out (`NewestStaysExactly`). With one newest content that is when no older version of it is the
  file's own or later than it (`OneNewestContent`). Nothing is lost: the loser is parked.
- In the title and author stage of the catalog matching the search for rivals accepts an author that folds to nothing, which
  the search for candidates refuses: an audiobook that is no candidate of any book can keep a book from its only candidate
  (`ANamelessRivalBlocks`). `OnlyCandidatesPairExactly` says when.
- A locator's text is found again with full confidence, but the answer need not be the end of its highlight: it is counted
  from the first of the text's words in the first window that holds them all (`PointsThereExactly`, `TheAnswerComesEarly`).

## Model

| member | source | states |
|---|---|---|
| `Roman.ToRoman` | internal/audiomap/audiomap.go:691-704 | the greedy loops write exactly the numeral the table defines, for every number, unbounded above |
| `Roman.FromRoman` | internal/audiomap/audiomap.go:674-689 | the left-to-right subtractive scan with its check against `toRoman` computes `Value` |
| `Roman.GreedyReads` | internal/audiomap/audiomap.go:674-704 | what the rows from k on write for a remainder is read back as that remainder, and its first letter never exceeds it |
| `Roman.RoundTrip` | internal/audiomap/audiomap.go:674-704 | roman(toRoman(n)) == n for every n >= 1 |
| `Roman.NumeralInjective` | internal/audiomap/audiomap.go:691-704 | no two numbers share a numeral |
| `Roman.AcceptsExactlyNumerals` | internal/audiomap/audiomap.go:674-689 | `roman` answers n exactly for the numeral of n, and 0 exactly for words that are no numeral |
| `RomanLaws.NumeralIs` | internal/audiomap/audiomap.go:691-704 | a numeral is an m for each thousand and then hundreds, tens and ones, each written by the one pattern of ones, fives and tens of its place |
| `RomanLaws.NumeralReads` | internal/audiomap/audiomap.go:674-704 | the word written so is read as that number |
| `AudioMap.LinearIsWellFormed` | internal/audiomap/audiomap.go:356-361 | the one-segment mapping is well formed iff the duration is positive |
| `AudioMap.SegmentAtDomain` | internal/audiomap/audiomap.go:391-407 | a segment is found iff the value lies in the coverage, or up to one second past its audio end, which belongs to the last segment |
| `AudioMap.LerpInverse` | internal/audiomap/audiomap.go:555-560 | a line and the line with its axes exchanged undo one another |
| `AudioMap.CrossStays` | internal/audiomap/audiomap.go:391-430 | a crossing lands in the same segment of the other axis, shared ends included |
| `AudioMap.CrossIncreasing` | internal/audiomap/audiomap.go:410-430 | crossing is strictly increasing over the whole coverage, across segment boundaries, in either direction |
| `AudioMap.CrossInverse` | internal/audiomap/audiomap.go:410-430 | crossing there and back is the identity on the whole coverage, last end included |
| `AudioMap.Domains` | internal/audiomap/audiomap.go:383-430 | exactly where `ToBook` and `ToAudio` are defined, and that what they answer stays inside the coverage on both sides; on a partial narrative the book side is capped at 0.998 |
| `AudioMap.FullNarrativeInverse` | internal/audiomap/audiomap.go:410-430 | on a full narrative `ToBook` and `ToAudio` are inverse to one another, both ways |
| `AudioMap.FullNarrativeIncreasing` | internal/audiomap/audiomap.go:410-430 | both are strictly increasing (`ToAudio` on every mapping) |
| `AudioMap.PartialNarrative` | internal/audiomap/audiomap.go:410-421 | `ToBook` never runs backwards on any mapping and stays at or below 0.998 on a partial one |
| `MappingLaws.LineIsStraight` | internal/audiomap/audiomap.go:555-560 | rise times run is the same everywhere on a line; one without a run stays at its start |
| `MappingLaws.ToBookIs` | internal/audiomap/audiomap.go:391-421 | a time is carried along the straight line of the one segment it belongs to, a time past the end from the end; a partial narrative stops at 0.998 |
| `MappingLaws.ToAudioIs` | internal/audiomap/audiomap.go:391-431 | a place in the book is carried along the straight line of its segment |
| `MappingLaws.LinearIs` | internal/audiomap/audiomap.go:356-361 | on the linear mapping a share of the audio is that share of the book |
| `Locator.ResourceNamed` | internal/audiomap/audiomap.go:520-527 | the loop answers the first document of that name with positive width, and none only when there is none |
| `Locator.NameLeadsBack` | internal/audiomap/audiomap.go:520-527 | in a tiled reading order a document's cleaned name leads back to that document |
| `Locator.LocatorRoundTrip` | internal/audiomap/audiomap.go:480-618 | the text-free locator written for any p, read back, gives exactly ToAudio(p) for p in [0,1], with the same answer whether it is mapped; above 1 it gives that of 1, below 0 that of the last document's start |
| `Locator.ListeningPositionSurvives` | internal/audiomap/audiomap.go:410-618 | a listening time turned into a locator of a full narrative and read back is that same time |
| `MappingLaws.NameThenStop` | internal/audiomap/audiomap.go:547-553 | a name ends at the first `#` or `?` |
| `MappingLaws.NameAlone` | internal/audiomap/audiomap.go:547-553 | white space around a name and a slash before it are dropped |
| `MappingLaws.LocatorSays` | internal/audiomap/audiomap.go:587-618 | every field of the locator written for p: the first document that holds p, p's share of it, p itself, the fragment exactly at a chapter's head in that document, the text exactly if there is any |
| `MappingLaws.OwnPlaceIsRead` | internal/audiomap/audiomap.go:480-545 | a locator without text is read at its own share of the way through its document |
| `MappingLaws.TextPlaceIsRead` | internal/audiomap/audiomap.go:480-545 | where its text was found is read instead when that is at least 65 per cent sure and at most 15 per cent of the document from its own place |
| `MappingLaws.TextIsPassedOver` | internal/audiomap/audiomap.go:480-545 | otherwise its own place is read, and without one the progression through the book |
| `MappingLaws.InTheOneSegment` | internal/audiomap/audiomap.go:528-545 | without a reading order the one segment of that name stands for the document |
| `SplitPlan.Attained` | internal/audiomap/audiomap.go:796-857 | the backtracked plan has one step a chapter, the right number of tracks, only allowed splits, and costs what the table says |
| `SplitPlan.LowerBound` | internal/audiomap/audiomap.go:796-835 | no feasible sequence of one-track and allowed two-track steps is cheaper than its table cell |
| `SplitPlan.BestPlanIsOptimal` | internal/audiomap/audiomap.go:796-857 | the final cell is filled iff a feasible plan exists, and is the minimum over all of them, attained |
| `SplitPlan.CostWithinShares` | internal/audiomap/audiomap.go:796-835 | a prefix cost never exceeds the shares of audio and book it has consumed |
| `SplitPlan.CostsAreSmall` | internal/audiomap/audiomap.go:796-838 | every reachable cost is at most 2, so the 1e9 sentinel is never mistaken for a cost |
| `SplitPlan.Relax` | internal/audiomap/audiomap.go:808-834 | one round of the double loop settles a cell and leaves the next half done, touching no other cell of either table |
| `SplitPlan.FillRow` | internal/audiomap/audiomap.go:808-834 | one round of the outer loop settles a whole row and leaves the rows below it fresh |
| `SplitPlan.BestPlan` | internal/audiomap/audiomap.go:796-857 | the double loop over arrays fills the table of the recurrence and reads the plan out of it |
| `SplitPlan.ReadChoices` | internal/audiomap/audiomap.go:847-855 | the backward walk over `from` gives the backtracked plan |
| `SplitLaws.AllowedExactly` | internal/audiomap/audiomap.go:822-831 | two tracks are allowed exactly when each is shorter than 85 per cent of the chapter and together they miss it by less than 65 per cent of what each misses it by alone |
| `SplitLaws.StepRules` | internal/audiomap/audiomap.go:808-834 | one more step keeps a plan feasible iff it is one track that is there, or two that are there and allowed |
| `SplitLaws.StepCosts` | internal/audiomap/audiomap.go:817-824 | a step costs what its tracks and its chapter differ by |
| `SplitLaws.TiesGoToTwos` | internal/audiomap/audiomap.go:818-831 | among the cheapest plans the one read out has two tracks where it last differs from any other |
| `SplitAlign.ComputeShares` | internal/audiomap/audiomap.go:740-794 | the two loops give positive shares that sum to 1 |
| `SplitAlign.FirstLeastIsLeast` | internal/audiomap/audiomap.go:764-844 | the running choice keeps the first of the least scores |
| `SplitAlign.ChosenPlanIsOptimal` | internal/audiomap/audiomap.go:764-857 | the plan taken minimises cost plus tail penalty over all eligible trailing counts and all feasible plans within the cost limit; none is taken iff there is none |
| `SplitAlign.ScoreTrailing` | internal/audiomap/audiomap.go:768-843 | one trailing count: its score when it qualifies, and its plan |
| `SplitAlign.ChooseTrailing` | internal/audiomap/audiomap.go:764-861 | the loop over trailing counts ends with the best one and its plan |
| `SplitAlign.FitsAt` | internal/audiomap/audiomap.go:870-930 | the step counts sum to at most the tracks, so every `aIdx[ai+1]` and `aIdx[ai+2]` the rebuilding loop touches is in range |
| `SplitAlign.Rebuild` | internal/audiomap/audiomap.go:870-930 | the loop with its cursor `ai` builds exactly the segments of the plan, which `SplitLaws.RebuiltFollows` tells one by one |
| `SplitAlign.RebuiltChain` | internal/audiomap/audiomap.go:870-930 | after each chapter the segments so far are of positive width on both axes, end where the next begins, and end where the next chapter starts |
| `SplitAlign.PlanMappingIsWellFormed` | internal/audiomap/audiomap.go:863-931 | the rebuilt mapping is well formed |
| `SplitAlign.SplitMappingIsWellFormed` | internal/audiomap/audiomap.go:719-932 | whatever the split path returns is well formed and covers the whole narrative |
| `SplitAlign.AlignWithSplits` | internal/audiomap/audiomap.go:719-932 | the code returns exactly `SplitMapping`: shape checks, optimal plan, rebuilt segments; `SplitLaws.SplitAnswer` says what they are |
| `SplitLaws.CutIsInProportion` | internal/audiomap/audiomap.go:902-904 | a cut divides the book as the two lengths divide their sum |
| `SplitLaws.ShapeExactly` | internal/audiomap/audiomap.go:719-753 | the checks before planning, told of the numbers themselves: they count up from 1 on both sides, at least ten in the book and one to four more in the audio, the numbered audio unbroken, the entries in the order of the book |
| `SplitLaws.SharesAreProportional` | internal/audiomap/audiomap.go:782-794 | two tracks' shares are as their lengths |
| `SplitLaws.BookSharesAreProportional` | internal/audiomap/audiomap.go:740-757 | two chapters' shares are as their widths |
| `SplitLaws.TailRules` | internal/audiomap/audiomap.go:758-781 | which trailing counts are allowed and what they cost, multiplied out: 0.03 beyond the back matter, 0.025 where there is none, half the difference |
| `SplitLaws.QualifiesExactly` | internal/audiomap/audiomap.go:836-839 | a plan qualifies iff its steps do, its tail is allowed and its cost is at most a quarter |
| `SplitLaws.ChosenIsTheChoice` | internal/audiomap/audiomap.go:764-857 | the choice is told apart from every other qualifying plan: a smaller total, or the fewer trailing tracks, or the later twos |
| `SplitLaws.SplitAnswer` | internal/audiomap/audiomap.go:719-932 | the mapping the split path returns: refused exactly when the shape is not right or no plan qualifies; otherwise its segments follow the chosen plan, and a chapter cut over two tracks is cut so that each part of the book is to its track as the other to the other |
| `Align.OccurrencesRank` | internal/audiomap/audiomap.go:363-371 | the k-th listed index of a number is preceded by exactly k others, and every occurrence is listed |
| `Align.CollectOccurrences` | internal/audiomap/audiomap.go:363-371 | the loop collects every positive number's indices in order |
| `Align.PairUp` | internal/audiomap/audiomap.go:285-287 | the pairs of one number are its k-th occurrences on both sides, added to the pairs of the numbers visited before |
| `Align.OneOrder` | internal/audiomap/audiomap.go:292 | distinct audio indices leave one order only for the same set of pairs |
| `Align.SortedIsPairing` | internal/audiomap/audiomap.go:272-292 | sorting the pairs, gathered in any order of the numbers, gives the pairing by audio index |
| `Align.MismatchRefusesSplits` | internal/audiomap/audiomap.go:272-284 | where a number's counts differ the split path refuses too, so meeting a missing number first changes nothing |
| `Align.CheckPairs` | internal/audiomap/audiomap.go:294-317 | the checks of order, numbering and gaps are made on every pair |
| `Align.BuildMapping` | internal/audiomap/audiomap.go:319-352 | segments, coverage flags and full-narrative flag, stated without the loops |
| `Align.DirectMappingIsWellFormed` | internal/audiomap/audiomap.go:294-331 | accepted pairs make a well-formed mapping |
| `Align.AlignmentIsWellFormed` | internal/audiomap/audiomap.go:258-353 | every mapping returned, on either path, has segments of positive width on both axes that join exactly, within [0,1] and [0, duration+1] |
| `Align.FullNarrativeCovers` | internal/audiomap/audiomap.go:332-352 | a full narrative covers the first and last numbered chapters |
| `Align.Align` | internal/audiomap/audiomap.go:258-353 | success and mapping equal `Alignment`, which does not mention the order in which the map of numbers is visited; that order is chosen nondeterministically |
| `AlignLaws.AudioInOrderIs` | internal/audiomap/audiomap.go:706-717 | which audio is valid: chapters of positive length one after the other within the duration and one second |
| `AlignLaws.RankedIsPairing` | internal/audiomap/audiomap.go:272-292 | the pairs are those of a numbered audio chapter and the entry of its number with as many of that number before it |
| `AlignLaws.RankedExists` | internal/audiomap/audiomap.go:272-292 | such pairs exist whenever every number of the audio stands in the book as often |
| `AlignLaws.AcceptableIs` | internal/audiomap/audiomap.go:294-317 | they are accepted iff every entry is valid and each pair follows the one before: in both lists, on both axes, in number, with nothing numbered left out between |
| `AlignLaws.DirectAnswer` | internal/audiomap/audiomap.go:258-354 | with every number as often on both sides a mapping is answered iff the audio is in order and the pairs are acceptable; each segment runs to the start of the next, and coverage and full narrative are claimed exactly when no numbered entry starts before, after or is unpaired |
| `AlignLaws.OtherAnswers` | internal/audiomap/audiomap.go:272-284 | a number on both sides but not as often ends it; otherwise a missing number leaves it to the split path |
| `Passage.CommonBounds` | internal/audiomap/stt.go:163-186 | the intersection is as large as the query iff the window contains the query as a multiset |
| `Passage.ScoreBounds` | internal/audiomap/stt.go:190-195 | a score lies in [0,1] and is 1 iff the window holds both query multisets, words and bigrams |
| `Passage.CommonStep` | internal/audiomap/stt.go:169-186 | one more word raises the multiset intersection by one iff it is not yet counted as often as the query has it |
| `Passage.CountCapped` | internal/audiomap/stt.go:170-185 | the capped counter follows the multiset intersection |
| `Passage.ScanWindow` | internal/audiomap/stt.go:163-186 | after the scan the counters equal the intersection sizes, and the first and last hits are right |
| `Passage.ScoreWindow` | internal/audiomap/stt.go:158-201 | one window's score and hit positions |
| `PassageLaws.PairsAreTold` | internal/audiomap/stt.go:133-140 | two pairs of words are one bigram only if they are the same words |
| `PassageLaws.ScoreIs` | internal/audiomap/stt.go:190-195 | of 20 parts of a score 13 are the share of the query's words found and 7 that of its bigrams, each counted as often as window and query both have it |
| `PassageLaws.WindowIs` | internal/audiomap/stt.go:142-162 | a window is a third longer than the query, or ends with the document |
| `PassageLaws.FirstHitIs` | internal/audiomap/stt.go:167-178 | the first hit is the first of the query's words |
| `PassageLaws.LastHitIs` | internal/audiomap/stt.go:168-178 | the last hit is the last word that has not come before as often as it stands in the query |
| `PassageMatch.MaxScoreIsMax` | internal/audiomap/stt.go:202-205 | the best index is the first window with the greatest score, none iff every score is 0 |
| `PassageMatch.ContiguousScoresOne` | internal/audiomap/stt.go:158-195 | a window starting where the query stands word for word scores 1 |
| `PassageMatch.ContiguousIsFound` | internal/audiomap/stt.go:158-206 | a query that occurs contiguously has best score 1 |
| `PassageMatch.RunnerUpBounds` | internal/audiomap/stt.go:212-223 | the runner-up among windows not touching the best lies between 0 and the best |
| `PassageMatch.FullWindowReports` | internal/audiomap/stt.go:163-201 | a window with the full score that begins no later than the passage, with no word of the query in between, reports first and last hit at the passage's first and last word |
| `PassageMatch.PassageIsReported` | internal/audiomap/stt.go:158-206 | a passage standing at k is found in the first window with the full score, which begins at or before k, and is reported at k unless a word of it stands in between |
| `PassageMatch.FullWindowTarget` | internal/audiomap/stt.go:403-408 | a window with the full score points exactly as many words behind the first of the query's words in it as the prefix counts |
| `PassageMatch.MatchTranscript` | internal/audiomap/stt.go:121-226 | no answer for fewer than four words or a shorter document; success iff the confidence is at least 0.55; the place is the end of the best window's last hit, which is the passage's last word for every clear passage; 0 <= margin <= confidence <= 1; confidence 1 when the transcript occurs |
| `PassageMatch.MatchLocatorText` | internal/audiomap/stt.go:322-409 | the same for the locator matcher with 0.65 and the target word, which is the passage's word the prefix counts up to for every clear passage |
| `PassageLaws.RunnerUpIs` | internal/audiomap/stt.go:212-223 | the runner-up's score is the greatest among the windows whose hits lie all before or all behind the best's, 0 if there is none |
| `PassageLaws.TargetIs` | internal/audiomap/stt.go:402-407 | the prefix is counted from the first hit; one that runs past the hits ends on the last |
| `PassageLaws.TranscriptEndsThePassage` | internal/audiomap/stt.go:121-226 | the place answered times the document's length is the end of the passage's last word, for every passage with none of its words between the start of the first stretch that holds them all and itself |
| `PassageLaws.LocatorEndsThePrefix` | internal/audiomap/stt.go:322-409 | for a locator it is the end of the passage's word the prefix counts up to |
| `Context.Tokenize` | internal/audiomap/stt.go:474-491 | the word splitter's loop |
| `Context.RunCollapse` | internal/audiomap/stt.go:281-306 | blanks collapsed to one change no word |
| `Context.TrimTokens` | internal/audiomap/stt.go:323-324 | trimming changes no word |
| `Context.ReadRune` | internal/audiomap/stt.go:444-460 | one character keeps the words where they say they are and the open word exact |
| `Context.Extract` | internal/audiomap/stt.go:411-472 | the words of each stretch of text, one stretch after the other, each at its recorded place, with nothing between them a word character |
| `Context.ContextBounds` | internal/audiomap/stt.go:260-279 | all four indices in range and in order, at most fifteen words highlighted, at most six on either side and fewer only at the document's ends |
| `Context.SpanTokens` | internal/audiomap/stt.go:411-491 | reading the text from one word to another gives those words, joined where a tag had glued them together |
| `Context.JoinedIsAllExactly` | internal/audiomap/stt.go:411-491 | the joined words are the words themselves iff no two were glued together |
| `Context.ContextReadsBack` | internal/audiomap/stt.go:256-318 | the text written around a place, split into words again, is the words around that place, joined where a tag had glued them together, and those very words iff no two were |
| `Context.FindContextAgain` | internal/audiomap/stt.go:256-409 | that text, when it has at least four words and none glued together, is found again in its document with confidence 1 in the first window with the full score, and the answer counts the prefix from the first of its words in that window; text that reads back as fewer than four words is not found |
| `Context.PointsThereExactly` | internal/audiomap/stt.go:403-408 | the answer is the highlight's end iff no word of the text stands between the start of that window and the text's own place |
| `Context.TheAnswerComesEarly` | internal/audiomap/stt.go:403-408 | a concrete document, whose first word comes twice, on which the answer points a word too early |
| `Context.GluedWordsAreNotFound` | internal/audiomap/stt.go:411-472 | a concrete document of four glued words whose context is not found |
| `ContextLaws.TokensAre` | internal/audiomap/stt.go:474-491 | text without a word character has no words; a run of word characters between others is one word, each character normalised |
| `ContextLaws.BlanksAreOne` | internal/audiomap/stt.go:281-306 | a run of white space is written as one blank |
| `ContextLaws.PlainIsKept` | internal/audiomap/stt.go:281-306 | what is no white space is written as it stands |
| `ContextLaws.BoundsAre` | internal/audiomap/stt.go:260-279 | a context runs from the first word asked for, but over fifteen words at most, to the last; six words stand on either side, or as many as there are |
| `ContextLaws.ContextIs` | internal/audiomap/stt.go:256-318 | its three parts are the text between those words |
| `Exchange.SpotHasWidth` | internal/audiobookshelf/sync.go:119 | the division in the tolerance is by a positive width |
| `Exchange.Exchanger.Exchange` | internal/audiobookshelf/sync.go:97-209 | one pass over the link's fields equals the step function `Pass`; `ExchangeLaws` says what that step does in the numbers of row, reading and segments |
| `Exchange.Exchanger.Pull` | internal/audiobookshelf/sync.go:145-174 | the pull branch equals its step |
| `Exchange.Exchanger.Push` | internal/audiobookshelf/sync.go:175-208 | the push branch equals its step |
| `ExchangeLaws.RowIsRead` | internal/audiobookshelf/sync.go:105-112 | the row's place told by the mapping's own segment: on its straight line, at the end when finished, at 0.998 at most on a partial narrative |
| `ExchangeLaws.RowIsLostExactly` | internal/audiobookshelf/sync.go:105-112 | a row has no place iff it is not finished and its time lies before the mapping or more than a second behind it |
| `ExchangeLaws.PeersOwnIs` | internal/audiobookshelf/sync.go:94-95 | a reading is the peer's own iff its device starts with `abs-`, the first eight digits of the peer and a colon |
| `ExchangeLaws.TogetherIs` | internal/audiobookshelf/sync.go:117-132 | what counts as agreement: row and reading of this edition, matching on the end of the book, at most a second apart where a locator was used and otherwise within what a second of audio is in the row's segment, or a thousand-millionth |
| `ExchangeLaws.SkippedTogetherExactly` | internal/audiobookshelf/sync.go:97-132 | a pass skips with the cursor moved to row and reading iff the two are together in that sense |
| `ExchangeLaws.OldIsLeftAlone` | internal/audiobookshelf/sync.go:98-103 | nothing happens iff reading and row, if any, are both older than the cut-off |
| `ExchangeLaws.RoundingIs` | internal/audiobookshelf/sync.go:94 | a mark holds the nearest whole second, of two the even one |
| `ExchangeLaws.EchoesIs` | internal/audiobookshelf/sync.go:133-134 | a row is an echo iff its whole seconds and flag are the mark's and it is stamped no later than the cursor |
| `ExchangeLaws.PullsExactly` | internal/audiobookshelf/sync.go:138-174 | a pass over sides that are apart pulls iff the row is later than reading and cursor, has a place, is no untouched start over a begun book, and nothing fails |
| `ExchangeLaws.PushesExactly` | internal/audiobookshelf/sync.go:138-208 | it writes iff the reading is of this edition and not the peer's own, is a time, is not echoed, and is not older than the row unless the row was dealt with before it came |
| `ExchangeLaws.OtherwiseNothing` | internal/audiobookshelf/sync.go:97-208 | otherwise it fails or skips, and nothing but an outdated mark goes |
| `ExchangeLaws.PullTakesIn` | internal/audiobookshelf/sync.go:145-174 | every field of the operation a pull appends, and where the cursor is left, the operation new or known |
| `ExchangeLaws.PushWrites` | internal/audiobookshelf/sync.go:179-195 | the row a push writes: the end of the mapping when the book is read to its end, else the reading's time, at most the duration |
| `ExchangeLaws.PushRemembers` | internal/audiobookshelf/sync.go:196-208 | what a push leaves in the link, read back or not |
| `ExchangeLaws.ASecondApartIsTaken` | internal/audiobookshelf/sync.go:122-174 | a later row more than a second from the reading's time is pulled |
| `ExchangeRuns.PushTimeIsWritable` | internal/audiobookshelf/client.go:366-370 | every time a pass decides to push satisfies `UpdateProgress`'s own bounds |
| `ExchangeRuns.PushIsJustified` | internal/audiobookshelf/sync.go:133-208 | a push goes out only over no row, a row not later than the reading, or a row at or below the cursor, and never sends back what came from the peer |
| `ExchangeRuns.PullIsFresh` | internal/audiobookshelf/sync.go:138-174 | a pull takes only a row later than the cursor and adds at most one operation, marked as the peer's, with the row's place and time |
| `ExchangeRuns.LaterRowWinsExactly` | internal/audiobookshelf/sync.go:133-174 | in a calm pass over positions that differ, a row later than the reading ends on both sides iff it is later than the cursor, has a place in the book, is no untouched start over a begun book, and was not pulled before |
| `ExchangeRuns.LaterReadingWinsExactly` | internal/audiobookshelf/sync.go:130-208 | a reading at least as late as the row ends on both sides iff it can be sent and is not what the row already echoes |
| `ExchangeRuns.OlderReadingIsPushedExactly` | internal/audiobookshelf/sync.go:138-208 | a reading older than the row is pushed over it iff the row is at or below the cursor, the reading came to the log later than what was sent last, and it can be sent |
| `ExchangeRuns.AnOlderReadingWins` | internal/audiobookshelf/sync.go:139-141 | a concrete late arrival: a reading of time 50 is pushed over the row of time 100 |
| `ExchangeRuns.SkipComesToRest` | internal/audiobookshelf/sync.go:97-139 | after a skip every later pass is skipped and changes nothing |
| `ExchangeRuns.PushComesToRest` | internal/audiobookshelf/sync.go:133-208 | the same after a push that was read back |
| `ExchangeRuns.PullComesToRest` | internal/audiobookshelf/sync.go:145-174 | the same after a pull whose operation was not yet in the log |
| `ExchangeRuns.DuplicatePull` | internal/audiobookshelf/sync.go:164-173 | after a pull whose operation was already in the log the link is at rest iff the newer local head cannot be pushed |
| `ExchangeRuns.DuplicatePullIsNotRest` | internal/audiobookshelf/sync.go:164-173 | a concrete link on which such a pull is followed by a push |
| `ExchangeRuns.AtMostOneWrite` | internal/audiobookshelf/sync.go:97-209 | with no change from outside at most one write ever happens, over any run of passes |
| `ExchangeRuns.AfterAnUnreadPush` | internal/audiobookshelf/sync.go:196-208 | after a push whose readback failed the next calm pass skips iff the row left agrees with the reading, or is no later than the cursor, or is later than the reading but not to be pulled, or both are outside the active days; otherwise it pulls the row back when the peer's stamp is later than the reading and pushes again when it is not |
| `ExchangeRuns.UnreadPushWritesTwiceExactly` | internal/audiobookshelf/sync.go:196-208 | a second write follows iff the first is not let be and, if it is pulled back, is not already in the log |
| `ExchangeRuns.TheEndIsWrittenTwice` | internal/audiobookshelf/sync.go:184-208 | a concrete link, a book read to its end, that is written twice whatever the peer's stamp |
| `ExchangeRuns.RunKeepsInv` | internal/audiobookshelf/sync.go:97-209 | over every run of readings, listenings and passes: no row at or below the cursor is unseen, pulled rows are in the log once each |
| `ExchangeRuns.NoUnseenListeningIsOverwritten` | internal/audiobookshelf/sync.go:133-209 | over every run a push replaces only no row, a row not later than its reading, or a row some pass dealt with, and never carries a pulled position |
| `Sessions.ImportPage` | internal/audiobookshelf/sessions.go:47-67 | the loop over one page counts, skips and hands on as specified, and notices the boundary |
| `Sessions.FetchPage` | internal/audiobookshelf/sessions.go:36-71 | one page: read, counted and handed on, or the reason why not; whether to go on |
| `Sessions.Importer.Import` | internal/audiobookshelf/sessions.go:28-74 | on success exactly the pages up to the first stopping one were read and the watermark is that of what was handed on; it fails only when hindered at the page it names, and then the watermark does not move; it terminates once the server runs out of full pages |
| `Sessions.HonestServerEnds` | internal/audiobookshelf/sessions.go:68-70 | a server with honest pages runs out of full pages |
| `Sessions.WantedMembers` | internal/audiobookshelf/sessions.go:48-66 | what has to be handed on is exactly the valid sessions of the item above watermark minus overlap |
| `Sessions.NothingIsMissed` | internal/audiobookshelf/sessions.go:28-74 | against an honest server what was handed on from the pages read is what the whole list holds, in order |
| `Sessions.HonestImport` | internal/audiobookshelf/sessions.go:28-74 | the same for every honest list the pages could have come from |
| `Sessions.WatermarkBounds` | internal/audiobookshelf/sessions.go:66-72 | the watermark never falls, never passes the greater of itself and now, and covers everything handed on |
| `Sessions.WatermarkIsAttained` | internal/audiobookshelf/sessions.go:66-72 | it moves only up to a session handed on |
| `SessionsLaws.WantedIs` | internal/audiobookshelf/sessions.go:29-66 | handed on are, in their order, exactly the valid sessions of the item updated after the watermark less the overlap, ten minutes unless set |
| `SessionsLaws.ImportedExactly` | internal/audiobookshelf/sessions.go:28-74 | from the pages of a server that lists a hundred at a time, newest first, they are all there are in the list, each once |
| `SessionsLaws.ReadUpToTheEnd` | internal/audiobookshelf/sessions.go:36-71 | the pages read end with the first that holds one of ours not recent, fewer than a hundred sessions, or is the last the server counts |
| `SessionsLaws.MalformedIs` | internal/audiobookshelf/sessions.go:49-58 | counted are the malformed sessions and the valid ones of another item |
| `SessionsLaws.WatermarkIs` | internal/audiobookshelf/sessions.go:66-72 | the watermark ends at the newest update handed on, but not beyond the clock, and never falls |
| `Catalog.CalibreKeyInjective` | internal/content/audiobooks.go:1031-1052 | a calibre key names one folder and one calibre id |
| `Catalog.MatchesAreOneToOne` | internal/content/audiobooks.go:710-988 | over all stages no book and no audiobook is in two pairs |
| `Catalog.CalibreStageTakesAll` | internal/content/audiobooks.go:720-738 | with the unique index every pair of equal folder and calibre id is made |
| `Catalog.Undisturbed` | internal/content/audiobooks.go:857-985 | pairs made earlier in a stage never remove a candidate or a competitor of an audiobook still waiting |
| `Catalog.RivalsExactly` | internal/content/audiobooks.go:945-978 | the search for rivals takes in, beside the candidates, exactly the audiobooks whose first author folds to nothing as one of the book's own does |
| `Catalog.OnlyCandidatesPairExactly` | internal/content/audiobooks.go:896-985 | a book and an audiobook that are each other's only candidate in the last stage are paired iff no such audiobook is free |
| `Catalog.ANamelessRivalBlocks` | internal/content/audiobooks.go:896-985 | a concrete book and audiobook paired when alone, and not when an audiobook by "?" of the same title, nobody's candidate, is there |
| `CatalogMatch.CalibreStage` | internal/content/audiobooks.go:720-738 | the first stage makes exactly the pairs of equal keys |
| `CatalogMatch.GroupBy` | internal/content/audiobooks.go:749-760 | each key's list holds exactly the unused items that carry it |
| `CatalogMatch.FilenameStage` | internal/content/audiobooks.go:740-773 | exactly the pairs alone under their file name |
| `CatalogMatch.DirectoryStage` | internal/content/audiobooks.go:775-807 | exactly the pairs alone in their directory of one folder (`CatalogLaws.FitsIs`), for any order of the directories |
| `CatalogMatch.GroupIds` | internal/content/audiobooks.go:843-851 | each identifier's list holds exactly the unused books that carry it |
| `CatalogMatch.NamedBooks` | internal/content/audiobooks.go:861-868 | exactly the unused books some key of the audiobook names alone, each once |
| `CatalogMatch.IdentifierStage` | internal/content/audiobooks.go:853-894 | exactly the mutually unique identifier pairs among what earlier stages left, although the used sets change during the loop |
| `CatalogMatch.CountRivals` | internal/content/audiobooks.go:874-887 | the inner loop counts the unused audiobooks that compete for the book |
| `CatalogMatch.SameWorkBooks` | internal/content/audiobooks.go:897-945 | exactly the unused books of the same folded title and author |
| `CatalogMatch.TitleAuthorStage` | internal/content/audiobooks.go:896-985 | exactly the mutually unique title and author pairs |
| `CatalogMatch.Match` | internal/content/audiobooks.go:710-988 | the pairs are those `Matches` defines on the sets of books and audiobooks, each listed once and one-to-one: no order of lists or map can matter |
| `CatalogLaws.ColonsConfuse` | internal/content/audiobooks.go:775-795 | with a colon in a folder id two places can share a key |
| `CatalogLaws.FitsIs` | internal/content/audiobooks.go:720-985 | for folder ids without one, what each stage compares: calibre ids in one folder, names but for the ending in one folder, directories other than the top in one folder, identifiers no other book carries, folded first author and title keys |
| `CatalogLaws.StageMakesExactly` | internal/content/audiobooks.go:710-988 | a stage makes a pair iff book and audiobook are each other's only choice among those left |
| `CatalogLaws.PairedExactly` | internal/content/audiobooks.go:710-988 | over the whole matching: iff they are each other's only choice among what the pairs of the stages before leave, in the order calibre id, file name, directory, identifier, title and author |
| `CatalogLaws.PairedByPlace` | internal/content/audiobooks.go:740-807 | a pair made by file name, directory or calibre id never reaches across folders |
| `TableLines.LinesAreProper` | internal/config/mirror_save.go:429-435 | a body is the concatenation of its lines, each ending at its only newline |
| `TableLines.LinesOfJoin` | internal/config/mirror_save.go:429-435 | splitting what was joined gives the same lines |
| `TableRewrite.SkipSection` | internal/config/mirror_save.go:395-400 | the inner loop stops at the next header |
| `TableRewrite.ReplaceLoop` | internal/config/mirror_save.go:390-408 | the outer loop with its index and `placed` flag computes the replaced lines |
| `TableRewrite.RewriteTable` | internal/config/mirror_save.go:388-416 | the whole function |
| `TableRewrite.RewriteKeepsTheRest` | internal/config/mirror_save.go:388-416 | on an ended body every line outside the named sections is kept in order, at most one separator is added, the section is present iff there are blocks, and a second rewrite changes nothing |
| `TableRewrite.IdempotentExactly` | internal/config/mirror_save.go:388-416 | on every body: idempotent iff it has the section, or there are no blocks, or its text after the last newline is not white space alone |
| `TableRewrite.TwoSpacesAreNotStable` | internal/config/mirror_save.go:409-414 | a body of two spaces becomes two spaces and the header, and at the next rewrite the header alone |
| `TableLaws.TrimSpaceIs` | internal/config/mirror_save.go:437-439 | white space around goes, and nothing else |
| `TableLaws.EqualFoldIs` | internal/config/mirror_save.go:393-394 | equal to a name of small letters is the same name in any mixture of small and capital ones, with the Kelvin sign for k and the long s for s |
| `TableLaws.CommentIsNoPart` | internal/config/mirror_save.go:492-495 | a comment behind a header is no part of it |
| `TableLaws.NamedExactly` | internal/config/mirror_save.go:393-394 | a bracketed line, with white space around and a comment or none, is a header of the section iff its brackets are the section's, single or double, and what they hold is its name |
| `TableLaws.SectionGoes` | internal/config/mirror_save.go:392-408 | a section, from its header up to the next, is taken out and the lines before it stay |
| `TableLaws.BlocksTakeItsPlace` | internal/config/mirror_save.go:388-416 | the blocks stand where the first section did, and the sections behind it go |
| `TableLaws.BlocksGoToTheEnd` | internal/config/mirror_save.go:409-414 | without the section they go to the end, behind an empty line iff the last one is not white space |
| `TableLaws.NothingToPlace` | internal/config/mirror_save.go:388-416 | without blocks the sections are only taken out |
| `RateLimiter.Limiter.Sweep` | internal/auth/middleware.go:138-146 | the sweep, in any order of the map, leaves the live buckets and their keys in the list, in order |
| `RateLimiter.Limiter.Spend` | internal/auth/middleware.go:147-167 | the rest of a call equals its step |
| `RateLimiter.Limiter.AllowAt` | internal/auth/middleware.go:135-168 | a call equals the step `Allow` and keeps map and list in step |
| `RateLimiter.AllowKeepsValid` | internal/auth/middleware.go:135-168 | map and list hold the same keys, each once, never more than the cap |
| `RateLimiterRuns.RecencyIsLatestFirst` | internal/auth/middleware.go:149-158 | after any run the list is in order of last use, latest first |
| `RateLimiterRuns.VictimIsLeastRecent` | internal/auth/middleware.go:149-153 | whoever is evicted was used before every other key of the table |
| `RateLimiterRuns.AnswersArePlain` | internal/auth/middleware.go:135-168 | while the table is never full the answers over any run are those of a limiter that keeps one bucket per key for good |
| `RateLimiterRuns.FewKeysNeverFull` | internal/auth/middleware.go:147-154 | a run over no more keys than the cap never meets a full table |
| `RateLimiterRuns.WindowGuarantee` | internal/auth/middleware.go:135-168 | any interval of one window grants a key at most 2*limit, for limit >= 1 (2 for less) |
| `RateLimiterLaws.GrantedExactly` | internal/auth/middleware.go:135-168 | while the table is never full a call is granted iff it opens a window of its key or fewer than the limit were granted since the window's opening |
| `RateLimiterLaws.TenThousandKeysFit` | internal/auth/middleware.go:147-154 | a run over ten thousand keys never meets a full table |
| `RateLimiterLaws.TenThousandIsFull` | internal/auth/middleware.go:149-155 | at ten thousand a new key takes the place of the last of the recency list |
| `RateLimiterLaws.SweepIs` | internal/auth/middleware.go:138-146 | a sweep leaves exactly the buckets that have not run out, and the next is a window later |
| `ReaderToken.Service.NewestPerDevice` | internal/auth/service.go:229-237 | a youngest reader-shaped token for every device that has one |
| `ReaderToken.Service.InheritedDevice` | internal/auth/service.go:242-248 | the device of a youngest of all, in any order of the map, none iff there is none |
| `ReaderToken.Service.Reap` | internal/auth/service.go:261-271 | exactly the reaped tokens go, the others are unchanged |
| `ReaderToken.Service.MintReaderToken` | internal/auth/service.go:222-273 | a mint is the step `Minting`; a failure before the write changes nothing |
| `ReaderToken.Service.RevokeReaderTokens` | internal/auth/service.go:278-292 | only marks reader-named tokens; succeeds iff none of those left to mark is stuck, and then all are marked |
| `ReaderToken.MintedShape` | internal/auth/service.go:59-70 | the minted token has the reader's shape iff it was written within a minute of reading the clock |
| `ReaderToken.DevicesKept` | internal/auth/service.go:222-273 | no device id is lost iff the mint is timely, or there was none, or something of the inherited device survives |
| `ReaderToken.LateMintForgets` | internal/auth/service.go:222-273 | a concrete mint of two minutes that loses the browser's identity |
| `ReaderToken.TimelyMint` | internal/auth/service.go:222-273 | a timely mint adds no identity but the first |
| `ReaderToken.NothingAliveIsDeleted` | internal/auth/service.go:261-271 | no live token and no token of another name is deleted or changed |
| `ReaderToken.DeadOnesAreReaped` | internal/auth/service.go:261-271 | afterwards a dead reader token is the newest of another device, and the only dead one of it |
| `ReaderToken.IdentityLasts` | internal/auth/service.go:222-292 | over every run of timely mints and sign-outs the device ids never shrink and, once there are any, stay the same |
| `ReaderToken.OneIdentity` | internal/auth/service.go:222-292 | starting from none they are the one id of the first mint, for good |
| `ReaderTokenLaws.OfTheReaderIs` | internal/auth/service.go:59-74 | the reader's shape in plain terms: name, device, the two scopes and no third, a life of 59 to 60 minutes |
| `ReaderTokenLaws.MintedIs` | internal/auth/service.go:229-251 | the token minted, field by field, for the device of a youngest of the reader's tokens whatever has become of it |
| `ReaderTokenLaws.TakenExactly` | internal/auth/service.go:261-271 | taken away are exactly the tokens of the reader's name that are signed out or past their hour, but for the one of the youngest of each other device |
| `ReaderTokenLaws.NewestAre` | internal/auth/service.go:229-237 | which tokens those are |
| `ReaderTokenLaws.AliveStays` | internal/auth/service.go:261-271 | neither signed out nor past its expiry, or of another name: the token stays as it is |
| `ReaderTokenLaws.WrittenInTime` | internal/auth/service.go:59-70 | the minted token has the reader's shape iff it was written within sixty seconds of the first clock reading |
| `Library.NothingBelow` | internal/calibre/writer.go:483-527 | below a path that is no directory there is nothing |
| `Library.CutRestores` | internal/calibre/writer.go:559-566 | removing a directory tree that was made afresh restores the disk, whatever was written in it |
| `Library.RemoveRestores` | internal/calibre/writer.go:559-566 | removing the author directory just made restores the disk |
| `CalibreWriter.Writer.MakeDir` | internal/calibre/writer.go:493-503 | a directory is made iff its place is free and no fault occurs, and otherwise nothing changes |
| `CalibreWriter.Writer.Create` | internal/calibre/writer.go:534-545 | a file that was not there; a failed write leaves what it wrote |
| `CalibreWriter.Writer.InsertRelations` | internal/calibre/writer.go:354-440 | the rows of every relation and the shared names they need, on top of the others unchanged |
| `CalibreWriter.Writer.Insert` | internal/calibre/writer.go:297-366 | the rows of one new book under a free id, in the transaction only |
| `CalibreWriter.Writer.WriteFiles` | internal/calibre/writer.go:483-527 | as far as it got: what was made, and nothing outside it |
| `CalibreWriter.Undone` | internal/calibre/writer.go:559-566 | `remove` undoes whatever `writeFiles` made, a pre-existing author directory included |
| `CalibreWriter.Writer.AddBook` | internal/calibre/writer.go:249-292 | failure restores rows and disk exactly; success contributes exactly the book's own rows and files; with nothing in the way it succeeds |
| `CalibreWriter.Writer.AddFormat` | internal/calibre/writer.go:653-768 | it succeeds iff every check and step does and then adds one row and one file; every error it answers, and when; what a failure leaves |
| `CalibreWriter.Writer.RemoveBookDir` | internal/calibre/writer.go:843-868 | the book's directory and the author's emptied one, refusing what is no book's directory |
| `CalibreWriter.Writer.DeleteBook` | internal/calibre/writer.go:794-836 | on success one book's row, formats and links are gone with all below its directory, and nothing else is; whatever fails, the rows and files left are those of `AfterDeletion`; when it succeeds and when it answers that there is no such book |
| `CalibreWriter.RowsDeletedIs` | internal/calibre/testdata/schema.sql:339-355 | a deletion's rows told without the functions that make them: one book, its formats and its links go, names and the rest stay, formats in order |
| `CalibreWriter.TreeDeletedIs` | internal/calibre/writer.go:843-868 | what is at or below the directory goes, and the author's directory if it held nothing else |
| `LibraryLaws.AddedIs` | internal/calibre/writer.go:249-531 | what a successful `AddBook` leaves: each row and link with its value, the publication, the cover if there is one, the OPF, and nothing else |
| `LibraryLaws.SpelledIs` | internal/calibre/writer.go:656 | a format is spelled in capitals without white space around it |
| `LibraryLaws.FileIs` | internal/calibre/writer.go:742 | a format's file is the name, a stop and the format in small letters, in the book's directory |
| `LibraryLaws.SharedNameIs` | internal/calibre/writer.go:701-718 | the name is that of the book's EPUB, or of its oldest format, or made from its title |
| `LibraryLaws.FormatIsTakenExactly` | internal/calibre/writer.go:653-768 | when no step fails a format is added iff it is a plain word, the book is there in a directory of its own without it, the name is usable and no file is in the way |
| `LibraryRuns.AddOrphansNothing` | internal/calibre/writer.go:249-292 | a successful add leaves no file its rows do not account for |
| `LibraryRuns.DeleteOrphansNothing` | internal/calibre/writer.go:794-868 | a deletion leaves no file of the deleted book and no other book's file unclaimed |
| `LibraryRuns.NoNewOrphans` | internal/calibre/writer.go:249-868 | no single call, however it ends, leaves a new file without a row, but for the stray file |
| `LibraryRuns.StrayIsAnOrphan` | internal/calibre/writer.go:743-757 | that file is without a row iff no row happens to name it |
| `LibraryRuns.TheStrayFile` | internal/calibre/writer.go:743-757 | a concrete library, format and error that leave such a file |
| `LibraryRuns.OrphansNeverGrow` | internal/calibre/writer.go:249-868 | the same over every run of the three operations with any failures |
| `LibraryRuns.AddKeepsSoundExactly` | internal/calibre/writer.go:297-366 | a new book keeps every book in a directory of its own iff no other book's directory is the author's or above it |
| `LibraryRuns.DeletionSparesOthersExactly` | internal/calibre/writer.go:794-868 | a deletion leaves every other row its file iff no other book with a file lies in the deleted book's directory |
| `LibraryRuns.NestedBooksAreLost` | internal/calibre/writer.go:606-634 | two books added to an empty library, the second inside the first because the first author's name becomes `.`: deleting the first takes the second's file and leaves its row |
| `LibraryRuns.DeletionIsAnEvent` | internal/calibre/writer.go:794-868 | whichever steps of `DeleteBook` fail, what it leaves is one of the events of a run |
| `LibraryRuns.DeletionIsSoundExactly` | internal/calibre/writer.go:794-868 | a call of `DeleteBook`, whichever steps fail, leaves every book its directory and every row its file iff it does not end with the commit failing after the removal or with a removal broken off inside the book's own files |
| `LibraryRuns.RowsKeepTheirFilesExactly` | internal/calibre/writer.go:249-868 | over every run all books keep their directories and all rows their files iff no book is added inside another's directory and no deletion strands its rows |
| `LibraryRuns.CommitFailureStrandsTheRows` | internal/calibre/writer.go:794-836 | after a deletion whose commit fails every row of the book is there and none of their files |
| `ConflictAudit.StepKeepsContents` | scripts/calibre-audit.py:321-365 | a move to a free path, or deleting an identical copy, keeps the set of contents |
| `ConflictAudit.NothingIsEverLost` | scripts/calibre-audit.py:321-365 | no distinct content is lost at any intermediate step of any history of such steps |
| `ConflictAudit.Library.Park` | scripts/calibre-audit.py:321-335 | the renaming loop terminates on every finite tree, on a free path in the copy's own directory under `.audit-conflicts`, under its own name, that name and its time, or a longer one; the file moves there |
| `ConflictAudit.Library.Settle` | scripts/calibre-audit.py:344-364 | the whole disk after one conflict copy: renamed, dropped as identical, or one of the two parked; the files outside the parking place are those of `SettledOne` |
| `ConflictAudit.Library.ParkAll` | scripts/calibre-audit.py:340-342 | every copy of metadata.db is parked, nothing else moves |
| `ConflictAudit.Library.SettleAll` | scripts/calibre-audit.py:343-364 | the second loop: the files outside are those left by settling the copies one after the other |
| `ConflictAudit.Library.ResolveConflicts` | scripts/calibre-audit.py:338-365 | every step only moves to a free path or drops an identical copy; contents are kept; the files outside the parking place are exactly those `SettledAll` gives, for all names, copies of copies included; the answer says whether anything changed |
| `ConflictAudit.StillThere` | scripts/calibre-audit.py:343-349 | a listed copy is still there when its turn comes |
| `ConflictAudit.UntouchedStays` | scripts/calibre-audit.py:343-365 | what is neither a copy nor stood in for by one is as it was |
| `ConflictAudit.CopiesGo` | scripts/calibre-audit.py:343-365 | a copy that no other copy stands in for is gone |
| `ConflictAudit.PlainNameKeepsTheLast` | scripts/calibre-audit.py:343-363 | a name whose copies have no copies of their own ends with the last of its versions that displaced the one before |
| `ConflictLaws.SettledIs` | scripts/calibre-audit.py:348-364 | one copy settled, case by case: free, identical, later, not later |
| `ConflictLaws.InTurn` | scripts/calibre-audit.py:343-365 | the copies are settled one after the other, each on what the one before left |
| `ConflictLaws.DigitsAre` | scripts/calibre-audit.py:327-332 | the suffix of a parked copy is the number in decimal |
| `ConflictVersions.VersionsKeepTheNewest` | scripts/calibre-audit.py:354-363 | of a file's own version, always first if it is there, and its copies in any order, one of the newest stays iff there are no older twins of all the newest contents, each later than the one before, with the file's own the first of them |
| `ConflictVersions.OrderOfPaths` | scripts/calibre-audit.py:343-363 | every order of what the copies hold is that of some order of the copies themselves |
| `ConflictVersions.NewestStaysExactly` | scripts/calibre-audit.py:343-363 | the same of the files on disk: settling the copies of a name in any order leaves one of its newest versions there iff there are no such twins |
| `ConflictVersions.OneNewestContent` | scripts/calibre-audit.py:343-363 | when the newest versions hold one content: iff no older version of that content is the file's own or later than it; when the file is not there, iff there is no older version of that content |
| `ConflictVersions.TheNewerCopyLoses` | scripts/calibre-audit.py:338-365 | three files on disk for which `resolve_conflicts` leaves the older, in-between text under the name |

## Left out

- Floating-point rounding: seconds, progressions and shares are exact reals, so `finite` always holds.
- Integer width: Go's and Python's integers are unbounded here; no count or time in these cores comes near a limit.
- The regular expressions, Unicode folding and parsers behind `chapterNumber`, title keys, file stems, identifier keys,
  `FilenameSafe`, `resolved_name` and session validation: parameters. Of `resolved_name` only that it shortens a name is used,
  of letters and digits only that none of them is white space.
- `CatalogLaws.PairedExactly`: for folder ids without a colon, which is what the keys need to tell two places apart
  (`ColonsConfuse`).
- Case mapping of format names is that of ASCII.
- Hashes and random secrets: operation ids are taken as injective in what they are hashed from, secrets as fresh.
- Stores, HTTP, JSON and command lines: their answers are parameters; the log's head is its operation of highest sequence
  number, and `AppendOps` answers with a number above the head's or with the operation that already had that id.
- Speech-to-text refinement of pulled positions: off, since it may return a value above the 0.998 cap.
- `ActiveDays`: the cut-off is a parameter in milliseconds; the local comparison of the code is finer than that.
- A pass is one step: a listener who moves between the reading of the remote row and the write is not seen by it.
- Pages that change while they are read: `Importer.Import` is stated for unchanging pages, and for its termination needs a
  page from which on no page is full.
- Disk failures while undoing, symbolic links, and other processes in the same directories: the undoing is assumed to work
  and nothing else writes.
- `path.Clean`: books.path arrives as its cleaned components; a path that is empty or climbs out is refused as in the code.
- Which of Calibre's tables a relation lives in, and blank or repeated values: relations arrive cleaned, as a list of rows.
- Directories standing where a conflict copy's real name should be, and a `.audit-conflicts` that is itself a link.
- `TableRewrite.IdempotentExactly` takes blocks that start with the named header, hold no other header and end their lines,
  which is what the two callers write.
- `ConflictVersions.NewestStaysExactly`: speaks of the versions under one plain name (`PlainNameKeepsTheLast`); a name whose
  copies have copies themselves ends with what `SettledAll` gives.
- `Context.FindContextAgain`: of a context in which a tag glued two words together it says only what it reads back as
  (`ContextReadsBack`) and that fewer than four words are not looked for; joined words may still match by other words.
- `Catalog.CalibreStageTakesAll` uses the catalog's unique index on folder and calibre id; without it the first stage would
  depend on the order of the books.
- The session overlap is a whole number of milliseconds; one set below a millisecond is 0 in the code and the default here.
- `Sessions.HonestServerEnds`: an honest server is one whose pages are the list in order, a hundred at a time.
- `RateLimiterRuns.WindowGuarantee`: only while the table is never full; an evicted key starts a new window.
- Reading rollups, annotations, config bounds, OPDS, EPUB and M4B parsing, password hashing: easy beside the above, or
  decided by code elsewhere.
