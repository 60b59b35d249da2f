# Quizz Catequético — a verified model of the quiz core

Quizz Catequético is a single-page quiz about the Catholic faith. The player picks the
following on the setup screen (`components/WelcomeScreen.tsx`):

- a difficulty, a topic, a number of questions and a number of lives;
- or a quick start;
- or a quiz drawn from their bank of saved questions.

The App component (`App.tsx`) does the following:

- It builds a session.
- It scores each first answer: a correct answer earns a point and a wrong one costs a life.
- It moves between questions.
- It ends the game when the last life is lost or the last question is passed.
- It keeps the bank of saved questions.
- It keeps a leaderboard, sorted by score and cut to 50 entries.

The quiz screen (`components/QuizScreen.tsx`) shows one question. It has an optional
"confirm before submitting" mode and restores recorded answers when the player navigates
back. The result screen (`components/ResultScreen.tsx`) shows the closing message. It also
offers a form that records the result once.

The model has these modules:

- `Types`: the records and enumerations of `types.ts`.
- `JsText` and `JsArray`: the JavaScript built-ins the core relies on. These are trim,
  toLowerCase, includes and fromCharCode for strings. For arrays they are filter,
  slice(0, n) and the stable descending sort.
- `Session`: the quiz session as pure state transitions.
- `Store`: the saved-question bank and the leaderboard update.
- `WelcomeScreen`: the configurations, and the regional ranking derived from the leaderboard.
- `App`: the App component. It is a class whose handlers update its fields in place.
- `QuizScreen`: the per-question component. It is a class for the answer and confirm
  state, plus the style and badge classifiers.
- `ResultScreen`: the closing message tiers, the labels, the answer key and the ranking
  form. The form is a class.

The following inputs to the core are parameters of the model:

- The question provider's result (`services/geminiService.ts`).
- The random reordering of the saved bank, given as a sequence with the same multiset of
  questions.
- The formatted date.
- The bank and leaderboard loaded from storage.

## Model

| member | source | states |
|---|---|---|
| Types.LabelsIdentifyMembers | types.ts:2-17 | distinct Difficulty members carry distinct strings, and so do distinct Topic members, in both directions |
| JsText.ContentStart | components/WelcomeScreen.tsx:62 | the scan for content stops at the first code point trim keeps, and everything it skipped is whitespace |
| JsText.ContentEnd | components/WelcomeScreen.tsx:62 | the backward scan stops after the last kept code point, and everything it skipped is whitespace |
| JsText.Trim | components/WelcomeScreen.tsx:62 | the result occurs in the input at a position where everything before it and everything after it is whitespace; neither end of it is whitespace; it is empty exactly when the input is all whitespace |
| JsText.TrimIdempotent | components/WelcomeScreen.tsx:62 | trimming twice is trimming once |
| JsText.LowerChar | components/QuizScreen.tsx:157 | lower-casing one code point yields one or two code points, none of them a capital; the code point comes back unchanged exactly when it is not a capital |
| JsText.ToLower | components/QuizScreen.tsx:157 | the lower-cased string is at least as long as the input and at most twice as long, and holds no capital |
| JsText.ToLowerUnchanged | components/QuizScreen.tsx:157 | lower-casing a string without capitals changes nothing |
| JsText.ToLowerChanges | components/QuizScreen.tsx:157 | lower-casing leaves a string unchanged exactly when it holds no capital |
| JsText.ToLowerIdempotent | components/QuizScreen.tsx:157 | lower-casing twice is lower-casing once |
| JsText.Includes | components/QuizScreen.tsx:158-160 | the empty string is included in every string, and an included part is no longer than the string |
| JsText.IncludesMeansOccurs | components/QuizScreen.tsx:158-160 | includes holds exactly when the part occurs at some position |
| JsText.OptionLetter | components/ResultScreen.tsx:166 | String.fromCharCode(97 + i) is the lower-case letter i places after 'a' |
| JsArray.Take | components/WelcomeScreen.tsx:69 | slice(0, n) keeps min(n, length) elements, forms a prefix, and adds nothing |
| JsArray.Filter | App.tsx:176 | filter keeps only elements that pass, each from the input, and drops no element that passes |
| JsArray.FilterAppend | App.tsx:176 | filter distributes over concatenation, so it keeps relative order |
| JsArray.FilterKeepsAll | App.tsx:185 | a filter that everything passes returns the same array |
| JsArray.FilterCounts | App.tsx:176 | filter keeps every occurrence of an element that passes and no occurrence of one that fails |
| JsArray.KeptPositions | App.tsx:176 | the kept elements sit at strictly increasing positions of the input, so filter keeps their order |
| JsArray.PicksShifted | App.tsx:176 | positions picked from the tail of a list, moved up by one, pick the same elements from the whole list |
| JsArray.PicksConsed | App.tsx:176 | picking the first element ahead of later picks keeps the picks in order |
| JsArray.InsertDesc | App.tsx:203 | inserting into a descending list keeps it descending and adds exactly the one element |
| JsArray.KeysAtLeast | App.tsx:203 | a rearrangement of a list plus one element keeps every key above a bound that all of them meet |
| JsArray.AppendLowest | App.tsx:203 | appending an element whose key is no greater than any other key keeps the order descending |
| JsArray.SortDesc | App.tsx:203 | sort with comparator b.score - a.score yields a descending permutation of the input |
| JsArray.InsertDescWithKey | App.tsx:203 | insertion appends the new element to the elements with the same key, after the earlier ones |
| JsArray.SortDescStable | App.tsx:203 | the sort is stable: elements with equal keys keep their input order |
| JsArray.InsertDescSum | components/WelcomeScreen.tsx:68 | insertion adds exactly the new key to the key sum |
| JsArray.SortDescSum | components/WelcomeScreen.tsx:68 | sorting keeps the key sum |
| JsArray.WithKeyOfPrefix | App.tsx:204 | cutting to a prefix keeps a prefix of each equal-key run |
| JsArray.TopFromInput | components/WelcomeScreen.tsx:68-69 | sorting and keeping the first n keeps only elements of the input |
| JsArray.SumByUpdate | components/WelcomeScreen.tsx:63-64 | replacing one element changes the key sum by the difference of the two keys |
| JsArray.TopOfSorted | components/WelcomeScreen.tsx:66-69 | the first n after the descending sort come from the input, and everything cut has a key no greater than anything kept |
| JsArray.CutScoresNoHigher | components/WelcomeScreen.tsx:66-69 | in a descending list, everything after a prefix has a key no greater than anything in the prefix |
| Session.CountAnswered | types.ts:45 | the number of recorded answers is at most the number of slots |
| Session.CountAnsweredRecord | App.tsx:108-109 | recording an answer in an empty slot adds exactly one to the count |
| Session.CountAnsweredEmpty | App.tsx:88 | a fresh answer array records no answers |
| Session.NewSession | App.tsx:83-91 | a new session is consistent, at question 0, scoreless, with the configured lives, both flags off and every answer slot empty |
| Session.Answered | App.tsx:101-135 | a second answer changes nothing; a first answer is recorded in its own slot only and costs exactly one point-or-life, with a point exactly when it matches the key; losing the last life finishes the game as lost |
| Session.Advanced | App.tsx:137-146 | next moves forward by one, or finishes at the last question without moving; answers, score, lives and game over are untouched |
| Session.Retreated | App.tsx:148-154 | previous moves back by one, or changes nothing at the first question |
| Session.AnswerKeepsConsistent | App.tsx:101-135 | answering keeps one slot per question, the lives within range, game over exactly at zero lives, and each answer paid by a point or a life |
| Session.NavigationKeepsConsistent | App.tsx:137-154 | next and previous keep the session consistent |
| Session.AnswerTwiceIsAnswerOnce | App.tsx:103-106 | answering the same question again is a no-op: the first answer wins |
| Session.AdvanceThenRetreat | App.tsx:137-154 | next then previous (away from the last question) returns to the same state |
| Session.RunKeepsInvariants | App.tsx:101-154 | over any sequence of answers and moves the session stays consistent, the questions never change, the score never falls, the lives never rise, and a recorded answer is never overwritten |
| Store.IsSaved | App.tsx:274 | a question counts as saved exactly when some saved question has the same text |
| Store.ToggleSave | App.tsx:171-182 | toggling flips the saved status of the text; removal drops every question with that text and keeps every other one as often as it occurred and in its original order; adding appends the question |
| Store.ToggleTwiceRestores | App.tsx:171-182 | saving an unsaved question and toggling it again gives the bank back unchanged |
| Store.DeleteById | App.tsx:184-187 | deleting removes every question with that id and keeps every other one, as often as it occurred and in its original order |
| Store.DeleteAbsentId | App.tsx:184-187 | deleting an id no question carries changes nothing |
| Store.DrawSaved | App.tsx:67-69 | a saved-pool draw has min(n, bank size) questions from the bank without repetition, and is empty exactly when the bank is empty or n is 0 |
| Store.Record | App.tsx:201-205 | the updated leaderboard is sorted by score, exactly min(50, old length + 1) long, drawn from the old entries plus the new one, loses nothing while there is room, and every dropped entry scores no more than every kept one |
| Store.RecordKeepsTieOrder | App.tsx:203-204 | entries with equal scores stay in the order in which they were recorded |
| WelcomeScreen.ValidConfig | components/WelcomeScreen.tsx:270-291 | the sliders allow 1 to 30 questions and 1 to 10 lives |
| WelcomeScreen.CanPlaySaved | components/WelcomeScreen.tsx:355 | the "Jogar Salvas" button is enabled exactly when the bank holds a question |
| WelcomeScreen.FormConfig | components/WelcomeScreen.tsx:35-45 | the form's configuration is within the slider ranges, on the chosen listed topic, with the chosen count and lives |
| WelcomeScreen.QuickStartConfig | components/WelcomeScreen.tsx:47-56 | quick start is a beginner quiz on mixed topics with 10 questions, 3 lives and both options off |
| WelcomeScreen.IndexOfRegion | components/WelcomeScreen.tsx:63 | the lookup finds a row with that region, or reports that no row has it |
| WelcomeScreen.Contribution | components/WelcomeScreen.tsx:62 | an entry contributes its own score, under its trimmed region |
| WelcomeScreen.Contributions | components/WelcomeScreen.tsx:61-62 | there is one contribution per leaderboard entry |
| WelcomeScreen.ContributionAt | components/WelcomeScreen.tsx:61-62 | the i-th contribution is that of the i-th entry |
| WelcomeScreen.ContributionsAddUp | components/WelcomeScreen.tsx:61-64 | the contributions add up to the entries' total score |
| WelcomeScreen.AddToRegion | components/WelcomeScreen.tsx:63-64 | the rows keep their places; an unseen region gets a new last row holding the score, and a seen one gets no new row; on rows with distinct regions exactly the region's row gains the score |
| WelcomeScreen.AddToRegionKeepsRows | components/WelcomeScreen.tsx:63-64 | adding a score keeps the regions in place and distinct, and gives the region a row (the existing one, or a new last one) |
| WelcomeScreen.TabulatesStep | components/WelcomeScreen.tsx:61-65 | one more forEach step keeps exactly one row per region seen so far |
| WelcomeScreen.Totals | components/WelcomeScreen.tsx:60-65 | the map holds distinct regions, one row for every contributed region and no other |
| WelcomeScreen.RegionSumAbsent | components/WelcomeScreen.tsx:63 | a region nobody contributed to sums to 0 |
| WelcomeScreen.TotalsAreSums | components/WelcomeScreen.tsx:60-65 | each region's row holds the sum of its entries' scores |
| WelcomeScreen.TotalsRow | components/WelcomeScreen.tsx:60-65 | any row of the map holds its region's sum, and that region was contributed by some entry |
| WelcomeScreen.AddToRegionSum | components/WelcomeScreen.tsx:63-64 | adding a score to a region adds it to the rows' total |
| WelcomeScreen.TotalsAddUp | components/WelcomeScreen.tsx:60-65 | the rows' scores add up to the total of the contributions |
| WelcomeScreen.FirstSeen | components/WelcomeScreen.tsx:61 | the first index with the region, or the length when no entry has it |
| WelcomeScreen.TotalsInFirstSeenOrder | components/WelcomeScreen.tsx:60-66 | the map yields regions in the order in which they first appear |
| WelcomeScreen.RegionRanking | components/WelcomeScreen.tsx:59-70 | the forEach loop computes the ranking: at most 10 rows in descending order of summed score |
| WelcomeScreen.MultiplicityOfDistinct | components/WelcomeScreen.tsx:66 | a row of a list with distinct regions occurs exactly once |
| WelcomeScreen.PermutationKeepsDistinct | components/WelcomeScreen.tsx:68 | reordering keeps the regions distinct |
| WelcomeScreen.RepeatCountsTwice | components/WelcomeScreen.tsx:68 | an element found at two positions occurs at least twice |
| WelcomeScreen.SortedCutKeepsDistinct | components/WelcomeScreen.tsx:68-69 | sorting and cutting keep the regions distinct |
| WelcomeScreen.TopOfTotals | components/WelcomeScreen.tsx:66-69 | the kept rows are distinct, and each holds the sum for a region that occurs |
| WelcomeScreen.TopRegionsAreRegionSums | components/WelcomeScreen.tsx:59-70 | the ranking lists each region at most once, with the sum of its entries' scores, and only regions some entry has |
| WelcomeScreen.SeenRegionIsContributed | components/WelcomeScreen.tsx:61-62 | a region that occurs among the contributions is the trimmed region of some leaderboard entry |
| WelcomeScreen.TopRegionsKeepTheBest | components/WelcomeScreen.tsx:66-69 | a region left out of the ranking scores no more than any region it shows |
| WelcomeScreen.TopRegionsAccountForAll | components/WelcomeScreen.tsx:59-70 | with at most 10 regions the ranking's scores add up to the whole leaderboard's |
| WelcomeScreen.TopRegionsTiesByFirstAppearance | components/WelcomeScreen.tsx:60-68 | regions with equal sums are listed in the order in which they first appear on the leaderboard |
| App.SavedPoolConfig | App.tsx:251-258 | the "Jogar Salvas" quiz is an intermediate saved-pool quiz of 10 questions with 3 lives and both options off, within the slider ranges |
| App.StartedSession | App.tsx:60-99 | the start gives up exactly on an empty saved-pool draw; otherwise a fresh consistent session with the configured lives, playing min(n, bank size) saved questions from the bank, or the provider's questions |
| App.EnabledSavedStartStarts | components/WelcomeScreen.tsx:355 | when the button is enabled (bank not empty), the saved-pool start always starts with at least one question |
| App.Controller.constructor | App.tsx:50-58 | the app opens on the welcome screen, with no configuration, an empty session with 3 lives, and the stored bank and leaderboard |
| App.Controller.HandleStartQuiz | App.tsx:60-99 | the configuration is remembered; then either the started session is shown on the quiz screen, or (empty draw) the session and screen stay as they were |
| App.Controller.HandleAnswer | App.tsx:101-135 | the session becomes Answered of the old one, and the result screen appears exactly when the game is lost; invariants kept |
| App.Controller.HandleNextQuestion | App.tsx:137-146 | the session becomes Advanced of the old one, and the result screen appears exactly when it finishes |
| App.Controller.HandlePrevQuestion | App.tsx:148-154 | the session becomes Retreated of the old one; the screen stays |
| App.Controller.HandleRestart | App.tsx:156-164 | with a configuration, the quiz starts again with it as HandleStartQuiz does; without one, the welcome screen returns |
| App.Controller.HandleHome | App.tsx:166-169 | the welcome screen returns, the configuration is forgotten, and nothing else changes |
| App.Controller.IsCurrentSaved | App.tsx:274 | the current question is marked saved exactly when the bank holds a question with its text |
| App.Controller.ToggleSaveQuestion | App.tsx:171-182 | the bank becomes ToggleSave of it, so the question's saved status flips; nothing else changes |
| App.Controller.DeleteSavedQuestion | App.tsx:184-187 | the bank loses exactly the questions with that id; nothing else changes |
| App.Controller.SaveToLeaderboard | App.tsx:189-206 | without a configuration, or after a saved-pool quiz, nothing changes; otherwise the score is recorded under the difficulty's label |
| QuizScreen.View.constructor | components/QuizScreen.tsx:57-77 | on mount a recorded answer shows as committed and the Next button shows; otherwise nothing is selected and Next is hidden |
| QuizScreen.View.Restore | components/QuizScreen.tsx:65-77 | on a question change a recorded answer comes back as committed with the Next button shown, and no recorded answer clears the selection and hides Next |
| QuizScreen.View.SubmitAnswer | components/QuizScreen.tsx:99-114 | the index is committed and reported, correct exactly when it is the key, and the Next button shows |
| QuizScreen.View.OptionClick | components/QuizScreen.tsx:89-97 | answered: nothing happens; confirmation mode: the tentative pick moves; otherwise the click submits |
| QuizScreen.View.Confirm | components/QuizScreen.tsx:116-120 | a tentative pick is submitted and reported; with no pick nothing happens |
| QuizScreen.View.ShowConfirmButton | components/QuizScreen.tsx:261 | the confirm button shows only while unanswered with a tentative pick, so never together with the Next button |
| QuizScreen.View.ShowNextButton | components/QuizScreen.tsx:315-326 | the Next button shows only once the question is answered, and then an answer is committed |
| QuizScreen.View.Look | components/QuizScreen.tsx:130-153 | answered: Correct exactly for the key and Wrong exactly for a committed miss; Highlighted exactly for the unconfirmed pick in confirmation mode |
| QuizScreen.AnsweredLooks | components/QuizScreen.tsx:134-144 | after an answer exactly one of the four options is Correct, a Wrong one exists exactly when the answer missed, and nothing is Plain or Highlighted |
| QuizScreen.ConfirmButtonShowsPick | components/QuizScreen.tsx:261 | while the confirm button shows, the tentative pick is the one option highlighted and no option shows a verdict |
| QuizScreen.NextButtonFollowsSession | components/QuizScreen.tsx:65-77 | on a screen restored from the session, Next shows exactly when the session recorded an answer for the question, and that answer shows as Correct or Wrong |
| QuizScreen.ShowPrevButton | components/QuizScreen.tsx:305 | the Previous button shows from the second question on |
| QuizScreen.NextButtonCaption | components/QuizScreen.tsx:320 | Next reads "Ver Resultado" on the last question and "Próxima" before it |
| QuizScreen.ButtonsMatchNavigation | components/QuizScreen.tsx:305-320 | Next reads "Ver Resultado" exactly when it will finish the quiz, and Previous shows exactly when it will move |
| QuizScreen.DifficultyColor | components/QuizScreen.tsx:155-162 | no label is gray; otherwise the first of 'iniciante', 'intermedi', 'avan' in the lower-cased label picks green, yellow or red |
| QuizScreen.LowerCapitalized | components/QuizScreen.tsx:157 | lower-casing changes only a leading capital A-Z |
| QuizScreen.CapitalizedColor | components/QuizScreen.tsx:155-162 | for a capitalised label the badge is decided by the first of 'iniciante', 'intermedi', 'avan' in its lower-cased form |
| QuizScreen.BeginnerIsGreen | components/QuizScreen.tsx:158 | the "Iniciante" badge is green |
| QuizScreen.IntermediateIsYellow | components/QuizScreen.tsx:159 | the "Intermediário" badge is yellow |
| QuizScreen.YellowWord | components/QuizScreen.tsx:158-159 | a capitalised "intermediário" contains 'intermedi' and not 'iniciante', so it is yellow |
| QuizScreen.NotBeginnerWord | components/QuizScreen.tsx:158 | 'iniciante' does not occur in a 13-code-point word that starts "inter" |
| QuizScreen.AdvancedIsRed | components/QuizScreen.tsx:160 | the "Avançado" badge is red |
| QuizScreen.GeneralIsGray | services/geminiService.ts:120 | the "Geral" badge the provider gives mixed questions is gray |
| ResultScreen.MessageTier | components/ResultScreen.tsx:61-73 | game over comes first; the excellent tier needs a full score, and the very-good tier at least 60 percent |
| ResultScreen.MessageTierMatchesPercentage | components/ResultScreen.tsx:32 | the integer tests agree with the percentage: excellent exactly at 100, very good exactly from 60 below 100 |
| ResultScreen.PercentCompare | components/ResultScreen.tsx:32 | the percentage compares with 100 and 60 as 100 times the score compares with 100 and 60 times the total |
| ResultScreen.MessageTierMonotone | components/ResultScreen.tsx:61-73 | a better score never earns a worse message |
| ResultScreen.Celebrates | components/ResultScreen.tsx:34-37 | confetti falls only for a quiz that was not lost and scored at least one point |
| ResultScreen.CelebratesWithBestTiers | components/ResultScreen.tsx:35 | confetti falls exactly with the excellent and very-good messages |
| ResultScreen.ShareTopicLabel | components/ResultScreen.tsx:78 | a listed topic is shared under its own label |
| ResultScreen.ShareDifficultyLabel | components/ResultScreen.tsx:77 | a listed-topic quiz shares its difficulty's label |
| ResultScreen.Subtitle | components/ResultScreen.tsx:195 | a listed-topic subtitle is "topic • difficulty" |
| ResultScreen.SavedPoolLabelsStandApart | components/ResultScreen.tsx:77-78 | a saved-pool result is never labelled as any listed topic or difficulty, in the shared text or the subtitle |
| ResultScreen.AnswerKey | components/ResultScreen.tsx:166 | the printed key gives the letter a-d of the correct option and that option's text |
| ResultScreen.AnswerKeyLetterNamesOption | components/ResultScreen.tsx:166 | two keys print the same letter exactly when they name the same option |
| ResultScreen.View.constructor | components/ResultScreen.tsx:27-30 | the form starts empty and unsaved |
| ResultScreen.View.Edit | components/ResultScreen.tsx:210-232 | typing sets the three fields and saves nothing |
| ResultScreen.View.ShowRankingForm | components/ResultScreen.tsx:205 | the ranking form shows only while the result is unsaved, and only for a quiz on a listed topic |
| ResultScreen.View.HandleSave | components/ResultScreen.tsx:100-111 | the fields are submitted as typed exactly when name and region are not blank; the screen is then saved and the form hides, so a result is saved at most once |

## Left out

- Storage: the bank and the leaderboard are read from and written to localStorage. They
  are constructor parameters here, and persistence is not modelled.
- The question provider (`services/geminiService.ts`): the network call, the prompt and its
  fallback set are not modelled. The questions it returns are a parameter, which may be
  empty. The service catches its own errors, so App.tsx's catch branch (lines 93-95) cannot
  be reached with this provider, and the model has no such branch.
- Randomness: the shuffle of the saved bank (App.tsx:68) is a parameter. That parameter is
  any reordering with the same multiset of questions. The comparator's randomness and its
  bias are not modelled.
- The date string comes from `toLocaleDateString` and is a parameter.
- Loading flags, toasts, confetti, sharing, clipboard, printing HTML, image URLs,
  animations, dark mode and the leaderboard and saved-question tabs are not modelled.
  They are display and side effects only.
- React's asynchronous state updates: each handler is one sequential update.
- `App.Controller.HandleAnswer` takes the chosen index and computes correctness itself.
  In the source the quiz screen computes correctness (QuizScreen.tsx:104) against the same
  question, so the two agree.
- ResultScreen.Percentage: it is exact rational arithmetic, not a floating-point number.
  With at most 30 questions, the only comparisons made (== 100, >= 60) come out the same.
- JsText.ToLower: it covers A-Z, the Latin-1 capitals and the dotted capital I, not full
  Unicode case mapping. The labels the badge sees use only these.
- ResultScreen.View.Edit: it sets all three fields at once. The source has three separate
  onChange handlers and `maxLength` attributes on the inputs, and the limits are not modelled.
- App.Controller.HandleNextQuestion: like handleNextQuestion (App.tsx:137-146) it has no
  guard, so it and Session.Run also advance from an unanswered question. The guard is in the
  view: the Next button shows only once the question is answered
  (QuizScreen.View.ShowNextButton, QuizScreen.NextButtonFollowsSession). The model does not
  connect the view's button to the controller's handler, because the React wiring between them
  is not modelled.
- The print layouts of WelcomeScreen.tsx and ResultScreen.tsx: only the answer-key letter
  and text are modelled.
