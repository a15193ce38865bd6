# Community-service site scripts: modal navigator, image lightbox and quiz

This project models the interactive core of a static site that documents a
community-service project. The model is written in Dafny, and every property
below is proved by the verifier.

- **Modal navigator** (`scripts/main.js`). A fixed table of named, ordered
  lists of modal ids (`modalSequences`). A lookup of the list that holds an
  id. Cyclic "next" and "previous" within that list. The one piece of modal
  state, `currentModalId`, which `openModal`, `closeModal`, the nav buttons,
  the arrow keys and swipes change.
  Files: `navigator.dfy`, plus `sequences.dfy` for `indexOf`/`includes`.
- **Image lightbox** (`scripts/main.js`). A flat list of image paths
  collected from the design items. An index into it that wraps at both ends.
  Prev/next buttons hidden when there is at most one image.
  File: `lightbox.dfy`.
- **Quiz engine** (`scripts/quiz.js`):
  - the Fisher–Yates shuffle on a copy (`shuffle.dfy`);
  - answer options relabelled `a, b, c, …`, with the correct key remapped;
  - a sample of three questions;
  - grading into a score and a three-way tier;
  - the `initQuiz`/`resetQuiz` session logic (`quiz.dfy`);
  - the module state and the page as an object (`quiz_page.dfy`).

Modelling choices:

- `Math.random() * (i + 1)` floored is an injected draw sequence.
  `draws[i]` is the swap partner at step `i`, with `draws[i] <= i`, so the
  shuffle is a function of its input and its draws.
- The radio buttons the user ticked are a map from question id to the
  chosen key. A missing id, or `None`, means no radio button is checked.
- The page's feedback lines and result banner are values: `Feedback` and
  `Banner`.
- Each stateful piece of the source is a class whose methods are proved
  equal to a pure transition function on a state value:
  - `Navigator.ModalNavigator` with `Modal`;
  - `Lightbox.ImageLightbox` with `View`;
  - `QuizPage.QuizEngine` with the `Session` and `Started` predicates of `Quiz`.

  The properties are then proved about those functions.
- JavaScript objects used as dictionaries are `Dict`: the keys in insertion
  order plus the entries.
- `null`/`undefined` are `Option.None`.
- HTML bodies and question texts are opaque strings.

Two details of the code are easy to misread, and the model follows the code:

- The lightbox buttons are hidden or shown only when the overlay is opened.
  `updateImageNavButtons` runs only inside `openImageOverlay`. So a
  one-image lightbox's buttons are hidden after its first opening, not at
  page load.
- `navigateNext` and `navigatePrev` open the neighbour only when it is
  truthy, so an empty-string id in a list would be skipped. The shipped
  table has none, and the well-formed tables the lemmas speak of exclude it.

## Model

| member | source | states |
|---|---|---|
| Sequences.IndexOf | scripts/quiz.js:165 | `indexOf`: -1 exactly when the element is absent, otherwise a position holding it with no earlier occurrence |
| Sequences.IndexOfDistinct | scripts/main.js:598 | in a list without duplicates, the index of the element at position `i` is `i` |
| Shuffle.Swap | scripts/quiz.js:150 | a swap exchanges positions `i` and `j` and leaves every other position unchanged |
| Shuffle.SwapPermutes | scripts/quiz.js:150 | a swap keeps the multiset of elements |
| Shuffle.ShuffleSteps | scripts/quiz.js:148-151 | the steps from `i` down to 1 keep the length and leave every position above `i` as it was, since each step swaps within the positions up to its own |
| Shuffle.ShuffleStepsPermutes | scripts/quiz.js:148-151 | the steps from `i` down to 1 keep length and multiset |
| Shuffle.Shuffled | scripts/quiz.js:146-153 | `shuffleArray` keeps the length and leaves a list of at most one element as it is; that it is a permutation is `ShuffledIsPermutation` |
| Shuffle.ShuffledIsPermutation | scripts/quiz.js:146-153 | `shuffleArray`'s result is a permutation of its input: same length, same multiset |
| Shuffle.ShuffledKeepsElements | scripts/quiz.js:146-153 | the shuffle neither adds nor drops an element |
| Shuffle.ShuffleStepsKeepDistinct | scripts/quiz.js:148-151 | the swap steps keep a duplicate-free list duplicate-free |
| Shuffle.ShuffledKeepsDistinct | scripts/quiz.js:146-153 | shuffling a duplicate-free list gives a duplicate-free list |
| Shuffle.ShuffleStepsCommutesWithMap | scripts/quiz.js:148-151 | the swap steps commute with mapping a function over the elements |
| Shuffle.ShuffledCommutesWithMap | scripts/quiz.js:146-153 | shuffling then projecting (ids, texts) equals projecting then shuffling with the same draws |
| Shuffle.ShuffleArray | scripts/quiz.js:146-153 | the loop on a copy swapping `i` with `draws[i]` from the end down to 1 returns the specified shuffle, a permutation of the input; the input is a value and so is untouched |
| Quiz.LettersDistinct | scripts/quiz.js:161-165 | the first `n` labels are pairwise distinct, and the backquote that `indexOf`'s -1 yields is none of them |
| Quiz.LetterInjective | scripts/quiz.js:161 | distinct positions (including -1) get distinct labels |
| Quiz.PutAssigns | scripts/quiz.js:161 | assigning `d[k] = v`: `k` holds `v`, every other entry is kept, the keys already there keep their order, and a well-formed object stays well formed |
| Quiz.PutNewKey | scripts/quiz.js:161 | storing a new key in an object appends it to the key order and keeps keys distinct |
| Quiz.Relabel | scripts/quiz.js:159-162 | the rebuilt object's keys are exactly `a, b, …` for the shuffled keys, in order, each holding the text of the key at its position |
| Quiz.Relabelled | scripts/quiz.js:156-167 | `shuffleOptions`: keys are the first `n` letters; when the correct key is an option, the new correct key shows the same text; when it is not, the new key is the backquote, which labels no option |
| Quiz.RelabelKeepsTextOrder | scripts/quiz.js:159-162 | the texts of the rebuilt object, in key order, are the texts of the shuffled keys in their order |
| Quiz.RelabelledUsesEachTextOnce | scripts/quiz.js:157-162 | the new options show exactly the original texts, each as often as before |
| Quiz.GradingFollowsText | scripts/quiz.js:163-166 | with distinct texts, a displayed key equals the remapped correct key exactly when it shows the original correct text |
| Quiz.ShuffleOptions | scripts/quiz.js:156-167 | the `forEach` filling `newOptions` and the `indexOf` remap compute `Relabelled` |
| Quiz.Sample | scripts/quiz.js:170-173 | `min(3, n)` questions, where `n` is the pool size |
| Quiz.SampleDrawsFromPool | scripts/quiz.js:170-173 | the sample is drawn without replacement: a sub-multiset of the pool, every question from the pool |
| Quiz.SampleHasDistinctIds | scripts/quiz.js:170-173 | a pool with distinct ids gives a sample with distinct ids |
| Quiz.SampleOfReadyPool | scripts/quiz.js:170-173 | a sample of a well-formed pool is well formed, from the pool, with distinct ids |
| Quiz.SelectRandomQuestions | scripts/quiz.js:170-173 | shuffle a copy of the pool, keep the first `questionsPerPage`: equals `Sample` |
| Quiz.FeedbackFor | scripts/quiz.js:221-233 | a question is marked correct exactly when its checked value equals its `displayCorrect`; incorrect exactly when a radio is checked with any other value; "please select" exactly when nothing is checked |
| Quiz.Score | scripts/quiz.js:214-234 | at most one point per question, and full marks exactly when every question is answered correctly |
| Quiz.ScoreCountsCorrectAnswers | scripts/quiz.js:214-234 | the score is the number of questions whose checked value equals `displayCorrect` |
| Quiz.ScoreAtMostAnswered | scripts/quiz.js:217-234 | an unanswered question never scores: score ≤ answered ≤ total |
| Quiz.TierOf | scripts/quiz.js:239-248 | success exactly when score = total (so 0/0 is perfect); incorrect exactly when not perfect and score < total/2 in real division; partial otherwise |
| Quiz.TierMonotone | scripts/quiz.js:239-248 | a higher score never gives a lower tier |
| Quiz.TierThresholds | scripts/quiz.js:239-248 | with three questions 2 passes and 1 does not; with none the tier is success |
| Quiz.MixedAnswersScoreOne | scripts/quiz.js:213-248 | one right, one unanswered, one wrong: score 1, "please select" for the unanswered one, lowest tier |
| Quiz.Assign | scripts/quiz.js:182-202 | setting one property per question: every id gets an entry, other entries are kept |
| Quiz.AssignAt | scripts/quiz.js:182-202 | with distinct ids, each id holds its own question's value afterwards |
| Quiz.RenderStep | scripts/quiz.js:182-202 | how rendered tables, feedback lines and `displayCorrect` grow by one question |
| Quiz.Render | scripts/quiz.js:176-203 | the `renderQuestions` loop computes the presentations, stores each remapped key under its question and empties the feedback lines |
| Quiz.Session | scripts/quiz.js:176-210 | the consistent page: questions from a ready pool with distinct ids, each table the relabelling of its question, each stored `displayCorrect` the remapped key of its table, one feedback line per question |
| Quiz.Started | scripts/quiz.js:206-209 | what `initQuiz` and the start of `resetQuiz` leave: the sample of the pool under the draws, a consistent session on it, the remapped keys stored on top of the old entries, every feedback line empty |
| Quiz.NewSession | scripts/quiz.js:206-209 | a fresh sample, rendered, is a consistent session (distinct ids from the pool, each `displayCorrect` the remapped key of its shown table, one feedback line per question), with the sample, tables, keys and empty lines it computes |
| Quiz.RestartSession | scripts/quiz.js:256-267 | a new session, then the feedback line of each new question emptied: the same started state, since fresh lines are empty already |
| Quiz.GradeStep | scripts/quiz.js:217-234 | how score and feedback grow by one question |
| Quiz.Grade | scripts/quiz.js:214-234 | the `checkAnswers` loop computes `Score` and writes `FeedbackFor` per question |
| Quiz.GradedSessionIsConsistent | scripts/quiz.js:217-234 | grading keeps the session consistent |
| Quiz.ClearFeedback | scripts/quiz.js:260-267 | the feedback line of each current question is emptied; other lines are untouched |
| Quiz.SessionGradesByText | scripts/quiz.js:201-222 | in any consistent session, ticking an option grades correct exactly when it shows the original correct text |
| Quiz.PoolIdsDistinct | scripts/quiz.js:8-129 | the pool's ids `q1`..`q12` are pairwise distinct |
| Quiz.QuestionPoolIsReady | scripts/quiz.js:6-139 | the shipped pool shape (four options `a`–`d`, correct `b` for q2, `a` otherwise) is well formed, and every correct key is an option |
| QuizPage.QuizEngine.constructor | scripts/quiz.js:141-143 | no questions, index 0, nothing shown, banner hidden; a consistent session |
| QuizPage.QuizEngine.Display | scripts/quiz.js:206-209 | storing a started session in the module state and on the page leaves the engine consistent and holding that started session |
| QuizPage.QuizEngine.InitQuiz | scripts/quiz.js:206-210 | the current questions are the sample of the pool under the draws, each table their relabelling, each remapped key stored under its id on top of the old entries, one empty feedback line per question; `currentQuestionIndex` 0; the session consistent; the banner untouched |
| QuizPage.QuizEngine.ResetQuiz | scripts/quiz.js:252-271 | the same new session as `initQuiz`, with every feedback line of the new questions empty; the banner hidden; the session consistent |
| QuizPage.QuizEngine.CheckAnswers | scripts/quiz.js:213-249 | the feedback lines per question and the banner showing `TierOf(score, total)` with `score/total`; consistent |
| Navigator.FindModalSequence | scripts/main.js:584-591 | none exactly for `null` or an id in no list; otherwise a list of the table that holds the id |
| Navigator.FindModalSequenceUnique | scripts/main.js:584-591 | in a well-formed table the list found is the one list that holds the id |
| Navigator.GetNextModal | scripts/main.js:594-604 | none exactly when the id is in no list; otherwise an id of the same list |
| Navigator.GetPrevModal | scripts/main.js:607-617 | none exactly when the id is in no list; otherwise an id of the same list |
| Navigator.NeighboursAreCyclic | scripts/main.js:594-617 | next is the element at `(i + 1) mod len` of the id's list and previous the one at `(i - 1) mod len` |
| Navigator.NeighboursByPosition | scripts/main.js:594-617 | from position `i`: next is `i+1`, or `0` from the last; previous is `i-1`, or the last from `0` |
| Navigator.NextPrevRoundTrip | scripts/main.js:594-617 | next then previous, and previous then next, give back the id |
| Navigator.ListsAreSteppedThrough | scripts/main.js:594-604 | in a well-formed table, "next" moves through each list one place at a time, from the last back to the first |
| Navigator.IterateAlong | scripts/main.js:594-604 | `k ≤ len` applications of such a step move `k` places on, cyclically |
| Navigator.NextNAdvances | scripts/main.js:594-604 | `k ≤ len` presses of "next" move `k` places on, cyclically |
| Navigator.NextCycleReturns | scripts/main.js:594-604 | `len` presses of "next" return to the start |
| Navigator.ShippedListDistinct | scripts/main.js:258-265 | each shipped list is non-empty and duplicate-free |
| Navigator.ShippedListOwned | scripts/main.js:258-265 | the ids of each shipped list are all told apart as that list's, so no id is in two lists |
| Navigator.ShippedListHasContent | scripts/main.js:258-265 | every id of each shipped list is a key of `modalContent` |
| Navigator.ModalSequencesWellFormed | scripts/main.js:258-265 | the shipped table is well formed and every id in it is a key of `modalContent` |
| Navigator.OpenOnlyWithContent | scripts/main.js:626-634 | opening sets the current id only for an id with content; any other id changes nothing |
| Navigator.Open | scripts/main.js:626-634 | `openModal` keeps a consistent state consistent; it changes the state only for an id with content, which becomes current with the overlay active |
| Navigator.Close | scripts/main.js:650-654 | after `closeModal` no modal is current, and the state is consistent whatever the content |
| Navigator.EventsKeepConsistent | scripts/main.js:626-654 | from the initial state, every event keeps: overlay active exactly when a modal is current, which has content, is in the body, with buttons shown |
| Navigator.NavigateOutsideListsIsNoOp | scripts/main.js:636-648 | with no current id, or one in no list, next and previous change nothing |
| Navigator.NavigateNext | scripts/main.js:636-641 | `navigateNext` keeps a consistent state consistent; when it changes the state, the new current id is `getNextModal` of the old one and the overlay is active; a falsy (empty) next id is skipped |
| Navigator.NavigatePrev | scripts/main.js:643-648 | `navigatePrev` keeps a consistent state consistent; when it changes the state, the new current id is `getPrevModal` of the old one and the overlay is active; a falsy (empty) previous id is skipped |
| Navigator.ClosedIgnoresNavigation | scripts/main.js:650-654 | closing sets the current id to null and deactivates; after it, buttons, swipes and keys change nothing |
| Navigator.HandleSwipe | scripts/main.js:660-673 | a swipe keeps a consistent state consistent and does nothing, goes to the next modal or goes to the previous one |
| Navigator.SwipeCases | scripts/main.js:660-673 | `|diff| ≤ 50` does nothing; `diff > 50` is next; `diff < -50` is previous |
| Navigator.KeyDown | scripts/main.js:720-730 | a key keeps a consistent state consistent, and does nothing while the overlay is inactive |
| Navigator.KeysOnlyWhileActive | scripts/main.js:720-730 | keys do nothing while inactive; Escape closes, ArrowRight is next, ArrowLeft is previous while active |
| Navigator.NavigateMovesWithinList | scripts/main.js:636-648 | with every listed id having content, next and previous open the neighbour ids of the same list |
| Navigator.NavigateRoundTrip | scripts/main.js:636-648 | going on then back (or back then on) restores the same open modal |
| Navigator.ShippedCatalogCovered | scripts/main.js:258-265 | the shipped table is well formed and all its ids have content |
| Navigator.ModalNavigator.constructor | scripts/main.js:255-265 | the shipped table, nothing open, touch coordinates 0 |
| Navigator.ModalNavigator.OpenModal | scripts/main.js:626-634 | the new state is `Open` of the old |
| Navigator.ModalNavigator.CloseModal | scripts/main.js:650-654 | the new state is `Close` of the old |
| Navigator.ModalNavigator.NavigateNextModal | scripts/main.js:636-641 | the new state is `NavigateNext` of the old |
| Navigator.ModalNavigator.NavigatePrevModal | scripts/main.js:643-648 | the new state is `NavigatePrev` of the old |
| Navigator.ModalNavigator.ClickCard | scripts/main.js:687-692 | a card with a non-empty `data-modal` opens it; otherwise nothing changes |
| Navigator.ModalNavigator.TouchStart | scripts/main.js:676-678 | records the start coordinate only |
| Navigator.ModalNavigator.TouchEnd | scripts/main.js:680-683 | records the end coordinate and applies `HandleSwipe` |
| Navigator.ModalNavigator.KeyPressed | scripts/main.js:720-730 | the new state is `KeyDown` of the old |
| Lightbox.ImagePaths | scripts/main.js:750-757 | the collected paths are exactly the present, non-empty `data-image` values, and no more of them than items |
| Lightbox.ImagePathsAppend | scripts/main.js:750-757 | the paths keep document order and duplicates: the paths of two runs of items are those of the first followed by those of the second |
| Lightbox.ImagePathsOfOne | scripts/main.js:752-755 | one item contributes its `data-image` value exactly when it is truthy |
| Lightbox.BuildImageArray | scripts/main.js:750-757 | the `forEach`/`push` loop computes `ImagePaths` |
| Lightbox.NextImageIndex | scripts/main.js:789-797 | from an index in range the next index is `(i + 1) mod len`; from any index ≥ -1 it lands in range |
| Lightbox.PrevImageIndex | scripts/main.js:800-808 | from an index in range the previous index is `(i - 1) mod len`, in range; from 0 or below it is the last index |
| Lightbox.ImageRoundTrip | scripts/main.js:789-808 | next then previous, and previous then next, restore an index in range |
| Lightbox.NextImageNAdvances | scripts/main.js:789-797 | `k ≤ len` presses of next move `k` places on, cyclically |
| Lightbox.NextImageCycleReturns | scripts/main.js:789-797 | `len` presses of next return to the same image |
| Lightbox.ViewImage | scripts/main.js:811-822 | a view-button click activates the overlay; when the item's path is the image at the button's position, that image is shown with the buttons hidden exactly when there is at most one image |
| Lightbox.CloseImage | scripts/main.js:770-775 | closing deactivates the overlay, and an overlay showing the image at an index in range still does so, whatever the list |
| Lightbox.NavigateImageNext | scripts/main.js:789-797 | next keeps the overlay showing the image at an index in range; from any index ≥ -1 over a non-empty list it lands in range and shows the image there |
| Lightbox.NavigateImagePrev | scripts/main.js:800-808 | previous keeps the overlay showing the image at an index in range; from any index up to the length over a non-empty list it lands in range and shows the image there |
| Lightbox.ViewImageShows | scripts/main.js:811-822 | opening from a view button in range shows its image, and the buttons are hidden exactly when there is at most one image |
| Lightbox.NavigationKeepsShowing | scripts/main.js:770-808 | next, previous, close and keys keep the index in range, the shown image the one at the index, and the hidden-iff-≤1 rule |
| Lightbox.NextRecoversIndex | scripts/main.js:789-797 | from any index ≥ 0, even past the end, next lands in range; from the last or beyond it goes to 0 |
| Lightbox.ImageKeysOnlyWhileActive | scripts/main.js:845-857 | keys do nothing while inactive; Escape closes, ArrowRight is next, ArrowLeft is previous while active |
| Lightbox.ImageKeyDown | scripts/main.js:845-857 | a key keeps the overlay showing the image at an index in range, and does nothing while the overlay is inactive |
| Lightbox.ImageLightbox.constructor | scripts/main.js:745-757 | `imageArray` is `ImagePaths` of the design items; index 0; overlay closed |
| Lightbox.ImageLightbox.UpdateImageNavButtons | scripts/main.js:778-786 | buttons hidden exactly when there is at most one image; nothing else changes |
| Lightbox.ImageLightbox.OpenImageOverlay | scripts/main.js:760-767 | the source is set, the overlay is active, the buttons are updated, the index is kept |
| Lightbox.ImageLightbox.ClickViewButton | scripts/main.js:811-822 | the new state is `ViewImage` of the old |
| Lightbox.ImageLightbox.CloseImageOverlay | scripts/main.js:770-775 | only the overlay's active flag goes |
| Lightbox.ImageLightbox.NavigateNext | scripts/main.js:789-797 | the new state is `NavigateImageNext` of the old |
| Lightbox.ImageLightbox.NavigatePrev | scripts/main.js:800-808 | the new state is `NavigateImagePrev` of the old |
| Lightbox.ImageLightbox.KeyPressed | scripts/main.js:845-857 | the new state is `ImageKeyDown` of the old |

## Left out

- Everything outside the navigator, lightbox and quiz is not modelled:
  - DOM rendering (`innerHTML`, class names, texts), CSS and `document.body.style.overflow`;
  - the mobile menu, scrolling, observers, video handling and PDF export;
  - the modal and question texts.
- `Math.random`/`Math.floor` are replaced by draw sequences with `draws[i] <= i`. The distribution of the shuffle is not modelled.
- Touch coordinates are integer inputs, not read from `TouchEvent.screenX`.
- Whether the overlay, image and button elements exist is not modelled (the `if (modalOverlay)`-style guards). The model assumes they exist. A missing `.design-item` ancestor of a view button is not modelled either.
- Navigator.Open: `modalContent[modalId]` is modelled as membership in the set of own content ids. Inherited `Object.prototype` property names are not modelled.
- Navigator.ModalNavigator.constructor: the buttons' initial visibility comes from the HTML, which is not part of this model. It is taken as not yet shown.
- Lightbox.ImageLightbox.constructor: the buttons' initial visibility comes from the HTML, which is not part of this model. It is taken as not hidden.
- Lightbox.ImageLightbox.ClickViewButton: the button's position among `.view-image-btn`s is a parameter. Whether it matches the image's position in `imageArray` depends on the document. `Lightbox.ViewImageShows` states what holds when it does.
- Quiz.Letter: `String.fromCharCode(97 + i)` is modelled only below the UTF-16 surrogate range, i.e. for at most 55199 options. Beyond that, 16-bit wrap-around and surrogate halves are not modelled.
- Quiz: `oldCorrectIndex` is computed and never used, so it is not modelled. `currentQuestionIndex` is only set.
- Quiz: the `displayCorrect` property written on the shared question objects is modelled as a map keyed by question id. Pool ids are distinct, so each question object has its own entry.
- QuizPage.QuizEngine.CheckAnswers: it requires the session invariant `Valid()`. The constructor, `InitQuiz` and `ResetQuiz` establish it, and `CheckAnswers` keeps it.
- The source's event listeners for card clicks, close buttons, backdrop clicks and nav buttons are the methods they call. `ClickCard` and the view-button click are modelled as their own methods.
