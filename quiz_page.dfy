/**
 * The module state of scripts/quiz.js and the page it draws, as an object
 * whose methods are `initQuiz`, `resetQuiz` and `checkAnswers`.
 */
module QuizPage {
  import opened Wrappers
  import opened Shuffle
  import opened Quiz

  /**
   * The module state of scripts/quiz.js: the current questions, the
   * unused `currentQuestionIndex`, and what the page shows: the rendered
   * option tables, the `displayCorrect` key stored on each question
   * object (keyed here by question id), the feedback lines and the result
   * banner.
   */
  class QuizEngine {
    const pool: seq<Question>
    var currentQuestions: seq<Question>
    var currentQuestionIndex: int
    var rendered: seq<Presentation>
    ghost var optionDraws: seq<seq<nat>>
    var displayCorrect: map<string, char>
    var feedback: map<string, Feedback>
    var result: Banner

    /**
     * The session is drawn from the pool without repeated ids, each
     * rendered table is the relabelling of its question, each question's
     * `displayCorrect` is the remapped key of its table, and there is one
     * feedback line per current question.
     */
    ghost predicate Valid()
      reads this
    {
      Session(pool, currentQuestions, optionDraws, rendered, displayCorrect, feedback)
    }

    /** The engine before `initQuiz`: no questions, nothing on the page. */
    constructor (pool: seq<Question>)
      requires PoolReady(pool)
      ensures Valid() && this.pool == pool
      ensures currentQuestions == [] && currentQuestionIndex == 0 && rendered == []
      ensures displayCorrect == map[] && feedback == map[] && result == Hidden
    {
      this.pool := pool;
      currentQuestions := [];
      currentQuestionIndex := 0;
      rendered := [];
      optionDraws := [];
      displayCorrect := map[];
      feedback := map[];
      result := Hidden;
    }

    /** Puts a session started from the `displayCorrect` entries `before` on the page and in the module state. */
    method Display(poolDraws: seq<nat>, draws: seq<seq<nat>>, before: map<string, char>,
                   qs: seq<Question>, shown: seq<Presentation>, remembered: map<string, char>, lines: map<string, Feedback>)
      requires Started(pool, poolDraws, draws, before, qs, shown, remembered, lines)
      modifies this`currentQuestions, this`rendered, this`optionDraws, this`displayCorrect, this`feedback
      ensures Valid() && optionDraws == draws
      ensures Started(pool, poolDraws, draws, before, currentQuestions, rendered, displayCorrect, feedback)
    {
      currentQuestions := qs;
      rendered := shown;
      optionDraws := draws;
      displayCorrect := remembered;
      feedback := lines;
    }

    /** `initQuiz`: a new session, with `currentQuestionIndex` back at 0. */
    method InitQuiz(poolDraws: seq<nat>, draws: seq<seq<nat>>)
      requires PoolReady(pool) && ValidDraws(poolDraws, |pool|) && DrawsFor(Sample(pool, poolDraws), draws)
      modifies this`currentQuestions, this`currentQuestionIndex, this`rendered, this`optionDraws, this`displayCorrect, this`feedback
      ensures Valid() && optionDraws == draws
      ensures Started(pool, poolDraws, draws, old(displayCorrect), currentQuestions, rendered, displayCorrect, feedback)
      ensures currentQuestionIndex == 0
    {
      var qs, shown, remembered, lines := NewSession(pool, poolDraws, draws, displayCorrect);
      currentQuestionIndex := 0;
      Display(poolDraws, draws, displayCorrect, qs, shown, remembered, lines);
    }

    /**
     * `resetQuiz`: a new session as in `initQuiz` (the unused
     * `currentQuestionIndex` is left alone), every feedback line of the new
     * questions cleared, and the result banner hidden and emptied.
     */
    method ResetQuiz(poolDraws: seq<nat>, draws: seq<seq<nat>>)
      requires PoolReady(pool) && ValidDraws(poolDraws, |pool|) && DrawsFor(Sample(pool, poolDraws), draws)
      modifies this`currentQuestions, this`rendered, this`optionDraws, this`displayCorrect, this`feedback, this`result
      ensures Valid() && optionDraws == draws
      ensures Started(pool, poolDraws, draws, old(displayCorrect), currentQuestions, rendered, displayCorrect, feedback)
      ensures result == Hidden
    {
      var qs, shown, remembered, lines := RestartSession(pool, poolDraws, draws, displayCorrect);
      result := Hidden;
      Display(poolDraws, draws, displayCorrect, qs, shown, remembered, lines);
    }

    /**
     * `checkAnswers`: grade the current questions against their
     * `displayCorrect` keys, then show the banner with the score and its
     * tier.
     */
    method CheckAnswers(selection: map<string, Option<char>>)
      requires Valid()
      modifies this`feedback, this`result
      ensures Valid()
      ensures feedback == Assign(old(feedback), Ids(currentQuestions), Feedbacks(currentQuestions, displayCorrect, selection))
      ensures var score := Score(currentQuestions, displayCorrect, selection);
              result == Shown(TierOf(score, |currentQuestions|), score, |currentQuestions|)
    {
      var before := feedback;
      var score, lines := Grade(currentQuestions, displayCorrect, selection, before);
      var totalQuestions := |currentQuestions|;
      feedback := lines;
      GradedSessionIsConsistent(pool, currentQuestions, optionDraws, rendered, displayCorrect, before, lines, selection);
      if score == totalQuestions {
        result := Shown(Success, score, totalQuestions);
      } else if 2 * score >= totalQuestions {
        result := Shown(Partial, score, totalQuestions);
      } else {
        result := Shown(Incorrect, score, totalQuestions);
      }
    }
  }
}
