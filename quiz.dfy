/**
 * The quiz engine of scripts/quiz.js: a pool of multiple-choice questions,
 * a per-session sample of three, answer options shuffled and relabelled
 * `a, b, c, ...` with the correct key remapped, grading into a score and a
 * tier, and the reset that starts a new session.
 *
 * Question and option texts are opaque strings; only keys and the correct
 * key matter. `Math.random` is the draw sequences of module Shuffle. The
 * radio buttons the user ticked are an input map from question id to the
 * chosen key, and the page's feedback lines and result banner are fields.
 */
module Quiz {
  import opened Wrappers
  import opened Sequences
  import opened Shuffle

  /** `questionsPerPage`. */
  const QuestionsPerPage: nat := 3

  /**
   * `String.fromCharCode(97 + i)` stays a Unicode scalar value for
   * `-1 <= i < MaxOptions`; options beyond that are not modelled.
   */
  const MaxOptions: int := 0xD800 - 97

  /** A JavaScript object from letter keys to texts: its keys in insertion order, and its entries. */
  datatype Dict = Dict(keys: seq<char>, values: map<char, string>)
  {
    ghost predicate Valid()
    {
      Distinct(keys) && (set k | k in keys) == values.Keys
    }
  }

  /** Assigning `d[k] = v`: a new key is appended to the key order, an existing key keeps its place. */
  function Put(d: Dict, k: char, v: string): Dict
  {
    if k in d.values then Dict(d.keys, d.values[k := v]) else Dict(d.keys + [k], d.values[k := v])
  }

  /**
   * What an assignment does to an object: `k` now holds `v`, every other
   * entry is kept, the keys already there keep their order, and a
   * well-formed object stays well formed.
   */
  lemma PutAssigns(d: Dict, k: char, v: string)
    ensures Put(d, k, v).values.Keys == d.values.Keys + {k} && Put(d, k, v).values[k] == v
    ensures forall j :: j in d.values && j != k ==> Put(d, k, v).values[j] == d.values[j]
    ensures d.keys <= Put(d, k, v).keys
    ensures d.Valid() ==> Put(d, k, v).Valid()
  {
    if k !in d.values {
      assert (set x | x in d.keys + [k]) == (set x | x in d.keys) + {k};
    }
  }

  /** A pool entry: id, question text, option table and the key of the correct option. */
  datatype Question = Question(id: string, text: string, options: Dict, correct: char)

  /** What `shuffleOptions` returns: the relabelled option table and the remapped correct key. */
  datatype Presentation = Presentation(options: Dict, correct: char)

  ghost predicate WellFormed(q: Question)
  {
    q.options.Valid() && |q.options.keys| <= MaxOptions
  }

  /** `String.fromCharCode(97 + i)`: `a` for 0, `b` for 1, ..., and the backquote for -1. */
  function Letter(i: int): char
    requires -1 <= i < MaxOptions
  {
    (97 + i) as char
  }

  /** The first `n` letters `a, b, c, ...`. */
  function Letters(n: nat): (r: seq<char>)
    requires n <= MaxOptions
    ensures |r| == n && forall k :: 0 <= k < n ==> r[k] == Letter(k)
  {
    seq(n, k requires 0 <= k < n => Letter(k))
  }

  /**
   * The first `n` labels are pairwise distinct, and the backquote that a
   * missing correct key is mapped to (`indexOf` gives -1) is none of them.
   */
  lemma LettersDistinct(n: nat)
    requires n <= MaxOptions
    ensures Distinct(Letters(n)) && Letter(-1) !in Letters(n)
  {
    forall i, j | 0 <= i < j < n ensures Letters(n)[i] != Letters(n)[j] {
      LetterInjective(i, j);
    }
    forall k | 0 <= k < n ensures Letters(n)[k] != Letter(-1) {
      LetterInjective(k, -1);
    }
  }

  lemma LetterInjective(i: int, j: int)
    requires -1 <= i < MaxOptions && -1 <= j < MaxOptions
    ensures Letter(i) == Letter(j) <==> i == j
  {
    assert Letter(i) as int == 97 + i && Letter(j) as int == 97 + j;
  }

  /**
   * The `forEach` of `shuffleOptions`: the k-th key of `perm` is stored
   * under the k-th letter. The result's keys are exactly the first
   * `|perm|` letters, in order, and each letter carries the text of the
   * key at its position.
   */
  function Relabel(perm: seq<char>, texts: map<char, string>): (r: Dict)
    requires |perm| <= MaxOptions && forall k :: k in perm ==> k in texts
    ensures r.Valid() && r.keys == Letters(|perm|)
    ensures forall k :: 0 <= k < |perm| ==> r.values[Letter(k)] == texts[perm[k]]
    decreases |perm|
  {
    if perm == [] then Dict([], map[])
    else
      var n := |perm| - 1;
      var d := Relabel(perm[..n], texts);
      RelabelGrows(d, perm, texts, n);
      Put(d, Letter(n), texts[perm[n]])
  }

  /** Storing the text of the next key under the next letter extends a relabelled prefix by one. */
  lemma RelabelGrows(d: Dict, perm: seq<char>, texts: map<char, string>, n: nat)
    requires n < |perm| <= MaxOptions && forall k :: k in perm ==> k in texts
    requires d.Valid() && d.keys == Letters(n)
    requires forall k :: 0 <= k < n ==> d.values[Letter(k)] == texts[perm[..n][k]]
    ensures Put(d, Letter(n), texts[perm[n]]).Valid()
    ensures Put(d, Letter(n), texts[perm[n]]).keys == Letters(n + 1)
    ensures forall k :: 0 <= k <= n ==> Put(d, Letter(n), texts[perm[n]]).values[Letter(k)] == texts[perm[k]]
  {
    LettersGrow(n);
    PutNewKey(d, Letter(n), texts[perm[n]]);
    forall k | 0 <= k < n ensures Letter(k) != Letter(n) && perm[..n][k] == perm[k] {
      assert Letters(n)[k] == Letter(k);
    }
  }

  /** Every key of a shuffled option table has a text. */
  lemma ShuffledKeysHaveTexts(q: Question, draws: seq<nat>)
    requires WellFormed(q) && ValidDraws(draws, |q.options.keys|)
    ensures |Shuffled(q.options.keys, draws)| <= MaxOptions
    ensures forall k :: k in Shuffled(q.options.keys, draws) ==> k in q.options.values
  {
    ShuffledKeepsElements(q.options.keys, draws);
  }

  /** Relabelling one more key of `perm` stores its text under the next letter. */
  lemma RelabelStep(perm: seq<char>, texts: map<char, string>, n: nat)
    requires n < |perm| <= MaxOptions && forall k :: k in perm ==> k in texts
    ensures Relabel(perm[..n + 1], texts) == Put(Relabel(perm[..n], texts), Letter(n), texts[perm[n]])
  {
    assert perm[..n + 1][..n] == perm[..n];
  }

  /** Adding a key not yet present keeps the table valid and appends the key. */
  lemma PutNewKey(d: Dict, k: char, v: string)
    requires d.Valid() && k !in d.values
    ensures Put(d, k, v).Valid() && Put(d, k, v).keys == d.keys + [k]
    ensures Put(d, k, v).values == d.values[k := v]
  {
    var r := Put(d, k, v);
    assert (set x | x in r.keys) == (set x | x in d.keys) + {k};
  }

  lemma LettersGrow(n: nat)
    requires n < MaxOptions
    ensures Letters(n) + [Letter(n)] == Letters(n + 1)
    ensures Letter(n) !in Letters(n)
  {
    forall k | 0 <= k < n ensures Letter(k) != Letter(n) { LetterInjective(k, n); }
  }

  /**
   * `shuffleOptions` as a function of the question and the draws: the
   * shuffled key order relabelled, and the correct key moved to the
   * letter of the position where the original correct key landed. When
   * the correct key is one of the options, the new correct key shows the
   * same text as the old one did; when it is not, `indexOf` gives -1 and
   * the new key is the backquote, which labels no option.
   */
  function Relabelled(q: Question, draws: seq<nat>): (p: Presentation)
    requires WellFormed(q) && ValidDraws(draws, |q.options.keys|)
    ensures p.options.Valid() && p.options.keys == Letters(|q.options.keys|)
    ensures q.correct in q.options.values ==>
              p.correct in p.options.values && p.options.values[p.correct] == q.options.values[q.correct]
    ensures q.correct !in q.options.values ==> p.correct == '`' && p.correct !in p.options.values
  {
    var perm := Shuffled(q.options.keys, draws);
    ShuffledIsPermutation(q.options.keys, draws);
    ShuffledKeepsElements(q.options.keys, draws);
    var i := IndexOf(perm, q.correct);
    var p := Presentation(Relabel(perm, q.options.values), Letter(i));
    LettersDistinct(|perm|);
    p
  }

  /** The texts of a table, in key order. */
  function Texts(d: Dict): (r: seq<string>)
    requires d.Valid()
    ensures |r| == |d.keys|
  {
    seq(|d.keys|, k requires 0 <= k < |d.keys| => d.values[d.keys[k]])
  }

  /** Looking a key up in an option table, as a function on keys. */
  function TextLookup(texts: map<char, string>): char -> string
  {
    k => if k in texts then texts[k] else ""
  }

  /** The texts of a table are its keys looked up. */
  lemma TextsAreLookups(d: Dict)
    requires d.Valid()
    ensures Texts(d) == MapSeq(TextLookup(d.values), d.keys)
  {
    forall k | 0 <= k < |d.keys| ensures Texts(d)[k] == MapSeq(TextLookup(d.values), d.keys)[k] {
      assert d.keys[k] in d.values;
    }
  }

  /** The texts of a relabelled table are the texts of the keys it was built from, in their order. */
  lemma RelabelKeepsTextOrder(perm: seq<char>, texts: map<char, string>)
    requires |perm| <= MaxOptions && forall k :: k in perm ==> k in texts
    ensures Texts(Relabel(perm, texts)) == MapSeq(TextLookup(texts), perm)
  {
    var d := Relabel(perm, texts);
    forall k | 0 <= k < |perm| ensures Texts(d)[k] == MapSeq(TextLookup(texts), perm)[k] {
      assert d.keys[k] == Letter(k);
      assert perm[k] in texts;
    }
  }

  /**
   * The relabelled table shows the original option texts, each exactly as
   * often as the original table did: the relabelling is a bijection onto
   * the original options.
   */
  lemma RelabelledUsesEachTextOnce(q: Question, draws: seq<nat>)
    requires WellFormed(q) && ValidDraws(draws, |q.options.keys|)
    ensures multiset(Texts(Relabelled(q, draws).options)) == multiset(Texts(q.options))
  {
    var texts := q.options.values;
    var perm := Shuffled(q.options.keys, draws);
    ShuffledKeepsElements(q.options.keys, draws);
    assert Relabelled(q, draws).options == Relabel(perm, texts);
    RelabelKeepsTextOrder(perm, texts);
    TextsAreLookups(q.options);
    ShuffledCommutesWithMap(TextLookup(texts), q.options.keys, draws);
    ShuffledIsPermutation(MapSeq(TextLookup(texts), q.options.keys), draws);
  }

  /** No two keys of the table show the same text. */
  ghost predicate TextsDistinct(d: Dict)
  {
    forall k, k' :: k in d.values && k' in d.values && k != k' ==> d.values[k] != d.values[k']
  }

  /**
   * Correctness follows the option text, not the letter: when the texts of
   * a question are distinct, a displayed key is the remapped correct key
   * exactly when it shows the text of the original correct option.
   */
  lemma GradingFollowsText(q: Question, draws: seq<nat>, c: char)
    requires WellFormed(q) && ValidDraws(draws, |q.options.keys|)
    requires q.correct in q.options.values && TextsDistinct(q.options)
    requires c in Relabelled(q, draws).options.values
    ensures var p := Relabelled(q, draws);
            c == p.correct <==> p.options.values[c] == q.options.values[q.correct]
  {
    var p := Relabelled(q, draws);
    var perm := Shuffled(q.options.keys, draws);
    var n := |q.options.keys|;
    ShuffledIsPermutation(q.options.keys, draws);
    assert c in p.options.keys;
    var m :| 0 <= m < n && p.options.keys[m] == c;
    assert c == Letter(m);
    assert perm[m] in multiset(q.options.keys);
    if p.options.values[c] == q.options.values[q.correct] {
      assert perm[m] == q.correct;
      ShuffledKeepsDistinct(q.options.keys, draws);
      IndexOfDistinct(perm, m);
    }
  }

  /**
   * `shuffleOptions`: shuffle the key list, store each option text under
   * the letter of its new position, and remap the correct key.
   */
  method ShuffleOptions(q: Question, draws: seq<nat>) returns (p: Presentation)
    requires WellFormed(q) && ValidDraws(draws, |q.options.keys|)
    ensures p == Relabelled(q, draws)
  {
    var options, texts := q.options.keys, q.options.values;
    var shuffled := ShuffleArray(options, draws);
    ShuffledKeysHaveTexts(q, draws);
    var newOptions := Dict([], map[]);
    var index := 0;
    while index < |shuffled|
      invariant 0 <= index <= |shuffled|
      invariant newOptions == Relabel(shuffled[..index], texts)
    {
      RelabelStep(shuffled, texts, index);
      newOptions := Put(newOptions, Letter(index), texts[shuffled[index]]);
      index := index + 1;
    }
    assert shuffled[..index] == shuffled;
    var newCorrect := Letter(IndexOf(shuffled, q.correct));
    p := Presentation(newOptions, newCorrect);
  }

  /** The ids of a list of questions, in order. */
  function Ids(qs: seq<Question>): (r: seq<string>)
  {
    MapSeq((q: Question) => q.id, qs)
  }

  /** `shuffleArray(questionPool).slice(0, questionsPerPage)` as a function of the draws. */
  function Sample(pool: seq<Question>, draws: seq<nat>): (r: seq<Question>)
    requires ValidDraws(draws, |pool|)
    ensures |r| == if |pool| < QuestionsPerPage then |pool| else QuestionsPerPage
  {
    ShuffledIsPermutation(pool, draws);
    var s := Shuffled(pool, draws);
    s[..if |s| < QuestionsPerPage then |s| else QuestionsPerPage]
  }

  /** Sampling is without replacement: the sample is a sub-multiset of the pool. */
  lemma SampleDrawsFromPool(pool: seq<Question>, draws: seq<nat>)
    requires ValidDraws(draws, |pool|)
    ensures multiset(Sample(pool, draws)) <= multiset(pool)
    ensures forall q :: q in Sample(pool, draws) ==> q in pool
  {
    ShuffledIsPermutation(pool, draws);
    var s := Shuffled(pool, draws);
    var m := |Sample(pool, draws)|;
    assert s == s[..m] + s[m..];
    assert forall q :: q in s[..m] ==> q in multiset(s);
  }

  /** Sampling is without replacement: a pool with distinct ids gives a sample with distinct ids. */
  lemma SampleHasDistinctIds(pool: seq<Question>, draws: seq<nat>)
    requires ValidDraws(draws, |pool|) && Distinct(Ids(pool))
    ensures Distinct(Ids(Sample(pool, draws)))
  {
    var id := (q: Question) => q.id;
    assert Ids(pool) == MapSeq(id, pool);
    ShuffledCommutesWithMap(id, pool, draws);
    ShuffledKeepsDistinct(Ids(pool), draws);
    ShuffledIsPermutation(pool, draws);
    var r := Sample(pool, draws);
    var t := MapSeq(id, Shuffled(pool, draws));
    assert forall k :: 0 <= k < |r| ==> Ids(r)[k] == t[k];
  }

  /** A sample of a ready pool is made of pool questions and has distinct ids. */
  lemma SampleOfReadyPool(pool: seq<Question>, draws: seq<nat>)
    requires ValidDraws(draws, |pool|) && PoolReady(pool)
    ensures forall q :: q in Sample(pool, draws) ==> q in pool && WellFormed(q)
    ensures Distinct(Ids(Sample(pool, draws)))
  {
    SampleHasDistinctIds(pool, draws);
    SampleDrawsFromPool(pool, draws);
  }

  /** `selectRandomQuestions`: shuffle a copy of the pool and keep the first three. */
  method SelectRandomQuestions(pool: seq<Question>, draws: seq<nat>) returns (r: seq<Question>)
    requires ValidDraws(draws, |pool|)
    ensures r == Sample(pool, draws)
  {
    var shuffled := ShuffleArray(pool, draws);
    r := shuffled[..if |shuffled| < QuestionsPerPage then |shuffled| else QuestionsPerPage];
  }

  /** The text a question's feedback line shows. */
  datatype Feedback = Cleared | MarkedCorrect | MarkedIncorrect | AskedToSelect

  /** The three result classes `success`, `partial` and `incorrect`. */
  datatype Tier = Success | Partial | Incorrect

  /** The result banner: hidden, or showing a tier with `score/total`. */
  datatype Banner = Hidden | Shown(tier: Tier, score: nat, total: nat)

  /** The checked radio button of a question, if any. */
  function Selected(selection: map<string, Option<char>>, id: string): Option<char>
  {
    if id in selection then selection[id] else None
  }

  /** `selectedAnswer.value === q.displayCorrect` with a radio checked. */
  predicate AnsweredCorrectly(q: Question, displayCorrect: map<string, char>, selection: map<string, Option<char>>)
  {
    q.id in displayCorrect && Selected(selection, q.id) == Some(displayCorrect[q.id])
  }

  /** The feedback `checkAnswers` writes for one question. */
  function FeedbackFor(q: Question, displayCorrect: map<string, char>, selection: map<string, Option<char>>): (f: Feedback)
    ensures f == MarkedCorrect <==> AnsweredCorrectly(q, displayCorrect, selection)
    ensures f == AskedToSelect <==> Selected(selection, q.id) == None
    ensures f == MarkedIncorrect <==> Selected(selection, q.id).Some? && !AnsweredCorrectly(q, displayCorrect, selection)
  {
    match Selected(selection, q.id)
    case None => AskedToSelect
    case Some(v) => if q.id in displayCorrect && v == displayCorrect[q.id] then MarkedCorrect else MarkedIncorrect
  }

  /**
   * The score `checkAnswers` accumulates over `qs`, in order: at most one
   * point per question, and full marks exactly when every question is
   * answered correctly.
   */
  function Score(qs: seq<Question>, displayCorrect: map<string, char>, selection: map<string, Option<char>>): (s: nat)
    ensures s <= |qs|
    ensures s == |qs| <==> forall k :: 0 <= k < |qs| ==> AnsweredCorrectly(qs[k], displayCorrect, selection)
  {
    if qs == [] then 0
    else
      var n := |qs| - 1;
      assert forall k :: 0 <= k < n ==> qs[..n][k] == qs[k];
      Score(qs[..n], displayCorrect, selection) + if AnsweredCorrectly(qs[n], displayCorrect, selection) then 1 else 0
  }

  /** How many of `qs` have a radio button checked. */
  function Answered(qs: seq<Question>, selection: map<string, Option<char>>): nat
  {
    if qs == [] then 0
    else
      var n := |qs| - 1;
      Answered(qs[..n], selection) + if Selected(selection, qs[n].id).Some? then 1 else 0
  }

  /** The positions of `qs` whose selection equals the remapped correct key. */
  ghost function CorrectPositions(qs: seq<Question>, displayCorrect: map<string, char>, selection: map<string, Option<char>>): set<nat>
  {
    set k: nat | k < |qs| && AnsweredCorrectly(qs[k], displayCorrect, selection)
  }

  /** The score is the number of questions whose selection equals the remapped correct key. */
  lemma {:induction false} ScoreCountsCorrectAnswers(qs: seq<Question>, displayCorrect: map<string, char>, selection: map<string, Option<char>>)
    ensures Score(qs, displayCorrect, selection) == |CorrectPositions(qs, displayCorrect, selection)|
    decreases |qs|
  {
    if qs != [] {
      var n := |qs| - 1;
      ScoreCountsCorrectAnswers(qs[..n], displayCorrect, selection);
      var before := CorrectPositions(qs[..n], displayCorrect, selection);
      var after := CorrectPositions(qs, displayCorrect, selection);
      if AnsweredCorrectly(qs[n], displayCorrect, selection) {
        assert after == before + {n};
      } else {
        assert after == before;
      }
    }
  }

  /**
   * An unanswered question never adds to the score: the score is at most
   * the number of answered questions, which is at most the number of
   * questions.
   */
  lemma {:induction false} ScoreAtMostAnswered(qs: seq<Question>, displayCorrect: map<string, char>, selection: map<string, Option<char>>)
    ensures Score(qs, displayCorrect, selection) <= Answered(qs, selection) <= |qs|
    decreases |qs|
  {
    if qs != [] {
      ScoreAtMostAnswered(qs[..|qs| - 1], displayCorrect, selection);
    }
  }

  /**
   * The result tier. The source compares `score >= totalQuestions / 2`
   * in floating point; for whole numbers that is `2 * score >= total`.
   */
  function TierOf(score: nat, total: nat): (t: Tier)
    ensures t == Success <==> score == total
    ensures t == Incorrect <==> score != total && (score as real) < (total as real) / 2.0
  {
    if score == total then Success
    else if 2 * score >= total then Partial
    else Incorrect
  }

  /** A better score never gives a worse tier. */
  lemma TierMonotone(s1: nat, s2: nat, total: nat)
    requires s1 <= s2 <= total
    ensures TierOf(s1, total) == Success ==> TierOf(s2, total) == Success
    ensures TierOf(s1, total) == Partial ==> TierOf(s2, total) != Incorrect
  {
  }

  /** Three questions: two right pass, one right does not; no questions at all is perfect. */
  lemma TierThresholds()
    ensures TierOf(3, 3) == Success && TierOf(2, 3) == Partial
    ensures TierOf(1, 3) == Incorrect && TierOf(0, 3) == Incorrect
    ensures TierOf(0, 0) == Success
  {
  }

  /**
   * Three questions with distinct ids, the first answered with its
   * remapped key, the second left unanswered and the third answered with
   * another key, score 1 and fall in the lowest tier.
   */
  lemma MixedAnswersScoreOne(q1: Question, q2: Question, q3: Question, displayCorrect: map<string, char>, wrong: char)
    requires q1.id != q2.id && q2.id != q3.id && q1.id != q3.id
    requires q1.id in displayCorrect && q3.id in displayCorrect && wrong != displayCorrect[q3.id]
    ensures var selection := map[q1.id := Some(displayCorrect[q1.id]), q3.id := Some(wrong)];
            && Score([q1, q2, q3], displayCorrect, selection) == 1
            && FeedbackFor(q2, displayCorrect, selection) == AskedToSelect
            && TierOf(Score([q1, q2, q3], displayCorrect, selection), 3) == Incorrect
  {
    var selection := map[q1.id := Some(displayCorrect[q1.id]), q3.id := Some(wrong)];
    assert [q1, q2, q3][..2] == [q1, q2];
    assert [q1, q2][..1] == [q1];
    assert [q1][..0] == [];
    assert Score([q1], displayCorrect, selection) == 1;
    assert Score([q1, q2], displayCorrect, selection) == 1;
    assert !AnsweredCorrectly(q3, displayCorrect, selection);
  }

  /**
   * Writing `vs[k]` under `ids[k]` for each `k` in order, as a `forEach`
   * that sets one property per question does. Keys outside `ids` keep
   * their entries.
   */
  function Assign<V>(m: map<string, V>, ids: seq<string>, vs: seq<V>): (r: map<string, V>)
    requires |ids| == |vs|
    ensures r.Keys == m.Keys + (set id | id in ids)
    ensures forall id :: id in m && id !in ids ==> r[id] == m[id]
    decreases |ids|
  {
    if ids == [] then m
    else
      var n := |ids| - 1;
      Assign(m, ids[..n], vs[..n])[ids[n] := vs[n]]
  }

  /** Setting the properties of one more id extends the assignment by that id's value. */
  lemma AssignGrows<V>(m: map<string, V>, ids: seq<string>, vs: seq<V>, k: nat)
    requires |ids| == |vs| && k < |ids|
    ensures Assign(m, ids[..k + 1], vs[..k + 1]) == Assign(m, ids[..k], vs[..k])[ids[k] := vs[k]]
  {
    assert ids[..k + 1][..k] == ids[..k] && vs[..k + 1][..k] == vs[..k];
  }

  /** With distinct ids, every id ends up holding its own value. */
  lemma {:induction false} AssignAt<V>(m: map<string, V>, ids: seq<string>, vs: seq<V>, k: nat)
    requires |ids| == |vs| && Distinct(ids) && k < |ids|
    ensures Assign(m, ids, vs)[ids[k]] == vs[k]
    decreases |ids|
  {
    var n := |ids| - 1;
    if k < n {
      assert Distinct(ids[..n]) by {
        forall i, j | 0 <= i < j < n ensures ids[..n][i] != ids[..n][j] {
          assert ids[i] != ids[j];
        }
      }
      AssignAt(m, ids[..n], vs[..n], k);
      assert ids[..n][k] == ids[k] != ids[n];
    }
  }

  /** One valid draw sequence per question, sized to that question's options. */
  predicate DrawsFor(qs: seq<Question>, optionDraws: seq<seq<nat>>)
  {
    |optionDraws| == |qs| && forall k :: 0 <= k < |qs| ==> ValidDraws(optionDraws[k], |qs[k].options.keys|)
  }

  /** What the page needs of the pool: well-formed option tables and ids that name one question each. */
  ghost predicate PoolReady(pool: seq<Question>)
  {
    (forall q :: q in pool ==> WellFormed(q)) && Distinct(Ids(pool))
  }

  /** The presentations `renderQuestions` computes, one per question. */
  function Presentations(qs: seq<Question>, optionDraws: seq<seq<nat>>): (ps: seq<Presentation>)
    requires (forall q :: q in qs ==> WellFormed(q)) && DrawsFor(qs, optionDraws)
  {
    seq(|qs|, k requires 0 <= k < |qs| => Relabelled(qs[k], optionDraws[k]))
  }

  /** The remapped correct keys of a list of presentations. */
  function Corrects(ps: seq<Presentation>): (r: seq<char>)
  {
    MapSeq((p: Presentation) => p.correct, ps)
  }

  /** The feedback `checkAnswers` writes, one per question. */
  function Feedbacks(qs: seq<Question>, displayCorrect: map<string, char>, selection: map<string, Option<char>>): (r: seq<Feedback>)
  {
    MapSeq((q: Question) => FeedbackFor(q, displayCorrect, selection), qs)
  }

  /** Freshly rendered feedback lines: one empty line per question id. */
  function Blank(ids: seq<string>): (r: map<string, Feedback>)
  {
    map id | id in ids :: Cleared
  }

  /** The presentations of a prefix grow by the presentation of the next question. */
  lemma PresentationsStep(qs: seq<Question>, draws: seq<seq<nat>>, k: nat)
    requires (forall q :: q in qs ==> WellFormed(q)) && DrawsFor(qs, draws) && k < |qs|
    ensures (forall q :: q in qs[..k] ==> WellFormed(q)) && DrawsFor(qs[..k], draws[..k])
    ensures (forall q :: q in qs[..k + 1] ==> WellFormed(q)) && DrawsFor(qs[..k + 1], draws[..k + 1])
    ensures Presentations(qs[..k + 1], draws[..k + 1]) == Presentations(qs[..k], draws[..k]) + [Relabelled(qs[k], draws[k])]
  {
    assert qs[k] in qs;
    var ps, ps' := Presentations(qs[..k], draws[..k]), Presentations(qs[..k + 1], draws[..k + 1]);
    var r := Relabelled(qs[k], draws[k]);
    assert |ps'| == |ps + [r]|;
    forall j | 0 <= j < k + 1 ensures ps'[j] == (ps + [r])[j] {
      if j < k {
        assert ps'[j] == Relabelled(qs[j], draws[j]) == ps[j];
      }
    }
  }

  /** How the state `renderQuestions` builds grows by one question. */
  lemma RenderStep(qs: seq<Question>, draws: seq<seq<nat>>, k: nat, dc: map<string, char>)
    requires (forall q :: q in qs ==> WellFormed(q)) && DrawsFor(qs, draws) && k < |qs|
    ensures Presentations(qs[..k + 1], draws[..k + 1]) == Presentations(qs[..k], draws[..k]) + [Relabelled(qs[k], draws[k])]
    ensures Blank(Ids(qs[..k + 1])) == Blank(Ids(qs[..k]))[qs[k].id := Cleared]
    ensures Assign(dc, Ids(qs[..k + 1]), Corrects(Presentations(qs[..k + 1], draws[..k + 1])))
         == Assign(dc, Ids(qs[..k]), Corrects(Presentations(qs[..k], draws[..k])))[qs[k].id := Relabelled(qs[k], draws[k]).correct]
  {
    PresentationsStep(qs, draws, k);
    IdsStep(qs, k);
    var ps := Presentations(qs[..k], draws[..k]);
    var p := Relabelled(qs[k], draws[k]);
    CorrectsStep(ps, p);
    BlankStep(Ids(qs[..k]), qs[k].id);
    AssignStep(dc, Ids(qs[..k]), Corrects(ps), qs[k].id, p.correct);
  }

  /** One more id gives one more empty feedback line. */
  lemma BlankStep(ids: seq<string>, id: string)
    ensures Blank(ids + [id]) == Blank(ids)[id := Cleared]
  {
    assert forall x :: x in ids + [id] <==> x in ids || x == id;
  }

  /** Assigning one more id and value is one more map update. */
  lemma AssignStep<V>(m: map<string, V>, ids: seq<string>, vs: seq<V>, id: string, v: V)
    requires |ids| == |vs|
    ensures Assign(m, ids + [id], vs + [v]) == Assign(m, ids, vs)[id := v]
  {
    assert (ids + [id])[..|ids|] == ids;
    assert (vs + [v])[..|vs|] == vs;
  }

  /** The ids of a prefix grow by the id of the next question. */
  lemma IdsStep(qs: seq<Question>, k: nat)
    requires k < |qs|
    ensures Ids(qs[..k + 1]) == Ids(qs[..k]) + [qs[k].id]
    ensures Ids(qs[..k + 1])[..k] == Ids(qs[..k])
  {
    var ids, ids' := Ids(qs[..k]), Ids(qs[..k + 1]);
    forall j | 0 <= j < k + 1 ensures ids'[j] == (ids + [qs[k].id])[j] {}
  }

  /** The correct keys of presentations grow with them. */
  lemma CorrectsStep(ps: seq<Presentation>, p: Presentation)
    ensures Corrects(ps + [p])[..|ps|] == Corrects(ps)
    ensures Corrects(ps + [p]) == Corrects(ps) + [p.correct]
  {
    var cs, cs' := Corrects(ps), Corrects(ps + [p]);
    forall j | 0 <= j <= |ps| ensures cs'[j] == (cs + [p.correct])[j] {}
  }

  /**
   * The loop of `renderQuestions`: for each question, shuffle its options,
   * give it an empty feedback line and store its remapped correct key.
   */
  method Render(qs: seq<Question>, draws: seq<seq<nat>>, displayCorrect: map<string, char>)
    returns (shown: seq<Presentation>, remembered: map<string, char>, lines: map<string, Feedback>)
    requires (forall q :: q in qs ==> WellFormed(q)) && DrawsFor(qs, draws)
    ensures shown == Presentations(qs, draws)
    ensures remembered == Assign(displayCorrect, Ids(qs), Corrects(shown))
    ensures lines == Blank(Ids(qs))
  {
    lines := map[];
    shown := [];
    remembered := displayCorrect;
    var k := 0;
    while k < |qs|
      invariant 0 <= k <= |qs|
      invariant shown == Presentations(qs[..k], draws[..k])
      invariant remembered == Assign(displayCorrect, Ids(qs[..k]), Corrects(shown))
      invariant lines == Blank(Ids(qs[..k]))
    {
      var q := qs[k];
      var shuffled := ShuffleOptions(q, draws[k]);
      RenderStep(qs, draws, k, displayCorrect);
      lines := lines[q.id := Cleared];
      shown := shown + [shuffled];
      remembered := remembered[q.id := shuffled.correct];
      k := k + 1;
    }
    assert qs[..k] == qs;
    assert draws[..k] == draws;
  }

  /**
   * The questions on the page as rendered: drawn from a ready pool without
   * repeated ids, each table the relabelling of its question, and each
   * question's `displayCorrect` the remapped key of its table.
   */
  ghost predicate Drawn(pool: seq<Question>, qs: seq<Question>, optionDraws: seq<seq<nat>>,
                        rendered: seq<Presentation>, displayCorrect: map<string, char>)
  {
    && PoolReady(pool)
    && (forall q :: q in qs ==> q in pool)
    && Distinct(Ids(qs))
    && DrawsFor(qs, optionDraws)
    && rendered == Presentations(qs, optionDraws)
    && (forall k :: 0 <= k < |qs| ==> qs[k].id in displayCorrect && displayCorrect[qs[k].id] == rendered[k].correct)
  }

  /**
   * The quiz's consistent states: the questions drawn and rendered as
   * above, and one feedback line per current question.
   */
  ghost predicate Session(pool: seq<Question>, qs: seq<Question>, optionDraws: seq<seq<nat>>,
                          rendered: seq<Presentation>, displayCorrect: map<string, char>, feedback: map<string, Feedback>)
  {
    Drawn(pool, qs, optionDraws, rendered, displayCorrect) && feedback.Keys == set id | id in Ids(qs)
  }

  /**
   * The state `initQuiz` and `resetQuiz` leave, from the stored
   * `displayCorrect` entries `before`: the sample drawn from the pool, a
   * consistent session on it, each question's remapped key stored under
   * its id on top of `before`, and one empty feedback line per question.
   */
  ghost predicate Started(pool: seq<Question>, poolDraws: seq<nat>, draws: seq<seq<nat>>, before: map<string, char>,
                          qs: seq<Question>, shown: seq<Presentation>, remembered: map<string, char>, lines: map<string, Feedback>)
  {
    && ValidDraws(poolDraws, |pool|)
    && qs == Sample(pool, poolDraws)
    && Session(pool, qs, draws, shown, remembered, lines)
    && remembered == Assign(before, Ids(qs), Corrects(shown))
    && lines == Blank(Ids(qs))
  }

  /**
   * What `initQuiz` and `resetQuiz` share: select a new sample, then
   * `renderQuestions` it, on top of the `displayCorrect` entries already
   * stored. The result is a consistent session, whatever came before.
   */
  method NewSession(pool: seq<Question>, poolDraws: seq<nat>, draws: seq<seq<nat>>, displayCorrect: map<string, char>)
    returns (qs: seq<Question>, shown: seq<Presentation>, remembered: map<string, char>, lines: map<string, Feedback>)
    requires PoolReady(pool) && ValidDraws(poolDraws, |pool|) && DrawsFor(Sample(pool, poolDraws), draws)
    ensures Started(pool, poolDraws, draws, displayCorrect, qs, shown, remembered, lines)
  {
    qs := SelectRandomQuestions(pool, poolDraws);
    SampleOfReadyPool(pool, poolDraws);
    shown, remembered, lines := Render(qs, draws, displayCorrect);
    forall k | 0 <= k < |qs| ensures qs[k].id in remembered && remembered[qs[k].id] == shown[k].correct {
      AssignAt(displayCorrect, Ids(qs), Corrects(shown), k);
    }
  }

  /** The score of a prefix grows by the next question's point. */
  lemma ScoreGrows(qs: seq<Question>, displayCorrect: map<string, char>, selection: map<string, Option<char>>, k: nat)
    requires k < |qs|
    ensures Score(qs[..k + 1], displayCorrect, selection)
         == Score(qs[..k], displayCorrect, selection) + if AnsweredCorrectly(qs[k], displayCorrect, selection) then 1 else 0
  {
    assert qs[..k + 1][..k] == qs[..k];
  }

  /** How the score and the feedback `checkAnswers` builds grow by one question. */
  lemma GradeStep(qs: seq<Question>, displayCorrect: map<string, char>, selection: map<string, Option<char>>,
                  feedback: map<string, Feedback>, k: nat)
    requires k < |qs|
    ensures Score(qs[..k + 1], displayCorrect, selection)
         == Score(qs[..k], displayCorrect, selection) + if AnsweredCorrectly(qs[k], displayCorrect, selection) then 1 else 0
    ensures Assign(feedback, Ids(qs[..k + 1]), Feedbacks(qs[..k + 1], displayCorrect, selection))
         == Assign(feedback, Ids(qs[..k]), Feedbacks(qs[..k], displayCorrect, selection))[qs[k].id := FeedbackFor(qs[k], displayCorrect, selection)]
  {
    ScoreGrows(qs, displayCorrect, selection, k);
    var ids, fs := Ids(qs), Feedbacks(qs, displayCorrect, selection);
    assert Ids(qs[..k + 1]) == ids[..k + 1] && Ids(qs[..k]) == ids[..k];
    assert Feedbacks(qs[..k + 1], displayCorrect, selection) == fs[..k + 1];
    assert Feedbacks(qs[..k], displayCorrect, selection) == fs[..k];
    AssignGrows(feedback, ids, fs, k);
  }

  /** Grading rewrites the feedback lines of the current questions and keeps the state consistent. */
  lemma GradedSessionIsConsistent(pool: seq<Question>, qs: seq<Question>, optionDraws: seq<seq<nat>>, rendered: seq<Presentation>,
                                  displayCorrect: map<string, char>, before: map<string, Feedback>, after: map<string, Feedback>,
                                  selection: map<string, Option<char>>)
    requires Session(pool, qs, optionDraws, rendered, displayCorrect, before)
    requires after == Assign(before, Ids(qs), Feedbacks(qs, displayCorrect, selection))
    ensures Session(pool, qs, optionDraws, rendered, displayCorrect, after)
  {
  }

  /**
   * The "clear feedback" loop of `resetQuiz`: the feedback line of each
   * question in `qs` that has one is emptied; other lines are untouched.
   */
  method ClearFeedback(qs: seq<Question>, feedback: map<string, Feedback>) returns (lines: map<string, Feedback>)
    ensures lines.Keys == feedback.Keys
    ensures forall id :: id in lines ==> lines[id] == if id in Ids(qs) then Cleared else feedback[id]
  {
    lines := feedback;
    var k := 0;
    while k < |qs|
      invariant 0 <= k <= |qs|
      invariant lines.Keys == feedback.Keys
      invariant forall id :: id in lines ==> lines[id] == if id in Ids(qs[..k]) then Cleared else feedback[id]
    {
      var id := qs[k].id;
      assert Ids(qs[..k + 1]) == Ids(qs[..k]) + [id];
      if id in lines {
        lines := lines[id := Cleared];
      }
      k := k + 1;
    }
    assert qs[..k] == qs;
  }

  /**
   * What `resetQuiz` does before hiding the banner: a new session as in
   * `initQuiz`, then the feedback line of each new question emptied, which
   * leaves the freshly rendered lines as they are.
   */
  method RestartSession(pool: seq<Question>, poolDraws: seq<nat>, draws: seq<seq<nat>>, displayCorrect: map<string, char>)
    returns (qs: seq<Question>, shown: seq<Presentation>, remembered: map<string, char>, lines: map<string, Feedback>)
    requires PoolReady(pool) && ValidDraws(poolDraws, |pool|) && DrawsFor(Sample(pool, poolDraws), draws)
    ensures Started(pool, poolDraws, draws, displayCorrect, qs, shown, remembered, lines)
  {
    var drawn;
    qs, shown, remembered, drawn := NewSession(pool, poolDraws, draws, displayCorrect);
    lines := ClearFeedback(qs, drawn);
    ClearingBlankLines(Ids(qs), lines);
  }

  /** Emptying lines that are all empty already changes nothing. */
  lemma ClearingBlankLines(ids: seq<string>, cleared: map<string, Feedback>)
    requires cleared.Keys == Blank(ids).Keys
    requires forall id :: id in cleared ==> cleared[id] == if id in ids then Cleared else Blank(ids)[id]
    ensures cleared == Blank(ids)
  {
  }

  /**
   * The loop of `checkAnswers`: for each question, in order, compare the
   * checked radio button with `displayCorrect`, count a match and write
   * the feedback line.
   */
  method Grade(qs: seq<Question>, displayCorrect: map<string, char>, selection: map<string, Option<char>>,
               feedback: map<string, Feedback>)
    returns (score: nat, lines: map<string, Feedback>)
    ensures score == Score(qs, displayCorrect, selection)
    ensures lines == Assign(feedback, Ids(qs), Feedbacks(qs, displayCorrect, selection))
  {
    lines := feedback;
    score := 0;
    var k := 0;
    while k < |qs|
      invariant 0 <= k <= |qs|
      invariant score == Score(qs[..k], displayCorrect, selection)
      invariant lines == Assign(feedback, Ids(qs[..k]), Feedbacks(qs[..k], displayCorrect, selection))
    {
      var q := qs[k];
      GradeStep(qs, displayCorrect, selection, feedback, k);
      var selectedAnswer := Selected(selection, q.id);
      if selectedAnswer.Some? {
        if q.id in displayCorrect && selectedAnswer.value == displayCorrect[q.id] {
          score := score + 1;
          lines := lines[q.id := MarkedCorrect];
        } else {
          lines := lines[q.id := MarkedIncorrect];
        }
      } else {
        lines := lines[q.id := AskedToSelect];
      }
      k := k + 1;
    }
    assert qs[..k] == qs;
  }

  /**
   * In any consistent session, ticking a displayed option of a question
   * whose texts are distinct grades it correct exactly when that option
   * shows the text of the original correct option.
   */
  lemma SessionGradesByText(pool: seq<Question>, qs: seq<Question>, optionDraws: seq<seq<nat>>, rendered: seq<Presentation>,
                            displayCorrect: map<string, char>, feedback: map<string, Feedback>,
                            selection: map<string, Option<char>>, k: nat, c: char)
    requires Session(pool, qs, optionDraws, rendered, displayCorrect, feedback) && k < |qs|
    requires qs[k].correct in qs[k].options.values && TextsDistinct(qs[k].options)
    requires c in rendered[k].options.values
    ensures AnsweredCorrectly(qs[k], displayCorrect, selection[qs[k].id := Some(c)])
        <==> rendered[k].options.values[c] == qs[k].options.values[qs[k].correct]
  {
    assert qs[k] in qs;
    GradingFollowsText(qs[k], optionDraws[k], c);
  }

  /** The ids of the twelve questions of `questionPool`, in order. */
  const PoolIds: seq<string> := ["q1", "q2", "q3", "q4", "q5", "q6", "q7", "q8", "q9", "q10", "q11", "q12"]

  lemma PoolIdsDistinct()
    ensures Distinct(PoolIds)
  {
    forall i, j | 0 <= i < j < |PoolIds| ensures PoolIds[i] != PoolIds[j] {
      if |PoolIds[i]| == |PoolIds[j]| {
        assert PoolIds[i][|PoolIds[i]| - 1] != PoolIds[j][|PoolIds[j]| - 1];
      }
    }
  }

  /**
   * The shape of `questionPool`: ids `q1` to `q12`, options `a` to `d` in
   * that order, and correct key `b` for `q2` and `a` for every other.
   */
  ghost predicate ShapedLikeQuestionPool(pool: seq<Question>)
  {
    && |pool| == |PoolIds|
    && forall k :: 0 <= k < |pool| ==>
         && pool[k].id == PoolIds[k]
         && pool[k].options.keys == ['a', 'b', 'c', 'd']
         && pool[k].options.values.Keys == {'a', 'b', 'c', 'd'}
         && pool[k].correct == if k == 1 then 'b' else 'a'
  }

  /**
   * The shipped pool is ready for the page, and every question's correct
   * key is one of its options, so the remapped key always shows the
   * correct text.
   */
  lemma QuestionPoolIsReady(pool: seq<Question>)
    requires ShapedLikeQuestionPool(pool)
    ensures PoolReady(pool)
    ensures forall q :: q in pool ==> q.correct in q.options.values
  {
    assert Ids(pool) == PoolIds;
    PoolIdsDistinct();
    forall q | q in pool ensures WellFormed(q) && q.correct in q.options.values {
      var k :| 0 <= k < |pool| && pool[k] == q;
      assert (set x | x in q.options.keys) == {'a', 'b', 'c', 'd'};
    }
  }
}
