/** The candidate side of the exam API (src/controllers/userController.js):
    serving an exam in an order fixed per user, and scoring a submission.
    The user's email arrives already trimmed and lower-cased; request ids
    are `Number(req.params.id)`, with None standing for NaN. */
module UserController {
  import opened Wrappers
  import opened Collections
  import opened Decimal
  import opened Entities
  import opened SeedShuffle
  import opened QuestionValidators
  import opened Store
  import AdminController

  datatype UserError =
    | InvalidExamId      // 400 'Invalid exam id'
    | ExamNotFound       // 404 'Exam not found'
    | AnswersRequired    // 400 'answers array is required'

  // ---------------------------------------------------------------------
  // Serving an exam
  // ---------------------------------------------------------------------

  /** An option as the candidate sees it: there is no `isCorrect` in it. */
  datatype ServedOption = ServedOption(id: int, text: string)

  datatype ServedQuestion = ServedQuestion(
    id: int,
    number: int,
    text: string,
    qtype: QuestionType,
    options: seq<ServedOption>)

  /** The body of the `getExamForUser` response. */
  datatype ServedExam = ServedExam(
    id: int,
    name: string,
    questionsInExam: int,
    passingPercentage: int,
    startDate: string,
    questions: seq<ServedQuestion>)

  /** The question-order seed `${email}|${exam.id}`. */
  function UserSeed(email: string, examId: int): string
  {
    email + "|" + IntToString(examId)
  }

  /** The option-order seed `seed + '|' + q.id`. */
  function OptionSeed(seed: string, questionId: int): string
  {
    seed + "|" + IntToString(questionId)
  }

  function ServeOption(o: StoredOption): ServedOption
  {
    ServedOption(o.id, o.text)
  }

  /** The projection of lines 27-34: the question's own fields, and its
      options in their own seeded order with `isCorrect` dropped. */
  function ServeQuestion(seed: string, q: StoredQuestion): ServedQuestion
  {
    ServedQuestion(q.id, q.number, q.text, q.qtype,
      MapSeq(ServeOption, SeededShuffleOf(q.options, OptionSeed(seed, q.id))))
  }

  function ServedId(q: ServedQuestion): int
  {
    q.id
  }

  /** `slice(0, n)` for a count that is not negative. */
  function Take<T>(s: seq<T>, n: nat): (r: seq<T>)
    ensures |r| == Min(n, |s|) && r == s[..|r|]
  {
    if n <= |s| then s[..n] else s
  }

  /** The served question list: the pool in its seeded order, cut to the
      exam's size, each question projected. */
  function ServedQuestions(seed: string, questionsInExam: nat, pool: seq<StoredQuestion>): seq<ServedQuestion>
  {
    MapSeq(q => ServeQuestion(seed, q), Take(SeededShuffleOf(pool, seed), questionsInExam))
  }

  /** The response of `getExamForUser` for a stored exam and its pool. */
  function ServedExamFor(email: string, exam: Exam, pool: seq<StoredQuestion>): ServedExam
    requires exam.payload.questionsInExam >= 0
  {
    var p := exam.payload;
    ServedExam(exam.id, p.name, p.questionsInExam, p.passingPercentage, p.startDate,
      ServedQuestions(UserSeed(email, exam.id), p.questionsInExam, pool))
  }

  /** A sitting holds as many questions as the exam asks for, or the whole
      pool when it is smaller. */
  lemma ServedCount(seed: string, questionsInExam: nat, pool: seq<StoredQuestion>)
    ensures |ServedQuestions(seed, questionsInExam, pool)| == Min(questionsInExam, |pool|)
  {
    ShuffledPermutes(pool, Fnv1a(Utf16(seed)));
  }

  /** Every served question is the projection of a question of the pool. */
  lemma ServedFromPool(seed: string, questionsInExam: nat, pool: seq<StoredQuestion>)
    ensures var served := ServedQuestions(seed, questionsInExam, pool);
      forall k :: 0 <= k < |served| ==> exists m :: 0 <= m < |pool| && served[k] == ServeQuestion(seed, pool[m])
  {
    var shuffled := SeededShuffleOf(pool, seed);
    var taken := Take(shuffled, questionsInExam);
    ShuffledPermutes(pool, Fnv1a(Utf16(seed)));
    var served := ServedQuestions(seed, questionsInExam, pool);
    forall k | 0 <= k < |served|
      ensures exists m :: 0 <= m < |pool| && served[k] == ServeQuestion(seed, pool[m])
    {
      assert taken[k] == shuffled[k];
      assert shuffled[k] in multiset(pool);
      var m :| 0 <= m < |pool| && pool[m] == taken[k];
      assert served[k] == ServeQuestion(seed, pool[m]);
    }
  }

  /** The served ids are a prefix of the pool's ids in seeded order. */
  lemma ServedIdsArePrefix(seed: string, questionsInExam: nat, pool: seq<StoredQuestion>)
    ensures var served := ServedQuestions(seed, questionsInExam, pool);
      var ids := MapSeq(QuestionId, SeededShuffleOf(pool, seed));
      |served| <= |ids| && MapSeq(ServedId, served) == ids[..|served|]
  {
  }

  /** No question is served more often than it is in the pool, and all of
      the pool is served when the exam asks for at least the pool's size. */
  lemma ServedIdsFromPool(seed: string, questionsInExam: nat, pool: seq<StoredQuestion>)
    ensures multiset(MapSeq(ServedId, ServedQuestions(seed, questionsInExam, pool))) <= multiset(MapSeq(QuestionId, pool))
    ensures questionsInExam >= |pool| ==>
      multiset(MapSeq(ServedId, ServedQuestions(seed, questionsInExam, pool))) == multiset(MapSeq(QuestionId, pool))
  {
    var hash := Fnv1a(Utf16(seed));
    var served := ServedQuestions(seed, questionsInExam, pool);
    var ids := MapSeq(QuestionId, SeededShuffleOf(pool, seed));
    assert multiset(ids) == multiset(MapSeq(QuestionId, pool)) by {
      ShuffledCommutesWithMap(QuestionId, pool, hash);
      ShuffledPermutes(MapSeq(QuestionId, pool), hash);
    }
    ShuffledPermutes(pool, hash);
    ServedCount(seed, questionsInExam, pool);
    ServedIdsArePrefix(seed, questionsInExam, pool);
    MultisetOfPrefix(ids, |served|);
    if questionsInExam >= |pool| {
      assert ids[..|served|] == ids;
    }
  }

  /** Pool ids are distinct in the store, so no question is served twice. */
  lemma ServedOnce(seed: string, questionsInExam: nat, pool: seq<StoredQuestion>)
    requires Distinct(MapSeq(QuestionId, pool))
    ensures Distinct(MapSeq(ServedId, ServedQuestions(seed, questionsInExam, pool)))
  {
    ServedIdsFromPool(seed, questionsInExam, pool);
    DistinctSubMultiset(MapSeq(ServedId, ServedQuestions(seed, questionsInExam, pool)), MapSeq(QuestionId, pool));
  }

  /** A served question offers exactly its stored options, each once, in a
      seeded order and without their `isCorrect` flags. */
  lemma ServedOptionsPermute(seed: string, q: StoredQuestion)
    ensures ServeQuestion(seed, q).id == q.id && ServeQuestion(seed, q).qtype == q.qtype
    ensures multiset(ServeQuestion(seed, q).options) == multiset(MapSeq(ServeOption, q.options))
  {
    var hash := Fnv1a(Utf16(OptionSeed(seed, q.id)));
    ShuffledCommutesWithMap(ServeOption, q.options, hash);
    ShuffledPermutes(MapSeq(ServeOption, q.options), hash);
  }

  /** The option orders of two questions come from different seeds: the
      suffix `|<id>` tells the question apart. */
  lemma {:induction false} OptionSeedInjective(seed: string, a: int, b: int)
    requires OptionSeed(seed, a) == OptionSeed(seed, b)
    ensures a == b
  {
    var sa, sb := OptionSeed(seed, a), OptionSeed(seed, b);
    assert sa[|seed| + 1..] == IntToString(a);
    assert sb[|seed| + 1..] == IntToString(b);
    IntToStringInjective(a, b);
  }

  /** One user's seeds for two exams differ. */
  lemma {:induction false} UserSeedInjective(email: string, a: int, b: int)
    requires UserSeed(email, a) == UserSeed(email, b)
    ensures a == b
  {
    var sa, sb := UserSeed(email, a), UserSeed(email, b);
    assert sa[|email| + 1..] == IntToString(a);
    assert sb[|email| + 1..] == IntToString(b);
    IntToStringInjective(a, b);
  }

  /** `getExamForUser`: the same id and lookup rules as the admin side, then
      the served exam. The store is only read. */
  method GetExamForUser(store: ExamStore, id: Option<int>, email: string) returns (r: Result<ServedExam, UserError>)
    requires store.Valid()
    ensures AdminController.BadId(id) ==> r == Err(InvalidExamId)
    ensures !AdminController.BadId(id) && id.value !in store.exams ==> r == Err(ExamNotFound)
    ensures !AdminController.BadId(id) && id.value in store.exams ==>
      r == Ok(ServedExamFor(email, Exam(id.value, store.exams[id.value]), store.Pool(id.value)))
  {
    if AdminController.BadId(id) {
      return Err(InvalidExamId);
    }
    if id.value !in store.exams {
      return Err(ExamNotFound);
    }
    var exam := Exam(id.value, store.exams[id.value]);
    r := Ok(ServedExamFor(email, exam, store.Pool(id.value)));
  }

  // ---------------------------------------------------------------------
  // Scoring a submission
  // ---------------------------------------------------------------------

  /** One element of `answers`: `Number(ans.questionId)` (None for NaN) and
      `ans.selectedOptionIds` (None when it is missing, read as `[]`). */
  datatype Answer = Answer(questionId: Option<int>, selectedOptionIds: Option<seq<int>>)

  function Selection(a: Answer): seq<int>
  {
    if a.selectedOptionIds.Some? then a.selectedOptionIds.value else []
  }

  /** `new Map(exam.questions.map(q => [q.id, q]))`: a later question with
      the same id replaces an earlier one. */
  function QuestionMap(pool: seq<StoredQuestion>): (m: map<int, StoredQuestion>)
    ensures m.Keys == SetOf(MapSeq(QuestionId, pool))
    ensures forall id :: id in m ==> m[id].id == id && m[id] in pool
  {
    if pool == [] then map[]
    else
      var init, last := pool[..|pool| - 1], pool[|pool| - 1];
      assert MapSeq(QuestionId, pool) == MapSeq(QuestionId, init) + [last.id];
      QuestionMap(init)[last.id := last]
  }

  /** With distinct ids, as the store keeps them, every question of the
      pool is found under its own id. */
  lemma {:induction false} QuestionMapFinds(pool: seq<StoredQuestion>, k: nat)
    requires Distinct(MapSeq(QuestionId, pool)) && k < |pool|
    ensures pool[k].id in QuestionMap(pool) && QuestionMap(pool)[pool[k].id] == pool[k]
  {
    var init, last := pool[..|pool| - 1], pool[|pool| - 1];
    if k < |pool| - 1 {
      assert MapSeq(QuestionId, pool)[k] != MapSeq(QuestionId, pool)[|pool| - 1];
      assert Distinct(MapSeq(QuestionId, init)) by {
        forall i, j | 0 <= i < j < |init| ensures init[i].id != init[j].id {
          assert MapSeq(QuestionId, pool)[i] != MapSeq(QuestionId, pool)[j];
        }
      }
      assert init[k] == pool[k];
      QuestionMapFinds(init, k);
    }
  }

  /** The ids of the correct options, in option order: `[...correctOptions]`. */
  function CorrectIds(options: seq<StoredOption>): (ids: seq<int>)
    ensures |ids| == CorrectCount(MapSeq(OptionContent, options))
    ensures forall x :: x in ids <==> exists o :: o in options && o.isCorrect && o.id == x
  {
    if options == [] then []
    else
      var init, last := options[..|options| - 1], options[|options| - 1];
      assert MapSeq(OptionContent, options)[..|options| - 1] == MapSeq(OptionContent, init);
      CorrectIds(init) + (if last.isCorrect then [last.id] else [])
  }

  /** The ids of a question's correct options. */
  function CorrectSet(q: StoredQuestion): set<int>
  {
    set o | o in q.options && o.isCorrect :: o.id
  }

  /** Lines 72-88: a SINGLE answer selects one id, the first correct one; a
      MULTI answer selects as many distinct ids as there are correct ones,
      all of them correct. */
  predicate AnswerIsCorrect(q: StoredQuestion, selected: seq<int>)
  {
    var correctIds := CorrectIds(q.options);
    match q.qtype
    case Single => |selected| > 0 && |SetOf(selected)| == 1 && |correctIds| > 0 && selected[0] == correctIds[0]
    case Multi => |SetOf(selected)| == |SetOf(correctIds)| && SetOf(correctIds) <= SetOf(selected)
  }

  /** Whether one answer scores: its question is in the exam's pool and the
      selection is right for it. */
  predicate Scores(questions: map<int, StoredQuestion>, a: Answer)
  {
    a.questionId.Some? && a.questionId.value in questions
    && AnswerIsCorrect(questions[a.questionId.value], Selection(a))
  }

  /** The `correct` counter after the loop of lines 66-89. */
  function Correct(questions: map<int, StoredQuestion>, answers: seq<Answer>): (c: nat)
    ensures c <= |answers|
  {
    if answers == [] then 0
    else Correct(questions, answers[..|answers| - 1]) + (if Scores(questions, answers[|answers| - 1]) then 1 else 0)
  }

  /** `Math.round(correct / n * 100)` on the exact quotient: the integer
      nearest to 100*correct/n, halves rounded up. */
  function ScorePercent(correct: nat, n: int): (r: int)
    requires n > 0
    ensures 2 * n * r - n <= 200 * correct < 2 * n * r + n
  {
    var q := (200 * correct + n) / (2 * n);
    assert 2 * n * q <= 200 * correct + n < 2 * n * q + 2 * n;
    q
  }

  datatype Verdict = Pass | Fail

  /** The `score` field: `${scorePct} of 100`. */
  function ScoreText(score: int): string
  {
    IntToString(score) + " of 100"
  }

  /** The body of the `submitExam` response. */
  datatype Submission = Submission(score: string, rightQuestions: nat, status: Verdict)

  /** Lines 64-100 for an exam with a positive `questionsInExam`. */
  function Evaluate(exam: ExamPayload, pool: seq<StoredQuestion>, answers: seq<Answer>): (s: Submission)
    requires exam.questionsInExam > 0
    ensures s.rightQuestions <= |answers|
  {
    var correct := Correct(QuestionMap(pool), answers);
    var score := ScorePercent(correct, exam.questionsInExam);
    Submission(ScoreText(score), correct, if score >= exam.passingPercentage then Pass else Fail)
  }

  /** A set with one element is that element's singleton. */
  lemma SingletonSet(s: set<int>, x: int)
    requires |s| == 1 && x in s
    ensures s == {x}
  {
    assert |s - {x}| == 0;
  }

  /** SINGLE: correct exactly when the distinct selection is the single id
      of the first correct option. */
  lemma SingleCorrectIff(q: StoredQuestion, selected: seq<int>)
    requires q.qtype == Single
    ensures AnswerIsCorrect(q, selected) <==>
      |CorrectIds(q.options)| > 0 && SetOf(selected) == {CorrectIds(q.options)[0]}
  {
    var ids := CorrectIds(q.options);
    if AnswerIsCorrect(q, selected) {
      assert selected[0] in SetOf(selected);
      SingletonSet(SetOf(selected), selected[0]);
    }
    if |ids| > 0 && SetOf(selected) == {ids[0]} {
      assert selected[0] in SetOf(selected);
    }
  }

  /** MULTI: correct exactly when the selected set equals the correct set,
      with no partial credit. */
  lemma MultiCorrectIff(q: StoredQuestion, selected: seq<int>)
    requires q.qtype == Multi
    ensures AnswerIsCorrect(q, selected) <==> SetOf(selected) == SetOf(CorrectIds(q.options))
  {
    if AnswerIsCorrect(q, selected) {
      SubsetOfSameSizeIsEqual(SetOf(CorrectIds(q.options)), SetOf(selected));
    }
  }

  /** For a question that passed the pool validator both rules are set
      equality: the answer is right exactly when it selects the correct ids. */
  lemma ValidatedCorrectIff(q: StoredQuestion, selected: seq<int>)
    requires TypeRuleHolds(QuestionContent(q))
    ensures AnswerIsCorrect(q, selected) <==> SetOf(selected) == CorrectSet(q)
  {
    var ids := CorrectIds(q.options);
    assert SetOf(ids) == CorrectSet(q);
    match q.qtype
    case Single =>
      SingleCorrectIff(q, selected);
      assert |ids| == 1;
      assert ids == [ids[0]];
      assert SetOf(ids) == {ids[0]};
    case Multi =>
      MultiCorrectIff(q, selected);
  }

  /** An answer whose id finds a question that passed the pool validator
      (as `QuestionMapFinds` finds every question of a stored pool) scores
      exactly when it selects precisely that question's correct option ids. */
  lemma ScoresIff(questions: map<int, StoredQuestion>, a: Answer, q: StoredQuestion)
    requires TypeRuleHolds(QuestionContent(q)) && a.questionId == Some(q.id)
    requires q.id in questions && questions[q.id] == q
    ensures Scores(questions, a) <==> SetOf(Selection(a)) == CorrectSet(q)
  {
    ValidatedCorrectIff(q, Selection(a));
  }

  /** What `submitExam` grades against: in every pool the store holds, an
      answer whose id finds a question scores exactly when its selected set
      is that question's correct set, since the store keeps only questions
      meeting their type rule. */
  lemma StoredAnswerScoresIff(store: ExamStore, id: int, a: Answer)
    requires store.Valid()
    requires a.questionId.Some? && a.questionId.value in QuestionMap(store.Pool(id))
    ensures var questions := QuestionMap(store.Pool(id));
      Scores(questions, a) <==> SetOf(Selection(a)) == CorrectSet(questions[a.questionId.value])
  {
    var pool := store.Pool(id);
    var questions := QuestionMap(pool);
    var q := questions[a.questionId.value];
    var k :| 0 <= k < |pool| && pool[k] == q;
    assert MapSeq(QuestionContent, pool)[k] == QuestionContent(q);
    ScoresIff(questions, a, q);
  }

  /** The count over a concatenation adds up: each answer is judged alone. */
  lemma {:induction false} CorrectAppend(questions: map<int, StoredQuestion>, x: seq<Answer>, y: seq<Answer>)
    ensures Correct(questions, x + y) == Correct(questions, x) + Correct(questions, y)
  {
    if y != [] {
      var init := y[..|y| - 1];
      assert (x + y)[..|x + y| - 1] == x + init;
      CorrectAppend(questions, x, init);
    } else {
      assert x + y == x;
    }
  }

  /** An answer naming no question of the pool is skipped, wherever it is. */
  lemma UnknownQuestionSkipped(questions: map<int, StoredQuestion>, x: seq<Answer>, a: Answer, y: seq<Answer>)
    requires a.questionId.None? || a.questionId.value !in questions
    ensures Correct(questions, x + [a] + y) == Correct(questions, x + y)
  {
    CorrectAppend(questions, x + [a], y);
    CorrectAppend(questions, x, [a]);
    CorrectAppend(questions, x, y);
    assert [a][..0] == [];
  }

  /** Repeated answers are not merged: a right answer sent k times counts k
      times. */
  lemma {:induction false} RepeatedAnswersCount(questions: map<int, StoredQuestion>, a: Answer, k: nat)
    requires Scores(questions, a)
    ensures Correct(questions, seq(k, _ => a)) == k
  {
    if k > 0 {
      var s := seq(k, _ => a);
      assert s[..k - 1] == seq(k - 1, _ => a);
      RepeatedAnswersCount(questions, a, k - 1);
    }
  }

  /** Multiplying by a factor that is not negative keeps an order. */
  lemma MulMonotone(k: int, a: int, b: int)
    requires k >= 0 && a <= b
    ensures k * a <= k * b
  {
    assert k * b - k * a == k * (b - a);
  }

  /** With no more right answers than questions in the exam the score is a
      percentage: 0 for none right, 100 for all right. */
  lemma ScoreBounds(correct: nat, n: int)
    requires 0 < n && correct <= n
    ensures 0 <= ScorePercent(correct, n) <= 100
    ensures correct == 0 ==> ScorePercent(correct, n) == 0
    ensures correct == n ==> ScorePercent(correct, n) == 100
  {
    var r := ScorePercent(correct, n);
    MulMonotone(200, correct, n);
    if r < 0 {
      MulMonotone(2 * n, r, -1);
    }
    if r > 100 {
      MulMonotone(2 * n, 101, r);
    }
    if correct == 0 && r > 0 {
      MulMonotone(2 * n, 1, r);
    }
    if correct == n && r < 100 {
      MulMonotone(2 * n, r, 99);
    }
  }

  /** More right answers never lower the score. */
  lemma ScoreMonotone(c1: nat, c2: nat, n: int)
    requires 0 < n && c1 <= c2
    ensures ScorePercent(c1, n) <= ScorePercent(c2, n)
  {
    var r1, r2 := ScorePercent(c1, n), ScorePercent(c2, n);
    MulMonotone(200, c1, c2);
    if r1 > r2 {
      MulMonotone(2 * n, r2 + 1, r1);
    }
  }

  /** The verdict at the extremes: all questions right passes any exam, none
      right fails any exam with a positive pass mark. */
  lemma VerdictExtremes(exam: ExamPayload, pool: seq<StoredQuestion>, answers: seq<Answer>)
    requires exam.questionsInExam > 0 && 0 <= exam.passingPercentage <= 100
    ensures Correct(QuestionMap(pool), answers) == exam.questionsInExam ==> Evaluate(exam, pool, answers).status == Pass
    ensures Correct(QuestionMap(pool), answers) == 0 && exam.passingPercentage > 0 ==> Evaluate(exam, pool, answers).status == Fail
  {
    var correct := Correct(QuestionMap(pool), answers);
    if correct == exam.questionsInExam || correct == 0 {
      ScoreBounds(correct, exam.questionsInExam);
    }
  }

  /** The verdict is PASS exactly when the rounded score reaches the pass
      mark, and the score reported is the one rounded. Without the rounding:
      PASS exactly when 100*correct/n is at least the mark less one half. */
  lemma EvaluateVerdict(exam: ExamPayload, pool: seq<StoredQuestion>, answers: seq<Answer>)
    requires exam.questionsInExam > 0
    ensures var s := Evaluate(exam, pool, answers);
      var score := ScorePercent(s.rightQuestions, exam.questionsInExam);
      && s.rightQuestions == Correct(QuestionMap(pool), answers)
      && s.score == ScoreText(score)
      && (s.status == Pass <==> score >= exam.passingPercentage)
    ensures var s := Evaluate(exam, pool, answers);
      var n := exam.questionsInExam;
      s.status == Pass <==> 200 * s.rightQuestions + n >= 2 * n * exam.passingPercentage
  {
    var s := Evaluate(exam, pool, answers);
    RoundedScoreReaches(s.rightQuestions, exam.questionsInExam, exam.passingPercentage);
  }

  /** The rounded score reaches a mark p exactly when 200*correct + n is at
      least 2*n*p. */
  lemma RoundedScoreReaches(correct: nat, n: int, p: int)
    requires n > 0
    ensures ScorePercent(correct, n) >= p <==> 200 * correct + n >= 2 * n * p
  {
    var r := ScorePercent(correct, n);
    if r >= p {
      MulMonotone(2 * n, p, r);
    } else {
      MulMonotone(2 * n, r + 1, p);
      assert 2 * n * (r + 1) == 2 * n * r + 2 * n;
    }
  }

  /** The body of the loop of lines 68-89 for a found question: builds the
      correct and selected sets and applies the rule of the question's type,
      MULTI with the `allMatch` scan that stops at the first correct id not
      selected. */
  method JudgeAnswer(q: StoredQuestion, selectedIds: seq<int>) returns (ok: bool)
    ensures ok == AnswerIsCorrect(q, selectedIds)
  {
    var correctOptions := CorrectIds(q.options);
    var selected := SetOf(selectedIds);
    ok := false;
    match q.qtype
    case Single =>
      if |selected| == 1 {
        var sel := selectedIds[0];
        if |correctOptions| > 0 && sel == correctOptions[0] {
          ok := true;
        }
      }
    case Multi =>
      if |selected| == |SetOf(correctOptions)| {
        var allMatch := true;
        var i := 0;
        while i < |correctOptions|
          invariant 0 <= i <= |correctOptions|
          invariant allMatch
          invariant forall k :: 0 <= k < i ==> correctOptions[k] in selected
        {
          if correctOptions[i] !in selected {
            allMatch := false;
            break;
          }
          i := i + 1;
        }
        if allMatch {
          ok := true;
        }
      }
  }

  /** Lines 64-89: the `correct` counter over the submitted answers. */
  method CountCorrect(pool: seq<StoredQuestion>, answers: seq<Answer>) returns (correct: nat)
    ensures correct == Correct(QuestionMap(pool), answers)
  {
    var questionMap := QuestionMap(pool);
    correct := 0;
    for i := 0 to |answers|
      invariant correct == Correct(questionMap, answers[..i])
    {
      var ans := answers[i];
      assert answers[..i + 1][..i] == answers[..i];
      if ans.questionId.None? || ans.questionId.value !in questionMap {
        continue;
      }
      var q := questionMap[ans.questionId.value];
      var ok := JudgeAnswer(q, Selection(ans));
      if ok {
        correct := correct + 1;
      }
    }
    assert answers[..|answers|] == answers;
  }

  /** `submitExam`: the id and lookup checks, then an absent or empty answer
      list is refused before any scoring, then the submission is graded
      against the exam's whole pool. `answers` is None when the body holds
      no array under that key. */
  method SubmitExam(store: ExamStore, id: Option<int>, answers: Option<seq<Answer>>) returns (r: Result<Submission, UserError>)
    requires store.Valid()
    ensures AdminController.BadId(id) ==> r == Err(InvalidExamId)
    ensures !AdminController.BadId(id) && id.value !in store.exams ==> r == Err(ExamNotFound)
    ensures !AdminController.BadId(id) && id.value in store.exams && (answers.None? || answers.value == []) ==>
      r == Err(AnswersRequired)
    ensures !AdminController.BadId(id) && id.value in store.exams && answers.Some? && answers.value != [] ==>
      store.exams[id.value].questionsInExam > 0
      && r == Ok(Evaluate(store.exams[id.value], store.Pool(id.value), answers.value))
  {
    if AdminController.BadId(id) {
      return Err(InvalidExamId);
    }
    if id.value !in store.exams {
      return Err(ExamNotFound);
    }
    var exam := store.exams[id.value];
    var submitted := if answers.Some? then answers.value else [];
    if |submitted| == 0 {
      return Err(AnswersRequired);
    }
    var correct := CountCorrect(store.Pool(id.value), submitted);
    var totalConsidered := exam.questionsInExam;
    var scorePct := ScorePercent(correct, totalConsidered);
    var status := if scorePct >= exam.passingPercentage then Pass else Fail;
    r := Ok(Submission(ScoreText(scorePct), correct, status));
  }
}
