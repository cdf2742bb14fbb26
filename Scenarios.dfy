/** Worked cases of the scoring rules and of the pool validator, on small
    fixed exams. */
module Scenarios {
  import opened Wrappers
  import opened Collections
  import opened Entities
  import opened QuestionValidators
  import opened UserController
  import opened Decimal

  /** A SINGLE question whose only correct option has id 1. */
  function SingleQuestion(): StoredQuestion
  {
    StoredQuestion(10, 1, "Pick one", Single,
      [StoredOption(1, "A", true), StoredOption(2, "B", false), StoredOption(3, "C", false)])
  }

  /** A MULTI question whose correct options have ids 4 and 5. */
  function MultiQuestion(): StoredQuestion
  {
    StoredQuestion(11, 2, "Pick all", Multi,
      [StoredOption(4, "A", true), StoredOption(5, "B", true), StoredOption(6, "C", false)])
  }

  /** SINGLE: {O1} is right; {O1, O2}, {} and {O2} are wrong. */
  lemma SingleScenario()
    ensures AnswerIsCorrect(SingleQuestion(), [1])
    ensures !AnswerIsCorrect(SingleQuestion(), [1, 2])
    ensures !AnswerIsCorrect(SingleQuestion(), [])
    ensures !AnswerIsCorrect(SingleQuestion(), [2])
  {
    var q := SingleQuestion();
    assert CorrectIds(q.options) == [1];
    SingleCorrectIff(q, [1]);
    SingleCorrectIff(q, [1, 2]);
    SingleCorrectIff(q, [2]);
    assert SetOf([1]) == {1};
    assert 2 in SetOf([1, 2]);
    assert 2 in SetOf([2]);
  }

  /** MULTI: {O1, O2} is right, in any order and with repeats. */
  lemma MultiRightScenario()
    ensures AnswerIsCorrect(MultiQuestion(), [4, 5])
    ensures AnswerIsCorrect(MultiQuestion(), [5, 4, 5])
  {
    var q := MultiQuestion();
    assert CorrectIds(q.options) == [4, 5];
    MultiCorrectIff(q, [4, 5]);
    MultiCorrectIff(q, [5, 4, 5]);
    assert SetOf([4, 5]) == {4, 5};
    assert SetOf([5, 4, 5]) == {4, 5};
  }

  /** MULTI: {O1} and {O1, O2, O3} are wrong. */
  lemma MultiWrongScenario()
    ensures !AnswerIsCorrect(MultiQuestion(), [4])
    ensures !AnswerIsCorrect(MultiQuestion(), [4, 5, 6])
  {
    var q := MultiQuestion();
    assert CorrectIds(q.options) == [4, 5];
    MultiCorrectIff(q, [4]);
    MultiCorrectIff(q, [4, 5, 6]);
    assert 5 !in SetOf([4]);
    assert 6 in SetOf([4, 5, 6]);
  }

  function TwoQuestionExam(): ExamPayload
  {
    ExamPayload("Quiz", 3, 2, 50, "2030-01-01T00:00:00Z")
  }

  function TwoQuestionPool(): seq<StoredQuestion>
  {
    [SingleQuestion(), MultiQuestion()]
  }

  lemma TwoQuestionMap()
    ensures QuestionMap(TwoQuestionPool()) == map[10 := SingleQuestion(), 11 := MultiQuestion()]
  {
    assert [SingleQuestion(), MultiQuestion()][..1] == [SingleQuestion()];
  }

  /** The count over two answers. */
  lemma CorrectOfTwo(m: map<int, StoredQuestion>, a0: Answer, a1: Answer)
    ensures Correct(m, [a0, a1]) == (if Scores(m, a0) then 1 else 0) + (if Scores(m, a1) then 1 else 0)
  {
    assert [a0, a1][..1] == [a0];
    assert [a0][..0] == [];
  }

  /** Two answers to an exam of two questions with pass mark 50, one of
      them right: 1 right, 50 of 100, PASS. */
  lemma PassScenario()
    ensures Evaluate(TwoQuestionExam(), TwoQuestionPool(),
      [Answer(Some(10), Some([1])), Answer(Some(11), Some([4]))]) == Submission(ScoreText(50), 1, Pass)
  {
    SingleScenario();
    MultiWrongScenario();
    TwoQuestionMap();
    CorrectOfTwo(QuestionMap(TwoQuestionPool()), Answer(Some(10), Some([1])), Answer(Some(11), Some([4])));
    assert ScorePercent(1, 2) == 50;
  }

  /** The same exam with both answers wrong: 0 right, 0 of 100, FAIL. */
  lemma FailScenario()
    ensures Evaluate(TwoQuestionExam(), TwoQuestionPool(),
      [Answer(Some(10), Some([2])), Answer(Some(11), Some([4]))]) == Submission(ScoreText(0), 0, Fail)
  {
    SingleScenario();
    MultiWrongScenario();
    TwoQuestionMap();
    CorrectOfTwo(QuestionMap(TwoQuestionPool()), Answer(Some(10), Some([2])), Answer(Some(11), Some([4])));
    assert ScorePercent(0, 2) == 0;
  }

  /** The same right answer sent twice to a one-question exam counts twice
      and scores 200 "of 100": the score is not capped. */
  lemma RepeatedAnswerScenario()
    ensures Evaluate(ExamPayload("Quiz", 2, 1, 50, "2030-01-01T00:00:00Z"), [SingleQuestion()],
      [Answer(Some(10), Some([1])), Answer(Some(10), Some([1]))]) == Submission(ScoreText(200), 2, Pass)
  {
    SingleScenario();
    var m := QuestionMap([SingleQuestion()]);
    assert m[10] == SingleQuestion();
    var a := Answer(Some(10), Some([1]));
    assert [a, a] == seq(2, _ => a);
    RepeatedAnswersCount(m, a, 2);
    assert ScorePercent(2, 1) == 200;
  }

  /** A submitted question with two options, the given ones correct. */
  function Submitted(number: int, qtype: QuestionType, first: bool, second: bool): QuestionInput
  {
    QuestionInput(number, "Question", qtype, [OptionInput("A", first), OptionInput("B", second)])
  }

  /** Two questions whose numbers are both 1 are refused as duplicates. */
  lemma DuplicateNumberScenario()
    ensures ValidateQuestionConfig(BulkToJson([Submitted(1, Single, true, false), Submitted(1, Single, false, true)]), 1, None)
      == Err(DuplicateQuestionNumber)
  {
    var qs := [Submitted(1, Single, true, false), Submitted(1, Single, false, true)];
    assert ValidQuestion(qs[0]) && ValidQuestion(qs[1]);
    BulkJsonRoundTrip(qs);
    assert Numbers(qs)[0] == Numbers(qs)[1];
    DuplicateNumbersReported(BulkToJson(qs), 1, None);
  }

  /** Two well-formed questions numbered 1 and 2 pass the schema and the
      uniqueness check. */
  lemma PairParses(first: QuestionInput, second: QuestionInput)
    requires first.number == 1 && second.number == 2 && ValidQuestion(first) && ValidQuestion(second)
    ensures ParseBulkQuestions(BulkToJson([first, second])) == Some([first, second])
    ensures Distinct(Numbers([first, second]))
  {
    BulkJsonRoundTrip([first, second]);
    assert Numbers([first, second]) == [1, 2];
  }

  /** The first question breaking its type rule is reported by number. */
  lemma TypeRuleScenario(first: QuestionInput, second: QuestionInput, k: nat)
    requires first.number == 1 && second.number == 2 && ValidQuestion(first) && ValidQuestion(second)
    requires k < 2 && !TypeRuleHolds([first, second][k]) && (k == 1 ==> TypeRuleHolds(first))
    ensures ValidateQuestionConfig(BulkToJson([first, second]), 1, None) == Err(TypeRuleError([first, second][k]))
  {
    PairParses(first, second);
    FirstOffenderReported(BulkToJson([first, second]), 1, None, k);
  }

  /** A SINGLE question with no correct option is refused by its number. */
  lemma NoCorrectSingleScenario()
    ensures ValidateQuestionConfig(BulkToJson([Submitted(1, Single, false, false), Submitted(2, Single, true, false)]), 1, None)
      == Err(SingleNeedsExactlyOneCorrect(1))
  {
    TypeRuleScenario(Submitted(1, Single, false, false), Submitted(2, Single, true, false), 0);
  }

  /** A SINGLE question with two correct options is refused by its number. */
  lemma TwoCorrectSingleScenario()
    ensures ValidateQuestionConfig(BulkToJson([Submitted(1, Single, true, false), Submitted(2, Single, true, true)]), 1, None)
      == Err(SingleNeedsExactlyOneCorrect(2))
  {
    TypeRuleScenario(Submitted(1, Single, true, false), Submitted(2, Single, true, true), 1);
  }

  /** A MULTI question with one correct option is refused by its number. */
  lemma OneCorrectMultiScenario()
    ensures ValidateQuestionConfig(BulkToJson([Submitted(1, Single, true, false), Submitted(2, Multi, true, false)]), 1, None)
      == Err(MultiNeedsTwoCorrect(2))
  {
    TypeRuleScenario(Submitted(1, Single, true, false), Submitted(2, Multi, true, false), 1);
  }

  function AcceptablePair(): seq<QuestionInput>
  {
    [Submitted(1, Single, true, false), Submitted(2, Multi, true, true)]
  }

  /** A well-formed pool of two is refused for an exam of two questions. */
  lemma PoolTooSmallScenario()
    ensures ValidateQuestionConfig(BulkToJson(AcceptablePair()), 2, None) == Err(PoolNotLargerThanExam)
  {
    var qs := AcceptablePair();
    PairParses(qs[0], qs[1]);
    assert TypeRuleHolds(qs[0]) && TypeRuleHolds(qs[1]);
    SizeRulesReported(BulkToJson(qs), 2, None);
  }

  /** The same pool is accepted, unchanged, for an exam of one question with
      two declared. */
  lemma PoolAcceptedScenario()
    ensures ValidateQuestionConfig(BulkToJson(AcceptablePair()), 1, Some(2)) == Ok(AcceptablePair())
  {
    var qs := AcceptablePair();
    PairParses(qs[0], qs[1]);
    assert TypeRuleHolds(qs[0]) && TypeRuleHolds(qs[1]);
    ValidateQuestionConfigAccepts(BulkToJson(qs), 1, Some(2));
  }

  /** The score field as the candidate reads it. */
  lemma ScoreTextScenario()
    ensures ScoreText(50) == "50 of 100"
    ensures ScoreText(200) == "200 of 100"
  {
    assert NatToString(5) == "5" && NatToString(2) == "2";
    assert NatToString(20) == "20";
  }
}
