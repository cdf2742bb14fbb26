/** The write side of the admin API (src/controllers/adminController.js):
    create and update an exam, and replace an exam's question pool. Request
    ids are `Number(req.params.id)`: None stands for NaN. */
module AdminController {
  import opened Wrappers
  import opened Collections
  import opened JsonValues
  import opened Entities
  import opened ExamValidators
  import opened QuestionValidators
  import opened Store

  datatype AdminError =
    | InvalidExamId               // 400 'Invalid exam id'
    | ExamNotFound                // 404 'Exam not found'
    | ExamRejected(exam: ExamError)
    | CountsNotOrdered            // 400 'Total No of Questions must be greater than ...'
    | UpdateTargetMissing         // the Prisma error for an unknown id
    | PoolRejected(pool: PoolError)

  /** The HTTP status each error reaches the client with; errors thrown
      without a status become 500 in the error handler. */
  function Status(e: AdminError): (code: int)
    ensures code == 500 <==> e.UpdateTargetMissing?
    ensures code == 404 <==> e.ExamNotFound?
  {
    match e
    case ExamNotFound => 404
    case UpdateTargetMissing => 500
    case _ => 400
  }

  /** `!id` for `id = Number(param)`: NaN and 0 are rejected. */
  predicate BadId(id: Option<int>)
  {
    id.None? || id.value == 0
  }

  /** The exam an accepted create or update writes: the validated payload
      with more questions in the pool than in each sitting. */
  predicate Writable(p: ExamPayload)
  {
    p.totalQuestions > p.questionsInExam
  }

  method CreateExam(store: ExamStore, body: Json, isDatetime: string -> bool, instantOf: string -> Option<int>, now: int)
    returns (r: Result<Exam, AdminError>)
    requires store.Valid()
    modifies store
    ensures store.Valid()
    ensures var v := ValidateExamPayload(body, isDatetime, instantOf, now);
      && (v.Err? ==> r == Err(ExamRejected(v.error)))
      && (v.Ok? && !Writable(v.value) ==> r == Err(CountsNotOrdered))
      && (v.Ok? && Writable(v.value) ==> r.Ok? && r.value.payload == v.value)
    ensures r.Err? ==> store.exams == old(store.exams)
    ensures r.Ok? ==> r.value.id !in old(store.exams) && store.exams == old(store.exams)[r.value.id := r.value.payload]
    ensures store.pools == old(store.pools)
  {
    var v := ValidateExamPayload(body, isDatetime, instantOf, now);
    if v.Err? {
      return Err(ExamRejected(v.error));
    }
    var payload := v.value;
    if !(payload.totalQuestions > payload.questionsInExam) {
      return Err(CountsNotOrdered);
    }
    var exam := store.CreateExamRow(payload);
    r := Ok(exam);
  }

  method UpdateExam(store: ExamStore, id: Option<int>, body: Json, isDatetime: string -> bool, instantOf: string -> Option<int>, now: int)
    returns (r: Result<Exam, AdminError>)
    requires store.Valid()
    modifies store
    ensures store.Valid()
    ensures BadId(id) ==> r == Err(InvalidExamId)
    ensures var v := ValidateExamPayload(body, isDatetime, instantOf, now);
      && (!BadId(id) && v.Err? ==> r == Err(ExamRejected(v.error)))
      && (!BadId(id) && v.Ok? && !Writable(v.value) ==> r == Err(CountsNotOrdered))
      && (!BadId(id) && v.Ok? && Writable(v.value) && id.value !in old(store.exams) ==> r == Err(UpdateTargetMissing))
      && (!BadId(id) && v.Ok? && Writable(v.value) && id.value in old(store.exams) ==> r == Ok(Exam(id.value, v.value)))
    ensures r.Err? ==> store.exams == old(store.exams)
    ensures r.Ok? ==> store.exams == old(store.exams)[r.value.id := r.value.payload]
    ensures store.pools == old(store.pools)
  {
    if BadId(id) {
      return Err(InvalidExamId);
    }
    var v := ValidateExamPayload(body, isDatetime, instantOf, now);
    if v.Err? {
      return Err(ExamRejected(v.error));
    }
    var payload := v.value;
    if !(payload.totalQuestions > payload.questionsInExam) {
      return Err(CountsNotOrdered);
    }
    var updated := store.UpdateExamRow(id.value, payload);
    if !updated {
      return Err(UpdateTargetMissing);
    }
    r := Ok(Exam(id.value, payload));
  }

  /** The pool check of line 60, for the stored exam `e`. */
  function CheckPool(body: Json, e: ExamPayload): Result<seq<QuestionInput>, PoolError>
  {
    ValidateQuestionConfig(body, e.questionsInExam, Some(e.totalQuestions))
  }

  /** saveQuestions: check the id, find the exam, validate the whole list,
      then delete the old pool and create the new questions one by one. */
  method SaveQuestions(store: ExamStore, id: Option<int>, body: Json)
    returns (r: Result<seq<StoredQuestion>, AdminError>)
    requires store.Valid()
    modifies store
    ensures store.Valid()
    ensures store.exams == old(store.exams)
    ensures BadId(id) ==> r == Err(InvalidExamId)
    ensures !BadId(id) && id.value !in old(store.exams) ==> r == Err(ExamNotFound)
    ensures !BadId(id) && id.value in old(store.exams) ==>
      var v := CheckPool(body, old(store.exams)[id.value]);
      && (v.Err? ==> r == Err(PoolRejected(v.error)))
      && (v.Ok? ==> r.Ok? && MapSeq(QuestionContent, r.value) == v.value)
    ensures r.Err? ==> store.pools == old(store.pools)
    ensures r.Ok? ==> store.Pool(id.value) == r.value
    ensures r.Ok? ==> forall other :: other != id.value ==> store.Pool(other) == old(store.Pool(other))
    ensures r.Ok? ==> |r.value| == store.exams[id.value].totalQuestions > store.exams[id.value].questionsInExam
  {
    if BadId(id) {
      return Err(InvalidExamId);
    }
    if id.value !in store.exams {
      return Err(ExamNotFound);
    }
    var exam := store.exams[id.value];
    var v := CheckPool(body, exam);
    if v.Err? {
      return Err(PoolRejected(v.error));
    }
    var questions := v.value;
    ValidateQuestionConfigAccepts(body, exam.questionsInExam, Some(exam.totalQuestions));
    store.DeletePool(id.value);
    CreateQuestions(store, id.value, questions);
    r := Ok(store.Pool(id.value));
  }

  /** The transaction of lines 70-82: the questions are created one by one,
      in list order, into the (emptied) pool of exam `id`. */
  method CreateQuestions(store: ExamStore, id: int, questions: seq<QuestionInput>)
    requires store.Valid() && id in store.exams && store.Pool(id) == []
    requires forall k :: 0 <= k < |questions| ==> ValidQuestion(questions[k]) && TypeRuleHolds(questions[k])
    requires Distinct(Numbers(questions))
    modifies store
    ensures store.Valid() && store.exams == old(store.exams)
    ensures MapSeq(QuestionContent, store.Pool(id)) == questions
    ensures forall other :: other != id ==> store.Pool(other) == old(store.Pool(other))
  {
    for i := 0 to |questions|
      invariant store.Valid() && store.exams == old(store.exams)
      invariant forall other :: other != id ==> store.Pool(other) == old(store.Pool(other))
      invariant MapSeq(QuestionContent, store.Pool(id)) == questions[..i]
    {
      CreateNext(store, id, questions, i);
    }
    assert questions[..|questions|] == questions;
  }

  /** One iteration of the transaction: question `i` joins the pool after
      the questions before it. */
  method CreateNext(store: ExamStore, id: int, questions: seq<QuestionInput>, i: nat)
    requires store.Valid() && id in store.exams && i < |questions|
    requires ValidQuestion(questions[i]) && TypeRuleHolds(questions[i]) && Distinct(Numbers(questions))
    requires MapSeq(QuestionContent, store.Pool(id)) == questions[..i]
    modifies store
    ensures store.Valid() && store.exams == old(store.exams)
    ensures forall other :: other != id ==> store.Pool(other) == old(store.Pool(other))
    ensures MapSeq(QuestionContent, store.Pool(id)) == questions[..i + 1]
  {
    ghost var before := store.Pool(id);
    NumberNotYetStored(questions, i);
    var row := store.CreateQuestion(id, questions[i]);
    assert MapSeq(QuestionContent, store.Pool(id)) == MapSeq(QuestionContent, before) + [QuestionContent(row)];
    assert questions[..i + 1] == questions[..i] + [questions[i]];
  }

  /** In a list with distinct numbers, the number of the question at `i`
      is not among those of the questions before it. */
  lemma NumberNotYetStored(questions: seq<QuestionInput>, i: nat)
    requires i < |questions| && Distinct(Numbers(questions))
    ensures questions[i].number !in Numbers(questions[..i])
  {
    var ns := Numbers(questions[..i]);
    forall k | 0 <= k < |ns| ensures ns[k] != questions[i].number {
      assert ns[k] == questions[k].number == Numbers(questions)[k];
      assert questions[i].number == Numbers(questions)[i];
    }
  }

  /** Replacing a pool is idempotent: saving the same body a second time
      leaves the same question contents as the first save did. */
  method SaveQuestionsTwice(store: ExamStore, id: Option<int>, body: Json)
    returns (first: Result<seq<StoredQuestion>, AdminError>, second: Result<seq<StoredQuestion>, AdminError>)
    requires store.Valid()
    modifies store
    ensures store.Valid()
    ensures first.Ok? ==> !BadId(id) && second.Ok?
    ensures first.Ok? ==> second.Ok? && MapSeq(QuestionContent, second.value) == MapSeq(QuestionContent, first.value)
    ensures first.Ok? ==> store.Pool(id.value) == second.value
    ensures first.Err? ==> second == first
  {
    first := SaveQuestions(store, id, body);
    second := SaveQuestions(store, id, body);
  }
}
