/** validateExamPayload (src/validator/examValidators.js): the exam schema,
    then the rule that the start date lies in the future, then a count check.
    Parsing ISO-8601 text is outside the model: `isDatetime` stands for
    `z.string().datetime()`, `instantOf` for `new Date(s).getTime()` (None
    when it is NaN) and `now` for the clock. */
module ExamValidators {
  import opened Wrappers
  import opened JsonValues
  import opened Entities

  datatype ExamError =
    | InvalidExamPayload        // 400 'Invalid exam payload'
    | StartDateNotInFuture      // 400 'Exam Start Date must be a future date'
    | NonPositiveQuestionCount  // 400 'No of Questions must be greater than 0'

  /** The constraints `examSchema` puts on the five fields it keeps. */
  predicate ValidExam(p: ExamPayload, isDatetime: string -> bool)
  {
    |p.name| >= 1
    && p.totalQuestions > 0
    && p.questionsInExam > 0
    && 0 <= p.passingPercentage <= 100
    && isDatetime(p.startDate)
  }

  /** `body` carries the fields of `p` under the schema's keys. */
  predicate Describes(body: Json, p: ExamPayload)
  {
    Field(body, "name") == Some(JStr(p.name))
    && Field(body, "totalQuestions") == Some(JNum(p.totalQuestions as real))
    && Field(body, "questionsInExam") == Some(JNum(p.questionsInExam as real))
    && Field(body, "passingPercentage") == Some(JNum(p.passingPercentage as real))
    && Field(body, "startDate") == Some(JStr(p.startDate))
  }

  /** `examSchema.safeParse(body)`: the parsed data, or None on failure. */
  function ParseExam(body: Json, isDatetime: string -> bool): (r: Option<ExamPayload>)
    ensures r.Some? ==> Describes(body, r.value) && ValidExam(r.value, isDatetime)
  {
    var name := AsString(Field(body, "name"));
    var total := AsInt(Field(body, "totalQuestions"));
    var inExam := AsInt(Field(body, "questionsInExam"));
    var passing := AsInt(Field(body, "passingPercentage"));
    var start := AsString(Field(body, "startDate"));
    if name.Some? && total.Some? && inExam.Some? && passing.Some? && start.Some? then
      var p := ExamPayload(name.value, total.value, inExam.value, passing.value, start.value);
      if ValidExam(p, isDatetime) then Some(p) else None
    else None
  }

  /** The schema accepts exactly the bodies that carry a valid payload, and
      then returns that payload. */
  lemma ParseExamIff(body: Json, p: ExamPayload, isDatetime: string -> bool)
    ensures ParseExam(body, isDatetime) == Some(p) <==> Describes(body, p) && ValidExam(p, isDatetime)
  {
    if Describes(body, p) && ValidExam(p, isDatetime) {
      assert (p.totalQuestions as real).Floor == p.totalQuestions;
      assert (p.questionsInExam as real).Floor == p.questionsInExam;
      assert (p.passingPercentage as real).Floor == p.passingPercentage;
    }
  }

  /** Keys other than the schema's five are ignored (zod strips them). */
  lemma ParseExamIgnoresOtherKeys(fields: map<string, Json>, key: string, value: Json, isDatetime: string -> bool)
    requires key !in {"name", "totalQuestions", "questionsInExam", "passingPercentage", "startDate"}
    ensures ParseExam(JObj(fields[key := value]), isDatetime) == ParseExam(JObj(fields), isDatetime)
  {
    var b, b' := JObj(fields), JObj(fields[key := value]);
    assert Field(b', "name") == Field(b, "name");
    assert Field(b', "totalQuestions") == Field(b, "totalQuestions");
    assert Field(b', "questionsInExam") == Field(b, "questionsInExam");
    assert Field(b', "passingPercentage") == Field(b, "passingPercentage");
    assert Field(b', "startDate") == Field(b, "startDate");
  }

  /** The JSON object a client sends for a payload. */
  function ExamToJson(p: ExamPayload): (j: Json)
    ensures Describes(j, p)
  {
    JObj(map[
      "name" := JStr(p.name),
      "totalQuestions" := JNum(p.totalQuestions as real),
      "questionsInExam" := JNum(p.questionsInExam as real),
      "passingPercentage" := JNum(p.passingPercentage as real),
      "startDate" := JStr(p.startDate)])
  }

  /** Every valid payload survives being sent as JSON and parsed back. */
  lemma ExamJsonRoundTrip(p: ExamPayload, isDatetime: string -> bool)
    requires ValidExam(p, isDatetime)
    ensures ParseExam(ExamToJson(p), isDatetime) == Some(p)
  {
    ParseExamIff(ExamToJson(p), p, isDatetime);
  }

  /** `start > now`, with NaN (None) never in the future. */
  predicate InFuture(start: Option<int>, now: int)
  {
    start.Some? && start.value > now
  }

  /** validateExamPayload(body), with the clock read as `now`. */
  function ValidateExamPayload(body: Json, isDatetime: string -> bool, instantOf: string -> Option<int>, now: int): (r: Result<ExamPayload, ExamError>)
    ensures r.Ok? ==> ParseExam(body, isDatetime) == Some(r.value) && InFuture(instantOf(r.value.startDate), now)
  {
    var parsed := ParseExam(body, isDatetime);
    if parsed.None? then Err(InvalidExamPayload)
    else
      var p := parsed.value;
      var start := instantOf(p.startDate);
      if start.None? || start.value <= now then Err(StartDateNotInFuture)
      else if p.totalQuestions <= 0 || p.questionsInExam <= 0 then Err(NonPositiveQuestionCount)
      else Ok(p)
  }

  /** The outcome, case by case: a schema failure wins over everything; a
      body that passes the schema fails exactly when its start is not after
      `now`; otherwise the parsed payload comes back unchanged. */
  lemma ValidateExamPayloadOutcome(body: Json, isDatetime: string -> bool, instantOf: string -> Option<int>, now: int)
    ensures var r := ValidateExamPayload(body, isDatetime, instantOf, now);
      && (r == Err(InvalidExamPayload) <==> ParseExam(body, isDatetime).None?)
      && (r == Err(StartDateNotInFuture) <==>
            ParseExam(body, isDatetime).Some? && !InFuture(instantOf(ParseExam(body, isDatetime).value.startDate), now))
      && (r.Ok? <==>
            ParseExam(body, isDatetime).Some? && InFuture(instantOf(ParseExam(body, isDatetime).value.startDate), now))
  {
  }

  /** The count check of lines 27-31 can never fire: the schema already
      demands positive counts. */
  lemma CountCheckIsRedundant(body: Json, isDatetime: string -> bool, instantOf: string -> Option<int>, now: int)
    ensures ValidateExamPayload(body, isDatetime, instantOf, now) != Err(NonPositiveQuestionCount)
  {
  }

  /** Acceptance in terms of the body alone: `p` is returned exactly when the
      body carries it, it meets the schema and its start is in the future. */
  lemma ValidateExamPayloadAccepts(body: Json, p: ExamPayload, isDatetime: string -> bool, instantOf: string -> Option<int>, now: int)
    ensures ValidateExamPayload(body, isDatetime, instantOf, now) == Ok(p)
      <==> Describes(body, p) && ValidExam(p, isDatetime) && InFuture(instantOf(p.startDate), now)
  {
    ParseExamIff(body, p, isDatetime);
  }
}
