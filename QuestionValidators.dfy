/** validateQuestionConfig (src/validator/questionValidators.js): the bulk
    question schema, then five rules checked in a fixed order, the first
    failure being reported. */
module QuestionValidators {
  import opened Wrappers
  import opened Collections
  import opened JsonValues
  import opened Entities

  datatype PoolError =
    | InvalidQuestionPayload                // 'Invalid question payload'
    | DuplicateQuestionNumber               // 'Question number must be unique within exam'
    | SingleNeedsExactlyOneCorrect(number: int)
    | MultiNeedsTwoCorrect(number: int)
    | PoolNotLargerThanExam                 // 'Total questions created should be greater than ...'
    | PoolSizeMismatch                      // 'Total No of Questions must equal ...'

  // ---- optionSchema, questionSchema, bulkQuestionsSchema ----

  predicate ValidOption(o: OptionInput)
  {
    |o.text| >= 1
  }

  predicate ValidQuestion(q: QuestionInput)
  {
    q.number > 0 && |q.text| >= 1 && |q.options| >= 2
    && forall k :: 0 <= k < |q.options| ==> ValidOption(q.options[k])
  }

  /** What `bulkQuestionsSchema` demands of the parsed question list. */
  predicate ValidPool(qs: seq<QuestionInput>)
  {
    |qs| >= 1 && forall k :: 0 <= k < |qs| ==> ValidQuestion(qs[k])
  }

  /** `z.enum(['SINGLE', 'MULTI'])`. */
  function ParseType(j: Option<Json>): (r: Option<QuestionType>)
    ensures r == Some(Single) <==> j == Some(JStr("SINGLE"))
    ensures r == Some(Multi) <==> j == Some(JStr("MULTI"))
  {
    if j == Some(JStr("SINGLE")) then Some(Single)
    else if j == Some(JStr("MULTI")) then Some(Multi)
    else None
  }

  function ParseOption(j: Json): (r: Option<OptionInput>)
    ensures r.Some? ==> ValidOption(r.value)
  {
    var text := AsString(Field(j, "text"));
    var isCorrect := AsBool(Field(j, "isCorrect"));
    if text.Some? && |text.value| >= 1 && isCorrect.Some? then Some(OptionInput(text.value, isCorrect.value))
    else None
  }

  function ParseQuestion(j: Json): (r: Option<QuestionInput>)
    ensures r.Some? ==> ValidQuestion(r.value)
  {
    var number := AsInt(Field(j, "number"));
    var text := AsString(Field(j, "text"));
    var qtype := ParseType(Field(j, "type"));
    var options := Field(j, "options");
    if number.Some? && number.value > 0 && text.Some? && |text.value| >= 1 && qtype.Some?
       && options.Some? && options.value.JArr? && |options.value.items| >= 2
    then
      var parsed := ParseEach(options.value.items, ParseOption);
      if parsed.Some? then Some(QuestionInput(number.value, text.value, qtype.value, parsed.value)) else None
    else None
  }

  /** `bulkQuestionsSchema.safeParse(body)`: the `questions` list, or None. */
  function ParseBulkQuestions(body: Json): (r: Option<seq<QuestionInput>>)
    ensures r.Some? ==> ValidPool(r.value)
  {
    var questions := Field(body, "questions");
    if questions.Some? && questions.value.JArr? && |questions.value.items| >= 1 then
      ParseEach(questions.value.items, ParseQuestion)
    else None
  }

  // ---- the JSON a client sends for a question list ----

  function OptionToJson(o: OptionInput): Json
  {
    JObj(map["text" := JStr(o.text), "isCorrect" := JBool(o.isCorrect)])
  }

  function TypeToJson(t: QuestionType): Json
  {
    match t
    case Single => JStr("SINGLE")
    case Multi => JStr("MULTI")
  }

  function QuestionToJson(q: QuestionInput): Json
  {
    JObj(map[
      "number" := JNum(q.number as real),
      "text" := JStr(q.text),
      "type" := TypeToJson(q.qtype),
      "options" := JArr(MapSeq(OptionToJson, q.options))])
  }

  function BulkToJson(qs: seq<QuestionInput>): Json
  {
    JObj(map["questions" := JArr(MapSeq(QuestionToJson, qs))])
  }

  lemma OptionJsonRoundTrip(o: OptionInput)
    requires ValidOption(o)
    ensures ParseOption(OptionToJson(o)) == Some(o)
  {
  }

  lemma QuestionJsonRoundTrip(q: QuestionInput)
    requires ValidQuestion(q)
    ensures ParseQuestion(QuestionToJson(q)) == Some(q)
  {
    var j := QuestionToJson(q);
    assert AsInt(Field(j, "number")) == Some(q.number) by {
      assert (q.number as real).Floor == q.number;
    }
    assert ParseType(Field(j, "type")) == Some(q.qtype);
    var items := MapSeq(OptionToJson, q.options);
    forall k | 0 <= k < |items| ensures ParseOption(items[k]) == Some(q.options[k]) {
      OptionJsonRoundTrip(q.options[k]);
    }
    var parsed := ParseEach(items, ParseOption);
    assert parsed.value == q.options;
  }

  /** Every list the schema admits survives being sent as JSON and parsed back. */
  lemma BulkJsonRoundTrip(qs: seq<QuestionInput>)
    requires ValidPool(qs)
    ensures ParseBulkQuestions(BulkToJson(qs)) == Some(qs)
  {
    var items := MapSeq(QuestionToJson, qs);
    forall k | 0 <= k < |items| ensures ParseQuestion(items[k]) == Some(qs[k]) {
      QuestionJsonRoundTrip(qs[k]);
    }
    var parsed := ParseEach(items, ParseQuestion);
    assert parsed.value == qs;
  }

  // ---- what the schema accepts, in terms of the body ----

  /** `j` carries option `o` under the keys of `optionSchema`. */
  predicate DescribesOption(j: Json, o: OptionInput)
  {
    Field(j, "text") == Some(JStr(o.text)) && Field(j, "isCorrect") == Some(JBool(o.isCorrect))
  }

  /** `items` carry `options`, one by one and in order. */
  predicate DescribesOptions(items: seq<Json>, options: seq<OptionInput>)
  {
    |items| == |options| && forall k :: 0 <= k < |items| ==> DescribesOption(items[k], options[k])
  }

  /** `j` carries question `q` under the keys of `questionSchema`. */
  predicate DescribesQuestion(j: Json, q: QuestionInput)
  {
    && Field(j, "number") == Some(JNum(q.number as real))
    && Field(j, "text") == Some(JStr(q.text))
    && Field(j, "type") == Some(TypeToJson(q.qtype))
    && Field(j, "options").Some? && Field(j, "options").value.JArr?
    && DescribesOptions(Field(j, "options").value.items, q.options)
  }

  /** `body` carries the question list `qs` under `questions`, in order. */
  predicate DescribesBulk(body: Json, qs: seq<QuestionInput>)
  {
    && Field(body, "questions").Some? && Field(body, "questions").value.JArr?
    && |Field(body, "questions").value.items| == |qs|
    && forall k :: 0 <= k < |qs| ==> DescribesQuestion(Field(body, "questions").value.items[k], qs[k])
  }

  /** `optionSchema` returns `o` exactly when the body carries a valid `o`. */
  lemma ParseOptionIff(j: Json, o: OptionInput)
    ensures ParseOption(j) == Some(o) <==> DescribesOption(j, o) && ValidOption(o)
  {
  }

  /** `questionSchema` returns `q` exactly when the body carries a valid `q`. */
  lemma ParseQuestionIff(j: Json, q: QuestionInput)
    ensures ParseQuestion(j) == Some(q) <==> DescribesQuestion(j, q) && ValidQuestion(q)
  {
    if ParseQuestion(j) == Some(q) {
      var items := Field(j, "options").value.items;
      forall k | 0 <= k < |items| ensures DescribesOption(items[k], q.options[k]) {
        ParseOptionIff(items[k], q.options[k]);
      }
    }
    if DescribesQuestion(j, q) && ValidQuestion(q) {
      assert (q.number as real).Floor == q.number;
      var items := Field(j, "options").value.items;
      forall k | 0 <= k < |items| ensures ParseOption(items[k]) == Some(q.options[k]) {
        ParseOptionIff(items[k], q.options[k]);
      }
      var parsed := ParseEach(items, ParseOption);
      assert parsed.value == q.options;
    }
  }

  /** `bulkQuestionsSchema` returns `qs` exactly when the body carries the
      valid list `qs`, in order. */
  lemma ParseBulkQuestionsIff(body: Json, qs: seq<QuestionInput>)
    ensures ParseBulkQuestions(body) == Some(qs) <==> DescribesBulk(body, qs) && ValidPool(qs)
  {
    if ParseBulkQuestions(body) == Some(qs) {
      var items := Field(body, "questions").value.items;
      forall k | 0 <= k < |qs| ensures DescribesQuestion(items[k], qs[k]) {
        ParseQuestionIff(items[k], qs[k]);
      }
    }
    if DescribesBulk(body, qs) && ValidPool(qs) {
      var items := Field(body, "questions").value.items;
      forall k | 0 <= k < |items| ensures ParseQuestion(items[k]) == Some(qs[k]) {
        ParseQuestionIff(items[k], qs[k]);
      }
      var parsed := ParseEach(items, ParseQuestion);
      assert parsed.value == qs;
    }
  }

  /** Keys other than `text` and `isCorrect` are stripped from an option. */
  lemma ParseOptionIgnoresOtherKeys(fields: map<string, Json>, key: string, value: Json)
    requires key != "text" && key != "isCorrect"
    ensures ParseOption(JObj(fields[key := value])) == ParseOption(JObj(fields))
  {
    var b, b' := JObj(fields), JObj(fields[key := value]);
    assert Field(b', "text") == Field(b, "text");
    assert Field(b', "isCorrect") == Field(b, "isCorrect");
  }

  /** Keys other than the four of `questionSchema` are stripped from a question. */
  lemma ParseQuestionIgnoresOtherKeys(fields: map<string, Json>, key: string, value: Json)
    requires key != "number" && key != "text" && key != "type" && key != "options"
    ensures ParseQuestion(JObj(fields[key := value])) == ParseQuestion(JObj(fields))
  {
    var b, b' := JObj(fields), JObj(fields[key := value]);
    assert Field(b', "number") == Field(b, "number");
    assert Field(b', "text") == Field(b, "text");
    assert Field(b', "type") == Field(b, "type");
    assert Field(b', "options") == Field(b, "options");
  }

  /** Keys other than `questions` are stripped from the body. */
  lemma ParseBulkQuestionsIgnoresOtherKeys(fields: map<string, Json>, key: string, value: Json)
    requires key != "questions"
    ensures ParseBulkQuestions(JObj(fields[key := value])) == ParseBulkQuestions(JObj(fields))
  {
    assert Field(JObj(fields[key := value]), "questions") == Field(JObj(fields), "questions");
  }

  // ---- the rules ----

  /** `q.options.filter(o => o.isCorrect).length`. */
  function CorrectCount(options: seq<OptionInput>): (n: nat)
    ensures n <= |options|
  {
    if options == [] then 0
    else CorrectCount(options[..|options| - 1]) + (if options[|options| - 1].isCorrect then 1 else 0)
  }

  /** The type rule: SINGLE has exactly one correct option, MULTI at least two. */
  predicate TypeRuleHolds(q: QuestionInput)
  {
    match q.qtype
    case Single => CorrectCount(q.options) == 1
    case Multi => CorrectCount(q.options) >= 2
  }

  /** The error the loop of lines 45-57 throws for a question breaking the rule. */
  function TypeRuleError(q: QuestionInput): PoolError
  {
    match q.qtype
    case Single => SingleNeedsExactlyOneCorrect(q.number)
    case Multi => MultiNeedsTwoCorrect(q.number)
  }

  /** The position of the first question, from `from` on, that breaks the type rule. */
  function FirstViolation(qs: seq<QuestionInput>, from: nat): (r: Option<nat>)
    requires from <= |qs|
    ensures r.None? <==> forall k :: from <= k < |qs| ==> TypeRuleHolds(qs[k])
    ensures r.Some? ==> from <= r.value < |qs| && !TypeRuleHolds(qs[r.value])
    ensures r.Some? ==> forall k :: from <= k < r.value ==> TypeRuleHolds(qs[k])
    decreases |qs| - from
  {
    if from == |qs| then None
    else if !TypeRuleHolds(qs[from]) then Some(from)
    else FirstViolation(qs, from + 1)
  }

  function Numbers(qs: seq<QuestionInput>): (ns: seq<int>)
    ensures |ns| == |qs| && forall k :: 0 <= k < |qs| ==> ns[k] == qs[k].number
  {
    MapSeq((q: QuestionInput) => q.number, qs)
  }

  /** validateQuestionConfig(body, questionsInExam, totalQuestions); a
      `totalQuestions` that is not a number is None. */
  function ValidateQuestionConfig(body: Json, questionsInExam: int, totalQuestions: Option<int>): (r: Result<seq<QuestionInput>, PoolError>)
    ensures r.Ok? ==> ParseBulkQuestions(body) == Some(r.value)
    ensures r == Err(InvalidQuestionPayload) <==> ParseBulkQuestions(body).None?
  {
    var parsed := ParseBulkQuestions(body);
    if parsed.None? then Err(InvalidQuestionPayload)
    else
      var qs := parsed.value;
      var numbers := Numbers(qs);
      if |SetOf(numbers)| != |numbers| then Err(DuplicateQuestionNumber)
      else
        var bad := FirstViolation(qs, 0);
        if bad.Some? then Err(TypeRuleError(qs[bad.value]))
        else if !(|qs| > questionsInExam) then Err(PoolNotLargerThanExam)
        else if totalQuestions.Some? && |qs| != totalQuestions.value then Err(PoolSizeMismatch)
        else Ok(qs)
  }

  /** The rules a question list must meet to be accepted for an exam. */
  predicate PoolRules(qs: seq<QuestionInput>, questionsInExam: int, totalQuestions: Option<int>)
  {
    Distinct(Numbers(qs))
    && (forall k :: 0 <= k < |qs| ==> TypeRuleHolds(qs[k]))
    && |qs| > questionsInExam
    && (totalQuestions.Some? ==> |qs| == totalQuestions.value)
  }

  /** A list is accepted exactly when the schema admits it and every rule
      holds, and it is then returned as parsed, in its original order. */
  lemma ValidateQuestionConfigAccepts(body: Json, questionsInExam: int, totalQuestions: Option<int>)
    ensures var r := ValidateQuestionConfig(body, questionsInExam, totalQuestions);
      r.Ok? <==> ParseBulkQuestions(body).Some? && PoolRules(ParseBulkQuestions(body).value, questionsInExam, totalQuestions)
    ensures var r := ValidateQuestionConfig(body, questionsInExam, totalQuestions);
      r.Ok? ==> r.value == ParseBulkQuestions(body).value && ValidPool(r.value)
  {
    var parsed := ParseBulkQuestions(body);
    if parsed.Some? {
      DistinctIffSetSize(Numbers(parsed.value));
    }
  }

  /** A repeated question number is reported once the schema passes,
      whatever else is wrong with the list. */
  lemma DuplicateNumbersReported(body: Json, questionsInExam: int, totalQuestions: Option<int>)
    requires ParseBulkQuestions(body).Some? && !Distinct(Numbers(ParseBulkQuestions(body).value))
    ensures ValidateQuestionConfig(body, questionsInExam, totalQuestions) == Err(DuplicateQuestionNumber)
  {
    DistinctIffSetSize(Numbers(ParseBulkQuestions(body).value));
  }

  /** Among lists with distinct numbers, the first question in list order
      that breaks its type rule is the one reported, by its number. */
  lemma FirstOffenderReported(body: Json, questionsInExam: int, totalQuestions: Option<int>, k: nat)
    requires ParseBulkQuestions(body).Some?
    requires var qs := ParseBulkQuestions(body).value;
      && Distinct(Numbers(qs))
      && k < |qs| && !TypeRuleHolds(qs[k])
      && (forall m :: 0 <= m < k ==> TypeRuleHolds(qs[m]))
    ensures ValidateQuestionConfig(body, questionsInExam, totalQuestions)
      == Err(TypeRuleError(ParseBulkQuestions(body).value[k]))
  {
    var qs := ParseBulkQuestions(body).value;
    DistinctIffSetSize(Numbers(qs));
    var bad := FirstViolation(qs, 0);
    assert bad.Some?;
  }

  /** The error reported for the first offender names its rule and its
      number: a SINGLE question whose correct-option count is not 1 gives
      `SingleNeedsExactlyOneCorrect`, a MULTI question with fewer than two
      correct options `MultiNeedsTwoCorrect`. */
  lemma TypeRuleErrorMessage(body: Json, questionsInExam: int, totalQuestions: Option<int>, k: nat)
    requires ParseBulkQuestions(body).Some?
    requires var qs := ParseBulkQuestions(body).value;
      && Distinct(Numbers(qs))
      && k < |qs| && !TypeRuleHolds(qs[k])
      && (forall m :: 0 <= m < k ==> TypeRuleHolds(qs[m]))
    ensures var q := ParseBulkQuestions(body).value[k];
      var r := ValidateQuestionConfig(body, questionsInExam, totalQuestions);
      && (q.qtype.Single? ==> CorrectCount(q.options) != 1 && r == Err(SingleNeedsExactlyOneCorrect(q.number)))
      && (q.qtype.Multi? ==> CorrectCount(q.options) < 2 && r == Err(MultiNeedsTwoCorrect(q.number)))
  {
    FirstOffenderReported(body, questionsInExam, totalQuestions, k);
  }

  /** The size checks come last: a well-typed list of distinct numbers is
      rejected for its size exactly as lines 59-69 say. */
  lemma SizeRulesReported(body: Json, questionsInExam: int, totalQuestions: Option<int>)
    requires ParseBulkQuestions(body).Some?
    requires var qs := ParseBulkQuestions(body).value;
      Distinct(Numbers(qs)) && forall k :: 0 <= k < |qs| ==> TypeRuleHolds(qs[k])
    ensures var qs := ParseBulkQuestions(body).value;
      var r := ValidateQuestionConfig(body, questionsInExam, totalQuestions);
      (r == Err(PoolNotLargerThanExam) <==> |qs| <= questionsInExam)
      && (r == Err(PoolSizeMismatch) <==> |qs| > questionsInExam && totalQuestions.Some? && |qs| != totalQuestions.value)
  {
    DistinctIffSetSize(Numbers(ParseBulkQuestions(body).value));
  }
}
