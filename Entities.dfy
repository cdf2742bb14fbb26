/** The records of the exam backend: an exam's configuration, the question
    pool an administrator submits, and the rows the store keeps. */
module Entities {
  import opened Collections

  datatype QuestionType = Single | Multi

  /** The fields of an exam that `examSchema` admits. */
  datatype ExamPayload = ExamPayload(
    name: string,
    totalQuestions: int,
    questionsInExam: int,
    passingPercentage: int,
    startDate: string)

  /** An option of a submitted question, before it is stored. */
  datatype OptionInput = OptionInput(text: string, isCorrect: bool)

  /** A submitted question, before it is stored. */
  datatype QuestionInput = QuestionInput(
    number: int,
    text: string,
    qtype: QuestionType,
    options: seq<OptionInput>)

  /** A stored option row, with the id the store gave it. */
  datatype StoredOption = StoredOption(id: int, text: string, isCorrect: bool)

  /** A stored question row with its options. */
  datatype StoredQuestion = StoredQuestion(
    id: int,
    number: int,
    text: string,
    qtype: QuestionType,
    options: seq<StoredOption>)

  /** A stored exam row: its id and configuration. */
  datatype Exam = Exam(id: int, payload: ExamPayload)

  /** What was submitted for a stored option: its row without the id. */
  function OptionContent(o: StoredOption): OptionInput
  {
    OptionInput(o.text, o.isCorrect)
  }

  /** What was submitted for a stored question. */
  function QuestionContent(q: StoredQuestion): QuestionInput
  {
    QuestionInput(q.number, q.text, q.qtype, MapSeq(OptionContent, q.options))
  }

  function QuestionId(q: StoredQuestion): int
  {
    q.id
  }
}
