/** The persisted rows the controllers read and write through Prisma, as one
    in-memory object: exams by id, each exam's question pool, and the next
    ids the database would hand out. */
module Store {
  import opened Collections
  import opened Entities
  import opened QuestionValidators

  /** What every stored exam satisfies, since only payloads that passed the
      exam schema are written. */
  predicate Configured(p: ExamPayload)
  {
    p.totalQuestions > 0 && p.questionsInExam > 0 && 0 <= p.passingPercentage <= 100
  }

  /** What every stored pool keeps, since only lists the pool validator
      accepted are written: each question has the schema's shape and meets
      the rule of its type, and no two share a number. */
  predicate PoolKept(pool: seq<StoredQuestion>)
  {
    var c := MapSeq(QuestionContent, pool);
    && (forall k :: 0 <= k < |c| ==> ValidQuestion(c[k]) && TypeRuleHolds(c[k]))
    && Distinct(Numbers(c))
  }

  /** Appending a question of the right shape and type, under a new number,
      keeps a pool's rules. */
  lemma PoolKeptAppend(pool: seq<StoredQuestion>, row: StoredQuestion)
    requires PoolKept(pool)
    requires ValidQuestion(QuestionContent(row)) && TypeRuleHolds(QuestionContent(row))
    requires row.number !in Numbers(MapSeq(QuestionContent, pool))
    ensures PoolKept(pool + [row])
  {
    var c, c' := MapSeq(QuestionContent, pool), MapSeq(QuestionContent, pool + [row]);
    assert c' == c + [QuestionContent(row)];
    var ns, ns' := Numbers(c), Numbers(c');
    assert ns' == ns + [row.number];
    forall i, j | 0 <= i < j < |ns'| ensures ns'[i] != ns'[j] {
      if j == |ns| {
        assert ns'[i] == ns[i];
      } else {
        assert ns'[i] == ns[i] && ns'[j] == ns[j];
      }
    }
  }

  /** What the pools keep together: question ids below `next`, distinct
      within each pool, and each pool's rules. */
  predicate PoolsKept(pools: map<int, seq<StoredQuestion>>, next: int)
  {
    && (forall id, k :: id in pools && 0 <= k < |pools[id]| ==> 1 <= pools[id][k].id < next)
    && (forall id :: id in pools ==> Distinct(MapSeq(QuestionId, pools[id])))
    && (forall id :: id in pools ==> PoolKept(pools[id]))
  }

  /** Appending a question under the next id, with its pool's rules kept,
      keeps the pools' invariant with the id counter advanced. */
  lemma PoolsKeptAppend(pools: map<int, seq<StoredQuestion>>, next: int, id: int, row: StoredQuestion)
    requires PoolsKept(pools, next) && row.id == next >= 1
    requires var before := if id in pools then pools[id] else [];
      PoolKept(before + [row])
    ensures var before := if id in pools then pools[id] else [];
      PoolsKept(pools[id := before + [row]], next + 1)
  {
    var before := if id in pools then pools[id] else [];
    var after := before + [row];
    assert MapSeq(QuestionId, after) == MapSeq(QuestionId, before) + [row.id];
  }

  /** The rows the nested `create` of line 78 makes: each option's submitted
      content kept, in the order given, under consecutive ids from `first`. */
  function NumberOptions(options: seq<OptionInput>, first: int): (r: seq<StoredOption>)
    ensures MapSeq(OptionContent, r) == options
    ensures forall k :: 0 <= k < |r| ==> r[k].id == first + k
  {
    seq(|options|, k requires 0 <= k < |options| => StoredOption(first + k, options[k].text, options[k].isCorrect))
  }

  class ExamStore {
    var exams: map<int, ExamPayload>
    var pools: map<int, seq<StoredQuestion>>
    var nextExamId: int
    var nextQuestionId: int
    var nextOptionId: int

    ghost predicate Valid()
      reads this
    {
      && nextExamId >= 1 && nextQuestionId >= 1 && nextOptionId >= 1
      && (forall id :: id in exams ==> 1 <= id < nextExamId && Configured(exams[id]))
      && pools.Keys <= exams.Keys
      && PoolsKept(pools, nextQuestionId)
    }

    constructor ()
      ensures Valid()
      ensures exams == map[] && pools == map[]
    {
      exams, pools := map[], map[];
      nextExamId, nextQuestionId, nextOptionId := 1, 1, 1;
    }

    /** `prisma.question.findMany({ where: { examId: id } })`, options included. */
    function Pool(id: int): seq<StoredQuestion>
      reads this
    {
      if id in pools then pools[id] else []
    }

    /** `prisma.exam.create({ data: p })`: a new row under a fresh id. */
    method CreateExamRow(p: ExamPayload) returns (exam: Exam)
      requires Valid() && Configured(p)
      modifies this
      ensures Valid()
      ensures exam == Exam(old(nextExamId), p) && exam.id !in old(exams)
      ensures exams == old(exams)[exam.id := p] && pools == old(pools)
    {
      exam := Exam(nextExamId, p);
      exams := exams[nextExamId := p];
      nextExamId := nextExamId + 1;
    }

    /** `prisma.exam.update({ where: { id }, data: p })`; false stands for the
        error Prisma raises when no row has that id. */
    method UpdateExamRow(id: int, p: ExamPayload) returns (updated: bool)
      requires Valid() && Configured(p)
      modifies this
      ensures Valid()
      ensures updated <==> id in old(exams)
      ensures exams == (if updated then old(exams)[id := p] else old(exams))
      ensures pools == old(pools)
    {
      updated := id in exams;
      if updated {
        exams := exams[id := p];
      }
    }

    /** The two `deleteMany` calls: the exam's options, then its questions. */
    method DeletePool(id: int)
      requires Valid()
      modifies this
      ensures Valid()
      ensures pools == old(pools) - {id} && exams == old(exams)
      ensures nextQuestionId == old(nextQuestionId)
    {
      pools := pools - {id};
    }

    /** `tx.question.create(...)` with its nested options: the question is
        appended to the exam's pool under a fresh id. The controller only
        creates questions of a list the pool validator accepted, one by one,
        so each has the schema's shape and its type rule, and its number is
        not yet in the pool. */
    method CreateQuestion(id: int, q: QuestionInput) returns (row: StoredQuestion)
      requires Valid() && id in exams
      requires ValidQuestion(q) && TypeRuleHolds(q)
      requires q.number !in Numbers(MapSeq(QuestionContent, Pool(id)))
      modifies this
      ensures Valid()
      ensures row.id == old(nextQuestionId) && QuestionContent(row) == q
      ensures row.options == NumberOptions(q.options, old(nextOptionId))
      ensures pools == old(pools)[id := old(Pool(id)) + [row]] && exams == old(exams)
      ensures nextQuestionId == old(nextQuestionId) + 1
    {
      row := StoredQuestion(nextQuestionId, q.number, q.text, q.qtype, NumberOptions(q.options, nextOptionId));
      var before := Pool(id);
      var after := before + [row];
      PoolKeptAppend(before, row);
      PoolsKeptAppend(pools, nextQuestionId, id, row);
      pools := pools[id := after];
      nextQuestionId := nextQuestionId + 1;
      nextOptionId := nextOptionId + |q.options|;
    }
  }
}
