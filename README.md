# Exam backend: seeded shuffle, pool validation, assembly and scoring

This project models the algorithmic core of a small exam backend written in
JavaScript (Express and Prisma).

- **Exams and pools.** Administrators create exams and replace an exam's
  question pool. A pool is accepted only by a validator: a schema first, then
  unique question numbers, then a per-type count of correct options, then two
  size rules.
- **Serving an exam.** A candidate is served a sub-list of the pool whose
  order depends only on the candidate's e-mail and the exam id. The options of
  each question are shuffled too, per question, and their `isCorrect` flags
  are dropped.
- **Scoring.** A submission is scored by counting right answers under the
  SINGLE and MULTI rules. The count is turned into a rounded percentage of
  `questionsInExam` and compared with the pass mark.
- **The shuffle.** It is 32-bit FNV-1a over the seed's UTF-16 code units,
  feeding the Mulberry32 generator, which drives a Fisher–Yates loop over a
  copy of the input.

Modules, in dependency order:

- `Wrappers`: Option and Result.
- `Collections`: sets of sequences and distinctness.
- `Bits`: JavaScript's 32-bit operators on unbounded integers.
- `Decimal`: how `${n}` writes an integer.
- `JsonValues`: request bodies.
- `Entities`: the records.
- `SeedShuffle`: `src/utils/seedShuffle.js`.
- `Pagination`: `src/utils/pagination.js`.
- `ExamValidators`: `src/validator/examValidators.js`.
- `QuestionValidators`: `src/validator/questionValidators.js`.
- `Store`: an in-memory stand-in for the database rows, as a class.
- `AdminController`: the write paths of `src/controllers/adminController.js`.
- `UserController`: `src/controllers/userController.js`.
- `Scenarios`: worked examples on fixed exams.

How each part is written:

- The shuffle matches the source's imperative form:
  - `HashString` is a loop;
  - the generator is a class whose method advances its captured number;
  - the shuffle swaps in place in a fresh array.
- Each of those methods is proved equal to a function the properties are
  stated about: `Fnv1a`, `Output`, `Shuffled`.
- The scoring loop and the inner `allMatch` scan are methods with loop
  invariants, proved equal to the functions `Correct` and `AnswerIsCorrect`.
- `saveQuestions` is the method `AdminController.SaveQuestions`, which takes
  the store object (`Store.ExamStore`). It deletes the pool through the
  store, then creates the questions one by one in a loop.

## Model

| member | source | states |
|---|---|---|
| SeedShuffle.CharUnits | src/utils/seedShuffle.js:15 | a character below U+10000 is one code unit, its own value; any other is a high surrogate then a low surrogate, from which its value is recovered |
| SeedShuffle.Utf16 | src/utils/seedShuffle.js:14-15 | the code units `charCodeAt` reads, in order; at least one per character |
| SeedShuffle.Fnv1a | src/utils/seedShuffle.js:12-19 | definition: the offset basis 2166136261, then per code unit xor it in and multiply by 16777619 mod 2^32; `SeedShuffle.HashString` is proved equal to it |
| SeedShuffle.FnvMultiply | src/utils/seedShuffle.js:16 | definition: multiplication by 16777619 mod 2^32, which `SeedShuffle.ShiftedSumIsFnvMultiply` shows the shifted sum to be |
| SeedShuffle.ShiftedSum | src/utils/seedShuffle.js:16 | definition: the six shifted copies of `h` added and reduced mod 2^32 by `Math.imul(_, 1) >>> 0` |
| SeedShuffle.MixMultiply | src/utils/seedShuffle.js:5 | definition: the product mod 2^32 of `t` xor `t >>> 15` with `t` or 1 |
| SeedShuffle.MixXorAdd | src/utils/seedShuffle.js:6 | definition: `t` xor the sum of `t` and the 32-bit product of `t` xor `t >>> 7` with `t` or 61, the sum reduced by the xor |
| SeedShuffle.MixFinal | src/utils/seedShuffle.js:7 | definition: `(t ^ (t >>> 14)) >>> 0` |
| SeedShuffle.Output | src/utils/seedShuffle.js:4-7 | definition: the 32 bits one call returns when its captured number was `a`: the three mixing steps applied to `a + 0x6D2B79F5` mod 2^32 |
| SeedShuffle.FisherYates | src/utils/seedShuffle.js:25-28 | definition: the loop from position i down to 1, position i - k swapped with partner k |
| SeedShuffle.Shuffled | src/utils/seedShuffle.js:24-29 | definition: the whole loop over a sequence with the partners the generator draws from a seed; `SeedShuffle.ShuffledPermutes` and `SeedShuffle.ShuffledCommutesWithMap` state its properties |
| SeedShuffle.SeededShuffleOf | src/utils/seedShuffle.js:21-30 | definition: the shuffle of a list seeded with the FNV-1a hash of the seed text; `SeedShuffle.SeededShuffle` is proved to return it |
| SeedShuffle.ShiftedSumIsFnvMultiply | src/utils/seedShuffle.js:16 | `h + (h<<1) + (h<<4) + (h<<7) + (h<<8) + (h<<24)` reduced mod 2^32 equals multiplication by the FNV prime 16777619 mod 2^32 |
| SeedShuffle.HashString | src/utils/seedShuffle.js:12-19 | the loop returns 32-bit FNV-1a of the string's UTF-16 code units: offset 2166136261, xor each unit, then multiply by 16777619 mod 2^32; the result is a 32-bit value |
| SeedShuffle.OutputDependsOnResidue | src/utils/seedShuffle.js:4 | a draw depends only on the captured number mod 2^32, so the unbounded counter acts as a 32-bit counter |
| SeedShuffle.Uniform | src/utils/seedShuffle.js:7 | output bits divided by 2^32 lie in [0, 1) |
| SeedShuffle.Mulberry32.constructor | src/utils/seedShuffle.js:2-3 | the generator starts with the seed as its captured number |
| SeedShuffle.Mulberry32.Rand | src/utils/seedShuffle.js:3-8 | each call adds 0x6D2B79F5 to the captured number and returns the mixed 32-bit output of the new number over 2^32, a value in [0, 1) |
| SeedShuffle.PickIndex | src/utils/seedShuffle.js:26 | `Math.floor(u * (i + 1))` for u in [0, 1) is an index j with 0 <= j <= i |
| SeedShuffle.SwapPartner | src/utils/seedShuffle.js:26 | the integer form `(bits * (i + 1)) div 2^32` is at most i |
| SeedShuffle.PickIndexIsIntegerQuotient | src/utils/seedShuffle.js:26 | the floor of the real-valued draw times (i + 1) equals the integer quotient `(bits * (i + 1)) div 2^32` |
| SeedShuffle.Swap | src/utils/seedShuffle.js:27 | the destructuring swap exchanges positions i and j and keeps every other position and the length |
| SeedShuffle.SwapPermutes | src/utils/seedShuffle.js:27 | a swap keeps the multiset of elements |
| SeedShuffle.Picks | src/utils/seedShuffle.js:25-26 | the partners drawn for positions i down to 1 each lie at or below their position |
| SeedShuffle.FisherYatesPermutes | src/utils/seedShuffle.js:25-28 | a run of the loop, with any in-range partners, keeps length and multiset |
| SeedShuffle.ShuffledPermutes | src/utils/seedShuffle.js:24-29 | the shuffle returns a permutation of its input: same length, same multiset |
| SeedShuffle.FisherYatesCommutesWithMap | src/utils/seedShuffle.js:25-28 | the swaps never look at the elements: mapping before or after a run gives the same sequence |
| SeedShuffle.ShuffledCommutesWithMap | src/utils/seedShuffle.js:21-30 | the order chosen depends on the seed and the length only: shuffling a mapped sequence equals mapping the shuffled one |
| SeedShuffle.FisherYatesStep | src/utils/seedShuffle.js:25-28 | one iteration unrolled: a run from position i is the swap with the first drawn partner, then a run from i - 1 with the advanced generator |
| SeedShuffle.SwapWithDraw | src/utils/seedShuffle.js:26-27 | one draw advances the generator once and swaps position i with the drawn partner, so the rest of the loop is the run from position i - 1 |
| SeedShuffle.FisherYatesInPlace | src/utils/seedShuffle.js:25-28 | the in-place descending loop leaves the array equal to the shuffle function of its old contents and the generator's starting number |
| SeedShuffle.SeededShuffle | src/utils/seedShuffle.js:21-30 | returns a fresh array: empty for a non-array argument, otherwise the seeded shuffle of a copy, a permutation of the input; the input array is not modified |
| Decimal.NatToString | src/controllers/userController.js:24 | a natural is written as one or more decimal digits, a single digit exactly when it is below 10 |
| Decimal.NatToStringInjective | src/controllers/userController.js:24 | different naturals are written differently |
| Decimal.SignMark | src/controllers/userController.js:24 | only negative integers are written with a leading '-' |
| Decimal.IntToStringInjective | src/controllers/userController.js:24 | different integers are written differently |
| JsonValues.Field | src/validator/examValidators.js:3-9 | a key is found exactly when the body is an object that has it, and the value found is the object's value under that key |
| JsonValues.AsInt | src/validator/examValidators.js:5-7 | `z.number().int()` admits exactly integral numbers and returns their value |
| JsonValues.AsString | src/validator/examValidators.js:4 | `z.string()` admits exactly strings |
| JsonValues.AsBool | src/validator/questionValidators.js:5 | `z.boolean()` admits exactly booleans |
| JsonValues.ParseEach | src/validator/questionValidators.js:12 | `z.array(schema)` succeeds exactly when every element parses, and keeps length and order |
| Collections.DistinctIffSetSize | src/validator/questionValidators.js:37-39 | `new Set(numbers).size === numbers.length` exactly when no number repeats |
| Collections.SubsetOfSameSizeIsEqual | src/controllers/userController.js:83-86 | a subset as large as the finite set containing it is that set, so the size test plus the `allMatch` scan is set equality |
| ExamValidators.ValidExam | src/validator/examValidators.js:3-9 | definition: non-empty name, positive counts, pass mark in 0..100, start text a datetime |
| ExamValidators.Describes | src/validator/examValidators.js:3-9 | definition: the body carries the payload's five fields under the schema's keys |
| ExamValidators.InFuture | src/validator/examValidators.js:21-22 | definition: the start is a valid instant strictly after `now`; NaN never is |
| ExamValidators.ParseExam | src/validator/examValidators.js:3-9 | an accepted body carries a payload with non-empty name, positive integer counts, an integer pass mark in 0..100 and a datetime start |
| ExamValidators.ParseExamIff | src/validator/examValidators.js:3-12 | the schema returns p exactly when the body carries p under the five keys and p meets the constraints |
| ExamValidators.ParseExamIgnoresOtherKeys | src/validator/examValidators.js:3-9 | keys outside the five are stripped and do not change the outcome |
| ExamValidators.ExamToJson | src/validator/examValidators.js:3-9 | the JSON a client sends for a payload carries its five fields |
| ExamValidators.ExamJsonRoundTrip | src/validator/examValidators.js:12-19 | every valid payload sent as JSON parses back to itself |
| ExamValidators.ValidateExamPayload | src/validator/examValidators.js:11-33 | an accepted payload is the schema's parse of the body, and its start instant is after `now` |
| ExamValidators.ValidateExamPayloadOutcome | src/validator/examValidators.js:12-26 | "Invalid exam payload" exactly when the schema fails; the date error exactly when the schema passes and the start is not after `now` (or not a date); success exactly when both pass |
| ExamValidators.CountCheckIsRedundant | src/validator/examValidators.js:27-31 | the "greater than 0" error never happens, since the schema already demands positive counts |
| ExamValidators.ValidateExamPayloadAccepts | src/validator/examValidators.js:11-32 | p is returned exactly when the body carries p, p meets the schema and its start is in the future; the payload comes back unchanged |
| QuestionValidators.ValidOption | src/validator/questionValidators.js:3-6 | definition: the option text is not empty |
| QuestionValidators.ValidQuestion | src/validator/questionValidators.js:8-13 | definition: a positive number, non-empty text and at least two valid options |
| QuestionValidators.ValidPool | src/validator/questionValidators.js:15-17 | definition: at least one question, each valid |
| QuestionValidators.DescribesOption | src/validator/questionValidators.js:3-6 | definition: the JSON carries the option's text and flag under `text` and `isCorrect` |
| QuestionValidators.DescribesOptions | src/validator/questionValidators.js:12 | definition: the JSON list carries the options one by one, in order |
| QuestionValidators.DescribesQuestion | src/validator/questionValidators.js:8-13 | definition: the JSON carries the question's number, text, type and option list under the schema's keys |
| QuestionValidators.DescribesBulk | src/validator/questionValidators.js:15-17 | definition: the body carries the question list under `questions`, in order |
| QuestionValidators.ParseOptionIff | src/validator/questionValidators.js:3-6 | the option schema returns `o` exactly when the JSON carries `o` and `o` is valid |
| QuestionValidators.ParseQuestionIff | src/validator/questionValidators.js:8-13 | the question schema returns `q` exactly when the JSON carries `q` and `q` is valid |
| QuestionValidators.ParseBulkQuestionsIff | src/validator/questionValidators.js:15-17 | the bulk schema returns `qs` exactly when the body carries `qs` in order and `qs` is a valid list |
| QuestionValidators.ParseOptionIgnoresOtherKeys | src/validator/questionValidators.js:3-6 | keys other than `text` and `isCorrect` are stripped and do not change the outcome |
| QuestionValidators.ParseQuestionIgnoresOtherKeys | src/validator/questionValidators.js:8-13 | keys other than `number`, `text`, `type` and `options` are stripped and do not change the outcome |
| QuestionValidators.ParseBulkQuestionsIgnoresOtherKeys | src/validator/questionValidators.js:15-17 | keys other than `questions` are stripped and do not change the outcome |
| QuestionValidators.ParseType | src/validator/questionValidators.js:11 | the type is SINGLE or MULTI exactly for those two strings |
| QuestionValidators.ParseOption | src/validator/questionValidators.js:3-6 | an accepted option has non-empty text |
| QuestionValidators.ParseQuestion | src/validator/questionValidators.js:8-13 | an accepted question has a positive number, non-empty text and at least two valid options |
| QuestionValidators.ParseBulkQuestions | src/validator/questionValidators.js:15-17 | an accepted body has at least one question, each valid |
| QuestionValidators.OptionJsonRoundTrip | src/validator/questionValidators.js:3-6 | a valid option sent as JSON parses back to itself |
| QuestionValidators.QuestionJsonRoundTrip | src/validator/questionValidators.js:8-13 | a valid question sent as JSON parses back to itself |
| QuestionValidators.BulkJsonRoundTrip | src/validator/questionValidators.js:15-17 | a valid question list sent as JSON parses back to itself, in order |
| QuestionValidators.CorrectCount | src/validator/questionValidators.js:46 | the count of correct options is at most the number of options |
| QuestionValidators.TypeRuleHolds | src/validator/questionValidators.js:46-56 | definition: SINGLE has exactly one correct option, MULTI at least two |
| QuestionValidators.TypeRuleError | src/validator/questionValidators.js:47-56 | definition: the error for a question breaking its type rule, naming its number |
| QuestionValidators.PoolRules | src/validator/questionValidators.js:36-69 | definition: distinct numbers, every type rule, size above `questionsInExam`, size equal to a given total; `QuestionValidators.ValidateQuestionConfigAccepts` shows acceptance is exactly these |
| QuestionValidators.FirstViolation | src/validator/questionValidators.js:45-57 | finds the first question breaking its type rule: none exactly when all hold; otherwise one that breaks it, with all before it keeping it |
| QuestionValidators.ValidateQuestionConfig | src/validator/questionValidators.js:27-71 | "Invalid question payload" exactly when the schema fails; an accepted list is exactly what the schema parsed |
| QuestionValidators.ValidateQuestionConfigAccepts | src/validator/questionValidators.js:28-70 | success exactly when the schema passes, numbers are distinct, every type rule holds, the pool is larger than `questionsInExam` and equals a given `totalQuestions`; the parsed list is then returned in its original order |
| QuestionValidators.DuplicateNumbersReported | src/validator/questionValidators.js:36-43 | a repeated number is reported once the schema passes, whatever else is wrong |
| QuestionValidators.FirstOffenderReported | src/validator/questionValidators.js:45-57 | with distinct numbers, the first question in list order breaking its type rule is the one reported |
| QuestionValidators.TypeRuleErrorMessage | src/validator/questionValidators.js:45-57 | when a question is the first offender of a list with distinct numbers, the validator returns `SingleNeedsExactlyOneCorrect` of its number for a SINGLE whose correct count is not 1, and `MultiNeedsTwoCorrect` of its number for a MULTI with fewer than 2 |
| QuestionValidators.SizeRulesReported | src/validator/questionValidators.js:58-69 | for a well-typed list of distinct numbers: "not larger than exam" exactly when the size is at most `questionsInExam`; the mismatch error exactly when it is larger but differs from a given total |
| Pagination.OrDefault | src/utils/pagination.js:2-3 | definition: the value or a fallback: absent, NaN and 0 give the fallback |
| Pagination.BuildPagination | src/utils/pagination.js:1-5 | `take` lies in [1, 100]: 10 for a missing, zero or NaN limit, 1 for a negative one, 100 above 100, the limit otherwise; `current` is at least 1 and is 1 for a missing or non-positive page; `skip` is not negative and is 0 exactly on page 1 |
| Pagination.ConsecutivePagesAdjoin | src/utils/pagination.js:4 | page n + 1 starts where page n ends |
| Store.NumberOptions | src/controllers/adminController.js:78 | the stored options carry exactly the submitted `(text, isCorrect)` contents in order, under consecutive ids from the first free one |
| Store.ExamStore.CreateExamRow | src/controllers/adminController.js:34 | a new exam row under a fresh id; pools unchanged |
| Store.ExamStore.UpdateExamRow | src/controllers/adminController.js:47 | replaces the row exactly when the id exists; pools unchanged |
| Store.ExamStore.DeletePool | src/controllers/adminController.js:64-67 | removes the exam's questions and options; nothing else changes |
| Store.PoolKept | src/validator/questionValidators.js:36-57 | definition: what a stored pool keeps from the validator: every question of valid shape and meeting its type rule, and distinct numbers; kept by `Store.ExamStore.Valid` and preserved by `Store.PoolKeptAppend` |
| Store.PoolsKeptAppend | src/controllers/adminController.js:72-80 | appending a question under the next id, with its pool's rules kept, keeps ids in range and distinct and every pool's rules, with the counter advanced |
| Store.PoolKeptAppend | src/controllers/adminController.js:70-82 | appending a question of valid shape that meets its type rule, under a number not yet in the pool, keeps the pool's rules |
| Store.ExamStore.CreateQuestion | src/controllers/adminController.js:72-80 | appends one question with a fresh id and its numbered options to the exam's pool; stored ids stay distinct, and every stored pool keeps valid shapes, type rules and distinct numbers |
| AdminController.Status | src/middleware/errorHandler.js:2-6 | errors raised without a status (the failed update) give 500; only the unknown exam gives 404 |
| AdminController.BadId | src/controllers/adminController.js:41-42 | definition: `!id` for `id = Number(param)`: NaN and 0 are refused |
| AdminController.Writable | src/controllers/adminController.js:31 | definition: `totalQuestions > questionsInExam` |
| AdminController.CheckPool | src/controllers/adminController.js:60 | definition: the pool check run with the stored exam's `questionsInExam` and `totalQuestions` |
| AdminController.CreateExam | src/controllers/adminController.js:28-37 | a rejected payload or `totalQuestions <= questionsInExam` stores nothing; otherwise the validated payload is stored under a new id |
| AdminController.UpdateExam | src/controllers/adminController.js:39-50 | a zero or NaN id is refused before validation; then the payload rules of create; an unknown id fails; otherwise exactly that row is replaced |
| AdminController.SaveQuestions | src/controllers/adminController.js:52-86 | bad id, then unknown exam, then validation failure each leave the store unchanged; on success the exam's pool holds exactly the validated questions in order, other pools are unchanged, and its size equals `totalQuestions` and exceeds `questionsInExam` |
| AdminController.CreateQuestions | src/controllers/adminController.js:70-82 | creating the validated questions one by one into an empty pool leaves exactly their contents, in order, touching no other pool, and the store's pool rules still hold |
| AdminController.CreateNext | src/controllers/adminController.js:71-81 | one iteration: the next validated question joins the pool after those before it; other pools and the exams are unchanged |
| AdminController.NumberNotYetStored | src/validator/questionValidators.js:37-43 | in a list with distinct numbers, no question's number is among those of the questions before it |
| AdminController.SaveQuestionsTwice | src/controllers/adminController.js:62-85 | saving the same body twice succeeds the second time whenever the first did, with the same contents; a failed first save fails the same way again |
| UserController.UserSeed | src/controllers/userController.js:24 | definition: the seed text: e-mail, a bar, the exam id; `UserController.UserSeedInjective` shows one user's seeds for two exams differ |
| UserController.OptionSeed | src/controllers/userController.js:33 | definition: the seed text: the user seed, a bar, the question id; `UserController.OptionSeedInjective` shows two questions get different seeds |
| UserController.ServeOption | src/controllers/userController.js:33 | definition: an option projected to `{id, text}` |
| UserController.ServeQuestion | src/controllers/userController.js:27-34 | definition: id, number, text and type kept, options in their own seeded order projected; `UserController.ServedOptionsPermute` states its properties |
| UserController.ServedQuestions | src/controllers/userController.js:25-34 | definition: the seeded order of the pool, cut to `questionsInExam`, each question projected; `UserController.ServedCount`, `UserController.ServedFromPool` and `UserController.ServedIdsFromPool` state its properties |
| UserController.ServedExamFor | src/controllers/userController.js:36-43 | definition: the exam's id, name, counts and start with the served questions for the user's seed |
| UserController.Take | src/controllers/userController.js:26 | `slice(0, n)` keeps the first min(n, length) elements |
| UserController.ServedCount | src/controllers/userController.js:25-26 | a sitting has min(`questionsInExam`, pool size) questions |
| UserController.ServedFromPool | src/controllers/userController.js:25-34 | each served question is the projection of a pool question: id, number, text, type and options without `isCorrect` |
| UserController.ServedIdsArePrefix | src/controllers/userController.js:25-28 | the served ids are the first ids of the pool in its seeded order |
| UserController.ServedIdsFromPool | src/controllers/userController.js:25-26 | no question is served more often than it occurs in the pool; the whole pool is served when the exam asks for at least its size |
| UserController.ServedOnce | src/controllers/userController.js:25-26 | with distinct stored ids no question is served twice |
| UserController.ServedOptionsPermute | src/controllers/userController.js:33 | a served question keeps its id and type and offers exactly its stored options, each once, as `{id, text}` |
| UserController.OptionSeedInjective | src/controllers/userController.js:33 | two questions of a sitting get different option seeds |
| UserController.UserSeedInjective | src/controllers/userController.js:24 | one user's seeds for two exams differ |
| UserController.GetExamForUser | src/controllers/userController.js:12-43 | zero or NaN id gives 400, an unknown exam 404; otherwise the exam's fields and the served questions for `email|id` |
| UserController.QuestionMap | src/controllers/userController.js:64 | the map's keys are the pool's ids, and each maps to a pool question with that id |
| UserController.QuestionMapFinds | src/controllers/userController.js:64 | with distinct ids every pool question is found under its own id |
| UserController.CorrectIds | src/controllers/userController.js:72 | the correct option ids, one per correct option, and nothing else |
| UserController.Selection | src/controllers/userController.js:73 | definition: the selected ids, or none when the field is missing |
| UserController.CorrectSet | src/controllers/userController.js:72 | definition: the set of the ids of the correct options |
| UserController.AnswerIsCorrect | src/controllers/userController.js:72-88 | definition: the SINGLE and MULTI tests as written; `UserController.SingleCorrectIff`, `UserController.MultiCorrectIff` and `UserController.ValidatedCorrectIff` say what they mean |
| UserController.Scores | src/controllers/userController.js:69-88 | definition: the answer's id finds a question and the selection is right for it; `UserController.ScoresIff` restates it as set equality |
| UserController.ScoreText | src/controllers/userController.js:97 | definition: the score field `${scorePct} of 100` |
| UserController.SingleCorrectIff | src/controllers/userController.js:75-81 | SINGLE: right exactly when the de-duplicated selection is the single id of the first correct option |
| UserController.MultiCorrectIff | src/controllers/userController.js:82-88 | MULTI: right exactly when the selected set equals the correct set |
| UserController.ValidatedCorrectIff | src/controllers/userController.js:72-88 | for a question meeting its type rule, both rules are: the selected set equals the correct set |
| UserController.ScoresIff | src/controllers/userController.js:69-88 | an answer naming a validated question scores exactly when its selected set is that question's correct set |
| UserController.StoredAnswerScoresIff | src/controllers/userController.js:64-88 | in any pool the store holds, an answer whose id finds a question scores exactly when its selected set is that question's correct set |
| UserController.Correct | src/controllers/userController.js:66-89 | the counter is at most the number of answers |
| UserController.CorrectAppend | src/controllers/userController.js:66-89 | each answer is judged alone: the count over a concatenation is the sum of the counts |
| UserController.UnknownQuestionSkipped | src/controllers/userController.js:69-70 | an answer naming no pool question, wherever it stands, changes nothing |
| UserController.RepeatedAnswersCount | src/controllers/userController.js:66-89 | a right answer sent k times counts k times |
| UserController.ScorePercent | src/controllers/userController.js:93 | the score is the integer nearest to 100·correct/n, halves rounded up |
| UserController.ScoreBounds | src/controllers/userController.js:91-93 | with no more right answers than `questionsInExam`, the score lies in 0..100: 0 for none right, 100 for all right |
| UserController.ScoreMonotone | src/controllers/userController.js:93 | more right answers never lower the score |
| UserController.VerdictExtremes | src/controllers/userController.js:93-94 | all questions right passes; none right fails a positive pass mark |
| UserController.Evaluate | src/controllers/userController.js:64-100 | the reported right-question count is at most the number of answers |
| UserController.EvaluateVerdict | src/controllers/userController.js:91-100 | the response counts the right answers, reports the rounded score as "`n` of 100", and is PASS exactly when that score reaches the pass mark; without rounding, PASS exactly when 200·right + n is at least 2·n·mark |
| UserController.RoundedScoreReaches | src/controllers/userController.js:93-94 | the rounded score reaches a mark p exactly when 200·correct + n is at least 2·n·p |
| UserController.JudgeAnswer | src/controllers/userController.js:72-88 | the set building, the SINGLE test and the MULTI `allMatch` scan with its early exit decide exactly the answer rule |
| UserController.CountCorrect | src/controllers/userController.js:64-89 | the loop's counter, with its skips, equals the counting function |
| UserController.SubmitExam | src/controllers/userController.js:49-100 | zero or NaN id gives 400 and an unknown exam 404; a missing or empty answer list is refused before scoring; otherwise the evaluation of the answers against the exam's whole pool |
| Scenarios.SingleScenario | src/controllers/userController.js:75-81 | with O1 the correct option, {O1} is right; {O1, O2}, {} and {O2} are wrong |
| Scenarios.MultiRightScenario | src/controllers/userController.js:82-88 | the correct pair is right in any order and with repeats |
| Scenarios.MultiWrongScenario | src/controllers/userController.js:82-88 | one of the two correct options, or both plus a wrong one, is wrong |
| Scenarios.TwoQuestionMap | src/controllers/userController.js:64 | the lookup of a two-question pool |
| Scenarios.CorrectOfTwo | src/controllers/userController.js:66-89 | the count over two answers is the sum of their outcomes |
| Scenarios.PassScenario | src/controllers/userController.js:91-100 | two questions, pass mark 50, one right: 1 right, "50 of 100", PASS |
| Scenarios.FailScenario | src/controllers/userController.js:91-100 | the same exam with none right: 0 right, "0 of 100", FAIL |
| Scenarios.RepeatedAnswerScenario | src/controllers/userController.js:66-97 | a one-question exam answered rightly twice: 2 right, "200 of 100", PASS |
| Scenarios.ScoreTextScenario | src/controllers/userController.js:97 | the score field as text: "50 of 100", "200 of 100" |
| Scenarios.DuplicateNumberScenario | src/validator/questionValidators.js:36-43 | two questions both numbered 1 are refused as duplicates |
| Scenarios.PairParses | src/validator/questionValidators.js:15-39 | two valid questions numbered 1 and 2 pass the schema and the uniqueness check |
| Scenarios.TypeRuleScenario | src/validator/questionValidators.js:45-57 | of the two, the first breaking its type rule is reported |
| Scenarios.NoCorrectSingleScenario | src/validator/questionValidators.js:47-51 | a SINGLE question without a correct option is refused by its number |
| Scenarios.TwoCorrectSingleScenario | src/validator/questionValidators.js:47-51 | a SINGLE question with two correct options is refused by its number |
| Scenarios.OneCorrectMultiScenario | src/validator/questionValidators.js:52-56 | a MULTI question with one correct option is refused by its number |
| Scenarios.PoolTooSmallScenario | src/validator/questionValidators.js:59-63 | a valid pool of two is refused for an exam of two questions |
| Scenarios.PoolAcceptedScenario | src/validator/questionValidators.js:59-70 | the same pool is returned unchanged for an exam of one question with two declared |

## Where the code departs from its own comments

The model follows the code in both places below.

- **Repeated answers.** The comment at `src/controllers/userController.js:92`
  and the response text `${scorePct} of 100` (line 97) present the score as
  out of 100. The loop of lines 68-89 counts every answer that is right,
  including the same question answered several times, and nothing caps the
  score. `Scenarios.RepeatedAnswerScenario` shows "200 of 100".
  `UserController.ScoreBounds` proves 0..100 only when the count does not
  exceed `questionsInExam`.
- **Duplicate ids in the pool.** The question lookup is a `Map` built from the
  pool (line 64), so a later question with a repeated id replaces an earlier
  one. The store keeps ids distinct (`Store.ExamStore.Valid`), so
  `UserController.QuestionMapFinds` finds every stored question.

## Left out

- Persistence. Prisma and the database are an in-memory class `Store.ExamStore`.
  Ids come from counters. `ensureUser` is not modelled; it only creates a
  user row.
- Row order. The exam lookups with included questions and options
  (`findUnique` with `include`, and the `findMany` after a save) are assumed
  to return both included lists in creation order. The served order depends
  on it, since the shuffle is applied to the lists as they come back.
- `listExams`. Its filtering, sorting and counting are database queries.
  What it computes itself is `buildPagination`, which is modelled.
- Routing, HTTP wiring and header handling. The error handler appears only
  as the status mapping `AdminController.Status`. The e-mail header
  normalisation is library `trim` and `toLowerCase`, so the e-mail is an
  opaque, already normalised string.
- Concurrency. The two transactions of `saveQuestions` run in sequence here;
  that they are not atomic together is not modelled.
- Zod internals and error-detail flattening. The validators' errors are
  plain values without details.
- Date handling. ISO-8601 datetime checking and `new Date(...)` parsing are
  parameters (`isDatetime`, `instantOf`), and the clock is the parameter
  `now`.
- UserController.ServedExamFor: it returns the start date as the text that
  was submitted. The source returns the stored date, which `res.json` writes
  as ISO text with milliseconds.
- `Number(...)` coercions. Exam ids and answer question ids are integers,
  with None for NaN. A fractional id, which the database call would reject,
  is not modelled.
- UserController.Selection: selected option ids are integers. A non-numeric
  selection such as `["x"]` becomes NaN in the source's `Set` and counts
  toward its size; the model does not cover it. It behaves like an id that
  no option has.
- JsonValues.AsInt: JSON numbers are exact reals, without the double
  rounding of `JSON.parse`. A literal such as `1e400`, which parses to
  Infinity and is refused by `.int()`, is accepted here as 10^400. A
  literal such as `100.000000000000001`, which parses to exactly 100 and is
  accepted by the source, is refused here.
- Pagination.BuildPagination: `page` and `limit` are integers or absent. A
  fractional query value such as `limit=2.5` gives a fractional `take` and
  `skip` in the source; the model does not cover it.
- Crashing inputs. A non-array `selectedOptionIds`, and a `null` element of
  `answers`, make the source throw. Answers are modelled as records whose
  selection is a list or absent.
- SeedShuffle.SeededShuffle: a non-array argument is None. The copy is a fresh
  array, so aliasing between input and output is excluded by construction.
- SeedShuffle.Mulberry32: the captured `a` is an unbounded integer. In
  JavaScript it is a double, which stays exact for about 5·10^6 draws.
  `SeedShuffle.OutputDependsOnResidue` shows that only `a` mod 2^32 matters.
- SeedShuffle.PickIndex: `rand() * (i + 1)` is computed on exact reals. The
  rounding of the double division by 2^32 and of the product is not
  modelled. `SeedShuffle.PickIndexIsIntegerQuotient` gives the integer form.
- UserController.ScorePercent: `Math.round(correct / n * 100)` is
  round-half-up on the exact rational. Double rounding at exact halves is
  not modelled. It requires n > 0, which the store guarantees for every
  stored exam.
- UserController.ServedExamFor: the response is built as a function. The
  method `UserController.GetExamForUser` returns its value.
- How the shuffle's order depends on the seed beyond determinism (its
  spread or uniformity) is not stated. Equal seeds give equal orders, since
  the result is a function of the input sequence and the seed text.
- Scoring of a question that breaks its type rule follows the code: SINGLE
  compares with the first correct option, MULTI compares sets. No stored
  pool holds such a question: `Store.ExamStore.Valid` keeps every
  question's shape, type rule and distinct numbers, and
  `UserController.StoredAnswerScoresIff` gives set equality for every
  question a stored pool's lookup finds.
