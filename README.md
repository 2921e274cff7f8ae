# Quiz backend: scoring, validation and quiz documents in Dafny

This project models the domain logic of a small quiz REST backend:

- the answer evaluator, which scores submitted answers against a stored quiz;
- the question validator, which accepts or rejects an add-question payload;
- the quiz service, which creates, loads, saves and lists quiz documents and appends questions to them;
- the request handlers, which run guard checks and shape the response.

Quizzes hold single-choice, multiple-choice and free-text questions. The directory of JSON quiz files is a `map<string, Quiz>` held by a `QuizService` object and keyed by quiz id.

Modules, one per concern:

- `JsValues` (js_values.dfy): the loosely typed values found in request bodies. It also models the two coercions the code applies to them, `String(x)` as `ToJsString` and `Boolean(x)` as `Truthy`.
- `QuizModel` (quiz_model.dfy): quizzes, questions, options, payloads, answers and `ApiError` records.
- `StringSort` (string_sort.dfy): a lexicographic order on strings standing for the default order of `Array.prototype.sort`, and an insertion sort under it. It proves that "sort both lists and compare position by position" holds exactly when the two lists are equal as multisets.
- `Validator` (validator.dfy): `validateQuestion` as a function returning `Accepted` or `Rejected(reason)`. `ErrorOf` gives the `ApiError(400, message)` for each reason. `WellFormedPayload` is an independent, per-type statement of what is accepted.
- `Evaluator` (evaluator.dfy): `evaluateAnswers` as a method with the code's two loops: building the lookup map, then scoring the answers. The method is proved equal to the specification function `Evaluate`, which states the multiple-choice rule as multiset equality.
- `QuizServices` (quiz_services.dfy): class `QuizService` with the store and the service operations. `BuildQuestion` is the question that `addQuestionToQuiz` constructs.
- `QuizController` (quiz_controller.dfy): the five handlers as methods over a `QuizService`.
  - Each handler that can throw in the model also returns the error its `catch` received. `GetQuizzes` cannot throw here and returns only the response.
  - Every failure answers 500 "Server error", whatever status the thrown `ApiError` carried. The 400 and 404 statuses in the code never reach the client.
- `Wrappers` (wrappers.dfy): `Option`, standing for the code's `null` results.

Random ids are parameters:

- `createQuiz` takes the one random string it uses (`rid`).
- `addQuestionToQuiz` takes `rnd: nat -> string`, the successive results of `generateRandomId`. `rnd(0)` is the question id and `rnd(k + 1)` belongs to the k-th option.

The order in which the directory lists its files is the `listing` parameter of `ListQuizzesMetadata`.

## Model

| member | source | states |
|---|---|---|
| `Evaluator.EvaluateAnswers` | src/services/quizServices.js:82-128 | The method returns exactly the specification `Evaluate`: the sum of each answer's points, and the count of non-text questions as total. It also returns a score of at most one point per answer. Its multiple-choice branch sorts and compares, and is proved to agree with multiset equality. |
| `Evaluator.QuestionIndex` | src/services/quizServices.js:84 | Defines the lookup map built before scoring, where a later question with the same id replaces an earlier one. Its contract states that every question's id is a key and every entry is keyed by its own question's id. `QuestionIndexLookup` states which question an id resolves to. |
| `Evaluator.QuestionIndexLookup` | src/services/quizServices.js:84-88 | An answer's id resolves iff some question has that id. It then resolves to the last question with that id (later map entries overwrite earlier ones). |
| `Evaluator.QuestionIndexOfDistinct` | src/services/quizServices.js:84 | When question ids are distinct, every question is found under its own id. |
| `Evaluator.SelectedValues` | src/services/quizServices.js:97 | Defines the selection used for scoring: the array itself, or `[]` when `selected` is not an array. Its contract states that it is empty iff `selected` is absent or an empty array. `NonArraySelectionIsEmpty` builds on it. |
| `Evaluator.FirstCorrect` | src/services/quizServices.js:100 | The result is None iff no option is correct. Otherwise it is a correct option with no correct option before it. |
| `Evaluator.SinglePoint` | src/services/quizServices.js:99-107 | Defines the single-choice point. Its contract states at most one point, and a point only for a one-element selection on a question with a correct option. `SingleChoiceRule` and `SingleChoiceWithoutCorrectOption` state the rule. |
| `Evaluator.CorrectIds` | src/services/quizServices.js:109-111 | Defines the correct option ids in option order. Its contract states that there are at most as many as options, and none iff no option is correct. `CorrectIdsMembers` and `CorrectIdsOnce` state which ids occur. |
| `Evaluator.MultiplePoint` | src/services/quizServices.js:108-122 | Defines the multiple-choice point as multiset equality of selected and correct ids. Its contract states at most one point, and a point only when the selection has exactly as many entries as there are correct ids. `MultipleChoiceOrderInsensitive`, `MultipleChoiceNoPartialCredit` and `MultipleChoiceDuplicateSelection` state the rule. `SortDecidesMultiset` ties it to the code's sort-and-compare. |
| `Evaluator.Canonical` | src/services/quizServices.js:114 | The selected ids in string form, one per selected value. |
| `Evaluator.ScoreAppend` | src/services/quizServices.js:86-124 | Answers are scored independently: the score of a concatenation is the sum of the two scores. |
| `Evaluator.Points` | src/services/quizServices.js:87-122 | Defines the points of one answer: the single- or multiple-choice rule of the question its id resolves to, and 0 for an unknown id, a text question or an unrecognised type. Its contract states that an answer earns at most one point, and only from a single- or multiple-choice question. `SingleChoiceRule`, `MultipleChoiceOrderInsensitive` and `IgnoredAnswer` state the rules. |
| `Evaluator.Score` | src/services/quizServices.js:83-124 | Defines the score as the sum of the answers' points. Its contract states 0 ≤ score ≤ number of answers. `ScoreAppend` and `ScoreWithinTotal` state how it adds up. |
| `Evaluator.Total` | src/services/quizServices.js:126 | Defines the total as the number of questions whose type is not "text". Its contract states that the total never exceeds the number of questions. `TotalAppend` states that it is additive. |
| `Evaluator.Evaluate` | src/services/quizServices.js:82-128 | Defines the `{score, total}` pair that `EvaluateAnswers` is proved to return. Its contract states that the score is at most the number of answers and the total at most the number of questions. |
| `Evaluator.IgnoredAnswer` | src/services/quizServices.js:87-95 | An answer with an unknown question id, a text question or an unrecognised type leaves the score unchanged, wherever it stands in the list. |
| `Evaluator.NonArraySelectionIsEmpty` | src/services/quizServices.js:97 | A `selected` that is not an array is scored as the empty selection. |
| `Evaluator.UngradedQuestions` | src/services/quizServices.js:93-95 | Text questions and unrecognised types earn nothing. Of the two, only text questions are left out of the total. |
| `Evaluator.TotalAppend` | src/services/quizServices.js:126 | The total is additive over the question list, and depends on the questions only, never on the answers. |
| `Evaluator.SingleChoiceRule` | src/services/quizServices.js:99-107 | For a single-choice question, an answer scores iff its selection, in string form, is exactly `[id of the first correct option]`. This holds also when several options are marked correct, and a later correct option then never scores. |
| `Evaluator.SingleChoiceWithoutCorrectOption` | src/services/quizServices.js:100-103 | A single-choice question without a correct option never scores. |
| `Evaluator.CanonicalPermutes` | src/services/quizServices.js:114 | Taking string forms maps a permutation to a permutation. |
| `Evaluator.MultipleChoiceOrderInsensitive` | src/services/quizServices.js:108-122 | Two selections that are permutations of each other score the same. |
| `Evaluator.MultipleChoiceNoPartialCredit` | src/services/quizServices.js:116-122 | A selection that is a proper sub-multiset or super-multiset of the correct ids scores 0. |
| `Evaluator.CorrectIdsOnce` | src/services/quizServices.js:109-111 | When option ids are distinct, no correct id occurs twice among the correct ids. |
| `Evaluator.MultipleChoiceDuplicateSelection` | src/services/quizServices.js:114-118 | When option ids are distinct, selecting the same id twice is not collapsed and scores 0. |
| `Evaluator.ScoreCountsScoringIds` | src/services/quizServices.js:86-124 | When no question id is answered twice, the score is the number of distinct ids that scored. |
| `Evaluator.ScoreWithinTotal` | src/services/quizServices.js:83-127 | When no question id is answered twice, score ≤ total. |
| `Evaluator.RepeatedCorrectAnswerScoresTwice` | src/services/quizServices.js:86-124 | The same correct answer submitted twice to a one-question quiz gives score 2 and total 1. |
| `StringSort.Sort` | src/services/quizServices.js:112-114 | Defines the sort of an id list as an insertion sort under `Below`. Its contract states that the length is kept. `SortCorrect` states that the result is a sorted permutation. |
| `StringSort.SortCorrect` | src/services/quizServices.js:112-114 | The sort returns a sorted permutation of its input. |
| `StringSort.SortedUnique` | src/services/quizServices.js:109-118 | Two sorted lists with equal multisets are identical. |
| `StringSort.SortDecidesMultiset` | src/services/quizServices.js:109-118 | Sorted lists compare equal iff the unsorted lists are equal as multisets. Order does not matter and duplicates count. |
| `JsValues.DecimalString` | src/services/quizServices.js:87 | The decimal form of a natural number is non-empty and made of digits. It is `String(n)` only below 10^21; see "Left out". |
| `JsValues.ToJsString` | src/services/quizServices.js:87-114 | Defines `String(v)` as applied to answer ids and selected values. Its contract states that only the empty string has an empty string form, and that a number's form starts with a digit or '-'. `OnlyStringsMatchPrefixedIds` builds on this. |
| `JsValues.Truthy` | src/services/quizServices.js:72 | Defines `Boolean(v)`. Its contract states that exactly five modelled values are falsy: "", 0, false, null and undefined. `TruthyAgreesWithStrictTrueOnBooleans` compares it with the strict `=== true` test. |
| `JsValues.OnlyStringsMatchPrefixedIds` | src/services/quizServices.js:105 | Only a string value has an "opt-" string form, so no number, boolean, null or undefined can name a generated option id. |
| `JsValues.TruthyAgreesWithStrictTrueOnBooleans` | src/services/quizServices.js:72 | On booleans, truthiness and the strict `=== true` test agree. A truthy string is not strictly true. |
| `Validator.ValidateQuestion` | src/validator/validateQuestion.js:3-48 | Defines the ordered chain of checks, where the first failure decides the reason. Its contract states that an accepted payload has a valid text and a known type, and that an accepted choice payload carries a non-empty options array. `ValidateAcceptsExactly` states exactly what is accepted. `TextCheckedFirst`, `TypeCheckedSecond` and `ChoiceQuestionChecks` state the order. |
| `Validator.ErrorOf` | src/validator/validateQuestion.js:5-45 | Defines the error the validator returns for each reason, with the code's messages verbatim. Its contract states that every one carries status 400 and a non-empty message. |
| `Validator.ValidateAcceptsExactly` | src/validator/validateQuestion.js:3-48 | The validator accepts a payload iff it is well formed by the per-type reference definition. |
| `Validator.TextCheckedFirst` | src/validator/validateQuestion.js:4-7 | A missing, empty, non-string or over-300 `text` is rejected with the text error whatever else the payload holds, and only such a text gets that error. |
| `Validator.TypeCheckedSecond` | src/validator/validateQuestion.js:9-14 | With a valid text, the type error occurs iff the type is not one of single, multiple, text. |
| `Validator.TextQuestionAcceptance` | src/validator/validateQuestion.js:16-21 | A text question with a valid text is accepted iff its options are absent or have no positive length. No option check applies to it. |
| `Validator.ChoiceQuestionChecks` | src/validator/validateQuestion.js:23-45 | For a choice question, the checks apply in order: a non-empty options array, then non-empty option texts, then exactly one strict-true option for single or at least one for multiple. |
| `Validator.CorrectCount` | src/validator/validateQuestion.js:33 | Defines the number of options whose `isCorrect` is strictly `true`. Its contract states that it is at most the number of options. `CountZeroIffNoneMarked`, `CountPositiveIffSomeMarked` and `CountOneIffExactlyOne` state what it counts. |
| `Validator.CountOneIffExactlyOne` | src/validator/validateQuestion.js:33-39 | The count of strict-true options is 1 iff exactly one option is strictly true. |
| `Validator.CountPositiveIffSomeMarked` | src/validator/validateQuestion.js:33-45 | The count of strict-true options is at least 1 iff some option is strictly true. |
| `Validator.CountZeroIffNoneMarked` | src/validator/validateQuestion.js:33 | The count is 0 iff no option is strictly true, so truthy non-booleans do not count. |
| `QuizServices.QuizService.CreateQuiz` | src/services/quizServices.js:17-25 | Stores and returns a quiz with id "quiz-" + the random id, the given title and no questions. Nothing else in the store changes. |
| `QuizServices.QuizService.LoadQuiz` | src/services/quizServices.js:27-37 | Returns None iff no quiz is stored under the id, and otherwise the stored quiz. Together with SaveQuiz's contract, a saved quiz loads back unchanged. |
| `QuizServices.QuizService.SaveQuiz` | src/services/quizServices.js:39-42 | Overwrites the document stored under the quiz's own id and nothing else. |
| `QuizServices.QuizService.ListQuizzesMetadata` | src/services/quizServices.js:44-54 | One `{id, title}` entry per stored quiz, in directory order. Every stored quiz appears. No question data is included. |
| `QuizServices.ListingLength` | src/services/quizServices.js:45 | A directory listing has exactly one entry per stored quiz. |
| `QuizServices.QuizService.AddQuestionToQuiz` | src/services/quizServices.js:56-80 | For an absent quiz it returns None and changes nothing. Otherwise it appends exactly the built question at the end, keeps id, title and earlier questions, and writes the quiz back. |
| `QuizServices.BuildOptions` | src/services/quizServices.js:68-74 | Defines the stored options of a choice question. Its contract states one stored option per payload option. `BuiltQuestionShape` and `BuiltOptionIdsDistinct` state their ids, texts and flags. |
| `QuizServices.BuildQuestion` | src/services/quizServices.js:60-75 | Defines the question `addQuestionToQuiz` stores. Its contract states that text and type are copied, and that there are no options for a text question and one per payload option otherwise. `BuiltQuestionShape` gives the full shape. |
| `QuizServices.BuiltQuestionShape` | src/services/quizServices.js:60-75 | The built question copies text and type. A choice question has one option per payload option, in order, with the same text, isCorrect = Boolean(isCorrect) and an id "opt-" + a random id. A text question has none. |
| `QuizServices.BuiltOptionIdsDistinct` | src/services/quizServices.js:68-74 | Distinct random ids give the built options distinct ids. |
| `QuizServices.AcceptedPayloadKeepsCardinality` | src/validator/validateQuestion.js:33-45 | When every isCorrect is a boolean, an accepted single payload is stored with exactly one correct option and an accepted multiple payload with at least one. |
| `QuizServices.TruthyFlagsSlipThrough` | src/services/quizServices.js:72 | Without boolean flags that fails: an accepted single payload with isCorrect true and "yes" is stored with two correct options. |
| `QuizServices.AddedQuestionTotal` | src/services/quizServices.js:77 | Appending a question raises the total by one unless it is a text question. |
| `QuizServices.AddedSingleChoiceScoring` | src/services/quizServices.js:56-107 | A single-choice question added from an accepted payload with boolean flags and fresh ids: one of its options submitted alone scores 1 iff it is the correct option. |
| `QuizController.IsTitle` | src/controller/quiz.controller.js:9 | Defines the title guard. Its contract states that a title passes iff it is a string and truthy. `QuizController.CreateQuiz` uses it as its 400 guard. |
| `QuizController.CreateQuiz` | src/controller/quiz.controller.js:6-18 | A missing, empty or non-string title gets 500 with the store untouched; the caught error is the 400 one. Otherwise the quiz is created and the response is 201 with only the new quiz id. |
| `QuizController.AddQuestion` | src/controller/quiz.controller.js:20-41 | Existence is checked first: an unknown quiz gives 500, with the 404 error caught, even for an invalid payload. Then an invalid payload gives 500, with the validator's 400 error caught, and the store unchanged. Otherwise the question is appended and returned with 201. |
| `QuizController.GetQuestions` | src/controller/quiz.controller.js:43-65 | An unknown quiz gives 500, with the 404 error caught. Otherwise 200 with the question views of the stored quiz. |
| `QuizController.GetQuizzes` | src/controller/quiz.controller.js:67-75 | 200 with one `{id, title}` per stored quiz. |
| `QuizController.SubmitAnswers` | src/controller/quiz.controller.js:77-100 | A non-array `answers` gives 500 before the quiz is looked up. An unknown quiz gives 500 with the 404 error caught. Otherwise, for answer entries the model can express (objects, not `null`), 200 with the evaluated score and total. |
| `QuizController.ViewOf` | src/controller/quiz.controller.js:51-57 | Defines the view of one question. Its contract states that the view keeps the question id, has an options field iff the question is not a text question, and then has one view per option. |
| `QuizController.QuestionViews` | src/controller/quiz.controller.js:51-58 | Defines the getQuestions projection. Its contract states one view per question. `QuestionViewsShape` and `QuestionViewsHideCorrectness` state what the views contain and hide. |
| `QuizController.QuestionViewsShape` | src/controller/quiz.controller.js:51-58 | One view per stored question, in order, with id, text and type. Choice questions keep their options in order as id and text. Text questions have no options field. |
| `QuizController.QuestionViewsHideCorrectness` | src/controller/quiz.controller.js:51-55 | Two quizzes that differ only in which options are correct have identical views, so isCorrect never leaks. |

An accepted single-choice question is guaranteed to be stored with exactly one correct option when every `isCorrect` is a boolean. A truthy non-boolean flag such as "yes" can add a second one (`TruthyFlagsSlipThrough`). The validator counts strict `true` values (src/validator/validateQuestion.js:33). The service stores the truthiness of the flag (src/services/quizServices.js:72). `AcceptedPayloadKeepsCardinality` and `TruthyFlagsSlipThrough` state both sides of this. The evaluator then scores such a question against its first correct option, as `SingleChoiceRule` states.

Three behaviours of the code are easy to miss:

- Multiple-choice matching compares multisets, not sets: a duplicated selection scores 0.
- The same question answered twice scores twice, so the score can exceed the total.
- Every error response carries status 500, not 400 or 404.

## Left out

- File-system I/O and JSON serialisation. The store is a map, and a saved quiz loads back unchanged by construction.
- The bootstrap of the quiz directory has no counterpart.
- File-system errors are not modelled, and neither are quiz files that do not parse as JSON or that hold `null`. These are the ways `getQuizzes` can reach its catch block: `JSON.parse` throws (src/services/quizServices.js:47), or `data.id` throws on `null` (src/services/quizServices.js:50). The model's `GetQuizzes` always answers 200.
- Records in files whose content id differs from the file name: the store invariant `Valid()` keeps key and id equal.
- `generateRandomId`, which is not part of this model: its results are parameters. Uniqueness is assumed only where a lemma says so. `CreateQuiz` overwrites a quiz with the same id, as rewriting the file would.
- `ApiError` and `ApiResponse`, which are not part of this model: errors are plain `(status, message)` records and responses are `(status, message, data)` records. `ApiError` is taken to extend `Error`, so the `instanceof Error` test in the addQuestion handler (src/controller/quiz.controller.js:31) holds exactly for the validator's rejections. `QuizController.AddQuestion`'s "invalid payload gives 500, store unchanged" rests on that.
- `console.error` output. The caught error is returned as a value instead.
- The Express server and routes: they are wiring with no logic.
- The read-modify-write race between concurrent `addQuestionToQuiz` calls: the model is sequential.
- JavaScript crash paths:
  - `options: null` on a text question;
  - a `null` entry in `options` of a single or multiple payload;
  - a payload that reaches `addQuestionToQuiz` unvalidated with a non-array `options`. `QuizService.AddQuestionToQuiz` requires an options array for non-text types when the quiz exists, which the controller's validation guarantees.
  - a stored single or multiple question without an `options` field;
  - a `null` (or `undefined`) entry in the `answers` array: `ans.questionId` throws (src/services/quizServices.js:87) and submitAnswers answers 500. `Answer` always has fields, so this input cannot be expressed, and `QuizController.SubmitAnswers` promises 200 for every expressible list.
- Stored questions always carry an options sequence, empty for text questions. In the JSON document the field is omitted; no operation reads it for text questions.
- `ToJsString`, `DecimalString`: numbers are unbounded integers written in full decimal. JavaScript writes magnitudes from 10^21 up in exponential form (`String(1e21)` is "1e+21"), and `JSON.parse` rounds integers beyond 2^53 to the nearest double. Neither is modelled, so the string form of such a number differs from JavaScript's.
- Fractional numbers and NaN are not modelled. Objects and arrays inside `selected` or as ids are not modelled either, so their string forms are absent.
- `text.length` is the sequence length, not a count of UTF-16 code units.
- Characters are compared by Dafny's character order rather than by UTF-16 code units. This affects only the order the sort produces, not whether two sorted lists are equal. `SortDecidesMultiset` is proved for `Below`, and its proof uses only that `Below` is a total order (`BelowTotal`, `BelowAntisymmetric`, `BelowTransitive`), so the same argument applies to code-unit order.
- Quiz files not written by the service, such as a non-boolean `isCorrect` or a missing `options`, are not modelled: a stored `isCorrect` is a boolean. On such files the code's strict `=== true` test (src/services/quizServices.js:100) and its truthiness test (src/services/quizServices.js:110) differ, so for example an option stored with `isCorrect: "yes"` is never the single-choice answer yet is a required id for multiple choice.
- The spec test file with hand-written fake services exercises none of the code modelled here.
