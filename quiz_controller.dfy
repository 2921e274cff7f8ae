/**
 * The request handlers. Each runs its guard checks in order inside a try
 * block; whatever is thrown, the catch block answers 500 "Server error", so
 * the status an ApiError carries never reaches the client. Besides the
 * response, each handler that can throw in the model returns the error its
 * catch block received (None when nothing was thrown), which is what tells the
 * guard paths apart; GetQuizzes cannot throw here and returns only the response.
 */
module QuizController {
  import opened Wrappers
  import opened JsValues
  import opened QuizModel
  import opened Validator
  import opened QuizServices
  import opened Evaluator

  /** An option as shown to quiz takers: id and text only. */
  datatype OptionView = OptionView(id: string, text: JsValue)

  /** A question as shown to quiz takers; `options` is absent for text questions. */
  datatype QuestionView = QuestionView(id: string, text: JsValue, qtype: JsValue, options: Option<seq<OptionView>>)

  datatype ResponseData =
    | NoData
    | CreatedId(id: string)
    | AddedQuestion(question: Question)
    | QuestionList(views: seq<QuestionView>)
    | QuizList(metas: seq<QuizMeta>)
    | Scored(score: nat, total: nat)

  /** The response envelope: status, message and data. */
  datatype Response = Response(status: int, message: string, data: ResponseData)

  /** The `answers` field of a submission body. */
  datatype AnswersField = AnswerList(answers: seq<Answer>) | NotAList

  /** What every catch block answers, whatever was thrown. */
  const ServerError := Response(500, "Server error", NoData)

  /** The title check: a truthy value whose type is string. */
  predicate IsTitle(title: JsValue)
    ensures IsTitle(title) <==> title.Str? && Truthy(title)
  {
    title.Str? && title.s != ""
  }

  /** A question as getQuestions shows it: same id, and options only for choice questions, one view per option. */
  function ViewOf(q: Question): (r: QuestionView)
    ensures r.id == q.id && (r.options.None? <==> q.qtype == TEXT)
    ensures r.options.Some? ==> |r.options.value| == |q.options|
  {
    QuestionView(q.id, q.text, q.qtype,
      if q.qtype != TEXT then Some(seq(|q.options|, i requires 0 <= i < |q.options| =>
        OptionView(q.options[i].id, q.options[i].text)))
      else None)
  }

  /** The getQuestions projection of a quiz's questions. */
  function QuestionViews(qs: seq<Question>): (r: seq<QuestionView>)
    ensures |r| == |qs|
  {
    seq(|qs|, i requires 0 <= i < |qs| => ViewOf(qs[i]))
  }

  method CreateQuiz(svc: QuizService, title: JsValue, rid: string) returns (resp: Response, caught: Option<ApiError>)
    requires svc.Valid()
    modifies svc
    ensures svc.Valid()
    ensures !IsTitle(title) ==>
      resp == ServerError && caught == Some(ApiError(400, "Title is required")) && svc.store == old(svc.store)
    ensures IsTitle(title) ==>
      resp == Response(201, "Quiz created quccessfully", CreatedId("quiz-" + rid)) && caught == None &&
      svc.store == old(svc.store)["quiz-" + rid := Quiz("quiz-" + rid, title.s, [])]
  {
    if !IsTitle(title) {
      return ServerError, Some(ApiError(400, "Title is required"));
    }
    var quiz := svc.CreateQuiz(title.s, rid);
    return Response(201, "Quiz created quccessfully", CreatedId(quiz.id)), None;
  }

  method AddQuestion(svc: QuizService, quizId: string, payload: QuestionPayload, rnd: nat -> string)
    returns (resp: Response, caught: Option<ApiError>)
    requires svc.Valid()
    modifies svc
    ensures svc.Valid()
    ensures quizId !in old(svc.store) ==>
      resp == ServerError && caught == Some(ApiError(404, "Quiz not found")) && svc.store == old(svc.store)
    ensures quizId in old(svc.store) && ValidateQuestion(payload).Rejected? ==>
      resp == ServerError && caught == Some(ErrorOf(ValidateQuestion(payload).reason)) && svc.store == old(svc.store)
    ensures quizId in old(svc.store) && ValidateQuestion(payload) == Accepted ==>
      var q := BuildQuestion(payload, rnd);
      var quiz := old(svc.store)[quizId];
      resp == Response(201, "Question added", AddedQuestion(q)) && caught == None &&
      svc.store == old(svc.store)[quizId := quiz.(questions := quiz.questions + [q])]
  {
    var quiz := svc.LoadQuiz(quizId);
    if quiz.None? {
      return ServerError, Some(ApiError(404, "Quiz not found"));
    }
    var validation := ValidateQuestion(payload);
    if validation.Rejected? {
      return ServerError, Some(ErrorOf(validation.reason));
    }
    var question := svc.AddQuestionToQuiz(quizId, payload, rnd);
    return Response(201, "Question added", AddedQuestion(question.value)), None;
  }

  method GetQuestions(svc: QuizService, quizId: string) returns (resp: Response, caught: Option<ApiError>)
    ensures quizId !in svc.store ==> resp == ServerError && caught == Some(ApiError(404, "Quiz not found"))
    ensures quizId in svc.store ==>
      resp == Response(200, "Question fetched successfully", QuestionList(QuestionViews(svc.store[quizId].questions))) &&
      caught == None
  {
    var quiz := svc.LoadQuiz(quizId);
    if quiz.None? {
      return ServerError, Some(ApiError(404, "Quiz not found"));
    }
    var questions := QuestionViews(quiz.value.questions);
    return Response(200, "Question fetched successfully", QuestionList(questions)), None;
  }

  method GetQuizzes(svc: QuizService, listing: seq<string>) returns (resp: Response)
    requires IsListing(svc.store, listing)
    ensures resp.status == 200 && resp.message == "Quiz Fetched successfully" && resp.data.QuizList?
    ensures |resp.data.metas| == |listing| == |svc.store|
    ensures forall i :: 0 <= i < |listing| ==>
      resp.data.metas[i] == QuizMeta(svc.store[listing[i]].id, svc.store[listing[i]].title)
  {
    var list := svc.ListQuizzesMetadata(listing);
    return Response(200, "Quiz Fetched successfully", QuizList(list));
  }

  method SubmitAnswers(svc: QuizService, quizId: string, body: AnswersField) returns (resp: Response, caught: Option<ApiError>)
    ensures body.NotAList? ==> resp == ServerError && caught == Some(ApiError(400, "Answers array required"))
    ensures body.AnswerList? && quizId !in svc.store ==>
      resp == ServerError && caught == Some(ApiError(404, "Quiz not found"))
    ensures body.AnswerList? && quizId in svc.store ==>
      var r := Evaluate(svc.store[quizId], body.answers);
      resp == Response(200, "Answer submitted successfully", Scored(r.score, r.total)) && caught == None
  {
    if body.NotAList? {
      return ServerError, Some(ApiError(400, "Answers array required"));
    }
    var quiz := svc.LoadQuiz(quizId);
    if quiz.None? {
      return ServerError, Some(ApiError(404, "Quiz not found"));
    }
    var result := EvaluateAnswers(quiz.value, body.answers);
    return Response(200, "Answer submitted successfully", Scored(result.score, result.total)), None;
  }

  // ---- The getQuestions projection ----

  /**
   * One view per stored question, in stored order, with id, text and type; a
   * choice question keeps its options in order as id and text; a text
   * question shows no options.
   */
  lemma QuestionViewsShape(qs: seq<Question>)
    ensures |QuestionViews(qs)| == |qs|
    ensures forall i :: 0 <= i < |qs| ==>
      var v, q := QuestionViews(qs)[i], qs[i];
      v.id == q.id && v.text == q.text && v.qtype == q.qtype &&
      (v.options.None? <==> q.qtype == TEXT) &&
      (v.options.Some? ==>
         |v.options.value| == |q.options| &&
         forall k :: 0 <= k < |q.options| ==> v.options.value[k] == OptionView(q.options[k].id, q.options[k].text))
  {
  }

  /** Equal up to which options are marked correct. */
  predicate SameButCorrectness(q1: Question, q2: Question)
  {
    q1.id == q2.id && q1.text == q2.text && q1.qtype == q2.qtype && |q1.options| == |q2.options| &&
    forall k :: 0 <= k < |q1.options| ==>
      q1.options[k].id == q2.options[k].id && q1.options[k].text == q2.options[k].text
  }

  /** The views reveal nothing about which options are correct. */
  lemma QuestionViewsHideCorrectness(qs1: seq<Question>, qs2: seq<Question>)
    requires |qs1| == |qs2|
    requires forall i :: 0 <= i < |qs1| ==> SameButCorrectness(qs1[i], qs2[i])
    ensures QuestionViews(qs1) == QuestionViews(qs2)
  {
    forall i | 0 <= i < |qs1|
      ensures ViewOf(qs1[i]) == ViewOf(qs2[i])
    {
      var q1, q2 := qs1[i], qs2[i];
      if q1.qtype != TEXT {
        assert ViewOf(q1).options.value == ViewOf(q2).options.value;
      }
    }
  }
}
