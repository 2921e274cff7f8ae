/**
 * The quiz service: create, load, save and list quiz documents, and add a
 * question to a quiz. The directory of JSON files becomes a map from quiz id
 * to document held by a QuizService object; generateRandomId becomes a
 * parameter giving its successive results.
 */
module QuizServices {
  import opened Wrappers
  import opened JsValues
  import opened QuizModel
  import Validator
  import Evaluator

  /** One stored option per payload option, in order; the k-th takes the (k+1)-th random id. */
  function BuildOptions(items: seq<OptionPayload>, rnd: nat -> string): (r: seq<AnswerOption>)
    ensures |r| == |items|
  {
    seq(|items|, i requires 0 <= i < |items| =>
      AnswerOption("opt-" + rnd(i + 1), items[i].text, Truthy(items[i].isCorrect)))
  }

  /**
   * The question addQuestionToQuiz stores: the first random id, the payload's
   * text and type, and options for every type other than "text".
   */
  function BuildQuestion(p: QuestionPayload, rnd: nat -> string): (r: Question)
    requires p.qtype != TEXT ==> p.options.Items?
    ensures r.text == p.text && r.qtype == p.qtype
    ensures |r.options| == if p.qtype == TEXT then 0 else |p.options.items|
  {
    Question(rnd(0), p.text, p.qtype, if p.qtype != TEXT then BuildOptions(p.options.items, rnd) else [])
  }

  /** A directory listing: every stored quiz exactly once, in some order. */
  predicate IsListing(store: map<string, Quiz>, listing: seq<string>)
  {
    (forall i :: 0 <= i < |listing| ==> listing[i] in store) &&
    (forall k :: k in store ==> k in listing) &&
    (forall i, j :: 0 <= i < j < |listing| ==> listing[i] != listing[j])
  }

  class QuizService {
    /** The quiz files, by quiz id. */
    var store: map<string, Quiz>

    /** Each file holds the quiz whose id names it. */
    ghost predicate Valid()
      reads this
    {
      forall k :: k in store ==> store[k].id == k
    }

    constructor ()
      ensures Valid() && store == map[]
    {
      store := map[];
    }

    method CreateQuiz(title: string, rid: string) returns (quiz: Quiz)
      requires Valid()
      modifies this
      ensures Valid()
      ensures quiz.id == "quiz-" + rid && quiz.title == title && quiz.questions == []
      ensures store == old(store)[quiz.id := quiz]
    {
      quiz := Quiz("quiz-" + rid, title, []);
      store := store[quiz.id := quiz];
    }

    /** The stored quiz, or None (the code's `null`) when there is none under that id. */
    method LoadQuiz(quizId: string) returns (quiz: Option<Quiz>)
      ensures quiz.Some? <==> quizId in store
      ensures quiz.Some? ==> quiz.value == store[quizId]
    {
      if quizId !in store {
        return None;
      }
      quiz := Some(store[quizId]);
    }

    method SaveQuiz(quiz: Quiz)
      requires Valid()
      modifies this
      ensures Valid()
      ensures store == old(store)[quiz.id := quiz]
    {
      store := store[quiz.id := quiz];
    }

    /** `{id, title}` of every stored quiz, in directory order; question bodies are never included. */
    method ListQuizzesMetadata(listing: seq<string>) returns (list: seq<QuizMeta>)
      requires IsListing(store, listing)
      ensures |list| == |listing| == |store|
      ensures forall i :: 0 <= i < |list| ==>
        listing[i] in store && list[i] == QuizMeta(store[listing[i]].id, store[listing[i]].title)
      ensures Valid() ==> forall k :: k in store ==> exists i :: 0 <= i < |list| && list[i] == QuizMeta(k, store[k].title)
    {
      var files := store;
      list := seq(|listing|, i requires 0 <= i < |listing| && listing[i] in files =>
        QuizMeta(files[listing[i]].id, files[listing[i]].title));
      ListingLength(store, listing);
    }

    /**
     * Appends the built question to the quiz and writes the quiz back; None,
     * with nothing written, when the quiz does not exist.
     */
    method AddQuestionToQuiz(quizId: string, payload: QuestionPayload, rnd: nat -> string)
      returns (question: Option<Question>)
      requires Valid()
      requires quizId in store && payload.qtype != TEXT ==> payload.options.Items?
      modifies this
      ensures Valid()
      ensures quizId !in old(store) ==> question.None? && store == old(store)
      ensures quizId in old(store) ==>
        question == Some(BuildQuestion(payload, rnd)) &&
        store == old(store)[quizId := old(store)[quizId].(questions := old(store)[quizId].questions + [question.value])]
    {
      var loaded := LoadQuiz(quizId);
      if loaded.None? {
        return None;
      }
      var quiz := loaded.value;
      var q := BuildQuestion(payload, rnd);
      quiz := quiz.(questions := quiz.questions + [q]);
      SaveQuiz(quiz);
      question := Some(q);
    }
  }

  /** A listing has one entry per stored quiz. */
  lemma {:induction false} ListingLength(store: map<string, Quiz>, listing: seq<string>)
    requires IsListing(store, listing)
    ensures |listing| == |store|
    decreases |listing|
  {
    if listing == [] {
      assert store == map[];
    } else {
      var last := listing[|listing| - 1];
      var init := listing[..|listing| - 1];
      var rest := store - {last};
      forall k | k in rest
        ensures k in init
      {
        assert k in listing;
        var i :| 0 <= i < |listing| && listing[i] == k;
        assert i != |listing| - 1;
        assert init[i] == k;
      }
      forall i | 0 <= i < |init|
        ensures init[i] in rest
      {
        assert init[i] == listing[i];
      }
      ListingLength(rest, init);
      assert store.Keys == rest.Keys + {last};
    }
  }

  // ---- The constructed question ----

  /**
   * The built question copies text and type; a choice question has one option
   * per payload option, in order, with the same text, the truthiness of
   * `isCorrect` and an "opt-" id; a text question has none.
   */
  lemma BuiltQuestionShape(p: QuestionPayload, rnd: nat -> string)
    requires p.qtype != TEXT ==> p.options.Items?
    ensures var q := BuildQuestion(p, rnd);
      q.id == rnd(0) && q.text == p.text && q.qtype == p.qtype &&
      (p.qtype == TEXT ==> q.options == []) &&
      (p.qtype != TEXT ==>
        |q.options| == |p.options.items| &&
        forall k :: 0 <= k < |q.options| ==>
          q.options[k].text == p.options.items[k].text &&
          q.options[k].isCorrect == Truthy(p.options.items[k].isCorrect) &&
          q.options[k].id[..4] == "opt-" && q.options[k].id[4..] == rnd(k + 1))
  {
  }

  /** Distinct random ids give the options distinct ids. */
  lemma BuiltOptionIdsDistinct(p: QuestionPayload, rnd: nat -> string)
    requires p.qtype != TEXT ==> p.options.Items?
    requires forall i, j :: 1 <= i < j ==> rnd(i) != rnd(j)
    ensures Evaluator.DistinctIds(BuildQuestion(p, rnd).options)
  {
    var opts := BuildQuestion(p, rnd).options;
    forall i, j | 0 <= i < j < |opts|
      ensures opts[i].id != opts[j].id
    {
      assert opts[i].id[4..] == rnd(i + 1);
      assert opts[j].id[4..] == rnd(j + 1);
    }
  }

  predicate BooleanFlags(items: seq<OptionPayload>)
  {
    forall k :: 0 <= k < |items| ==> items[k].isCorrect.Bool?
  }

  /**
   * When every `isCorrect` is a boolean, an accepted single-choice payload is
   * stored with exactly one correct option and an accepted multiple-choice one
   * with at least one.
   */
  lemma AcceptedPayloadKeepsCardinality(p: QuestionPayload, rnd: nat -> string)
    requires Validator.ValidateQuestion(p) == Validator.Accepted
    requires p.options.Items? ==> BooleanFlags(p.options.items)
    ensures p.qtype != TEXT ==> p.options.Items?
    ensures p.qtype == SINGLE ==> exists k :: Evaluator.OnlyCorrect(BuildQuestion(p, rnd).options, k)
    ensures p.qtype == MULTIPLE ==>
      exists k :: 0 <= k < |BuildQuestion(p, rnd).options| && BuildQuestion(p, rnd).options[k].isCorrect
  {
    Validator.ValidateAcceptsExactly(p);
    if p.qtype == SINGLE {
      var items := p.options.items;
      var opts := BuildQuestion(p, rnd).options;
      var k :| 0 <= k < |items| && Validator.MarkedCorrect(items[k]) &&
               forall j :: 0 <= j < |items| && j != k ==> !Validator.MarkedCorrect(items[j]);
      forall j | 0 <= j < |opts| && j != k
        ensures !opts[j].isCorrect
      {
        assert !Validator.MarkedCorrect(items[j]);
      }
      assert Evaluator.OnlyCorrect(opts, k);
    } else if p.qtype == MULTIPLE {
      var items := p.options.items;
      var k :| 0 <= k < |items| && Validator.MarkedCorrect(items[k]);
      assert BuildQuestion(p, rnd).options[k].isCorrect;
    }
  }

  /**
   * Without boolean flags the guarantee fails: the validator counts only
   * `isCorrect === true`, the service keeps every truthy flag, so an accepted
   * single-choice payload can be stored with two correct options.
   */
  lemma TruthyFlagsSlipThrough()
    ensures var p := QuestionPayload(Str("2+2=?"), SINGLE,
                       Items([OptionPayload(Str("4"), Bool(true)), OptionPayload(Str("5"), Str("yes"))]));
            var q := BuildQuestion(p, (i: nat) => "r");
            Validator.ValidateQuestion(p) == Validator.Accepted &&
            q.options[0].isCorrect && q.options[1].isCorrect
  {
    var items := [OptionPayload(Str("4"), Bool(true)), OptionPayload(Str("5"), Str("yes"))];
    assert items[1..][1..] == [];
    assert Validator.CorrectCount(items) == 1;
  }

  // ---- Adding a question and scoring ----

  /** Adding a question raises the total by one unless it is a text question. */
  lemma AddedQuestionTotal(quiz: Quiz, q: Question)
    ensures Evaluator.Total(quiz.questions + [q]) ==
      Evaluator.Total(quiz.questions) + (if q.qtype == TEXT then 0 else 1)
  {
    Evaluator.TotalAppend(quiz.questions, [q]);
    assert [q][1..] == [];
  }

  /**
   * A single-choice question added from an accepted payload with boolean flags
   * and fresh random ids: submitting one of its options alone scores 1 exactly
   * when that option is the correct one.
   */
  lemma AddedSingleChoiceScoring(quiz: Quiz, p: QuestionPayload, rnd: nat -> string, k: int)
    requires Validator.ValidateQuestion(p) == Validator.Accepted && p.qtype == SINGLE
    requires p.options.Items? ==> BooleanFlags(p.options.items)
    requires forall i, j :: 1 <= i < j ==> rnd(i) != rnd(j)
    requires p.options.Items? && 0 <= k < |p.options.items|
    ensures var q := BuildQuestion(p, rnd);
            var a := Answer(Str(q.id), Selection([Str(q.options[k].id)]));
            Evaluator.Points(Evaluator.QuestionIndex(quiz.questions + [q]), a) == (if q.options[k].isCorrect then 1 else 0)
  {
    var q := BuildQuestion(p, rnd);
    var qs := quiz.questions + [q];
    assert qs[..|qs| - 1] == quiz.questions;
    var index := Evaluator.QuestionIndex(qs);
    assert index[q.id] == q;
    AcceptedPayloadKeepsCardinality(p, rnd);
    BuiltOptionIdsDistinct(p, rnd);
    var c :| Evaluator.OnlyCorrect(q.options, c);
    var a := Answer(Str(q.id), Selection([Str(q.options[k].id)]));
    Evaluator.SingleChoiceRule(index, a, c);
    assert Evaluator.Canonical([Str(q.options[k].id)]) == [q.options[k].id];
  }
}
