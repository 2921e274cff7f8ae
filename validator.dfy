/**
 * validateQuestion: an ordered chain of checks on a question payload; the
 * first failing check decides the error, and a payload that passes them all
 * is accepted. Nothing is modified.
 */
module Validator {
  import opened JsValues
  import opened QuizModel

  datatype Rejection =
    | InvalidText
    | InvalidType
    | UnexpectedOptions
    | MissingOptions
    | InvalidOptionText
    | SingleChoiceCardinality
    | MultipleChoiceCardinality

  datatype Verdict = Accepted | Rejected(reason: Rejection)

  /** The ApiError the validator returns for each rejection: always a 400 with a message. */
  function ErrorOf(r: Rejection): (e: ApiError)
    ensures e.status == 400 && e.message != ""
  {
    match r
    case InvalidText => ApiError(400, "Question lenght must string of length 300")
    case InvalidType => ApiError(400, "Question type must be one of 'single', 'multiple', 'text'")
    case UnexpectedOptions => ApiError(400, "Text questions should not include options")
    case MissingOptions => ApiError(400, "Options must be an array with minimum length 1")
    case InvalidOptionText => ApiError(400, "Every option must include a text string")
    case SingleChoiceCardinality =>
      ApiError(400, "Single choice questions must have exactly 1 option where isCorrect=true")
    case MultipleChoiceCardinality =>
      ApiError(400, "Multiple choice questions must have at least 1 correct option")
  }

  /** A truthy string of at most 300 characters. */
  predicate IsQuestionText(v: JsValue)
  {
    v.Str? && v.s != "" && |v.s| <= 300
  }

  predicate IsKnownType(v: JsValue)
  {
    v == SINGLE || v == MULTIPLE || v == TEXT
  }

  /** A truthy string. */
  predicate IsOptionText(v: JsValue)
  {
    v.Str? && v.s != ""
  }

  /** The options field is present and has a positive length. */
  predicate CarriesOptions(f: OptionsField)
  {
    match f
    case Absent => false
    case NotArray(positiveLength) => positiveLength
    case Items(items) => |items| > 0
  }

  /** Marked correct in the strict sense: the boolean true, not merely a truthy value. */
  predicate MarkedCorrect(o: OptionPayload)
  {
    o.isCorrect == Bool(true)
  }

  /** How many options are marked correct in the strict sense. */
  function CorrectCount(opts: seq<OptionPayload>): (r: nat)
    ensures r <= |opts|
  {
    if opts == [] then 0 else (if MarkedCorrect(opts[0]) then 1 else 0) + CorrectCount(opts[1..])
  }

  /**
   * The verdict on a payload. An accepted payload has a valid text and a known
   * type, and unless it is a text question it carries a non-empty options array,
   * which is what the service needs to build the question.
   */
  function ValidateQuestion(p: QuestionPayload): (r: Verdict)
    ensures r.Accepted? ==> IsQuestionText(p.text) && IsKnownType(p.qtype)
    ensures r.Accepted? && p.qtype != TEXT ==> p.options.Items? && |p.options.items| >= 1
  {
    if !IsQuestionText(p.text) then Rejected(InvalidText)
    else if !IsKnownType(p.qtype) then Rejected(InvalidType)
    else if p.qtype == TEXT then
      (if CarriesOptions(p.options) then Rejected(UnexpectedOptions) else Accepted)
    else if !(p.options.Items? && |p.options.items| >= 1) then Rejected(MissingOptions)
    else if exists i :: 0 <= i < |p.options.items| && !IsOptionText(p.options.items[i].text) then
      Rejected(InvalidOptionText)
    else if p.qtype == SINGLE && CorrectCount(p.options.items) != 1 then Rejected(SingleChoiceCardinality)
    else if p.qtype == MULTIPLE && CorrectCount(p.options.items) < 1 then Rejected(MultipleChoiceCardinality)
    else Accepted
  }

  // ---- An independent, declarative statement of what is accepted ----

  predicate ExactlyOneMarked(opts: seq<OptionPayload>)
  {
    exists i :: 0 <= i < |opts| && MarkedCorrect(opts[i]) &&
      forall j :: 0 <= j < |opts| && j != i ==> !MarkedCorrect(opts[j])
  }

  predicate SomeMarked(opts: seq<OptionPayload>)
  {
    exists i :: 0 <= i < |opts| && MarkedCorrect(opts[i])
  }

  /** A well-formed choice payload: a non-empty array of options, each with a non-empty text. */
  predicate WellFormedChoices(f: OptionsField)
  {
    f.Items? && |f.items| >= 1 && forall i :: 0 <= i < |f.items| ==> IsOptionText(f.items[i].text)
  }

  /** The payloads the validator is meant to accept, one clause per question type. */
  predicate WellFormedPayload(p: QuestionPayload)
  {
    IsQuestionText(p.text) &&
    ((p.qtype == TEXT && !CarriesOptions(p.options)) ||
     (p.qtype == SINGLE && WellFormedChoices(p.options) && ExactlyOneMarked(p.options.items)) ||
     (p.qtype == MULTIPLE && WellFormedChoices(p.options) && SomeMarked(p.options.items)))
  }

  lemma {:induction false} CountZeroIffNoneMarked(opts: seq<OptionPayload>)
    ensures CorrectCount(opts) == 0 <==> !SomeMarked(opts)
  {
    if opts != [] {
      CountZeroIffNoneMarked(opts[1..]);
      if SomeMarked(opts[1..]) {
        var i :| 0 <= i < |opts[1..]| && MarkedCorrect(opts[1..][i]);
        assert MarkedCorrect(opts[i + 1]);
      }
      if SomeMarked(opts) && !MarkedCorrect(opts[0]) {
        var i :| 0 <= i < |opts| && MarkedCorrect(opts[i]);
        assert MarkedCorrect(opts[1..][i - 1]);
      }
    }
  }

  /** The counted rule "at least one" is the existential one. */
  lemma CountPositiveIffSomeMarked(opts: seq<OptionPayload>)
    ensures CorrectCount(opts) >= 1 <==> SomeMarked(opts)
  {
    CountZeroIffNoneMarked(opts);
  }

  /** The counted rule "exactly one" is the unique-existence one. */
  lemma {:induction false} CountOneIffExactlyOne(opts: seq<OptionPayload>)
    ensures CorrectCount(opts) == 1 <==> ExactlyOneMarked(opts)
  {
    if opts == [] {
      return;
    }
    var tail := opts[1..];
    CountOneIffExactlyOne(tail);
    CountZeroIffNoneMarked(tail);
    if MarkedCorrect(opts[0]) {
      if CorrectCount(opts) == 1 {
        forall j | 0 <= j < |opts| && j != 0
          ensures !MarkedCorrect(opts[j])
        {
          assert opts[j] == tail[j - 1];
        }
      }
      if ExactlyOneMarked(opts) {
        var i :| 0 <= i < |opts| && MarkedCorrect(opts[i]) &&
          forall j :: 0 <= j < |opts| && j != i ==> !MarkedCorrect(opts[j]);
        assert i == 0;
        forall k | 0 <= k < |tail|
          ensures !MarkedCorrect(tail[k])
        {
          assert tail[k] == opts[k + 1];
        }
      }
    } else {
      if CorrectCount(opts) == 1 {
        var i :| 0 <= i < |tail| && MarkedCorrect(tail[i]) &&
          forall j :: 0 <= j < |tail| && j != i ==> !MarkedCorrect(tail[j]);
        forall j | 0 <= j < |opts| && j != i + 1
          ensures !MarkedCorrect(opts[j])
        {
          if j > 0 {
            assert opts[j] == tail[j - 1];
          }
        }
        assert MarkedCorrect(opts[i + 1]);
      }
      if ExactlyOneMarked(opts) {
        var i :| 0 <= i < |opts| && MarkedCorrect(opts[i]) &&
          forall j :: 0 <= j < |opts| && j != i ==> !MarkedCorrect(opts[j]);
        assert i > 0;
        forall k | 0 <= k < |tail| && k != i - 1
          ensures !MarkedCorrect(tail[k])
        {
          assert tail[k] == opts[k + 1];
        }
        assert MarkedCorrect(tail[i - 1]);
      }
    }
  }

  /** The validator accepts exactly the well-formed payloads. */
  lemma ValidateAcceptsExactly(p: QuestionPayload)
    ensures ValidateQuestion(p) == Accepted <==> WellFormedPayload(p)
  {
    if !IsQuestionText(p.text) || !IsKnownType(p.qtype) || p.qtype == TEXT {
    } else if !WellFormedChoices(p.options) {
      assert ValidateQuestion(p) != Accepted;
    } else if p.qtype == SINGLE {
      CountOneIffExactlyOne(p.options.items);
    } else {
      CountPositiveIffSomeMarked(p.options.items);
    }
  }

  /** The text check runs first: a bad `text` decides the error whatever else the payload holds. */
  lemma TextCheckedFirst(p: QuestionPayload)
    ensures !IsQuestionText(p.text) <==> ValidateQuestion(p) == Rejected(InvalidText)
  {
  }

  /** With a valid text, an unknown `type` is the error, whatever the options. */
  lemma TypeCheckedSecond(p: QuestionPayload)
    requires IsQuestionText(p.text)
    ensures !IsKnownType(p.qtype) <==> ValidateQuestion(p) == Rejected(InvalidType)
  {
  }

  /** A text question is accepted iff it carries no options; no option check applies to it. */
  lemma TextQuestionAcceptance(p: QuestionPayload)
    requires IsQuestionText(p.text) && p.qtype == TEXT
    ensures ValidateQuestion(p) == (if CarriesOptions(p.options) then Rejected(UnexpectedOptions) else Accepted)
  {
  }

  /**
   * A choice question needs a non-empty options array, then a non-empty text on
   * every option, then the right number of options marked strictly `true`.
   */
  lemma ChoiceQuestionChecks(p: QuestionPayload)
    requires IsQuestionText(p.text) && (p.qtype == SINGLE || p.qtype == MULTIPLE)
    ensures !(p.options.Items? && |p.options.items| >= 1) ==> ValidateQuestion(p) == Rejected(MissingOptions)
    ensures p.options.Items? && |p.options.items| >= 1 && !WellFormedChoices(p.options) ==>
      ValidateQuestion(p) == Rejected(InvalidOptionText)
    ensures WellFormedChoices(p.options) && p.qtype == SINGLE ==>
      ValidateQuestion(p) == (if ExactlyOneMarked(p.options.items) then Accepted else Rejected(SingleChoiceCardinality))
    ensures WellFormedChoices(p.options) && p.qtype == MULTIPLE ==>
      ValidateQuestion(p) == (if SomeMarked(p.options.items) then Accepted else Rejected(MultipleChoiceCardinality))
  {
    if p.options.Items? {
      CountOneIffExactlyOne(p.options.items);
      CountPositiveIffSomeMarked(p.options.items);
    }
  }
}
