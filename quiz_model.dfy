/**
 * The quiz documents, the payloads that create questions, and the answers
 * submitted for scoring. A stored document is a Quiz; its questions and their
 * options are values owned by it.
 */
module QuizModel {
  import opened JsValues

  /** An option as stored: a generated "opt-" id, its text, and whether it is correct. */
  datatype AnswerOption = AnswerOption(id: string, text: JsValue, isCorrect: bool)

  /**
   * A stored question. `text` and `qtype` are copied unchecked from the payload.
   * A text question stores no options; here that is the empty sequence.
   */
  datatype Question = Question(id: string, text: JsValue, qtype: JsValue, options: seq<AnswerOption>)

  /** A quiz document, the unit of persistence. */
  datatype Quiz = Quiz(id: string, title: string, questions: seq<Question>)

  /** The `{id, title}` pair that lists a quiz. */
  datatype QuizMeta = QuizMeta(id: string, title: string)

  const TEXT := Str("text")
  const SINGLE := Str("single")
  const MULTIPLE := Str("multiple")

  /** One element of a payload's `options` array: its `text` and `isCorrect` fields (Undefined when absent). */
  datatype OptionPayload = OptionPayload(text: JsValue, isCorrect: JsValue)

  /**
   * The `options` field of a payload: absent, present but not an array (for such
   * a value `positiveLength` is whether `options.length > 0` holds, as for a
   * non-empty string), or an array.
   */
  datatype OptionsField = Absent | NotArray(positiveLength: bool) | Items(items: seq<OptionPayload>)

  /** The body of an add-question request. */
  datatype QuestionPayload = QuestionPayload(text: JsValue, qtype: JsValue, options: OptionsField)

  /** The `selected` field of a submitted answer: an array of id-like values, or anything else. */
  datatype SelectedField = Selection(values: seq<JsValue>) | NoSelection

  /** One submitted answer. */
  datatype Answer = Answer(questionId: JsValue, selected: SelectedField)

  /** An error as thrown or returned by the code: an HTTP status and a message. */
  datatype ApiError = ApiError(status: int, message: string)
}
