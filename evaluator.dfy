/**
 * evaluateAnswers: scores a list of submitted answers against a quiz
 * document. The method follows the code (a lookup map built first, then one
 * pass over the answers with early `continue`s); the functions below it state
 * what the score and the total are, with the multiple-choice rule stated as
 * multiset equality rather than as the sort-and-compare the code performs.
 */
module Evaluator {
  import opened Wrappers
  import opened JsValues
  import opened QuizModel
  import opened StringSort

  datatype Evaluation = Evaluation(score: nat, total: nat)

  /**
   * The lookup map built before scoring: keyed by question id, a later
   * question replacing an earlier one with the same id.
   */
  function QuestionIndex(qs: seq<Question>): (r: map<string, Question>)
    ensures forall i :: 0 <= i < |qs| ==> qs[i].id in r
    ensures forall id :: id in r ==> r[id].id == id
    decreases |qs|
  {
    if qs == [] then map[] else QuestionIndex(qs[..|qs| - 1])[qs[|qs| - 1].id := qs[|qs| - 1]]
  }

  /** The selected values; anything that is not an array counts as an empty selection. */
  function SelectedValues(f: SelectedField): (r: seq<JsValue>)
    ensures r == [] <==> f.NoSelection? || f.values == []
  {
    match f
    case Selection(values) => values
    case NoSelection => []
  }

  /** The string forms of a list of values. */
  function Canonical(vs: seq<JsValue>): (r: seq<string>)
    ensures |r| == |vs|
  {
    seq(|vs|, i requires 0 <= i < |vs| => ToJsString(vs[i]))
  }

  /** The first option marked correct, if any. */
  function FirstCorrect(opts: seq<AnswerOption>): (r: Option<AnswerOption>)
    ensures r.None? <==> forall i :: 0 <= i < |opts| ==> !opts[i].isCorrect
    ensures r.Some? ==> exists i :: 0 <= i < |opts| && opts[i] == r.value && r.value.isCorrect &&
                          forall j :: 0 <= j < i ==> !opts[j].isCorrect
  {
    if opts == [] then None
    else if opts[0].isCorrect then Some(opts[0])
    else
      var r := FirstCorrect(opts[1..]);
      assert r.Some? ==> exists i :: 1 <= i < |opts| && opts[i] == r.value && r.value.isCorrect &&
                           forall j :: 0 <= j < i ==> !opts[j].isCorrect by {
        if r.Some? {
          var i :| 0 <= i < |opts[1..]| && opts[1..][i] == r.value && r.value.isCorrect &&
                   forall j :: 0 <= j < i ==> !opts[1..][j].isCorrect;
          assert opts[i + 1] == r.value;
          forall j | 0 <= j < i + 1
            ensures !opts[j].isCorrect
          {
            if j > 0 {
              assert opts[j] == opts[1..][j - 1];
            }
          }
        }
      }
      r
  }

  /** The ids of the correct options, in option order (before sorting). */
  function CorrectIds(opts: seq<AnswerOption>): (r: seq<string>)
    ensures |r| <= |opts|
    ensures r == [] <==> forall i :: 0 <= i < |opts| ==> !opts[i].isCorrect
  {
    if opts == [] then [] else (if opts[0].isCorrect then [opts[0].id] else []) + CorrectIds(opts[1..])
  }

  /** Single choice: one point iff the selection is exactly the first correct option's id. */
  function SinglePoint(q: Question, selected: seq<JsValue>): (r: nat)
    ensures r <= 1
    ensures r == 1 ==> |selected| == 1 && exists i :: 0 <= i < |q.options| && q.options[i].isCorrect
  {
    match FirstCorrect(q.options)
    case None => 0
    case Some(c) => if |selected| == 1 && ToJsString(selected[0]) == c.id then 1 else 0
  }

  /** Multiple choice: one point iff the selected ids and the correct ids agree as multisets. */
  function MultiplePoint(q: Question, selected: seq<JsValue>): (r: nat)
    ensures r <= 1
    ensures r == 1 ==> |selected| == |CorrectIds(q.options)|
  {
    var chosen, correct := Canonical(selected), CorrectIds(q.options);
    if multiset(chosen) == multiset(correct) then
      assert |chosen| == |multiset(chosen)| == |multiset(correct)| == |correct|;
      1
    else 0
  }

  /** The points one answer earns: nothing for an unknown id, a text question or an unrecognised type. */
  function Points(index: map<string, Question>, a: Answer): (r: nat)
    ensures r <= 1
    ensures r == 1 ==> ToJsString(a.questionId) in index &&
                       index[ToJsString(a.questionId)].qtype in {SINGLE, MULTIPLE}
  {
    var qid := ToJsString(a.questionId);
    if qid !in index then 0
    else
      var q := index[qid];
      if q.qtype == TEXT then 0
      else if q.qtype == SINGLE then SinglePoint(q, SelectedValues(a.selected))
      else if q.qtype == MULTIPLE then MultiplePoint(q, SelectedValues(a.selected))
      else 0
  }

  /** The sum of the points of all answers, each scored on its own. */
  function Score(index: map<string, Question>, answers: seq<Answer>): (r: nat)
    ensures r <= |answers|
    decreases |answers|
  {
    if answers == [] then 0
    else Score(index, answers[..|answers| - 1]) + Points(index, answers[|answers| - 1])
  }

  /** The number of questions whose type is not "text". */
  function Total(qs: seq<Question>): (r: nat)
    ensures r <= |qs|
  {
    if qs == [] then 0 else (if qs[0].qtype != TEXT then 1 else 0) + Total(qs[1..])
  }

  /** The result of evaluateAnswers: at most one point per answer, out of at most one per question. */
  function Evaluate(quiz: Quiz, answers: seq<Answer>): (r: Evaluation)
    ensures r.score <= |answers| && r.total <= |quiz.questions|
  {
    Evaluation(Score(QuestionIndex(quiz.questions), answers), Total(quiz.questions))
  }

  method EvaluateAnswers(quiz: Quiz, answers: seq<Answer>) returns (result: Evaluation)
    ensures result == Evaluate(quiz, answers)
    ensures result.score <= |answers|
  {
    var score := 0;
    var questionMap: map<string, Question> := map[];
    for i := 0 to |quiz.questions|
      invariant questionMap == QuestionIndex(quiz.questions[..i])
    {
      var q := quiz.questions[i];
      assert quiz.questions[..i + 1][..i] == quiz.questions[..i];
      questionMap := questionMap[q.id := q];
    }
    assert quiz.questions[..|quiz.questions|] == quiz.questions;

    for i := 0 to |answers|
      invariant score == Score(questionMap, answers[..i])
    {
      var ans := answers[i];
      assert answers[..i + 1][..i] == answers[..i];
      var qid := ToJsString(ans.questionId);
      if qid !in questionMap {
        continue;
      }
      var q := questionMap[qid];
      if q.qtype == TEXT {
        continue;
      }
      var selected := if ans.selected.Selection? then ans.selected.values else [];
      if q.qtype == SINGLE {
        var correct := FirstCorrect(q.options);
        if correct.None? {
          continue;
        }
        if |selected| == 1 && ToJsString(selected[0]) == correct.value.id {
          score := score + 1;
        }
      } else if q.qtype == MULTIPLE {
        var correctIds := Sort(CorrectIds(q.options));
        var selectedIds := Sort(Canonical(selected));
        var same := |correctIds| == |selectedIds| &&
                    forall k :: 0 <= k < |correctIds| ==> correctIds[k] == selectedIds[k];
        assert same <==> correctIds == selectedIds;
        SortDecidesMultiset(CorrectIds(q.options), Canonical(selected));
        if same {
          score := score + 1;
        }
      }
    }
    assert answers[..|answers|] == answers;
    result := Evaluation(score, Total(quiz.questions));
  }

  // ---- Lookup ----

  /** A question id resolves iff some question has it, and then to the LAST question with it. */
  lemma {:induction false} QuestionIndexLookup(qs: seq<Question>, id: string)
    ensures id in QuestionIndex(qs) <==> exists i :: 0 <= i < |qs| && qs[i].id == id
    ensures id in QuestionIndex(qs) ==>
      exists i :: 0 <= i < |qs| && qs[i] == QuestionIndex(qs)[id] && qs[i].id == id &&
        forall j :: i < j < |qs| ==> qs[j].id != id
    decreases |qs|
  {
    if qs != [] {
      var init := qs[..|qs| - 1];
      QuestionIndexLookup(init, id);
      if qs[|qs| - 1].id != id {
        if exists i :: 0 <= i < |qs| && qs[i].id == id {
          var i :| 0 <= i < |qs| && qs[i].id == id;
          assert init[i].id == id;
        }
        if id in QuestionIndex(init) {
          var i :| 0 <= i < |init| && init[i] == QuestionIndex(init)[id] && init[i].id == id &&
                   forall j :: i < j < |init| ==> init[j].id != id;
          assert qs[i] == init[i];
        }
      }
    }
  }

  /** With distinct question ids every question is found under its own id. */
  lemma QuestionIndexOfDistinct(qs: seq<Question>, k: int)
    requires 0 <= k < |qs|
    requires forall i, j :: 0 <= i < j < |qs| ==> qs[i].id != qs[j].id
    ensures qs[k].id in QuestionIndex(qs) && QuestionIndex(qs)[qs[k].id] == qs[k]
  {
    QuestionIndexLookup(qs, qs[k].id);
  }

  // ---- Score ----

  /** Answers are scored independently: the score of a concatenation is the sum of the scores. */
  lemma {:induction false} ScoreAppend(index: map<string, Question>, a: seq<Answer>, b: seq<Answer>)
    ensures Score(index, a + b) == Score(index, a) + Score(index, b)
    decreases |b|
  {
    if b == [] {
      assert a + b == a;
    } else {
      var b' := b[..|b| - 1];
      assert (a + b)[..|a + b| - 1] == a + b';
      assert (a + b)[|a + b| - 1] == b[|b| - 1];
      ScoreAppend(index, a, b');
    }
  }

  /**
   * An answer whose id resolves to no question, to a text question or to a
   * question of an unrecognised type leaves the score unchanged wherever it stands.
   */
  lemma IgnoredAnswer(index: map<string, Question>, xs: seq<Answer>, a: Answer, ys: seq<Answer>)
    requires var qid := ToJsString(a.questionId);
             qid !in index || (index[qid].qtype != SINGLE && index[qid].qtype != MULTIPLE)
    ensures Score(index, xs + [a] + ys) == Score(index, xs + ys)
  {
    ScoreAppend(index, xs + [a], ys);
    ScoreAppend(index, xs, [a]);
    ScoreAppend(index, xs, ys);
    assert [a][..0] == [];
  }

  /** A `selected` that is not an array counts as an empty selection. */
  lemma NonArraySelectionIsEmpty(index: map<string, Question>, qid: JsValue)
    ensures Points(index, Answer(qid, NoSelection)) == Points(index, Answer(qid, Selection([])))
  {
  }

  /** Text questions and unrecognised types never score; only text questions are left out of the total. */
  lemma UngradedQuestions(index: map<string, Question>, a: Answer)
    requires ToJsString(a.questionId) in index
    requires var q := index[ToJsString(a.questionId)]; q.qtype != SINGLE && q.qtype != MULTIPLE
    ensures Points(index, a) == 0
    ensures Total([index[ToJsString(a.questionId)]]) == (if index[ToJsString(a.questionId)].qtype == TEXT then 0 else 1)
  {
  }

  // ---- Total ----

  lemma {:induction false} TotalAppend(a: seq<Question>, b: seq<Question>)
    ensures Total(a + b) == Total(a) + Total(b)
  {
    if a != [] {
      TotalAppend(a[1..], b);
      assert (a + b)[1..] == a[1..] + b;
    } else {
      assert a + b == b;
    }
  }

  // ---- Single choice ----

  predicate OnlyCorrect(opts: seq<AnswerOption>, k: int)
  {
    0 <= k < |opts| && opts[k].isCorrect && forall j :: 0 <= j < |opts| && j != k ==> !opts[j].isCorrect
  }

  /** Option k is correct and no option before it is: the one the code's `find` returns. */
  predicate FirstCorrectAt(opts: seq<AnswerOption>, k: int)
  {
    0 <= k < |opts| && opts[k].isCorrect && forall j :: 0 <= j < k ==> !opts[j].isCorrect
  }

  /**
   * A single-choice answer scores iff it selects exactly the id of the FIRST
   * correct option; later options marked correct are never accepted.
   */
  lemma SingleChoiceRule(index: map<string, Question>, a: Answer, k: int)
    requires ToJsString(a.questionId) in index
    requires var q := index[ToJsString(a.questionId)]; q.qtype == SINGLE && FirstCorrectAt(q.options, k)
    ensures Points(index, a) == 1 <==>
      Canonical(SelectedValues(a.selected)) == [index[ToJsString(a.questionId)].options[k].id]
  {
    var q := index[ToJsString(a.questionId)];
    var c := FirstCorrect(q.options);
    var i :| 0 <= i < |q.options| && q.options[i] == c.value && c.value.isCorrect &&
             forall j :: 0 <= j < i ==> !q.options[j].isCorrect;
    assert i == k;
    var sel := SelectedValues(a.selected);
    if |sel| == 1 {
      assert Canonical(sel) == [ToJsString(sel[0])];
    }
  }

  /** A single-choice question with no correct option never scores. */
  lemma SingleChoiceWithoutCorrectOption(index: map<string, Question>, a: Answer)
    requires ToJsString(a.questionId) in index
    requires var q := index[ToJsString(a.questionId)];
             q.qtype == SINGLE && forall j :: 0 <= j < |q.options| ==> !q.options[j].isCorrect
    ensures Points(index, a) == 0
  {
  }

  // ---- Multiple choice ----

  lemma CanonicalConcat(a: seq<JsValue>, b: seq<JsValue>)
    ensures Canonical(a + b) == Canonical(a) + Canonical(b)
  {
    var l, r := Canonical(a + b), Canonical(a) + Canonical(b);
    forall i | 0 <= i < |l|
      ensures l[i] == r[i]
    {
      if i < |a| {
        assert (a + b)[i] == a[i];
      } else {
        assert (a + b)[i] == b[i - |a|];
      }
    }
  }

  /** Taking string forms maps permutations to permutations. */
  lemma {:induction false} CanonicalPermutes(s: seq<JsValue>, t: seq<JsValue>)
    requires multiset(s) == multiset(t)
    ensures multiset(Canonical(s)) == multiset(Canonical(t))
    decreases |s|
  {
    if s == [] {
      assert |multiset(t)| == 0;
    } else {
      assert s[0] in multiset(t);
      var k :| 0 <= k < |t| && t[k] == s[0];
      var t' := t[..k] + t[k + 1..];
      assert t == t[..k] + [t[k]] + t[k + 1..];
      assert s == [s[0]] + s[1..];
      assert multiset(t') == multiset(t) - multiset{s[0]};
      assert multiset(s[1..]) == multiset(s) - multiset{s[0]};
      CanonicalPermutes(s[1..], t');
      CanonicalConcat([s[0]], s[1..]);
      CanonicalConcat(t[..k] + [t[k]], t[k + 1..]);
      CanonicalConcat(t[..k], [t[k]]);
      CanonicalConcat(t[..k], t[k + 1..]);
    }
  }

  /** The order of the selection does not matter for a multiple-choice question. */
  lemma MultipleChoiceOrderInsensitive(index: map<string, Question>, a: Answer, b: Answer)
    requires a.questionId == b.questionId
    requires multiset(SelectedValues(a.selected)) == multiset(SelectedValues(b.selected))
    ensures Points(index, a) == Points(index, b)
  {
    var sa, sb := SelectedValues(a.selected), SelectedValues(b.selected);
    var qid := ToJsString(a.questionId);
    if qid in index && index[qid].qtype == SINGLE {
      SingletonPermutation(sa, sb);
      assert SinglePoint(index[qid], sa) == SinglePoint(index[qid], sb);
    } else if qid in index && index[qid].qtype == MULTIPLE {
      CanonicalPermutes(sa, sb);
      assert MultiplePoint(index[qid], sa) == MultiplePoint(index[qid], sb);
    }
  }

  /** A permutation has the same length, and a one-element permutation is the same sequence. */
  lemma SingletonPermutation(sa: seq<JsValue>, sb: seq<JsValue>)
    requires multiset(sa) == multiset(sb)
    ensures |sa| == |sb|
    ensures |sa| == 1 ==> sa == sb
  {
    assert |sa| == |multiset(sa)| == |multiset(sb)| == |sb|;
    if |sa| == 1 {
      assert sa[0] in multiset(sb);
    }
  }

  /** Proper subsets and proper supersets of the correct ids score nothing. */
  lemma MultipleChoiceNoPartialCredit(index: map<string, Question>, a: Answer)
    requires ToJsString(a.questionId) in index
    requires var q := index[ToJsString(a.questionId)]; q.qtype == MULTIPLE
    requires var q := index[ToJsString(a.questionId)];
             var sel := multiset(Canonical(SelectedValues(a.selected)));
             sel < multiset(CorrectIds(q.options)) || multiset(CorrectIds(q.options)) < sel
    ensures Points(index, a) == 0
  {
  }

  predicate DistinctIds(opts: seq<AnswerOption>)
  {
    forall i, j :: 0 <= i < j < |opts| ==> opts[i].id != opts[j].id
  }

  lemma {:induction false} CorrectIdsMembers(opts: seq<AnswerOption>, x: string)
    ensures x in CorrectIds(opts) ==> exists k :: 0 <= k < |opts| && opts[k].id == x && opts[k].isCorrect
  {
    if opts != [] && x in CorrectIds(opts) && !(opts[0].isCorrect && opts[0].id == x) {
      CorrectIdsMembers(opts[1..], x);
      var k :| 0 <= k < |opts[1..]| && opts[1..][k].id == x && opts[1..][k].isCorrect;
      assert opts[k + 1] == opts[1..][k];
    }
  }

  /** With distinct option ids, each correct id occurs at most once among the correct ids. */
  lemma {:induction false} CorrectIdsOnce(opts: seq<AnswerOption>, x: string)
    requires DistinctIds(opts)
    ensures multiset(CorrectIds(opts))[x] <= 1
  {
    if opts != [] {
      assert DistinctIds(opts[1..]);
      CorrectIdsOnce(opts[1..], x);
      if opts[0].isCorrect && opts[0].id == x {
        forall k | 0 <= k < |opts[1..]|
          ensures opts[1..][k].id != x
        {
          assert opts[1..][k] == opts[k + 1];
        }
        CorrectIdsMembers(opts[1..], x);
      }
    }
  }

  lemma RepeatCountsTwice(s: seq<string>, i: int, j: int)
    requires 0 <= i < j < |s| && s[i] == s[j]
    ensures multiset(s)[s[i]] >= 2
  {
    assert s == s[..i] + [s[i]] + s[i + 1..j] + [s[j]] + s[j + 1..];
  }

  /** Repeating an id in the selection is not collapsed: it makes the answer wrong. */
  lemma MultipleChoiceDuplicateSelection(index: map<string, Question>, a: Answer, i: int, j: int)
    requires ToJsString(a.questionId) in index
    requires var q := index[ToJsString(a.questionId)]; q.qtype == MULTIPLE && DistinctIds(q.options)
    requires var sel := SelectedValues(a.selected);
             0 <= i < j < |sel| && ToJsString(sel[i]) == ToJsString(sel[j])
    ensures Points(index, a) == 0
  {
    var q := index[ToJsString(a.questionId)];
    var c := Canonical(SelectedValues(a.selected));
    RepeatCountsTwice(c, i, j);
    CorrectIdsOnce(q.options, c[i]);
  }

  // ---- Score against total ----

  function IdOf(a: Answer): string
  {
    ToJsString(a.questionId)
  }

  predicate DistinctAnswerIds(answers: seq<Answer>)
  {
    forall i, j :: 0 <= i < j < |answers| ==> IdOf(answers[i]) != IdOf(answers[j])
  }

  /** The question ids of the answers that earned a point. */
  function ScoringIds(index: map<string, Question>, answers: seq<Answer>): set<string>
    decreases |answers|
  {
    if answers == [] then {}
    else
      var last := answers[|answers| - 1];
      ScoringIds(index, answers[..|answers| - 1]) + (if Points(index, last) == 1 then {IdOf(last)} else {})
  }

  /** The ids under which a graded (non-text) question is found. */
  function GradedKeys(index: map<string, Question>): set<string>
  {
    set k | k in index && index[k].qtype != TEXT
  }

  lemma {:induction false} ScoringIdsAreAnswered(index: map<string, Question>, answers: seq<Answer>, x: string)
    requires x in ScoringIds(index, answers)
    ensures exists i :: 0 <= i < |answers| && IdOf(answers[i]) == x
    decreases |answers|
  {
    var init, last := answers[..|answers| - 1], answers[|answers| - 1];
    if x != IdOf(last) || Points(index, last) != 1 {
      ScoringIdsAreAnswered(index, init, x);
      var i :| 0 <= i < |init| && IdOf(init[i]) == x;
      assert answers[i] == init[i];
    }
  }

  lemma {:induction false} ScoringIdsAreGraded(index: map<string, Question>, answers: seq<Answer>)
    ensures ScoringIds(index, answers) <= GradedKeys(index)
    decreases |answers|
  {
    if answers != [] {
      ScoringIdsAreGraded(index, answers[..|answers| - 1]);
    }
  }

  lemma {:induction false} ScoreCountsScoringIds(index: map<string, Question>, answers: seq<Answer>)
    requires DistinctAnswerIds(answers)
    ensures Score(index, answers) == |ScoringIds(index, answers)|
    decreases |answers|
  {
    if answers != [] {
      var init := answers[..|answers| - 1];
      var last := answers[|answers| - 1];
      assert DistinctAnswerIds(init);
      ScoreCountsScoringIds(index, init);
      if IdOf(last) in ScoringIds(index, init) {
        ScoringIdsAreAnswered(index, init, IdOf(last));
        assert false;
      }
    }
  }

  lemma {:induction false} GradedKeysWithinTotal(qs: seq<Question>)
    ensures |GradedKeys(QuestionIndex(qs))| <= Total(qs)
    decreases |qs|
  {
    if qs != [] {
      var init, q := qs[..|qs| - 1], qs[|qs| - 1];
      GradedKeysWithinTotal(init);
      assert qs == init + [q];
      TotalAppend(init, [q]);
      var added: set<string> := if q.qtype != TEXT then {q.id} else {};
      assert GradedKeys(QuestionIndex(qs)) <= GradedKeys(QuestionIndex(init)) + added;
      SubsetCardinality(GradedKeys(QuestionIndex(qs)), GradedKeys(QuestionIndex(init)) + added);
    }
  }

  lemma SubsetCardinality(a: set<string>, b: set<string>)
    requires a <= b
    ensures |a| <= |b|
  {
    assert b == a + (b - a);
  }

  /**
   * When no question id is answered twice, the score does not exceed the total.
   * (Repeated ids can push it past the total: RepeatedCorrectAnswerScoresTwice.)
   */
  lemma ScoreWithinTotal(quiz: Quiz, answers: seq<Answer>)
    requires DistinctAnswerIds(answers)
    ensures Evaluate(quiz, answers).score <= Evaluate(quiz, answers).total
  {
    var index := QuestionIndex(quiz.questions);
    ScoreCountsScoringIds(index, answers);
    ScoringIdsAreGraded(index, answers);
    SubsetCardinality(ScoringIds(index, answers), GradedKeys(index));
    GradedKeysWithinTotal(quiz.questions);
  }

  /** The same correct answer submitted twice scores twice, past the total. */
  lemma RepeatedCorrectAnswerScoresTwice()
    ensures var q := Question("q1", Str("2+2=?"), SINGLE, [AnswerOption("opt-a", Str("4"), true)]);
            var a := Answer(Str("q1"), Selection([Str("opt-a")]));
            Evaluate(Quiz("quiz-1", "Sums", [q]), [a, a]) == Evaluation(2, 1)
  {
    var q := Question("q1", Str("2+2=?"), SINGLE, [AnswerOption("opt-a", Str("4"), true)]);
    var a := Answer(Str("q1"), Selection([Str("opt-a")]));
    var index := QuestionIndex([q]);
    assert [q][..0] == [] && [q][1..] == [];
    assert QuestionIndex([]) == map[];
    assert index == map["q1" := q];
    assert Points(index, a) == 1;
    assert [a, a][..1] == [a];
    assert [a][..0] == [];
    assert Score(index, []) == 0;
    assert Score(index, [a]) == 1;
    assert Total([q]) == 1;
  }
}
