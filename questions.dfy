/**
  The question record of the quiz studio (`McqQuestion`) and the pure, per-question
  transforms behind the question-set editor: each editor handler replaces the
  whole question list by a `map` or `filter` of the previous one.
 */
module Questions {

  datatype Difficulty = Easy | Medium | Hard

  /** One multiple-choice question. The correct answer is bound to an option by its
      text, not by its position. */
  datatype Question = Question(
    id: int,
    question: string,
    options: seq<string>,
    correctAnswer: string,
    explanation: string,
    difficulty: Difficulty)

  /** The fields the editor form lets a user overwrite with a new value. */
  datatype FieldEdit =
    | QuestionText(text: string)
    | Explanation(text: string)
    | Level(level: Difficulty)

  /** A question is well formed when its correct answer is one of its options. */
  predicate WellFormed(q: Question) {
    q.correctAnswer in q.options
  }

  predicate AllWellFormed(qs: seq<Question>) {
    forall k :: 0 <= k < |qs| ==> WellFormed(qs[k])
  }

  predicate HasId(qs: seq<Question>, id: int) {
    exists k :: 0 <= k < |qs| && qs[k].id == id
  }

  // ---------------------------------------------------------------------------
  // The shared shape: rewrite every question carrying `id`, keep the others
  // ---------------------------------------------------------------------------

  function MapMatching(qs: seq<Question>, id: int, f: Question --> Question): (r: seq<Question>)
    requires forall k :: 0 <= k < |qs| && qs[k].id == id ==> f.requires(qs[k])
    ensures |r| == |qs|
    ensures forall k :: 0 <= k < |qs| ==> r[k] == if qs[k].id == id then f(qs[k]) else qs[k]
  {
    if qs == [] then []
    else [if qs[0].id == id then f(qs[0]) else qs[0]] + MapMatching(qs[1..], id, f)
  }

  // ---------------------------------------------------------------------------
  // handleUpdateQuestion
  // ---------------------------------------------------------------------------

  /** Overwrites the one field named by `e`; every other field keeps its value. */
  function ApplyEdit(q: Question, e: FieldEdit): (r: Question)
    ensures r.id == q.id && r.options == q.options && r.correctAnswer == q.correctAnswer
    ensures r.question == (if e.QuestionText? then e.text else q.question)
    ensures r.explanation == (if e.Explanation? then e.text else q.explanation)
    ensures r.difficulty == (if e.Level? then e.level else q.difficulty)
  {
    match e
    case QuestionText(t) => q.(question := t)
    case Explanation(t) => q.(explanation := t)
    case Level(d) => q.(difficulty := d)
  }

  function UpdateQuestion(qs: seq<Question>, id: int, e: FieldEdit): (r: seq<Question>)
    ensures |r| == |qs|
    ensures forall k :: 0 <= k < |qs| && qs[k].id != id ==> r[k] == qs[k]
    ensures forall k :: 0 <= k < |qs| && qs[k].id == id ==> r[k] == ApplyEdit(qs[k], e)
    ensures !HasId(qs, id) ==> r == qs
    ensures AllWellFormed(qs) ==> AllWellFormed(r)
  {
    MapMatching(qs, id, (q: Question) => ApplyEdit(q, e))
  }

  // ---------------------------------------------------------------------------
  // handleUpdateOption: the correct answer follows the edited option's text
  // ---------------------------------------------------------------------------

  function ReplaceOption(q: Question, i: nat, v: string): (r: Question)
    requires i < |q.options|
    ensures r.options == q.options[i := v]
    ensures q.options[i] == q.correctAnswer ==> r.correctAnswer == v
    ensures q.options[i] != q.correctAnswer ==> r.correctAnswer == q.correctAnswer
    ensures r.id == q.id && r.question == q.question
    ensures r.explanation == q.explanation && r.difficulty == q.difficulty
  {
    var correct := if q.correctAnswer == q.options[i] then v else q.correctAnswer;
    q.(options := q.options[i := v], correctAnswer := correct)
  }

  /** Option edits keep the correct answer pointing at an option. */
  lemma ReplaceOptionKeepsWellFormed(q: Question, i: nat, v: string)
    requires i < |q.options| && WellFormed(q)
    ensures WellFormed(ReplaceOption(q, i, v))
  {
    var r := ReplaceOption(q, i, v);
    if q.options[i] == q.correctAnswer {
      assert r.options[i] == r.correctAnswer;
    } else {
      var j :| 0 <= j < |q.options| && q.options[j] == q.correctAnswer;
      assert r.options[j] == r.correctAnswer;
    }
  }

  function UpdateOption(qs: seq<Question>, id: int, i: nat, v: string): (r: seq<Question>)
    requires forall k :: 0 <= k < |qs| && qs[k].id == id ==> i < |qs[k].options|
    ensures |r| == |qs|
    ensures forall k :: 0 <= k < |qs| && qs[k].id != id ==> r[k] == qs[k]
    ensures forall k :: 0 <= k < |qs| && qs[k].id == id ==> r[k] == ReplaceOption(qs[k], i, v)
    ensures !HasId(qs, id) ==> r == qs
  {
    MapMatching(qs, id, (q: Question) requires i < |q.options| => ReplaceOption(q, i, v))
  }

  lemma UpdateOptionKeepsWellFormed(qs: seq<Question>, id: int, i: nat, v: string)
    requires forall k :: 0 <= k < |qs| && qs[k].id == id ==> i < |qs[k].options|
    requires AllWellFormed(qs)
    ensures AllWellFormed(UpdateOption(qs, id, i, v))
  {
    var r := UpdateOption(qs, id, i, v);
    forall k | 0 <= k < |r| ensures WellFormed(r[k]) {
      if qs[k].id == id {
        ReplaceOptionKeepsWellFormed(qs[k], i, v);
      }
    }
  }

  // ---------------------------------------------------------------------------
  // handleSetCorrectAnswer: unchecked assignment
  // ---------------------------------------------------------------------------

  function SetCorrectAnswer(qs: seq<Question>, id: int, v: string): (r: seq<Question>)
    ensures |r| == |qs|
    ensures forall k :: 0 <= k < |qs| && qs[k].id != id ==> r[k] == qs[k]
    ensures forall k :: 0 <= k < |qs| && qs[k].id == id ==> r[k] == qs[k].(correctAnswer := v)
    ensures !HasId(qs, id) ==> r == qs
  {
    MapMatching(qs, id, (q: Question) => q.(correctAnswer := v))
  }

  /** Since the value is not checked, a well-formed set stays well formed exactly when
      the value is an option of every question it is assigned to. */
  lemma SetCorrectAnswerWellFormed(qs: seq<Question>, id: int, v: string)
    requires AllWellFormed(qs)
    ensures AllWellFormed(SetCorrectAnswer(qs, id, v)) <==>
            (forall k :: 0 <= k < |qs| && qs[k].id == id ==> v in qs[k].options)
  {
    var r := SetCorrectAnswer(qs, id, v);
    if AllWellFormed(r) {
      forall k | 0 <= k < |qs| && qs[k].id == id ensures v in qs[k].options {
        assert WellFormed(r[k]);
      }
    }
  }

  // ---------------------------------------------------------------------------
  // handleDeleteQuestion: filter, no renumbering
  // ---------------------------------------------------------------------------

  function DeleteQuestion(qs: seq<Question>, id: int): (r: seq<Question>)
    ensures |r| <= |qs|
    ensures forall q :: q in r <==> q in qs && q.id != id
    ensures !HasId(qs, id) ==> r == qs
    ensures AllWellFormed(qs) ==> AllWellFormed(r)
  {
    if qs == [] then []
    else (if qs[0].id == id then [] else [qs[0]]) + DeleteQuestion(qs[1..], id)
  }

  /** Deletion distributes over concatenation: the survivors keep their relative order. */
  lemma {:induction false} DeleteQuestionAppend(a: seq<Question>, b: seq<Question>, id: int)
    ensures DeleteQuestion(a + b, id) == DeleteQuestion(a, id) + DeleteQuestion(b, id)
  {
    if a == [] {
      assert a + b == b;
    } else {
      assert (a + b)[1..] == a[1..] + b;
      DeleteQuestionAppend(a[1..], b, id);
    }
  }

  // ---------------------------------------------------------------------------
  // handleAddQuestion: fresh id max(ids, 0) + 1 and a template question
  // ---------------------------------------------------------------------------

  /** `Math.max(...ids, 0)`. */
  function MaxIdOrZero(qs: seq<Question>): (m: int)
    ensures m >= 0
    ensures forall k :: 0 <= k < |qs| ==> qs[k].id <= m
    ensures m == 0 || HasId(qs, m)
  {
    if qs == [] then 0
    else
      var rest := MaxIdOrZero(qs[1..]);
      assert rest != 0 ==> HasId(qs, rest) by {
        if rest != 0 {
          var j :| 0 <= j < |qs[1..]| && qs[1..][j].id == rest;
          assert qs[j + 1].id == rest;
        }
      }
      if qs[0].id > rest then qs[0].id else rest
  }

  function NextId(qs: seq<Question>): (r: int)
    ensures r >= 1
    ensures forall k :: 0 <= k < |qs| ==> qs[k].id < r
    ensures r == 1 || HasId(qs, r - 1)
  {
    MaxIdOrZero(qs) + 1
  }

  function NewQuestion(id: int): (q: Question)
    ensures q.id == id && |q.options| == 4 && WellFormed(q)
    ensures q.correctAnswer == q.options[0] && q.explanation != "" && q.difficulty == Medium
  {
    Question(id, "New Question", ["Option 1", "Option 2", "Option 3", "Option 4"],
             "Option 1", "Explanation here.", Medium)
  }

  function AddQuestion(qs: seq<Question>): (r: seq<Question>)
    ensures |r| == |qs| + 1 && r[..|qs|] == qs
    ensures r[|qs|] == NewQuestion(NextId(qs))
    ensures !HasId(qs, r[|qs|].id)
    ensures AllWellFormed(qs) ==> AllWellFormed(r)
  {
    qs + [NewQuestion(NextId(qs))]
  }

  /** Ids {1, 3, 5} give 6; an empty set gives 1. */
  lemma NextIdExamples(a: Question, b: Question, c: Question)
    requires a.id == 1 && b.id == 3 && c.id == 5
    ensures NextId([a, b, c]) == 6
    ensures NextId([]) == 1
  {
    assert [a, b, c][1..] == [b, c];
    assert [b, c][1..] == [c];
    assert MaxIdOrZero([c]) == 5 by { assert [c][1..] == []; }
    assert MaxIdOrZero([b, c]) == 5;
  }

  /** Ids are derived from the current list: after the question with the largest id
      is deleted, the next id handed out is at most that id, and equal to it exactly
      when that id is 1 or the id just below it is still in the list. */
  lemma NextIdAfterDeletingMax(qs: seq<Question>, m: int)
    requires m == MaxIdOrZero(qs) && m >= 1
    ensures NextId(DeleteQuestion(qs, m)) <= m
    ensures NextId(DeleteQuestion(qs, m)) == m <==> (m == 1 || HasId(DeleteQuestion(qs, m), m - 1))
  {
    RemainingIdsBelow(qs, m);
    NextIdBelow(DeleteQuestion(qs, m), m);
  }

  /** When every id is below m, the next id is at most m, and it is m exactly when m
      is 1 or m - 1 is in use. */
  lemma NextIdBelow(qs: seq<Question>, m: int)
    requires m >= 1
    requires forall k :: 0 <= k < |qs| ==> qs[k].id < m
    ensures NextId(qs) <= m
    ensures NextId(qs) == m <==> (m == 1 || HasId(qs, m - 1))
  {
    var top := MaxIdOrZero(qs);
    if top != 0 {
      var k :| 0 <= k < |qs| && qs[k].id == top;
    }
    if m > 1 && HasId(qs, m - 1) {
      var k :| 0 <= k < |qs| && qs[k].id == m - 1;
    }
  }

  /** Deleting an id at least as large as every id leaves only smaller ids. */
  lemma {:induction false} RemainingIdsBelow(qs: seq<Question>, m: int)
    requires forall k :: 0 <= k < |qs| ==> qs[k].id <= m
    ensures forall k :: 0 <= k < |DeleteQuestion(qs, m)| ==> DeleteQuestion(qs, m)[k].id < m
  {
    var d := DeleteQuestion(qs, m);
    forall k | 0 <= k < |d|
      ensures d[k].id < m
    {
      assert d[k] in d;
      assert d[k] in qs;
    }
  }

  /** One instance: with ids 1 and 2, deleting 2 and adding a question hands 2 out
      again. */
  lemma DeletedMaxIdIsReused(a: Question, b: Question)
    requires a.id == 1 && b.id == 2
    ensures NextId(DeleteQuestion([a, b], 2)) == 2
  {
    assert [a, b][1..] == [b];
    assert DeleteQuestion([a, b], 2) == [a];
  }
}
