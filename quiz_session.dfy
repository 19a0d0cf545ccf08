/**
  The quiz studio's component state as one object: the question list shared by the
  editor and the assessment runner, the recorded answers, the submitted flag, the
  ids flagged as unanswered, and the editor/preview switch. Each method is one event
  handler; it overwrites fields the way the handler's `set...` calls do, in order.
  The awaited generation call is not made here: its outcome is a parameter.
 */
module QuizSession {
  import opened Wrappers
  import opened Questions
  import opened Assessment

  /** What the generation pipeline handed back: a question list, or an error that
      may or may not carry a message. */
  datatype GenerationOutcome =
    | Generated(questions: seq<Question>)
    | Failed(message: Option<string>)

  const NoFileMessage := "Please upload a document first."
  const UnexpectedErrorMessage := "An unexpected error occurred."

  /** `validationErrors.filter(x => x !== id)`. */
  function ClearFlag(flags: seq<int>, id: int): (r: seq<int>)
    ensures |r| <= |flags|
    ensures forall x :: x in r <==> x in flags && x != id
    ensures id !in flags ==> r == flags
  {
    if flags == [] then []
    else (if flags[0] == id then [] else [flags[0]]) + ClearFlag(flags[1..], id)
  }

  class QuizStudio {
    var questions: seq<Question>
    var userAnswers: map<int, string>
    var isSubmitted: bool
    var validationErrors: seq<int>
    var isEditMode: bool
    var isGenerating: bool
    var error: Option<string>

    /** A question is flagged as "Required field" only while it has no answer. */
    ghost predicate Valid()
      reads this
    {
      forall id :: id in validationErrors ==> !Answered(userAnswers, id)
    }

    constructor ()
      ensures Valid()
      ensures questions == [] && userAnswers == map[] && validationErrors == []
      ensures !isSubmitted && !isEditMode && !isGenerating && error == None
    {
      questions := [];
      userAnswers := map[];
      isSubmitted := false;
      validationErrors := [];
      isEditMode := false;
      isGenerating := false;
      error := None;
    }

    /** The synchronous part of the generate handler, up to the awaited call: without
        a document only the error is set; otherwise the whole attempt is cleared. */
    method StartGeneration(hasFile: bool) returns (started: bool)
      requires Valid()
      modifies this
      ensures Valid()
      ensures started == hasFile
      ensures !hasFile ==>
        error == Some(NoFileMessage) && questions == old(questions) &&
        userAnswers == old(userAnswers) && validationErrors == old(validationErrors) &&
        isSubmitted == old(isSubmitted) && isEditMode == old(isEditMode) &&
        isGenerating == old(isGenerating)
      ensures hasFile ==>
        isGenerating && error == None && questions == [] && userAnswers == map[] &&
        validationErrors == [] && !isSubmitted && !isEditMode
    {
      if !hasFile {
        error := Some(NoFileMessage);
        return false;
      }
      isGenerating := true;
      error := None;
      questions := [];
      userAnswers := map[];
      validationErrors := [];
      isSubmitted := false;
      isEditMode := false;
      return true;
    }

    /** The continuation after the awaited call: a result is installed and opens the
        editor; a failure records its message and leaves the list as it was. */
    method FinishGeneration(outcome: GenerationOutcome)
      requires Valid()
      modifies this
      ensures Valid()
      ensures !isGenerating
      ensures userAnswers == old(userAnswers) && validationErrors == old(validationErrors)
      ensures isSubmitted == old(isSubmitted)
      ensures outcome.Generated? ==>
        questions == outcome.questions && isEditMode && error == old(error)
      ensures outcome.Failed? ==>
        questions == old(questions) && isEditMode == old(isEditMode) &&
        error == Some(if outcome.message.Some? then outcome.message.value else UnexpectedErrorMessage)
    {
      match outcome {
        case Generated(qs) =>
          questions := qs;
          isEditMode := true;
        case Failed(message) =>
          error := Some(if message.Some? then message.value else UnexpectedErrorMessage);
      }
      isGenerating := false;
    }

    /** Records an answer unless the quiz is submitted or the editor is open, and
        lifts the question's "Required field" flag. */
    method SelectOption(questionId: int, option: string)
      requires Valid()
      modifies this
      ensures Valid()
      ensures questions == old(questions) && isSubmitted == old(isSubmitted)
      ensures isEditMode == old(isEditMode) && isGenerating == old(isGenerating) && error == old(error)
      ensures old(isSubmitted || isEditMode) ==>
        userAnswers == old(userAnswers) && validationErrors == old(validationErrors)
      ensures !old(isSubmitted || isEditMode) ==>
        userAnswers == old(userAnswers)[questionId := option] &&
        validationErrors == ClearFlag(old(validationErrors), questionId)
    {
      if isSubmitted || isEditMode {
        return;
      }
      userAnswers := userAnswers[questionId := option];
      if questionId in validationErrors {
        validationErrors := ClearFlag(validationErrors, questionId);
      }
    }

    /** Flags the unanswered questions in list order and stays unsubmitted, or, when
        every question has an answer, submits. */
    method SubmitQuiz()
      requires Valid()
      modifies this
      ensures Valid()
      ensures questions == old(questions) && userAnswers == old(userAnswers)
      ensures isEditMode == old(isEditMode) && isGenerating == old(isGenerating) && error == old(error)
      ensures MissingAnswers(questions, userAnswers) != [] ==>
        validationErrors == MissingAnswers(questions, userAnswers) && isSubmitted == old(isSubmitted)
      ensures MissingAnswers(questions, userAnswers) == [] ==>
        isSubmitted && validationErrors == old(validationErrors) &&
        forall k :: 0 <= k < |questions| ==> Answered(userAnswers, questions[k].id)
    {
      var missing := MissingAnswers(questions, userAnswers);
      if |missing| > 0 {
        validationErrors := missing;
        return;
      }
      isSubmitted := true;
    }

    /** Starts a new attempt over the same questions. */
    method ResetQuiz()
      requires Valid()
      modifies this
      ensures Valid()
      ensures !isSubmitted && userAnswers == map[] && validationErrors == []
      ensures questions == old(questions) && isEditMode == old(isEditMode)
      ensures isGenerating == old(isGenerating) && error == old(error)
    {
      isSubmitted := false;
      userAnswers := map[];
      validationErrors := [];
    }

    /** The Editor button: opens the editor and discards the submission and the
        flags, but keeps the recorded answers. */
    method EnterEditor()
      requires Valid()
      modifies this
      ensures Valid()
      ensures isEditMode && !isSubmitted && validationErrors == []
      ensures questions == old(questions) && userAnswers == old(userAnswers)
      ensures isGenerating == old(isGenerating) && error == old(error)
    {
      isEditMode := true;
      isSubmitted := false;
      validationErrors := [];
    }

    /** The Preview button. */
    method EnterPreview()
      requires Valid()
      modifies this
      ensures Valid()
      ensures !isEditMode
      ensures questions == old(questions) && userAnswers == old(userAnswers)
      ensures isSubmitted == old(isSubmitted) && validationErrors == old(validationErrors)
      ensures isGenerating == old(isGenerating) && error == old(error)
    {
      isEditMode := false;
    }

    method UpdateQuestionField(id: int, edit: FieldEdit)
      requires Valid()
      modifies this`questions
      ensures Valid()
      ensures questions == UpdateQuestion(old(questions), id, edit)
    {
      questions := UpdateQuestion(questions, id, edit);
    }

    method UpdateQuestionOption(id: int, index: nat, value: string)
      requires Valid()
      requires forall k :: 0 <= k < |questions| && questions[k].id == id ==> index < |questions[k].options|
      modifies this`questions
      ensures Valid()
      ensures questions == UpdateOption(old(questions), id, index, value)
      ensures AllWellFormed(old(questions)) ==> AllWellFormed(questions)
    {
      if AllWellFormed(questions) {
        UpdateOptionKeepsWellFormed(questions, id, index, value);
      }
      questions := UpdateOption(questions, id, index, value);
    }

    method SetQuestionCorrectAnswer(id: int, value: string)
      requires Valid()
      modifies this`questions
      ensures Valid()
      ensures questions == SetCorrectAnswer(old(questions), id, value)
    {
      questions := SetCorrectAnswer(questions, id, value);
    }

    method RemoveQuestion(id: int)
      requires Valid()
      modifies this`questions
      ensures Valid()
      ensures questions == DeleteQuestion(old(questions), id)
    {
      questions := DeleteQuestion(questions, id);
    }

    /** Appends the template question under a fresh id and opens the editor. */
    method AppendQuestion()
      requires Valid()
      modifies this`questions, this`isEditMode
      ensures Valid()
      ensures questions == AddQuestion(old(questions)) && isEditMode
      ensures forall k :: 0 <= k < |old(questions)| ==> old(questions)[k].id < questions[|old(questions)|].id
    {
      questions := AddQuestion(questions);
      isEditMode := true;
    }
  }
}
