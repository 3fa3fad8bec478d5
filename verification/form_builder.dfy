/** The form-builder component: its `questions` state, replaced by each handler,
    and the submit gate that checks the list before handing it to `onSubmit`. */
module Builder {

  import opened Wrappers
  import opened Questions
  import Strings

  /** The `form` prop of an edited form: its title, description and questions. */
  datatype FormDraft = FormDraft(title: string, description: Option<string>, questions: Option<seq<Question>>)

  /** The values of the title and description fields once they validate. */
  datatype FormFields = FormFields(title: string, description: Option<string>)

  /** Why a submit is refused. */
  datatype SubmitError = FieldsInvalid | NoQuestions | BlankQuestion {

    /** The error message shown to the user. */
    function Message(): string {
      match this
      case FieldsInvalid => "Please fill in all required fields"
      case NoQuestions => "Please add at least one question"
      case BlankQuestion => "Please fill in all question fields"
    }
  }

  /** What `handleSubmit` does: show an error, or call `onSubmit` with these values. */
  datatype SubmitOutcome =
    | Rejected(error: SubmitError)
    | Submitted(fields: FormFields, questions: seq<Question>)

  /** `questions.some(q => !q.question.trim())`. */
  predicate HasBlankQuestion(qs: seq<Question>) {
    exists k | 0 <= k < |qs| :: Strings.Trim(qs[k].question) == ""
  }

  class FormBuilder {

    /** The `questions` state of the component. */
    var questions: seq<Question>

    /** The builder as it opens: the edited form's questions, or an empty list for a
        new form or a form without questions (`form.questions || []`). */
    constructor Open(form: Option<FormDraft>)
      ensures questions == if form.Some? && form.value.questions.Some? then form.value.questions.value else []
    {
      if form.Some? && form.value.questions.Some? {
        questions := form.value.questions.value;
      } else {
        questions := [];
      }
    }

    /** `addQuestion`, with `freshId` the identifier `uuidv4()` returned. */
    method AddQuestion(freshId: string)
      modifies this
      ensures questions == Questions.AddQuestion(old(questions), freshId)
      ensures IsDense(old(questions)) ==> IsDense(questions)
    {
      if IsDense(questions) {
        AddKeepsDense(questions, freshId);
      }
      questions := Questions.AddQuestion(questions, freshId);
    }

    /** `updateQuestion(id, updates)`. */
    method UpdateQuestion(id: string, updates: QuestionPatch)
      modifies this
      ensures questions == UpdateById(old(questions), id, updates)
    {
      questions := UpdateById(questions, id, updates);
    }

    /** Editing the option text area of question `id`: the parsed lines become its
        options. */
    method EditOptions(id: string, text: string)
      modifies this
      ensures questions == UpdateById(old(questions), id, OptionsPatch(ParseOptions(text)))
    {
      UpdateQuestion(id, OptionsPatch(ParseOptions(text)));
    }

    /** `deleteQuestion(id)`. */
    method DeleteQuestion(id: string)
      modifies this
      ensures questions == DeleteById(old(questions), id)
    {
      questions := DeleteById(questions, id);
    }

    /** `handleDragEnd` for a drop of `activeId` onto `overId`; the sortable items are
        the question ids, so both are present when they differ. */
    method HandleDragEnd(activeId: string, overId: string)
      requires activeId != overId ==> HasId(questions, activeId) && HasId(questions, overId)
      modifies this
      ensures questions == DragEnd(old(questions), activeId, overId)
    {
      if activeId != overId {
        questions := DragEnd(questions, activeId, overId);
      }
    }

    /** `handleSubmit`, with `fields` the result of validating the title and
        description fields (`None` when that validation throws). The checks run in
        order: the fields, an empty list, a blank question; a submit that passes
        them all hands over the same questions renumbered 1..n. */
    method HandleSubmit(fields: Option<FormFields>) returns (outcome: SubmitOutcome)
      ensures fields.None? ==> outcome == Rejected(FieldsInvalid)
      ensures fields.Some? && questions == [] ==> outcome == Rejected(NoQuestions)
      ensures fields.Some? && questions != [] &&
              (exists k | 0 <= k < |questions| :: Strings.IsBlank(questions[k].question)) ==>
              outcome == Rejected(BlankQuestion)
      ensures outcome.Submitted? <==>
              fields.Some? && questions != [] &&
              forall k | 0 <= k < |questions| :: !Strings.IsBlank(questions[k].question)
      ensures outcome.Submitted? ==>
              && outcome.fields == fields.value
              && IsDense(outcome.questions)
              && Unnumbered(outcome.questions) == Unnumbered(questions)
    {
      if fields.None? {
        return Rejected(FieldsInvalid);
      }
      if |questions| == 0 {
        return Rejected(NoQuestions);
      }
      forall k | 0 <= k < |questions| {
        Strings.TrimEmptyIffBlank(questions[k].question);
      }
      if HasBlankQuestion(questions) {
        return Rejected(BlankQuestion);
      }
      outcome := Submitted(fields.value, Renumber(questions));
    }
  }
}
