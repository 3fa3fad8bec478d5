/** The forms server actions: `createForm`, which checks the submitted fields and
    parses the questions before writing a form, and the per-question id clean-up
    `getForms` applies to stored forms. `JSON.parse`, the clock and the database
    are parameters or left out. */
module FormActions {

  import opened Wrappers
  import opened JsonValue
  import Strings
  import SaveReview

  type FieldValue = SaveReview.FieldValue

  /** The form `createForm` writes. */
  datatype FormRecord = FormRecord(
    title: string,
    description: FieldValue,
    serviceId: string,
    questions: Json,
    shareableLink: string,
    isActive: bool)

  datatype CreateState = Created | Failed(error: string)

  /** The returned state and the form written, if any. */
  datatype CreateOutcome = CreateOutcome(state: CreateState, written: Option<FormRecord>)

  const LinkPrefix := "https://forms.company.com/"

  /** The questions `createForm` stores: none unless the field is a non-blank
      string, in which case whatever `parse` makes of it, or `None` when it throws. */
  function ParseQuestions(questionsData: FieldValue, parse: string -> Option<Json>): (r: Option<Json>)
    ensures (questionsData.Missing? || questionsData.Upload?) ==> r == Some(JArray([]))
    ensures questionsData.Text? && Strings.IsBlank(questionsData.value) ==> r == Some(JArray([]))
    ensures questionsData.Text? && !Strings.IsBlank(questionsData.value) ==> r == parse(questionsData.value)
  {
    if questionsData.Text? then
      Strings.TrimEmptyIffBlank(questionsData.value);
      if |Strings.Trim(questionsData.value)| > 0 then parse(questionsData.value) else Some(JArray([]))
    else Some(JArray([]))
  }

  /** `createForm`, with `clock` the text of `Date.now()`. The title and service
      check comes first, then the questions parse; only a request passing both
      writes a form, which is active. */
  function CreateForm(title: FieldValue, description: FieldValue, serviceId: FieldValue,
                      questionsData: FieldValue, parse: string -> Option<Json>, clock: string): (r: CreateOutcome)
    ensures !(title.Text? && title.value != "" && serviceId.Text? && serviceId.value != "") ==>
              r == CreateOutcome(Failed("Invalid data"), None)
    ensures title.Text? && title.value != "" && serviceId.Text? && serviceId.value != "" &&
            ParseQuestions(questionsData, parse).None? ==>
              r == CreateOutcome(Failed("Invalid questions data"), None)
    ensures r.state == Created <==>
              title.Text? && title.value != "" && serviceId.Text? && serviceId.value != "" &&
              ParseQuestions(questionsData, parse).Some?
    ensures r.written.Some? <==> r.state == Created
    ensures r.state == Created ==>
              r.written.value == FormRecord(title.value, description, serviceId.value,
                                            ParseQuestions(questionsData, parse).value, LinkPrefix + clock, true)
  {
    if !SaveReview.IsFilledText(title) || !SaveReview.IsFilledText(serviceId) then
      CreateOutcome(Failed("Invalid data"), None)
    else
      match ParseQuestions(questionsData, parse)
      case None => CreateOutcome(Failed("Invalid questions data"), None)
      case Some(questions) =>
        CreateOutcome(Created, Some(FormRecord(title.value, description, serviceId.value, questions, LinkPrefix + clock, true)))
  }

  /** A missing title is reported as "Invalid data" even when the questions would
      not parse either. */
  lemma TitleCheckComesFirst(description: FieldValue, serviceId: FieldValue, questions: string,
                             parse: string -> Option<Json>, clock: string)
    requires !Strings.IsBlank(questions) && parse(questions).None?
    ensures CreateForm(SaveReview.Missing, description, serviceId, SaveReview.Text(questions), parse, clock).state
            == Failed("Invalid data")
  {
  }

  // ---------------------------------------------------------------------------
  // getForms

  /** `const { _id, ...rest } = q; return { ...rest, id: rest.id ?? String(_id) }`
      on a stored question, with `idText` the text of its `_id`: the `_id` key
      goes, an `id` that is present and not `null` stays, and otherwise `id` is the
      text of `_id`. Every other key is kept as it was. */
  function NormaliseQuestion(q: map<string, Json>, idText: string): (r: map<string, Json>)
    ensures "_id" !in r && "id" in r
    ensures r["id"] == if "id" in q && q["id"] != JNull then q["id"] else JString(idText)
    ensures forall k :: k != "_id" && k != "id" ==> (k in r <==> k in q)
    ensures forall k | k in q && k != "_id" && k != "id" :: r[k] == q[k]
  {
    var rest := q - {"_id"};
    rest["id" := if "id" in rest && rest["id"] != JNull then rest["id"] else JString(idText)]
  }

  /** Cleaning a question twice is cleaning it once: the id set the first time is
      kept the second time, whatever `_id` text is supplied. */
  lemma NormaliseIdempotent(q: map<string, Json>, idText: string, otherText: string)
    ensures NormaliseQuestion(NormaliseQuestion(q, idText), otherText) == NormaliseQuestion(q, idText)
  {
    var once := NormaliseQuestion(q, idText);
    var twice := NormaliseQuestion(once, otherText);
    assert twice.Keys == once.Keys;
  }

  /** A stored form as the database hands it over, with each question paired with
      the text of its `_id`. */
  datatype StoredForm = StoredForm(
    idText: string,
    serviceIdText: string,
    title: string,
    description: Option<string>,
    questions: seq<(map<string, Json>, string)>,
    shareableLink: string,
    createdAt: int,
    isActive: bool,
    responsesCount: int)

  /** The plain form `getForms` returns. */
  datatype FormDto = FormDto(
    id: string,
    serviceId: string,
    title: string,
    description: string,
    questions: seq<map<string, Json>>,
    shareableLink: string,
    createdAt: int,
    isActive: bool,
    responsesCount: int)

  /** The mapping of one stored form: a missing description becomes `''` and every
      question is cleaned, in order. */
  function ToDto(f: StoredForm): (r: FormDto)
    ensures r.id == f.idText && r.serviceId == f.serviceIdText && r.title == f.title
    ensures r.description == if f.description.Some? then f.description.value else ""
    ensures |r.questions| == |f.questions|
    ensures forall k | 0 <= k < |f.questions| ::
      r.questions[k] == NormaliseQuestion(f.questions[k].0, f.questions[k].1)
    ensures r.shareableLink == f.shareableLink && r.createdAt == f.createdAt
    ensures r.isActive == f.isActive && r.responsesCount == f.responsesCount
  {
    FormDto(f.idText, f.serviceIdText, f.title, f.description.GetOr(""),
            seq(|f.questions|, k requires 0 <= k < |f.questions| => NormaliseQuestion(f.questions[k].0, f.questions[k].1)),
            f.shareableLink, f.createdAt, f.isActive, f.responsesCount)
  }

  /** Every question `getForms` returns has an `id` and no `_id`. */
  lemma DtoQuestionsHaveIds(f: StoredForm)
    ensures forall k | 0 <= k < |ToDto(f).questions| :: "id" in ToDto(f).questions[k] && "_id" !in ToDto(f).questions[k]
  {
  }
}
