/** The `saveReview` server action: it checks the four submitted fields and
    writes a review only when all of them pass. The database write is represented
    by the record the action would write. */
module SaveReview {

  import opened Wrappers
  import Strings

  /** What `formData.get(key)` returns: nothing, a string, or an uploaded file. */
  datatype FieldValue = Missing | Text(value: string) | Upload

  /** The review the action writes. */
  datatype ReviewRecord = ReviewRecord(formId: string, review: string, name: string, email: string)

  /** The state the action returns. */
  datatype SaveState = Saved | Failed(error: string)

  /** The returned state and the record written, if any. */
  datatype SaveOutcome = SaveOutcome(state: SaveState, written: Option<ReviewRecord>)

  /** `!v || typeof v !== 'string'` is false: a non-empty string. */
  predicate IsFilledText(v: FieldValue) {
    v.Text? && v.value != ""
  }

  /** The test on `review`, `name` and `email`: additionally, `v.trim().length`
      is not 0. */
  predicate IsContentText(v: FieldValue) {
    IsFilledText(v) && |Strings.Trim(v.value)| != 0
  }

  /** A string field passes the content test exactly when it is not blank. */
  lemma ContentIffNotBlank(v: FieldValue)
    ensures IsContentText(v) <==> v.Text? && !Strings.IsBlank(v.value)
  {
    if v.Text? {
      Strings.TrimEmptyIffBlank(v.value);
    }
  }

  /** `saveReview`. A write happens exactly when `formId` is a non-empty string
      (it is not trimmed) and the other three are strings that are not blank;
      otherwise the answer is "Invalid data" and nothing is written. */
  function Save(formId: FieldValue, review: FieldValue, name: FieldValue, email: FieldValue): (r: SaveOutcome)
    ensures r.state == Saved <==>
              && formId.Text? && formId.value != ""
              && review.Text? && !Strings.IsBlank(review.value)
              && name.Text? && !Strings.IsBlank(name.value)
              && email.Text? && !Strings.IsBlank(email.value)
    ensures r.state != Saved ==> r == SaveOutcome(Failed("Invalid data"), None)
    ensures r.state == Saved ==>
              r.written == Some(ReviewRecord(formId.value, review.value, name.value, email.value))
  {
    ContentIffNotBlank(review);
    ContentIffNotBlank(name);
    ContentIffNotBlank(email);
    if !IsFilledText(formId) || !IsContentText(review) || !IsContentText(name) || !IsContentText(email) then
      SaveOutcome(Failed("Invalid data"), None)
    else
      SaveOutcome(Saved, Some(ReviewRecord(formId.value, review.value, name.value, email.value)))
  }

  /** The form id is not trimmed, so one made of spaces is accepted. */
  lemma BlankFormIdAccepted(review: string, name: string, email: string)
    requires !Strings.IsBlank(review) && !Strings.IsBlank(name) && !Strings.IsBlank(email)
    ensures Save(Text(" "), Text(review), Text(name), Text(email)).state == Saved
  {
  }

  /** A review made only of whitespace is refused and not written. */
  lemma BlankReviewRefused(formId: FieldValue, review: string, name: FieldValue, email: FieldValue)
    requires Strings.IsBlank(review)
    ensures Save(formId, Text(review), name, email) == SaveOutcome(Failed("Invalid data"), None)
  {
  }
}
