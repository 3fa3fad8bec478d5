/** The submitted-reviews table: the reviews of the selected form whose customer
    name, email or review text contains the search term, numbered from 1. */
module ResponsesList {

  import Seqs
  import Strings

  /** A row of the table as the server hands it over. */
  datatype ReviewRow = ReviewRow(
    id: string,
    formId: string,
    formTitle: string,
    serviceName: string,
    review: string,
    name: string,
    email: string)

  /** The form stage: `'all'` lets every review through. */
  predicate FormPasses(formId: string, r: ReviewRow) {
    formId == "all" || r.formId == formId
  }

  /** The search stage: an empty term lets every review through; otherwise the name,
      the email or the review text must contain it, ignoring case. */
  predicate SearchPasses(searchTerm: string, r: ReviewRow) {
    searchTerm == ""
    || Strings.ContainsIgnoreCase(r.name, searchTerm)
    || Strings.ContainsIgnoreCase(r.email, searchTerm)
    || Strings.ContainsIgnoreCase(r.review, searchTerm)
  }

  predicate Shown(formId: string, searchTerm: string, r: ReviewRow) {
    FormPasses(formId, r) && SearchPasses(searchTerm, r)
  }

  function FormStage(formId: string): ReviewRow -> bool {
    (r: ReviewRow) => FormPasses(formId, r)
  }

  function SearchStage(searchTerm: string): ReviewRow -> bool {
    (r: ReviewRow) => SearchPasses(searchTerm, r)
  }

  function ShownTest(formId: string, searchTerm: string): ReviewRow -> bool {
    (r: ReviewRow) => Shown(formId, searchTerm, r)
  }

  /** The `useMemo` filter chain: exactly the reviews passing both tests, in their
      original order. */
  function FilterReviews(reviews: seq<ReviewRow>, formId: string, searchTerm: string): (r: seq<ReviewRow>)
    ensures r == Seqs.Filter(ShownTest(formId, searchTerm), reviews)
  {
    var byForm := Seqs.FilterUnless(formId == "all", FormStage(formId), reviews);
    var r := Seqs.FilterUnless(searchTerm == "", SearchStage(searchTerm), byForm);
    Seqs.FilterFilter(FormStage(formId), SearchStage(searchTerm), ShownTest(formId, searchTerm), reviews);
    r
  }

  /** Membership in the table is the conjunction of the two tests, and the table
      keeps the input order. */
  lemma ShownIff(reviews: seq<ReviewRow>, formId: string, searchTerm: string)
    ensures Seqs.IsSubsequence(FilterReviews(reviews, formId, searchTerm), reviews)
    ensures forall r :: r in FilterReviews(reviews, formId, searchTerm) <==>
                        r in reviews && FormPasses(formId, r) && SearchPasses(searchTerm, r)
  {
    Seqs.FilterSpec(ShownTest(formId, searchTerm), reviews);
  }

  /** With both filters on their wildcard the table holds every review. */
  lemma WildcardsKeepAll(reviews: seq<ReviewRow>)
    ensures FilterReviews(reviews, "all", "") == reviews
  {
    Seqs.FilterKeepsAll(ShownTest("all", ""), reviews);
  }

  /** The `#` column: the row at index `k` of a table page is numbered `k + 1`, so
      the numbers of a page run 1, 2, ... without gaps. */
  function NumberRows(rows: seq<ReviewRow>): (r: seq<(int, ReviewRow)>)
    ensures |r| == |rows|
    ensures forall k | 0 <= k < |rows| :: r[k].1 == rows[k]
    ensures forall k | 0 <= k < |rows| :: r[k].0 == k + 1
    decreases |rows|
  {
    if rows == [] then []
    else NumberRows(rows[..|rows| - 1]) + [(|rows|, rows[|rows| - 1])]
  }
}
