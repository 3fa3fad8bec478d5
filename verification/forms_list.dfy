/** The forms list: the server's forms narrowed by the selected service, the
    search term and the status filter, one filter after the other. */
module FormsList {

  import opened Wrappers
  import Seqs
  import Listing

  /** The fields of a form the list filters on. */
  datatype FormSummary = FormSummary(
    id: string,
    serviceId: string,
    title: string,
    description: Option<string>,
    isActive: bool)

  /** The service stage: `'all'` lets every form through. */
  predicate ServicePasses(serviceId: string, f: FormSummary) {
    serviceId == "all" || f.serviceId == serviceId
  }

  /** The search stage: an empty term lets every form through. */
  predicate SearchPasses(searchTerm: string, f: FormSummary) {
    searchTerm == "" || Listing.TitleOrDescriptionMatches(f.title, f.description, searchTerm)
  }

  /** The status stage: `'all'` lets every form through, `'active'` the active
      forms, and any other value the inactive ones. */
  predicate StatusPasses(status: string, f: FormSummary) {
    status == "all" || (if status == "active" then f.isActive else !f.isActive)
  }

  /** A form is listed when it passes all three stages. */
  predicate Listed(serviceId: string, searchTerm: string, status: string, f: FormSummary) {
    ServicePasses(serviceId, f) && SearchPasses(searchTerm, f) && StatusPasses(status, f)
  }

  function ServiceStage(serviceId: string): FormSummary -> bool {
    (f: FormSummary) => ServicePasses(serviceId, f)
  }

  function SearchStage(searchTerm: string): FormSummary -> bool {
    (f: FormSummary) => SearchPasses(searchTerm, f)
  }

  function StatusStage(status: string): FormSummary -> bool {
    (f: FormSummary) => StatusPasses(status, f)
  }

  function ListedTest(serviceId: string, searchTerm: string, status: string): FormSummary -> bool {
    (f: FormSummary) => Listed(serviceId, searchTerm, status, f)
  }

  /** The three stages applied one after the other are one filter by the
      conjunction of their tests. */
  lemma StagesAreOneFilter(forms: seq<FormSummary>, serviceId: string, searchTerm: string, status: string)
    ensures Seqs.Filter(StatusStage(status), Seqs.Filter(SearchStage(searchTerm), Seqs.Filter(ServiceStage(serviceId), forms)))
            == Seqs.Filter(ListedTest(serviceId, searchTerm, status), forms)
  {
    var both := (f: FormSummary) => ServicePasses(serviceId, f) && SearchPasses(searchTerm, f);
    Seqs.FilterFilter(ServiceStage(serviceId), SearchStage(searchTerm), both, forms);
    Seqs.FilterFilter(both, StatusStage(status), ListedTest(serviceId, searchTerm, status), forms);
  }

  /** The `useMemo` filter chain. The result is exactly the forms passing all three
      tests, in their original order; so the order of the stages does not matter. */
  function FilterForms(forms: seq<FormSummary>, serviceId: string, searchTerm: string, status: string)
    : (r: seq<FormSummary>)
    ensures r == Seqs.Filter(ListedTest(serviceId, searchTerm, status), forms)
  {
    var byService := Seqs.FilterUnless(serviceId == "all", ServiceStage(serviceId), forms);
    var bySearch := Seqs.FilterUnless(searchTerm == "", SearchStage(searchTerm), byService);
    var r := Seqs.FilterUnless(status == "all", StatusStage(status), bySearch);
    StagesAreOneFilter(forms, serviceId, searchTerm, status);
    r
  }

  /** A form is listed exactly when it passes all three tests, and the listed forms
      keep their original order. */
  lemma ListedIff(forms: seq<FormSummary>, serviceId: string, searchTerm: string, status: string)
    ensures Seqs.IsSubsequence(FilterForms(forms, serviceId, searchTerm, status), forms)
    ensures forall f :: f in FilterForms(forms, serviceId, searchTerm, status) <==>
                        f in forms && Listed(serviceId, searchTerm, status, f)
  {
    Seqs.FilterSpec(ListedTest(serviceId, searchTerm, status), forms);
  }

  /** With every filter on its wildcard, every form is listed. */
  lemma WildcardsKeepAll(forms: seq<FormSummary>)
    ensures FilterForms(forms, "all", "", "all") == forms
  {
    Seqs.FilterKeepsAll(ListedTest("all", "", "all"), forms);
  }

  /** `'active'` keeps exactly the active forms and `'inactive'` exactly the
      inactive ones. */
  lemma StatusFilter(forms: seq<FormSummary>)
    ensures forall f :: f in FilterForms(forms, "all", "", "active") <==> f in forms && f.isActive
    ensures forall f :: f in FilterForms(forms, "all", "", "inactive") <==> f in forms && !f.isActive
  {
    ListedIff(forms, "all", "", "active");
    ListedIff(forms, "all", "", "inactive");
  }

  /** What the list renders. */
  datatype View = Cards(forms: seq<FormSummary>) | EmptyView(text: string)

  /** An empty result shows the text, with the term in curly quotes when there is
      one; otherwise a card per listed form. */
  function Render(initialForms: seq<FormSummary>, searchTerm: string, serviceId: string, status: string)
    : (view: View)
    ensures view.EmptyView? <==> forall f | f in initialForms :: !Listed(serviceId, searchTerm, status, f)
    ensures view.EmptyView? ==> view.text == Listing.EmptyState("forms", searchTerm, Listing.Curly)
    ensures view.Cards? ==> view.forms == FilterForms(initialForms, serviceId, searchTerm, status)
  {
    var shown := FilterForms(initialForms, serviceId, searchTerm, status);
    ListedIff(initialForms, serviceId, searchTerm, status);
    if |shown| == 0 then EmptyView(Listing.EmptyState("forms", searchTerm, Listing.Curly))
    else
      assert shown[0] in shown;
      Cards(shown)
  }
}
