/** The responses page: a table of form responses with each response's form
    title, service name and customer, narrowed by the selected form and a search
    over the customer's name and email. The form and service catalogues the page
    reads are parameters. */
module ResponsesPage {

  import opened Wrappers
  import Seqs
  import Strings

  /** The fields of a form the page looks up. */
  datatype FormRef = FormRef(id: string, serviceId: string, title: string)

  /** The fields of a service the page looks up. */
  datatype ServiceRef = ServiceRef(id: string, name: string)

  /** A response: its id, its form and its answers keyed by question id. */
  datatype FormResponse = FormResponse(id: string, formId: string, responses: map<string, string>)

  function FormId(f: FormRef): string { f.id }
  function ServiceId(s: ServiceRef): string { s.id }

  /** `getFormTitle`: the title of the first form with this id; a missing form or
      an empty title (`||` treats `''` as missing) gives "Unknown Form". */
  function GetFormTitle(forms: seq<FormRef>, formId: string): (r: string)
    ensures (forall k | 0 <= k < |forms| :: forms[k].id != formId) ==> r == "Unknown Form"
    ensures (exists k | 0 <= k < |forms| :: forms[k].id == formId) ==>
              var title := forms[Seqs.FirstIndex(forms, FormId, formId)].title;
              r == if title == "" then "Unknown Form" else title
  {
    var form := Seqs.Find(forms, FormId, formId);
    if form.Some? && form.value.title != "" then form.value.title else "Unknown Form"
  }

  /** `getServiceName`: the name of the first service with the id of the first form
      with this id; "Unknown Service" when either is missing or the name is empty. */
  function GetServiceName(forms: seq<FormRef>, services: seq<ServiceRef>, formId: string): (r: string)
    ensures (forall k | 0 <= k < |forms| :: forms[k].id != formId) ==> r == "Unknown Service"
    ensures (exists k | 0 <= k < |forms| :: forms[k].id == formId) ==>
              var form := forms[Seqs.FirstIndex(forms, FormId, formId)];
              && ((forall m | 0 <= m < |services| :: services[m].id != form.serviceId) ==> r == "Unknown Service")
              && ((exists m | 0 <= m < |services| :: services[m].id == form.serviceId) ==>
                    var name := services[Seqs.FirstIndex(services, ServiceId, form.serviceId)].name;
                    r == if name == "" then "Unknown Service" else name)
  {
    var form := Seqs.Find(forms, FormId, formId);
    if form.None? then "Unknown Service"
    else
      var service := Seqs.Find(services, ServiceId, form.value.serviceId);
      if service.Some? && service.value.name != "" then service.value.name else "Unknown Service"
  }

  /** `responses[key] || fallback`: a missing or empty answer gives the fallback. */
  function AnswerOr(responses: map<string, string>, key: string, fallback: string): (r: string)
    ensures r == fallback <==> key !in responses || responses[key] in {"", fallback}
    ensures r != fallback ==> key in responses && r == responses[key]
  {
    if key in responses && responses[key] != "" then responses[key] else fallback
  }

  /** The customer column: the `default_name` answer or "Anonymous", and the
      `default_email` answer or nothing. */
  function CustomerName(r: FormResponse): string {
    AnswerOr(r.responses, "default_name", "Anonymous")
  }

  function CustomerEmail(r: FormResponse): string {
    AnswerOr(r.responses, "default_email", "")
  }

  /** The Response ID column: `#` and the last six characters of the id. */
  function DisplayId(id: string): (r: string)
    ensures |r| == 1 + (if |id| < 6 then |id| else 6)
    ensures r[0] == '#'
    ensures id == id[..|id| - (|r| - 1)] + r[1..]
  {
    "#" + Strings.SliceLast(id, 6)
  }

  /** The form stage of the effect: `'all'` lets every response through. */
  predicate FormPasses(selectedForm: string, r: FormResponse) {
    selectedForm == "all" || r.formId == selectedForm
  }

  /** The search stage: the name and email answers, each `''` when missing, must
      contain the term ignoring case. The "Anonymous" shown for a missing name is
      not searched. */
  predicate SearchPasses(searchTerm: string, r: FormResponse) {
    searchTerm == ""
    || Strings.ContainsIgnoreCase(AnswerOr(r.responses, "default_name", ""), searchTerm)
    || Strings.ContainsIgnoreCase(AnswerOr(r.responses, "default_email", ""), searchTerm)
  }

  predicate Shown(selectedForm: string, searchTerm: string, r: FormResponse) {
    FormPasses(selectedForm, r) && SearchPasses(searchTerm, r)
  }

  function FormStage(selectedForm: string): FormResponse -> bool {
    (r: FormResponse) => FormPasses(selectedForm, r)
  }

  function SearchStage(searchTerm: string): FormResponse -> bool {
    (r: FormResponse) => SearchPasses(searchTerm, r)
  }

  function ShownTest(selectedForm: string, searchTerm: string): FormResponse -> bool {
    (r: FormResponse) => Shown(selectedForm, searchTerm, r)
  }

  /** The effect's filter chain: exactly the responses passing both tests, in their
      original order. */
  function FilterResponses(responses: seq<FormResponse>, selectedForm: string, searchTerm: string)
    : (r: seq<FormResponse>)
    ensures r == Seqs.Filter(ShownTest(selectedForm, searchTerm), responses)
  {
    var byForm := Seqs.FilterUnless(selectedForm == "all", FormStage(selectedForm), responses);
    var r := Seqs.FilterUnless(searchTerm == "", SearchStage(searchTerm), byForm);
    Seqs.FilterFilter(FormStage(selectedForm), SearchStage(searchTerm), ShownTest(selectedForm, searchTerm), responses);
    r
  }

  /** The shown responses are those passing both tests, in the input order. */
  lemma ShownIff(responses: seq<FormResponse>, selectedForm: string, searchTerm: string)
    ensures Seqs.IsSubsequence(FilterResponses(responses, selectedForm, searchTerm), responses)
    ensures forall r :: r in FilterResponses(responses, selectedForm, searchTerm) <==>
                        r in responses && FormPasses(selectedForm, r) && SearchPasses(searchTerm, r)
  {
    Seqs.FilterSpec(ShownTest(selectedForm, searchTerm), responses);
  }

  /** A response with no name and no email answer is shown as "Anonymous" but is
      never found by a non-empty search, not even one for "anon". */
  lemma AnonymousNotSearchable(r: FormResponse, searchTerm: string)
    requires "default_name" !in r.responses && "default_email" !in r.responses
    requires searchTerm != ""
    ensures CustomerName(r) == "Anonymous"
    ensures !SearchPasses(searchTerm, r)
  {
    NothingContainsNonEmpty(Strings.Lower(searchTerm));
  }

  lemma NothingContainsNonEmpty(needle: string)
    requires needle != ""
    ensures !Strings.Contains("", needle)
  {
  }

  /** The page's state: the responses it was given, and the shown ones the effect
      keeps in step with the selected form and the search term. */
  class Responses {

    const responses: seq<FormResponse>
    var filteredResponses: seq<FormResponse>
    var selectedForm: string
    var searchTerm: string

    predicate Valid()
      reads this
    {
      filteredResponses == FilterResponses(responses, selectedForm, searchTerm)
    }

    /** The page once mounted and its effect has run: every response is shown. */
    constructor Mount(initial: seq<FormResponse>)
      ensures responses == initial && selectedForm == "all" && searchTerm == ""
      ensures filteredResponses == initial
      ensures Valid()
    {
      responses := initial;
      selectedForm := "all";
      searchTerm := "";
      new;
      filteredResponses := FilterResponses(initial, "all", "");
      Seqs.FilterKeepsAll(ShownTest("all", ""), initial);
    }

    method SetSelectedForm(formId: string)
      modifies this
      ensures selectedForm == formId && searchTerm == old(searchTerm)
      ensures Valid()
    {
      selectedForm := formId;
      filteredResponses := FilterResponses(responses, selectedForm, searchTerm);
    }

    method SetSearchTerm(term: string)
      modifies this
      ensures searchTerm == term && selectedForm == old(selectedForm)
      ensures Valid()
    {
      searchTerm := term;
      filteredResponses := FilterResponses(responses, selectedForm, searchTerm);
    }
  }
}
