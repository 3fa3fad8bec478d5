/** The all-in-one home page: services and forms held in component state and
    changed by its handlers (edit-merge, create-append, delete with a cascade from
    a service to its forms, status toggle), and the getters the views read. */
module Home {

  import opened Wrappers
  import Seqs
  import opened Questions
  import ServicesPage

  /** A service of the home page, with creation and update times. */
  datatype Service = Service(
    id: string,
    name: string,
    description: Option<string>,
    createdAt: int,
    updatedAt: int)

  /** A review form of a service. */
  datatype Form = Form(
    id: string,
    serviceId: string,
    title: string,
    description: Option<string>,
    questions: seq<Question>,
    shareableLink: string,
    createdAt: int,
    updatedAt: int,
    isActive: bool)

  /** A response, as far as the counts need it. */
  datatype Response = Response(id: string, formId: string)

  /** The `Partial<Form>` the form builder submits. `None` means the key is absent;
      a description key may be present with the value `undefined`. */
  datatype FormValues = FormValues(
    title: Option<string>,
    description: Option<Option<string>>,
    questions: Option<seq<Question>>)

  type ServiceValues = ServicesPage.ServiceValues

  const LinkPrefix := "https://reviews.example.com/form/"

  // ---------------------------------------------------------------------------
  // Services

  /** `{ ...s, ...values, updatedAt: now }`. */
  function MergeService(s: Service, values: ServiceValues, now: int): (r: Service)
    ensures r.id == s.id && r.createdAt == s.createdAt && r.updatedAt == now
    ensures r.name == values.name.GetOr(s.name)
    ensures r.description == values.description.GetOr(s.description)
  {
    s.(name := values.name.GetOr(s.name), description := values.description.GetOr(s.description), updatedAt := now)
  }

  predicate ServiceHasId(id: string, s: Service) { s.id == id }
  predicate ServiceNotId(id: string, s: Service) { s.id != id }
  predicate FormOfService(serviceId: string, f: Form) { f.serviceId == serviceId }
  predicate FormNotOfService(serviceId: string, f: Form) { f.serviceId != serviceId }
  predicate FormHasId(id: string, f: Form) { f.id == id }
  predicate FormNotId(id: string, f: Form) { f.id != id }

  /** The edit branch of the service submit: only the services with the edited id
      change. */
  function EditService(services: seq<Service>, id: string, values: ServiceValues, now: int): (r: seq<Service>)
    ensures |r| == |services|
    ensures forall k | 0 <= k < |services| ::
      r[k] == if services[k].id == id then MergeService(services[k], values, now) else services[k]
  {
    Seqs.MapWhere((s: Service) => ServiceHasId(id, s), (s: Service) => MergeService(s, values, now), services)
  }

  /** The service the create branch appends. The name is present because the service
      form marks it `required` (ServiceModal.tsx:68); `values.name!` only asserts it. */
  function NewService(values: ServiceValues, newId: string, now: int): (r: Service)
    requires values.name.Some?
    ensures r.id == newId && r.name == values.name.value
    ensures r.description == (if values.description.Some? then values.description.value else None)
    ensures r.createdAt == now && r.updatedAt == now
  {
    Service(newId, values.name.value, values.description.GetOr(None), now, now)
  }

  /** `handleDeleteService`: the service and every form of it go; everything else
      stays, in order. */
  function DeleteServiceCascade(services: seq<Service>, forms: seq<Form>, serviceId: string)
    : (r: (seq<Service>, seq<Form>))
    ensures forall s :: s in r.0 <==> s in services && s.id != serviceId
    ensures forall f :: f in r.1 <==> f in forms && f.serviceId != serviceId
    ensures Seqs.IsSubsequence(r.0, services) && Seqs.IsSubsequence(r.1, forms)
    ensures forall s :: multiset(r.0)[s] == if s.id != serviceId then multiset(services)[s] else 0
    ensures forall f :: multiset(r.1)[f] == if f.serviceId != serviceId then multiset(forms)[f] else 0
  {
    Seqs.FilterSpec((s: Service) => ServiceNotId(serviceId, s), services);
    Seqs.FilterSpec((f: Form) => FormNotOfService(serviceId, f), forms);
    (Seqs.Filter((s: Service) => ServiceNotId(serviceId, s), services),
     Seqs.Filter((f: Form) => FormNotOfService(serviceId, f), forms))
  }

  /** Every form belongs to a listed service. */
  predicate FormsHaveServices(services: seq<Service>, forms: seq<Form>) {
    forall f | f in forms :: exists s | s in services :: s.id == f.serviceId
  }

  /** The cascade keeps every form attached to a listed service. */
  lemma CascadeKeepsFormsAttached(services: seq<Service>, forms: seq<Form>, serviceId: string)
    requires FormsHaveServices(services, forms)
    ensures var r := DeleteServiceCascade(services, forms, serviceId); FormsHaveServices(r.0, r.1)
  {
    var r := DeleteServiceCascade(services, forms, serviceId);
    forall f | f in r.1 ensures exists s | s in r.0 :: s.id == f.serviceId {
      var s :| s in services && s.id == f.serviceId;
      assert s in r.0;
    }
  }

  // ---------------------------------------------------------------------------
  // Forms

  /** `{ ...f, ...values, updatedAt: now }`. */
  function MergeForm(f: Form, values: FormValues, now: int): (r: Form)
    ensures r.id == f.id && r.serviceId == f.serviceId && r.shareableLink == f.shareableLink
    ensures r.isActive == f.isActive && r.createdAt == f.createdAt && r.updatedAt == now
    ensures r.title == values.title.GetOr(f.title)
    ensures r.description == values.description.GetOr(f.description)
    ensures r.questions == values.questions.GetOr(f.questions)
  {
    f.(title := values.title.GetOr(f.title), description := values.description.GetOr(f.description),
       questions := values.questions.GetOr(f.questions), updatedAt := now)
  }

  /** The edit branch of the form submit. */
  function EditForm(forms: seq<Form>, id: string, values: FormValues, now: int): (r: seq<Form>)
    ensures |r| == |forms|
    ensures forall k | 0 <= k < |forms| ::
      r[k] == if forms[k].id == id then MergeForm(forms[k], values, now) else forms[k]
  {
    Seqs.MapWhere((f: Form) => FormHasId(id, f), (f: Form) => MergeForm(f, values, now), forms)
  }

  /** `selectedServiceId || services[0]?.id || ''`: each of the first two is used
      only when it is a non-empty string. */
  function NewFormServiceId(selectedServiceId: Option<string>, services: seq<Service>): (r: string)
    ensures selectedServiceId.Some? && selectedServiceId.value != "" ==> r == selectedServiceId.value
    ensures (selectedServiceId.None? || selectedServiceId.value == "") ==>
              r == if services != [] then services[0].id else ""
  {
    if selectedServiceId.Some? && selectedServiceId.value != "" then selectedServiceId.value
    else if services != [] && services[0].id != "" then services[0].id
    else ""
  }

  /** The form the create branch appends, with `newId` and `linkId` the two
      `uuidv4()` values: active, with the selected service and no questions unless
      some were submitted. */
  function NewForm(values: FormValues, serviceId: string, newId: string, linkId: string, now: int): (r: Form)
    requires values.title.Some?
    ensures r.id == newId && r.serviceId == serviceId && r.title == values.title.value
    ensures r.description == (if values.description.Some? then values.description.value else None)
    ensures values.questions.None? ==> r.questions == []
    ensures values.questions.Some? ==> r.questions == values.questions.value
    ensures r.shareableLink == LinkPrefix + linkId
    ensures r.isActive && r.createdAt == now && r.updatedAt == now
  {
    Form(newId, serviceId, values.title.value, values.description.GetOr(None), values.questions.GetOr([]),
         LinkPrefix + linkId, now, now, true)
  }

  /** `handleDeleteForm`: only the forms with this id go. */
  function DeleteForm(forms: seq<Form>, id: string): (r: seq<Form>)
    ensures forall f :: f in r <==> f in forms && f.id != id
    ensures Seqs.IsSubsequence(r, forms)
    ensures forall f :: multiset(r)[f] == if f.id != id then multiset(forms)[f] else 0
  {
    Seqs.FilterSpec((f: Form) => FormNotId(id, f), forms);
    Seqs.Filter((f: Form) => FormNotId(id, f), forms)
  }

  /** `handleToggleFormStatus`: the forms with this id get the new status and
      nothing else changes. */
  function ToggleStatus(forms: seq<Form>, id: string, isActive: bool): (r: seq<Form>)
    ensures |r| == |forms|
    ensures forall k | 0 <= k < |forms| ::
      r[k] == if forms[k].id == id then forms[k].(isActive := isActive) else forms[k]
  {
    Seqs.MapWhere((f: Form) => FormHasId(id, f), (f: Form) => f.(isActive := isActive), forms)
  }

  /** Toggling a form and toggling it back restores the list. */
  lemma ToggleBack(forms: seq<Form>, id: string, isActive: bool)
    requires forall k | 0 <= k < |forms| :: forms[k].id == id ==> forms[k].isActive == !isActive
    ensures ToggleStatus(ToggleStatus(forms, id, isActive), id, !isActive) == forms
  {
    var once := ToggleStatus(forms, id, isActive);
    var twice := ToggleStatus(once, id, !isActive);
    assert forall k | 0 <= k < |forms| :: twice[k] == forms[k];
  }

  // ---------------------------------------------------------------------------
  // Getters

  /** `getFilteredForms`: every form when no service is selected (a `null` or an
      empty id), otherwise the forms of the selected service, in order. */
  function GetFilteredForms(forms: seq<Form>, selectedServiceId: Option<string>): (r: seq<Form>)
    ensures selectedServiceId.None? || selectedServiceId.value == "" ==> r == forms
    ensures selectedServiceId.Some? && selectedServiceId.value != "" ==>
              forall f :: f in r <==> f in forms && f.serviceId == selectedServiceId.value
    ensures selectedServiceId.Some? && selectedServiceId.value != "" ==>
              forall f :: multiset(r)[f] == if f.serviceId == selectedServiceId.value then multiset(forms)[f] else 0
    ensures Seqs.IsSubsequence(r, forms)
  {
    if selectedServiceId.Some? && selectedServiceId.value != "" then
      Seqs.FilterSpec((f: Form) => FormOfService(selectedServiceId.value, f), forms);
      Seqs.Filter((f: Form) => FormOfService(selectedServiceId.value, f), forms)
    else
      Seqs.FilterKeepsAll((f: Form) => true, forms);
      Seqs.FilterSpec((f: Form) => true, forms);
      forms
  }

  function OfService(serviceId: string): Form -> bool {
    (f: Form) => FormOfService(serviceId, f)
  }

  /** `getFormCount`: the length of the filtered list, which is the number of forms
      of the service. */
  function GetFormCount(forms: seq<Form>, serviceId: string): (n: nat)
    ensures n == Seqs.Count(OfService(serviceId), forms)
  {
    Seqs.FilterLength(OfService(serviceId), forms);
    |Seqs.Filter(OfService(serviceId), forms)|
  }

  /** After a service is deleted none of the remaining forms counts for it. */
  lemma CascadeLeavesNoForms(services: seq<Service>, forms: seq<Form>, serviceId: string)
    ensures GetFormCount(DeleteServiceCascade(services, forms, serviceId).1, serviceId) == 0
  {
    var rest := DeleteServiceCascade(services, forms, serviceId).1;
    assert forall k | 0 <= k < |rest| :: rest[k] in rest;
  }

  predicate ResponseOfForm(formId: string, r: Response) { r.formId == formId }

  function OfForm(formId: string): Response -> bool {
    (r: Response) => ResponseOfForm(formId, r)
  }

  /** `getResponseCount`: the length of the filtered responses, which is the number
      of responses to the form. */
  function GetResponseCount(responses: seq<Response>, formId: string): (n: nat)
    ensures n == Seqs.Count(OfForm(formId), responses)
  {
    Seqs.FilterLength(OfForm(formId), responses);
    |Seqs.Filter(OfForm(formId), responses)|
  }

  /** The dashboard's services: the first six. */
  function RecentServices(services: seq<Service>): (r: seq<Service>)
    ensures |r| <= 6 && r <= services
    ensures |services| <= 6 ==> r == services
  {
    Seqs.Take(services, 6)
  }

  // ---------------------------------------------------------------------------
  // The page's state

  class Home {

    var activeView: string
    var services: seq<Service>
    var forms: seq<Form>
    var selectedServiceId: Option<string>
    var serviceModalVisible: bool
    var formBuilderVisible: bool
    var formPreviewVisible: bool
    var editingService: Option<Service>
    var editingForm: Option<Form>
    var previewForm: Option<Form>

    /** The page as it opens on the given data, showing the dashboard. */
    constructor Open(initialServices: seq<Service>, initialForms: seq<Form>)
      ensures activeView == "dashboard" && services == initialServices && forms == initialForms
      ensures selectedServiceId.None? && editingService.None? && editingForm.None? && previewForm.None?
      ensures !serviceModalVisible && !formBuilderVisible && !formPreviewVisible
    {
      activeView := "dashboard";
      services := initialServices;
      forms := initialForms;
      selectedServiceId := None;
      serviceModalVisible := false;
      formBuilderVisible := false;
      formPreviewVisible := false;
      editingService := None;
      editingForm := None;
      previewForm := None;
    }

    method HandleCreateService()
      modifies this
      ensures editingService.None? && serviceModalVisible
      ensures services == old(services) && forms == old(forms)
      ensures activeView == old(activeView) && selectedServiceId == old(selectedServiceId)
      ensures formBuilderVisible == old(formBuilderVisible) && editingForm == old(editingForm)
      ensures formPreviewVisible == old(formPreviewVisible) && previewForm == old(previewForm)
    {
      editingService := None;
      serviceModalVisible := true;
    }

    method HandleEditService(service: Service)
      modifies this
      ensures editingService == Some(service) && serviceModalVisible
      ensures services == old(services) && forms == old(forms)
      ensures activeView == old(activeView) && selectedServiceId == old(selectedServiceId)
      ensures formBuilderVisible == old(formBuilderVisible) && editingForm == old(editingForm)
      ensures formPreviewVisible == old(formPreviewVisible) && previewForm == old(previewForm)
    {
      editingService := Some(service);
      serviceModalVisible := true;
    }

    /** `handleServiceSubmit`, with `newId` the `uuidv4()` value and `now` the
        time. A create needs the name, which the service form's `required` rule
        (ServiceModal.tsx:68) guarantees; `values.name!` is only a type assertion. */
    method HandleServiceSubmit(values: ServiceValues, newId: string, now: int)
      requires editingService.None? ==> values.name.Some?
      modifies this
      ensures old(editingService).Some? ==>
                services == EditService(old(services), old(editingService).value.id, values, now)
      ensures old(editingService).None? ==> services == old(services) + [NewService(values, newId, now)]
      ensures forms == old(forms) && selectedServiceId == old(selectedServiceId)
      ensures !serviceModalVisible && editingService.None?
      ensures activeView == old(activeView)
      ensures formBuilderVisible == old(formBuilderVisible) && editingForm == old(editingForm)
      ensures formPreviewVisible == old(formPreviewVisible) && previewForm == old(previewForm)
    {
      if editingService.Some? {
        services := EditService(services, editingService.value.id, values, now);
      } else {
        services := services + [NewService(values, newId, now)];
      }
      serviceModalVisible := false;
      editingService := None;
    }

    /** `handleDeleteService`: the service and its forms are removed. */
    method HandleDeleteService(serviceId: string)
      modifies this
      ensures (services, forms) == DeleteServiceCascade(old(services), old(forms), serviceId)
      ensures selectedServiceId == old(selectedServiceId)
      ensures FormsHaveServices(old(services), old(forms)) ==> FormsHaveServices(services, forms)
      ensures activeView == old(activeView)
      ensures serviceModalVisible == old(serviceModalVisible) && editingService == old(editingService)
      ensures formBuilderVisible == old(formBuilderVisible) && editingForm == old(editingForm)
      ensures formPreviewVisible == old(formPreviewVisible) && previewForm == old(previewForm)
    {
      if FormsHaveServices(services, forms) {
        CascadeKeepsFormsAttached(services, forms, serviceId);
      }
      var r := DeleteServiceCascade(services, forms, serviceId);
      services := r.0;
      forms := r.1;
    }

    method HandleViewServiceForms(serviceId: string)
      modifies this
      ensures selectedServiceId == Some(serviceId) && activeView == "forms"
      ensures services == old(services) && forms == old(forms)
      ensures serviceModalVisible == old(serviceModalVisible) && editingService == old(editingService)
      ensures formBuilderVisible == old(formBuilderVisible) && editingForm == old(editingForm)
      ensures formPreviewVisible == old(formPreviewVisible) && previewForm == old(previewForm)
    {
      selectedServiceId := Some(serviceId);
      activeView := "forms";
    }

    /** The "show all" button of the forms view. */
    method ClearServiceSelection()
      modifies this
      ensures selectedServiceId.None?
      ensures services == old(services) && forms == old(forms)
      ensures activeView == old(activeView)
      ensures serviceModalVisible == old(serviceModalVisible) && editingService == old(editingService)
      ensures formBuilderVisible == old(formBuilderVisible) && editingForm == old(editingForm)
      ensures formPreviewVisible == old(formPreviewVisible) && previewForm == old(previewForm)
    {
      selectedServiceId := None;
    }

    method HandleCreateForm()
      modifies this
      ensures editingForm.None? && formBuilderVisible
      ensures services == old(services) && forms == old(forms)
      ensures activeView == old(activeView) && selectedServiceId == old(selectedServiceId)
      ensures serviceModalVisible == old(serviceModalVisible) && editingService == old(editingService)
      ensures formPreviewVisible == old(formPreviewVisible) && previewForm == old(previewForm)
    {
      editingForm := None;
      formBuilderVisible := true;
    }

    method HandleEditForm(form: Form)
      modifies this
      ensures editingForm == Some(form) && formBuilderVisible
      ensures services == old(services) && forms == old(forms)
      ensures activeView == old(activeView) && selectedServiceId == old(selectedServiceId)
      ensures serviceModalVisible == old(serviceModalVisible) && editingService == old(editingService)
      ensures formPreviewVisible == old(formPreviewVisible) && previewForm == old(previewForm)
    {
      editingForm := Some(form);
      formBuilderVisible := true;
    }

    /** `handleFormSubmit`, with `newId` and `linkId` the two `uuidv4()` values. A
        create reads `values.title!`. */
    method HandleFormSubmit(values: FormValues, newId: string, linkId: string, now: int)
      requires editingForm.None? ==> values.title.Some?
      modifies this
      ensures old(editingForm).Some? ==> forms == EditForm(old(forms), old(editingForm).value.id, values, now)
      ensures old(editingForm).None? ==>
                forms == old(forms) + [NewForm(values, NewFormServiceId(old(selectedServiceId), old(services)), newId, linkId, now)]
      ensures services == old(services) && selectedServiceId == old(selectedServiceId)
      ensures !formBuilderVisible && editingForm.None?
      ensures activeView == old(activeView)
      ensures serviceModalVisible == old(serviceModalVisible) && editingService == old(editingService)
      ensures formPreviewVisible == old(formPreviewVisible) && previewForm == old(previewForm)
    {
      if editingForm.Some? {
        forms := EditForm(forms, editingForm.value.id, values, now);
      } else {
        var serviceId := NewFormServiceId(selectedServiceId, services);
        forms := forms + [NewForm(values, serviceId, newId, linkId, now)];
      }
      formBuilderVisible := false;
      editingForm := None;
    }

    method HandleDeleteForm(formId: string)
      modifies this
      ensures forms == DeleteForm(old(forms), formId)
      ensures services == old(services)
      ensures activeView == old(activeView) && selectedServiceId == old(selectedServiceId)
      ensures serviceModalVisible == old(serviceModalVisible) && editingService == old(editingService)
      ensures formBuilderVisible == old(formBuilderVisible) && editingForm == old(editingForm)
      ensures formPreviewVisible == old(formPreviewVisible) && previewForm == old(previewForm)
    {
      forms := DeleteForm(forms, formId);
    }

    method HandlePreviewForm(form: Form)
      modifies this
      ensures previewForm == Some(form) && formPreviewVisible
      ensures services == old(services) && forms == old(forms)
      ensures activeView == old(activeView) && selectedServiceId == old(selectedServiceId)
      ensures serviceModalVisible == old(serviceModalVisible) && editingService == old(editingService)
      ensures formBuilderVisible == old(formBuilderVisible) && editingForm == old(editingForm)
    {
      previewForm := Some(form);
      formPreviewVisible := true;
    }

    method HandleToggleFormStatus(formId: string, isActive: bool)
      modifies this
      ensures forms == ToggleStatus(old(forms), formId, isActive)
      ensures services == old(services)
      ensures activeView == old(activeView) && selectedServiceId == old(selectedServiceId)
      ensures serviceModalVisible == old(serviceModalVisible) && editingService == old(editingService)
      ensures formBuilderVisible == old(formBuilderVisible) && editingForm == old(editingForm)
      ensures formPreviewVisible == old(formPreviewVisible) && previewForm == old(previewForm)
    {
      forms := ToggleStatus(forms, formId, isActive);
    }
  }
}
