/** The services management page: a `services` list changed by the delete and
    submit handlers, and a `filteredServices` list that an effect recomputes from
    the services, the search term and the sort key whenever one of them changes. */
module ServicesPage {

  import opened Wrappers
  import Seqs
  import opened ServiceCatalog

  /** The `Partial<Service>` the service form submits: its `name` and
      `description` fields. `None` means the key is absent; a description key may be
      present with the value `undefined`, which is `Some(None)`. */
  datatype ServiceValues = ServiceValues(name: Option<string>, description: Option<Option<string>>)

  /** `{ ...s, ...values }`: each key present in `values` replaces that field. */
  function MergeValues(s: Service, values: ServiceValues): (r: Service)
    ensures r.id == s.id && r.createdAt == s.createdAt
    ensures r.formsCount == s.formsCount && r.responsesCount == s.responsesCount
    ensures r.name == values.name.GetOr(s.name)
    ensures r.description == values.description.GetOr(s.description)
  {
    s.(name := values.name.GetOr(s.name), description := values.description.GetOr(s.description))
  }

  predicate IsNot(id: string, s: Service) {
    s.id != id
  }

  function NotId(id: string): Service -> bool {
    (s: Service) => IsNot(id, s)
  }

  /** `services.filter(s => s.id !== serviceId)`: exactly the services with another
      id survive, in their order. */
  function DeleteService(services: seq<Service>, id: string): (r: seq<Service>)
    ensures forall s :: s in r <==> s in services && s.id != id
    ensures Seqs.IsSubsequence(r, services)
    ensures forall s :: multiset(r)[s] == if s.id != id then multiset(services)[s] else 0
  {
    Seqs.FilterSpec(NotId(id), services);
    Seqs.Filter(NotId(id), services)
  }

  predicate HasId(id: string, s: Service) {
    s.id == id
  }

  function MergeInto(values: ServiceValues): Service -> Service {
    (s: Service) => MergeValues(s, values)
  }

  /** The edit branch: the values are merged into the services whose id is the
      edited service's id, and the others are left as they are. */
  function EditService(services: seq<Service>, id: string, values: ServiceValues): (r: seq<Service>)
    ensures |r| == |services|
    ensures forall k | 0 <= k < |services| ::
      r[k] == if services[k].id == id then MergeValues(services[k], values) else services[k]
  {
    Seqs.MapWhere((s: Service) => HasId(id, s), MergeInto(values), services)
  }

  /** The service the create branch appends: the submitted name and description,
      no forms and no responses yet. */
  function NewService(values: ServiceValues, newId: string, now: int): (r: Service)
    requires values.name.Some?
    ensures r.id == newId && r.name == values.name.value && r.createdAt == now
    ensures r.description == if values.description.Some? then values.description.value else None
    ensures r.formsCount == 0 && r.responsesCount == 0
  {
    Service(newId, values.name.value, values.description.GetOr(None), now, 0, 0)
  }

  /** An edit leaves every id where it was, so the list keeps its identities. */
  lemma EditKeepsIds(services: seq<Service>, id: string, values: ServiceValues)
    ensures forall k | 0 <= k < |services| :: EditService(services, id, values)[k].id == services[k].id
  {
  }

  /** Submitting the same values twice is the same as submitting them once. */
  lemma EditIdempotent(services: seq<Service>, id: string, values: ServiceValues)
    ensures EditService(EditService(services, id, values), id, values) == EditService(services, id, values)
  {
    var once := EditService(services, id, values);
    var twice := EditService(once, id, values);
    forall k | 0 <= k < |services| ensures twice[k] == once[k] {
      if services[k].id == id {
        assert MergeValues(MergeValues(services[k], values), values) == MergeValues(services[k], values);
      }
    }
  }

  /** Deleting a freshly created service gives back the list before the create. */
  lemma {:induction false} DeleteUndoesCreate(services: seq<Service>, values: ServiceValues, newId: string, now: int)
    requires values.name.Some?
    requires forall k | 0 <= k < |services| :: services[k].id != newId
    ensures DeleteService(services + [NewService(values, newId, now)], newId) == services
  {
    Seqs.FilterConcat(NotId(newId), services, [NewService(values, newId, now)]);
    Seqs.FilterKeepsAll(NotId(newId), services);
    assert Seqs.Filter(NotId(newId), [NewService(values, newId, now)]) == [];
  }

  /** The page's state. */
  class Services {

    var services: seq<Service>
    var filteredServices: seq<Service>
    var searchTerm: string
    var sortBy: string
    var editingService: Option<Service>
    var showServiceForm: bool

    /** What the effect keeps true once it has run: the shown list is the matching
        services sorted by the selected key. */
    predicate Valid()
      reads this
    {
      filteredServices == SortedBy(KeyOf(sortBy), FilterServices(services, searchTerm))
    }

    /** The page once mounted and its effect has run, starting from `initial`. */
    constructor Mount(initial: seq<Service>)
      ensures services == initial && searchTerm == "" && sortBy == "name"
      ensures editingService.None? && !showServiceForm
      ensures Valid()
    {
      services := initial;
      searchTerm := "";
      sortBy := "name";
      editingService := None;
      showServiceForm := false;
      var shown := VisibleServices(initial, "", "name");
      filteredServices := shown;
    }

    /** The filter-and-sort effect. */
    method Refresh()
      modifies this
      ensures Valid()
      ensures services == old(services) && searchTerm == old(searchTerm) && sortBy == old(sortBy)
      ensures editingService == old(editingService) && showServiceForm == old(showServiceForm)
    {
      filteredServices := VisibleServices(services, searchTerm, sortBy);
    }

    /** Typing in the search box. */
    method SetSearchTerm(term: string)
      modifies this
      ensures searchTerm == term && services == old(services) && sortBy == old(sortBy)
      ensures editingService == old(editingService) && showServiceForm == old(showServiceForm)
      ensures Valid()
    {
      searchTerm := term;
      Refresh();
    }

    /** Choosing a sort key. */
    method SetSortBy(key: string)
      modifies this
      ensures sortBy == key && services == old(services) && searchTerm == old(searchTerm)
      ensures editingService == old(editingService) && showServiceForm == old(showServiceForm)
      ensures Valid()
    {
      sortBy := key;
      Refresh();
    }

    /** `handleCreateService`: the form opens with no service being edited. */
    method HandleCreateService()
      modifies this
      ensures editingService.None? && showServiceForm
      ensures services == old(services) && filteredServices == old(filteredServices)
      ensures searchTerm == old(searchTerm) && sortBy == old(sortBy)
    {
      editingService := None;
      showServiceForm := true;
    }

    /** `handleEditService`: the form opens on `service`. */
    method HandleEditService(service: Service)
      modifies this
      ensures editingService == Some(service) && showServiceForm
      ensures services == old(services) && filteredServices == old(filteredServices)
      ensures searchTerm == old(searchTerm) && sortBy == old(sortBy)
    {
      editingService := Some(service);
      showServiceForm := true;
    }

    /** `handleDeleteService`. */
    method HandleDeleteService(id: string)
      modifies this
      ensures services == DeleteService(old(services), id)
      ensures searchTerm == old(searchTerm) && sortBy == old(sortBy)
      ensures editingService == old(editingService) && showServiceForm == old(showServiceForm)
      ensures Valid()
    {
      services := DeleteService(services, id);
      Refresh();
    }

    /** `handleServiceSubmit`: an edit when a service is being edited, a create
        otherwise, with `newId` and `now` the values of `Date.now()`. The `values.name!`
        of a create is only a type assertion; the name is present because the service
        form marks it `required` (ServiceForm.tsx:73) and submits only valid values. */
    method HandleServiceSubmit(values: ServiceValues, newId: string, now: int)
      requires editingService.None? ==> values.name.Some?
      modifies this
      ensures old(editingService).Some? ==>
                services == EditService(old(services), old(editingService).value.id, values)
      ensures old(editingService).None? ==> services == old(services) + [NewService(values, newId, now)]
      ensures !showServiceForm && editingService == old(editingService)
      ensures searchTerm == old(searchTerm) && sortBy == old(sortBy)
      ensures Valid()
    {
      if editingService.Some? {
        services := EditService(services, editingService.value.id, values);
      } else {
        services := services + [NewService(values, newId, now)];
      }
      showServiceForm := false;
      Refresh();
    }
  }
}
