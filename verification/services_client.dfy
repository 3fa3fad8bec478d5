/** The client half of the services page: the server's services, reloaded after a
    create, with the same search-and-sort effect as the management page. */
module ServicesClient {

  import opened ServiceCatalog
  import Listing

  class ServicesClient {

    var services: seq<Service>
    var filteredServices: seq<Service>
    var showModal: bool
    var searchTerm: string
    var sortBy: string

    /** What the effect keeps true once it has run. */
    predicate Valid()
      reads this
    {
      filteredServices == SortedBy(KeyOf(sortBy), FilterServices(services, searchTerm))
    }

    /** The component once mounted and its effect has run. */
    constructor Mount(initialServices: seq<Service>)
      ensures services == initialServices && searchTerm == "" && sortBy == "name" && !showModal
      ensures Valid()
    {
      services := initialServices;
      showModal := false;
      searchTerm := "";
      sortBy := "name";
      var shown := VisibleServices(initialServices, "", "name");
      filteredServices := shown;
    }

    /** The filter-and-sort effect. */
    method Refresh()
      modifies this
      ensures Valid()
      ensures services == old(services) && searchTerm == old(searchTerm) && sortBy == old(sortBy)
      ensures showModal == old(showModal)
    {
      filteredServices := VisibleServices(services, searchTerm, sortBy);
    }

    method SetSearchTerm(term: string)
      modifies this
      ensures searchTerm == term && services == old(services) && sortBy == old(sortBy)
      ensures showModal == old(showModal)
      ensures Valid()
    {
      searchTerm := term;
      Refresh();
    }

    method SetSortBy(key: string)
      modifies this
      ensures sortBy == key && services == old(services) && searchTerm == old(searchTerm)
      ensures showModal == old(showModal)
      ensures Valid()
    {
      sortBy := key;
      Refresh();
    }

    /** `handleServiceCreated`, with `latest` what `getServices()` returned: the
        modal closes and the list is replaced by the reloaded one. */
    method HandleServiceCreated(latest: seq<Service>)
      modifies this
      ensures !showModal && services == latest
      ensures searchTerm == old(searchTerm) && sortBy == old(sortBy)
      ensures Valid()
    {
      showModal := false;
      services := latest;
      Refresh();
    }

    /** The text shown when no service is listed. */
    function EmptyText(): (r: string)
      reads this
      ensures r == Listing.EmptyState("services", searchTerm, Listing.Straight)
    {
      if searchTerm != "" then "No services found matching \"" + searchTerm + "\""
      else "No services created yet"
    }
  }
}
