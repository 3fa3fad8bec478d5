/** The read-only services list: the server's services, filtered and sorted for
    the search term and sort key of the surrounding page. */
module ServicesList {

  import opened ServiceCatalog
  import Listing

  /** What the list renders: a card per service, or the empty-state text. */
  datatype View = Cards(services: seq<Service>) | EmptyView(text: string)

  /** The `useMemo` result and the choice between cards and the empty state. An
      empty result shows the text, quoting the term in curly quotes when there is
      one; otherwise every matching service gets a card, in sorted order. */
  method Render(initialServices: seq<Service>, searchTerm: string, sortBy: string) returns (view: View)
    ensures view.EmptyView? <==> FilterServices(initialServices, searchTerm) == []
    ensures view.EmptyView? ==> view.text == Listing.EmptyState("services", searchTerm, Listing.Curly)
    ensures view.Cards? ==> view.services == SortedBy(KeyOf(sortBy), FilterServices(initialServices, searchTerm))
    ensures view.Cards? ==> forall s :: s in view.services <==> s in initialServices && Matches(searchTerm, s)
    ensures view.Cards? ==> Ordered(KeyOf(sortBy), view.services)
  {
    var shown := VisibleServices(initialServices, searchTerm, sortBy);
    if |shown| == 0 {
      view := EmptyView(Listing.EmptyState("services", searchTerm, Listing.Curly));
    } else {
      view := Cards(shown);
    }
  }
}
