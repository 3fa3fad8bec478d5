/** The services list shown on the services pages: the services whose name or
    description contains the search term, sorted in place by the key chosen in the
    sort selector. The same filter and sort appear in three components, so they
    are defined once here. */
module ServiceCatalog {

  import opened Wrappers
  import Strings
  import Seqs
  import Listing
  import StableSort

  /** A service with its creation time as milliseconds (`createdAt.getTime()`). */
  datatype Service = Service(
    id: string,
    name: string,
    description: Option<string>,
    createdAt: int,
    formsCount: int,
    responsesCount: int)

  /** The cases of the comparator's `switch (sortBy)`. */
  datatype SortKey = ByName | ByCreated | ByResponses | ByForms | Unsorted

  function KeyOf(sortBy: string): (k: SortKey)
    ensures k == Unsorted <==> sortBy !in {"name", "created", "responses", "forms"}
  {
    match sortBy
    case "name" => ByName
    case "created" => ByCreated
    case "responses" => ByResponses
    case "forms" => ByForms
    case _ => Unsorted
  }

  /** The comparator handed to `filtered.sort`: `localeCompare` on names (ordinal
      comparison stands in for it), newest first, most responses first, most forms
      first, and `0` for any other key. */
  function Compare(key: SortKey, a: Service, b: Service): int {
    match key
    case ByName => Strings.CompareStrings(a.name, b.name)
    case ByCreated => b.createdAt - a.createdAt
    case ByResponses => b.responsesCount - a.responsesCount
    case ByForms => b.formsCount - a.formsCount
    case Unsorted => 0
  }

  /** The comparator is antisymmetric. */
  lemma CompareFlip(key: SortKey, a: Service, b: Service)
    ensures Compare(key, a, b) == -Compare(key, b, a)
  {
    if key == ByName {
      Strings.CompareStringsFlip(a.name, b.name);
    }
  }

  /** "Not after" is transitive. */
  lemma CompareTransitive(key: SortKey, a: Service, b: Service, c: Service)
    requires Compare(key, a, b) <= 0 && Compare(key, b, c) <= 0
    ensures Compare(key, a, c) <= 0
  {
    if key == ByName {
      Strings.CompareStringsTransitive(a.name, b.name, c.name);
    }
  }

  // ---------------------------------------------------------------------------
  // Filtering

  /** The search test of the services list. */
  predicate Matches(term: string, s: Service) {
    Listing.TitleOrDescriptionMatches(s.name, s.description, term)
  }

  function MatchesTest(term: string): Service -> bool {
    (s: Service) => Matches(term, s)
  }

  /** `services.filter(...)`: the services matching the term, in their order. */
  function FilterServices(services: seq<Service>, term: string): (r: seq<Service>)
    ensures forall s :: s in r <==> s in services && Matches(term, s)
    ensures Seqs.IsSubsequence(r, services)
    ensures forall s :: multiset(r)[s] == if Matches(term, s) then multiset(services)[s] else 0
  {
    Seqs.FilterSpec(MatchesTest(term), services);
    Seqs.Filter(MatchesTest(term), services)
  }

  /** An empty search term keeps every service. */
  lemma EmptyTermKeepsAll(services: seq<Service>)
    ensures FilterServices(services, "") == services
  {
    forall k | 0 <= k < |services| ensures MatchesTest("")(services[k]) {
      Listing.EmptyTermMatches(services[k].name, services[k].description);
    }
    Seqs.FilterKeepsAll(MatchesTest(""), services);
  }

  // ---------------------------------------------------------------------------
  // Sorting

  /** The comparator for `key` as the function value handed to `sort`. */
  function CompareBy(key: SortKey): (Service, Service) -> int {
    (a: Service, b: Service) => Compare(key, a, b)
  }

  /** Every comparator of the selector is consistent, so the sort is well defined. */
  lemma CompareByConsistent(key: SortKey)
    ensures StableSort.Antisymmetric(CompareBy(key)) && StableSort.Transitive(CompareBy(key))
  {
    forall a, b ensures CompareBy(key)(a, b) == -CompareBy(key)(b, a) {
      CompareFlip(key, a, b);
    }
    forall a, b, c | CompareBy(key)(a, b) <= 0 && CompareBy(key)(b, c) <= 0
      ensures CompareBy(key)(a, c) <= 0
    {
      CompareTransitive(key, a, b, c);
    }
  }

  /** No service is placed after one it compares greater than under `key`. */
  predicate Ordered(key: SortKey, s: seq<Service>) {
    StableSort.Ordered(CompareBy(key), s)
  }

  /** `filtered.sort(...)` for `key`, as a function of the list. */
  function SortedBy(key: SortKey, s: seq<Service>): seq<Service> {
    StableSort.Sorted(CompareBy(key), s)
  }

  /** The sorted list is in comparator order. */
  lemma SortedByOrdered(key: SortKey, s: seq<Service>)
    ensures Ordered(key, SortedBy(key, s))
  {
    CompareByConsistent(key);
    StableSort.SortedOrdered(CompareBy(key), s);
  }

  /** `'name'` sorts by ascending name. */
  lemma SortByName(s: seq<Service>)
    ensures forall i, j | 0 <= i < j < |s| ::
      Strings.CompareStrings(SortedBy(ByName, s)[i].name, SortedBy(ByName, s)[j].name) <= 0
  {
    SortedByOrdered(ByName, s);
  }

  /** `'created'` puts the newest service first. */
  lemma SortByCreated(s: seq<Service>)
    ensures forall i, j | 0 <= i < j < |s| :: SortedBy(ByCreated, s)[i].createdAt >= SortedBy(ByCreated, s)[j].createdAt
  {
    SortedByOrdered(ByCreated, s);
  }

  /** `'responses'` gives non-increasing response counts. */
  lemma SortByResponses(s: seq<Service>)
    ensures forall i, j | 0 <= i < j < |s| ::
      SortedBy(ByResponses, s)[i].responsesCount >= SortedBy(ByResponses, s)[j].responsesCount
  {
    SortedByOrdered(ByResponses, s);
  }

  /** `'forms'` gives non-increasing form counts. */
  lemma SortByForms(s: seq<Service>)
    ensures forall i, j | 0 <= i < j < |s| :: SortedBy(ByForms, s)[i].formsCount >= SortedBy(ByForms, s)[j].formsCount
  {
    SortedByOrdered(ByForms, s);
  }

  /** Any other key compares everything as equal, so the stable sort keeps the
      order it was given. */
  lemma UnsortedKeepsOrder(s: seq<Service>)
    ensures SortedBy(Unsorted, s) == s
  {
    StableSort.AllEqualKeepsOrder(CompareBy(Unsorted), s);
  }

  /** Stability: the services tied with `x` under `key` (the same name, creation
      time, response count or form count) keep their relative order. */
  lemma SortedByKeepsTies(key: SortKey, s: seq<Service>, x: Service)
    ensures Seqs.Filter(StableSort.TiedWith(CompareBy(key), x), SortedBy(key, s))
         == Seqs.Filter(StableSort.TiedWith(CompareBy(key), x), s)
  {
    CompareByConsistent(key);
    StableSort.SortedKeepsTies(CompareBy(key), s, x);
  }

  /** Sorting an already ordered list changes nothing. */
  lemma SortedByFixesOrdered(key: SortKey, s: seq<Service>)
    requires Ordered(key, s)
    ensures SortedBy(key, s) == s
  {
    StableSort.SortedFixesOrdered(CompareBy(key), s);
  }

  /** The list a services component shows: the matching services, sorted by the
      selected key. It is a permutation of the matching services, in comparator
      order, and in their original order when the key is unknown. */
  method VisibleServices(services: seq<Service>, term: string, sortBy: string) returns (r: seq<Service>)
    ensures r == SortedBy(KeyOf(sortBy), FilterServices(services, term))
    ensures multiset(r) == multiset(FilterServices(services, term))
    ensures forall s :: s in r <==> s in services && Matches(term, s)
    ensures Ordered(KeyOf(sortBy), r)
    ensures KeyOf(sortBy) == Unsorted ==> r == FilterServices(services, term)
  {
    var filtered := FilterServices(services, term);
    var a := new Service[|filtered|](k requires 0 <= k < |filtered| => filtered[k]);
    assert a[..] == filtered;
    StableSort.SortInPlace(a, CompareBy(KeyOf(sortBy)));
    r := a[..];
    SortedByOrdered(KeyOf(sortBy), filtered);
    StableSort.SortedPermutes(CompareBy(KeyOf(sortBy)), filtered);
    if KeyOf(sortBy) == Unsorted {
      UnsortedKeepsOrder(filtered);
    }
    assert forall s :: s in r <==> s in multiset(filtered);
  }
}
