/** What the forms and services lists share: the case-insensitive search over a
    title (or name) and an optional description, and the text shown when a list
    comes out empty. */
module Listing {

  import opened Wrappers
  import Strings

  /** `title.toLowerCase().includes(term.toLowerCase()) ||
      (description?.toLowerCase().includes(term.toLowerCase()) ?? false)`. */
  predicate TitleOrDescriptionMatches(title: string, description: Option<string>, term: string) {
    Strings.ContainsIgnoreCase(title, term)
    || (description.Some? && Strings.ContainsIgnoreCase(description.value, term))
  }

  /** An empty term matches every item, with or without a description. */
  lemma EmptyTermMatches(title: string, description: Option<string>)
    ensures TitleOrDescriptionMatches(title, description, "")
  {
    Strings.ContainsEmpty(Strings.Lower(title));
  }

  /** A missing description never matches, so the title alone decides. */
  lemma MissingDescriptionNeverMatches(title: string, term: string)
    ensures TitleOrDescriptionMatches(title, None, term) <==> Strings.ContainsIgnoreCase(title, term)
  {
  }

  /** The quote marks around the search term in an empty-list message. */
  datatype Quotes = Curly | Straight {
    function Open(): char {
      if this == Curly then '“' else '"'
    }
    function Close(): char {
      if this == Curly then '”' else '"'
    }
  }

  /** The empty-list message for a list of `items`: the quoted search term when
      there is one, the "created yet" text otherwise. */
  function EmptyState(items: string, term: string, quotes: Quotes): (r: string)
    ensures term == "" ==> r == "No " + items + " created yet"
    ensures term != "" ==> exists i :: Strings.OccursAt(r, [quotes.Open()] + term + [quotes.Close()], i)
  {
    if term == "" then "No " + items + " created yet"
    else
      var quoted := [quotes.Open()] + term + [quotes.Close()];
      var r := "No " + items + " found matching " + quoted;
      assert Strings.OccursAt(r, quoted, |r| - |quoted|);
      r
  }
}
