/**
 * The search test shared by the command and shortcut lists: the lower-cased
 * name or description contains the lower-cased query.
 */
module Search {
  import opened Strings

  predicate QueryMatches(name: string, description: string, query: string)
  {
    var q := Lower(query);
    Contains(Lower(name), q) || Contains(Lower(description), q)
  }

  /** The search ignores the case of the query. */
  lemma QueryMatchesLowered(name: string, description: string, query: string)
    ensures QueryMatches(name, description, Lower(query)) == QueryMatches(name, description, query)
    ensures Lower(query) == [] <==> query == []
  {
    LowerIdempotent(query);
  }
}
