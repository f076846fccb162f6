/**
 * The `filteredCommands` memo of the command list: the category selection,
 * then the case-insensitive search over name and description.
 */
module CommandsList {
  import opened Strings
  import opened Lists
  import opened Catalog
  import opened Search

  /** The test the `commands.filter` callback applies to one command. */
  predicate Keep(selectedCategories: seq<string>, searchQuery: string, c: Command)
  {
    if |selectedCategories| > 0 && c.category !in selectedCategories then false
    else if searchQuery != [] then QueryMatches(c.name, c.description, searchQuery)
    else true
  }

  function FilteredCommands(commands: seq<Command>, selectedCategories: seq<string>, searchQuery: string)
    : (r: seq<Command>)
    ensures IsSubsequence(r, commands)
    ensures forall i :: 0 <= i < |r| ==> Keep(selectedCategories, searchQuery, r[i])
    ensures forall i :: 0 <= i < |commands| && Keep(selectedCategories, searchQuery, commands[i])
                        ==> commands[i] in r
    ensures multiset(r) <= multiset(commands)
    ensures forall c | c in commands ::
              multiset(r)[c] == if Keep(selectedCategories, searchQuery, c) then multiset(commands)[c] else 0
  {
    var p := (c: Command) => Keep(selectedCategories, searchQuery, c);
    FilterSubsequence(commands, p);
    FilterCounts(commands, p);
    Filter(commands, p)
  }

  /** With no category selected and no query, every command is listed, in order. */
  lemma NoFilterListsAll(commands: seq<Command>)
    ensures FilteredCommands(commands, [], "") == commands
  {
    FilterAll(commands, (c: Command) => Keep([], "", c));
  }

  /**
   * With a category selected, only commands of selected categories are
   * listed; with a query as well, a command of a selected category is listed
   * exactly when its name or description matches.
   */
  lemma SelectionAndQuery(commands: seq<Command>, selectedCategories: seq<string>, searchQuery: string)
    ensures |selectedCategories| > 0 ==>
              forall c :: c in FilteredCommands(commands, selectedCategories, searchQuery)
                          ==> c.category in selectedCategories
    ensures searchQuery != [] ==>
              forall c :: c in commands && (|selectedCategories| == 0 || c.category in selectedCategories) ==>
                (c in FilteredCommands(commands, selectedCategories, searchQuery)
                 <==> QueryMatches(c.name, c.description, searchQuery))
  {
    var r := FilteredCommands(commands, selectedCategories, searchQuery);
    forall c | c in r ensures Keep(selectedCategories, searchQuery, c) {
      var i :| 0 <= i < |r| && r[i] == c;
    }
  }

  /** A query and its lower-cased form list the same commands. */
  lemma CaseInsensitive(commands: seq<Command>, selectedCategories: seq<string>, searchQuery: string)
    ensures FilteredCommands(commands, selectedCategories, Lower(searchQuery))
            == FilteredCommands(commands, selectedCategories, searchQuery)
  {
    forall i | 0 <= i < |commands|
      ensures Keep(selectedCategories, Lower(searchQuery), commands[i])
              == Keep(selectedCategories, searchQuery, commands[i])
    {
      QueryMatchesLowered(commands[i].name, commands[i].description, searchQuery);
    }
    FilterAgree(commands, (c: Command) => Keep(selectedCategories, Lower(searchQuery), c),
                (c: Command) => Keep(selectedCategories, searchQuery, c));
  }
}
