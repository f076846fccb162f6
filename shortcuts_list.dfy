/**
 * The `filteredShortcuts` memo of the shortcut list: the tool selection,
 * then the case-insensitive search over name and description.
 */
module ShortcutsList {
  import opened Strings
  import opened Lists
  import opened Catalog
  import opened Search

  /** The test the `shortcuts.filter` callback applies to one shortcut. */
  predicate Keep(selectedTools: seq<Tool>, searchQuery: string, s: Shortcut)
  {
    if |selectedTools| > 0 && s.tool !in selectedTools then false
    else if searchQuery != [] then QueryMatches(s.name, s.description, searchQuery)
    else true
  }

  function FilteredShortcuts(shortcuts: seq<Shortcut>, selectedTools: seq<Tool>, searchQuery: string)
    : (r: seq<Shortcut>)
    ensures IsSubsequence(r, shortcuts)
    ensures forall i :: 0 <= i < |r| ==> Keep(selectedTools, searchQuery, r[i])
    ensures forall i :: 0 <= i < |shortcuts| && Keep(selectedTools, searchQuery, shortcuts[i])
                        ==> shortcuts[i] in r
    ensures multiset(r) <= multiset(shortcuts)
    ensures forall s | s in shortcuts ::
              multiset(r)[s] == if Keep(selectedTools, searchQuery, s) then multiset(shortcuts)[s] else 0
  {
    var p := (s: Shortcut) => Keep(selectedTools, searchQuery, s);
    FilterSubsequence(shortcuts, p);
    FilterCounts(shortcuts, p);
    Filter(shortcuts, p)
  }

  /** With no tool selected and no query, every shortcut is listed, in order. */
  lemma NoFilterListsAll(shortcuts: seq<Shortcut>)
    ensures FilteredShortcuts(shortcuts, [], "") == shortcuts
  {
    FilterAll(shortcuts, (s: Shortcut) => Keep([], "", s));
  }

  /**
   * With a tool selected, only shortcuts of selected tools are listed; with a
   * query, a shortcut of a selected tool is listed exactly when its name or
   * description matches.
   */
  lemma SelectionAndQuery(shortcuts: seq<Shortcut>, selectedTools: seq<Tool>, searchQuery: string)
    ensures |selectedTools| > 0 ==>
              forall s :: s in FilteredShortcuts(shortcuts, selectedTools, searchQuery)
                          ==> s.tool in selectedTools
    ensures searchQuery != [] ==>
              forall s :: s in shortcuts && (|selectedTools| == 0 || s.tool in selectedTools) ==>
                (s in FilteredShortcuts(shortcuts, selectedTools, searchQuery)
                 <==> QueryMatches(s.name, s.description, searchQuery))
  {
    var r := FilteredShortcuts(shortcuts, selectedTools, searchQuery);
    forall s | s in r ensures Keep(selectedTools, searchQuery, s) {
      var i :| 0 <= i < |r| && r[i] == s;
    }
  }

  /** A query and its lower-cased form list the same shortcuts. */
  lemma CaseInsensitive(shortcuts: seq<Shortcut>, selectedTools: seq<Tool>, searchQuery: string)
    ensures FilteredShortcuts(shortcuts, selectedTools, Lower(searchQuery))
            == FilteredShortcuts(shortcuts, selectedTools, searchQuery)
  {
    forall i | 0 <= i < |shortcuts|
      ensures Keep(selectedTools, Lower(searchQuery), shortcuts[i])
              == Keep(selectedTools, searchQuery, shortcuts[i])
    {
      QueryMatchesLowered(shortcuts[i].name, shortcuts[i].description, searchQuery);
    }
    FilterAgree(shortcuts, (s: Shortcut) => Keep(selectedTools, Lower(searchQuery), s),
                (s: Shortcut) => Keep(selectedTools, searchQuery, s));
  }

  /**
   * Selecting more tools (from a non-empty selection) never hides a shortcut:
   * the smaller selection lists a subsequence of what the larger one lists.
   */
  lemma MoreToolsListMore(shortcuts: seq<Shortcut>, sel1: seq<Tool>, sel2: seq<Tool>, searchQuery: string)
    requires |sel1| > 0
    requires forall t :: t in sel1 ==> t in sel2
    ensures IsSubsequence(FilteredShortcuts(shortcuts, sel1, searchQuery),
                          FilteredShortcuts(shortcuts, sel2, searchQuery))
    ensures |FilteredShortcuts(shortcuts, sel1, searchQuery)| <= |FilteredShortcuts(shortcuts, sel2, searchQuery)|
  {
    FilterWeaker(shortcuts, (s: Shortcut) => Keep(sel1, searchQuery, s),
                 (s: Shortcut) => Keep(sel2, searchQuery, s));
  }
}
