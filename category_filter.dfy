/** The category bar of the command list. */
module CategoryFilter {
  import opened Lists
  import opened Catalog
  import opened Selection

  /**
   * `toggleCategory`: the category's membership flips, an added category
   * goes at the end, a removed one loses every occurrence, and every other
   * category keeps its occurrences and their order.
   */
  function ToggleCategory(selectedCategories: seq<string>, category: string): (r: seq<string>)
    ensures category in r <==> category !in selectedCategories
    ensures category !in selectedCategories ==> r == selectedCategories + [category]
    ensures Remove(r, category) == Remove(selectedCategories, category)
  {
    ToggleKeepsOthers(selectedCategories, category);
    Toggle(selectedCategories, category)
  }
}
