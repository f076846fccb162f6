/** The tool bar of the shortcut list. */
module ToolFilter {
  import opened Lists
  import opened Catalog
  import opened Selection

  /**
   * `toggleTool`: the tool's membership flips, an added tool goes at the
   * end, a removed one loses every occurrence, and every other tool keeps
   * its occurrences and their order.
   */
  function ToggleTool(selectedTools: seq<Tool>, tool: Tool): (r: seq<Tool>)
    ensures tool in r <==> tool !in selectedTools
    ensures tool !in selectedTools ==> r == selectedTools + [tool]
    ensures Remove(r, tool) == Remove(selectedTools, tool)
  {
    ToggleKeepsOthers(selectedTools, tool);
    Toggle(selectedTools, tool)
  }

  /** A single toggle keeps the selection duplicate-free, and toggling an absent tool twice restores it. */
  lemma ToggleToolTwice(selectedTools: seq<Tool>, tool: Tool)
    requires NoDuplicates(selectedTools)
    ensures NoDuplicates(ToggleTool(selectedTools, tool))
    ensures tool !in selectedTools ==> ToggleTool(ToggleTool(selectedTools, tool), tool) == selectedTools
  {
    ToggleNoDuplicates(selectedTools, tool);
    if tool !in selectedTools {
      ToggleTwice(selectedTools, tool);
    }
  }
}
