/**
 * The records of the command and shortcut catalogs, with the shapes the
 * data files and components use.
 */
module Catalog {
  import opened Options

  datatype OS = Windows | Mac

  datatype Tool = Vscode | Obsidian | Notion

  /** One option of a command, with its text for each OS. */
  datatype CommandOption = CommandOption(id: string, windows: string, mac: string, description: string)

  /**
   * A command of the catalog; `category` is one of the category keys, kept
   * as its string, and `options` is absent on commands that take none.
   */
  datatype Command = Command(
    id: string,
    category: string,
    name: string,
    description: string,
    windowsCommand: string,
    macCommand: string,
    options: Option<seq<CommandOption>>)

  datatype Shortcut = Shortcut(
    id: string,
    tool: Tool,
    name: string,
    description: string,
    windowsKey: Option<string>,
    macKey: Option<string>,
    command: Option<string>,
    isCommand: bool)

  /** One step of a transaction: an optional command with optional option ids, and a note. */
  datatype TransactionStep = TransactionStep(commandId: Option<string>, optionIds: Option<seq<string>>, note: string)
}
