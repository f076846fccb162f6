/**
 * `buildCommand` of a transaction card: the command line of one step, made
 * of the OS-specific base command and the texts of the step's options.
 */
module TransactionCard {
  import opened Options
  import opened Strings
  import opened Lists
  import opened Catalog

  /** `os === 'windows' ? command.windowsCommand : command.macCommand`. */
  function BaseCommand(c: Command, os: OS): (s: string)
    ensures s == c.windowsCommand || s == c.macCommand
    ensures os == Windows ==> s == c.windowsCommand
    ensures os == Mac ==> s == c.macCommand
  {
    if os == Windows then c.windowsCommand else c.macCommand
  }

  /** The test `find` applies to the options: `o.id === optionId`. */
  function OptionHasId(optionId: string): CommandOption -> bool
  {
    (o: CommandOption) => o.id == optionId
  }

  /**
   * The text of option `optionId` of `c` for `os`: `None` when the command
   * has no options or none with that id; the first option with the id wins.
   */
  function OptionText(c: Command, os: OS, optionId: string): (t: Option<string>)
    ensures t.None? <==> c.options.None? || forall i :: 0 <= i < |c.options.value| ==> c.options.value[i].id != optionId
    ensures t.Some? ==> exists i :: IsFirstMatch(c.options.value, OptionHasId(optionId), i)
                                    && t.value == (if os == Windows then c.options.value[i].windows else c.options.value[i].mac)
  {
    match c.options
    case None => None
    case Some(opts) =>
      match Find(opts, OptionHasId(optionId))
      case None => None
      case Some(o) => Some(if os == Windows then o.windows else o.mac)
  }

  /** `.filter(Boolean)` on strings that may be null: the non-null, non-empty ones, in order. */
  function Truthy(xs: seq<Option<string>>): (r: seq<string>)
    ensures |r| <= |xs|
    ensures forall i :: 0 <= i < |r| ==> r[i] != []
    ensures r == [] <==> forall i :: 0 <= i < |xs| ==> xs[i].None? || xs[i].value == []
    ensures |xs| == 1 ==> r == (if xs[0].Some? && xs[0].value != [] then [xs[0].value] else [])
  {
    if xs == [] then []
    else (if xs[0].Some? && xs[0].value != [] then [xs[0].value] else []) + Truthy(xs[1..])
  }

  lemma {:induction false} TruthyAppend(a: seq<Option<string>>, b: seq<Option<string>>)
    ensures Truthy(a + b) == Truthy(a) + Truthy(b)
  {
    if a == [] {
      assert a + b == b;
    } else {
      assert (a + b)[1..] == a[1..] + b;
      TruthyAppend(a[1..], b);
    }
  }

  /** `optionIds.map(...)`: the text of each id, in order. */
  function OptionTexts(c: Command, os: OS, optionIds: seq<string>): (r: seq<Option<string>>)
    ensures |r| == |optionIds|
    ensures forall i :: 0 <= i < |r| ==> r[i] == OptionText(c, os, optionIds[i])
  {
    if optionIds == [] then []
    else [OptionText(c, os, optionIds[0])] + OptionTexts(c, os, optionIds[1..])
  }

  lemma {:induction false} OptionTextsAppend(c: Command, os: OS, a: seq<string>, b: seq<string>)
    ensures OptionTexts(c, os, a + b) == OptionTexts(c, os, a) + OptionTexts(c, os, b)
  {
    if a == [] {
      assert a + b == b;
    } else {
      assert (a + b)[1..] == a[1..] + b;
      OptionTextsAppend(c, os, a[1..], b);
    }
  }

  /** The option texts of the ids, `map` then `filter(Boolean)`. */
  function ResolvedOptions(c: Command, os: OS, optionIds: seq<string>): (r: seq<string>)
    ensures |r| <= |optionIds|
    ensures forall i :: 0 <= i < |r| ==> r[i] != []
  {
    Truthy(OptionTexts(c, os, optionIds))
  }

  /**
   * The options resolve id by id, in the order of the ids; an id that names
   * no option, or an option whose text is empty, contributes nothing.
   */
  lemma ResolvedOptionsAppend(c: Command, os: OS, a: seq<string>, b: seq<string>)
    ensures ResolvedOptions(c, os, a + b) == ResolvedOptions(c, os, a) + ResolvedOptions(c, os, b)
  {
    OptionTextsAppend(c, os, a, b);
    TruthyAppend(OptionTexts(c, os, a), OptionTexts(c, os, b));
  }

  lemma ResolvedOption(c: Command, os: OS, optionId: string)
    ensures var t := OptionText(c, os, optionId);
            ResolvedOptions(c, os, [optionId]) == if t.Some? && t.value != [] then [t.value] else []
  {
    assert OptionTexts(c, os, [optionId])[1..] == [];
  }

  /** The test `find` applies to the commands: `c.id === step.commandId`. */
  function HasId(id: string): Command -> bool
  {
    (c: Command) => c.id == id
  }

  /** `buildCommand` for one step; `None` stands for `null`. */
  function BuildCommand(commands: seq<Command>, step: TransactionStep, os: OS): (r: Option<string>)
    ensures step.commandId.None? || step.commandId.value == [] ==> r.None?
    ensures r.Some? <==> step.commandId.Some? && step.commandId.value != []
                         && exists i :: 0 <= i < |commands| && commands[i].id == step.commandId.value
  {
    if step.commandId.None? || step.commandId.value == [] then None
    else
      match Find(commands, HasId(step.commandId.value))
      case None => None
      case Some(c) =>
        var base := BaseCommand(c, os);
        if step.optionIds.Some? && |step.optionIds.value| > 0 then
          var options := ResolvedOptions(c, os, step.optionIds.value);
          if |options| > 0 then Some(base + " " + Join(options, " ")) else Some(base)
        else Some(base)
  }

  /**
   * The command of a step is the first one in the table with its id. Without
   * option ids, or when none of them yields a text, the line is that
   * command's base command for the OS; otherwise it is the base command, a
   * space and the option texts joined by spaces.
   */
  lemma BuildCommandOfFirstMatch(commands: seq<Command>, step: TransactionStep, os: OS, k: nat)
    requires step.commandId.Some? && step.commandId.value != []
    requires k < |commands| && commands[k].id == step.commandId.value
    requires forall j :: 0 <= j < k ==> commands[j].id != step.commandId.value
    ensures var base := BaseCommand(commands[k], os);
            var ids := if step.optionIds.Some? then step.optionIds.value else [];
            var options := ResolvedOptions(commands[k], os, ids);
            && (options == [] ==> BuildCommand(commands, step, os) == Some(base))
            && (options != [] ==> BuildCommand(commands, step, os) == Some(base + " " + Join(options, " ")))
  {
    FindFirstMatch(commands, HasId(step.commandId.value), k);
  }

  /** Two entries of the command catalog, used as fixtures. */
  const MigrationGenerate := Command(
    "sequelize-migration-generate", "sequelize", "マイグレーションファイル作成",
    "マイグレーションファイルのみ作成（中身は自分で書く）",
    "sequelize migration:generate", "sequelize migration:generate",
    Some([CommandOption("name", "--name {マイグレーション名}", "--name {マイグレーション名}",
                        "マイグレーションファイル名を指定")]))

  const ModelGenerate := Command(
    "sequelize-model-generate", "sequelize", "モデル + マイグレーション作成",
    "モデルとマイグレーションファイルを同時作成",
    "sequelize model:generate", "sequelize model:generate",
    Some([CommandOption("name", "--name {モデル名}", "--name {モデル名}", "モデル名を指定（例：User）"),
          CommandOption("attributes", "--attributes {属性定義}", "--attributes {属性定義}",
                        "属性を指定（例：name:string,email:string）。省略可能")]))

  /** The model generator offers `name` but no `underscored` option. */
  lemma ModelGenerateOptionTexts()
    ensures OptionText(ModelGenerate, Mac, "name") == Some("--name {モデル名}")
    ensures OptionText(ModelGenerate, Mac, "underscored").None?
  {
    var opts := ModelGenerate.options.value;
    FindFirstMatch(opts, OptionHasId("name"), 0);
    assert opts[0].id != "underscored" && opts[1].id != "underscored";
  }

  /** The step asks for `name` and for `underscored`, which the command does not offer. */
  lemma ModelGenerateOptions()
    ensures ResolvedOptions(ModelGenerate, Mac, ["name", "underscored"]) == ["--name {モデル名}"]
  {
    ModelGenerateOptionTexts();
    ResolvedOptionsAppend(ModelGenerate, Mac, ["name"], ["underscored"]);
    ResolvedOption(ModelGenerate, Mac, "name");
    ResolvedOption(ModelGenerate, Mac, "underscored");
    assert ["name", "underscored"] == ["name"] + ["underscored"];
  }

  /**
   * The first step of the new-table transaction: the unknown option id is
   * dropped and the known one follows the base command.
   */
  lemma NewTableFirstStep()
    ensures BuildCommand([MigrationGenerate, ModelGenerate],
                         TransactionStep(Some("sequelize-model-generate"), Some(["name", "underscored"]),
                                         "モデルとマイグレーションファイルを作成。attributesは後から追加でもOK"),
                         Mac)
            == Some("sequelize model:generate" + " " + "--name {モデル名}")
  {
    var step := TransactionStep(Some("sequelize-model-generate"), Some(["name", "underscored"]),
                                "モデルとマイグレーションファイルを作成。attributesは後から追加でもOK");
    assert MigrationGenerate.id != "sequelize-model-generate";
    BuildCommandOfFirstMatch([MigrationGenerate, ModelGenerate], step, Mac, 1);
    ModelGenerateOptions();
    assert Join(["--name {モデル名}"], " ") == "--name {モデル名}";
  }
}
