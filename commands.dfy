/**
 * The two command catalogs of the prompt: the static commands (`help`, `\q`, `\u`) and
 * the built-in meta-commands (`\d`, `\dt`, `\dv`, `\d schema.table`), which expand to
 * SQL templates; and the lookup that turns a typed line into a template's text.
 */
module Commands {
  import opened Wrappers
  import opened JsText
  import opened Regex
  import opened Names
  import opened Templates

  // ---------------------------------------------------------------------------------
  // The catalogs
  // ---------------------------------------------------------------------------------

  const ListTablesAndViews := "\n\t\tSELECT [TABLE_SCHEMA] AS [schema], [TABLE_NAME] AS [name], [TABLE_TYPE] AS [type]"
    + "\n\t\tFROM [information_schema].[tables]\n\t\tORDER BY [TABLE_SCHEMA], [TABLE_NAME];"

  const ListTables := "\n\t\tSELECT [TABLE_SCHEMA] AS [schema], [TABLE_NAME] AS [name], [TABLE_TYPE] AS [type]"
    + "\n\t\tFROM [information_schema].[tables]\n\t\tWHERE [TABLE_TYPE] = 'BASE TABLE'\n\t\tORDER BY [TABLE_SCHEMA], [TABLE_NAME];"

  const ListViews := "\n\t\tSELECT [TABLE_SCHEMA] AS [schema], [TABLE_NAME] AS [name], [TABLE_TYPE] AS [type]"
    + "\n\t\tFROM [information_schema].[tables]\n\t\tWHERE [TABLE_TYPE] = 'VIEW'\n\t\tORDER BY [TABLE_SCHEMA], [TABLE_NAME];"

  /** The column query, cut at its two placeholders `$1` (the schema) and `$2` (the table). */
  const DescribeSelect := "\n\t\tSELECT [COLUMN_NAME] AS [column], "
  const DescribeType := "[DATA_TYPE] AS [type], CASE WHEN "
  const DescribeNullable := "[IS_NULLABLE] = 'NO' THEN 'not null' "
  const DescribeModifiers := "ELSE '' END AS [modifiers]\n\t\tFROM "
  const DescribeFrom := "information_schema.columns\n\t\t"
  const DescribeWhere := "WHERE [TABLE_SCHEMA] = '"
  const DescribeHead := DescribeSelect + DescribeType + DescribeNullable + DescribeModifiers + DescribeFrom + DescribeWhere
  const DescribeMiddle := "' AND [TABLE_NAME] = '"
  const DescribeTail := "'\n\t\tORDER BY [ORDINAL_POSITION] ASC;"
  const DescribeTable := DescribeHead + "$1" + DescribeMiddle + "$2" + DescribeTail

  /** A catalog entry: an optional parameter pattern and the SQL template. */
  datatype Entry = Entry(pattern: Option<Pattern>, cmd: string)

  /** `builtInCommands`, keyed by trigger; `\d` lists everything without a parameter and describes a table with one. */
  const BuiltInCommands: map<string, seq<Entry>> := map[
    "\\d" := [Entry(None, ListTablesAndViews), Entry(Some(QualifiedName), DescribeTable)],
    "\\dt" := [Entry(None, ListTables)],
    "\\dv" := [Entry(None, ListViews)]
  ]

  /** The commands of `staticCommands`, each acting on the prompt. */
  datatype StaticCommand = Help | Quit | Refresh

  const StaticCommands: map<string, StaticCommand> := map["help" := Help, "\\q" := Quit, "\\u" := Refresh]

  // ---------------------------------------------------------------------------------
  // Expanding a built-in command
  // ---------------------------------------------------------------------------------

  /** `!params`: no parameter, or the empty one. */
  predicate Falsy(param: Option<string>) {
    param.None? || param.value == ""
  }

  /** Entries `_getBuiltInCommand` can walk without calling `match` on `null`; every pattern well formed. */
  ghost predicate Walkable(entries: seq<Entry>, param: Option<string>) {
    && (param.None? ==> entries == [] || entries[0].pattern.None?)
    && forall k :: 0 <= k < |entries| && entries[k].pattern.Some? ==>
         WellFormed(entries[k].pattern.value) && entries[k].pattern.value.pieces != []
  }

  /**
   * What `_getBuiltInCommand` returns over `entries`: the first parameterless entry when
   * there is no parameter; with one, the first pattern entry whose pattern matches, its
   * template with the match substituted. `None` stands for `undefined`.
   */
  function Expansion(entries: seq<Entry>, param: Option<string>): Option<string>
    requires Walkable(entries, param)
  {
    if entries == [] then None
    else
      var e := entries[0];
      if e.pattern.None? then
        if Falsy(param) then Some(e.cmd) else Expansion(entries[1..], param)
      else
        match Exec(e.pattern.value, param.value)
        case None => Expansion(entries[1..], param)
        case Some(m) => Some(Substituted(e.cmd, m, |m|))
  }

  /**
   * The parameter `getBuiltInCommand` passes on: `null` without a space, else
   * `cmd.slice(-(cmd.length - fCmd.length - 1))`, which is the text after the first
   * space, or the whole command when nothing follows that space (`slice(-0)`).
   */
  function Param(cmd: string): Option<string> {
    var f := Before(cmd, ' ');
    if |f| == |cmd| then None
    else
      var k := |cmd| - |f| - 1;
      if k == 0 then Some(cmd) else Some(cmd[|cmd| - k..])
  }

  lemma CatalogWalkable(key: string, param: Option<string>)
    requires key in BuiltInCommands
    ensures Walkable(BuiltInCommands[key], param)
  {
  }

  /** `getBuiltInCommand`: the expansion for the first space-separated word, `None` (`null`) for an unknown one. */
  function BuiltIn(cmd: string): Option<string> {
    var f := Before(cmd, ' ');
    if f !in BuiltInCommands then None
    else
      CatalogWalkable(f, Param(cmd));
      Expansion(BuiltInCommands[f], Param(cmd))
  }

  /** `_getBuiltInCommand(cmd, params)`: the loop over the entries of the trigger. */
  method Expand(key: string, params: Option<string>) returns (r: Option<string>)
    requires key in BuiltInCommands
    ensures Walkable(BuiltInCommands[key], params) && r == Expansion(BuiltInCommands[key], params)
  {
    var entries := BuiltInCommands[key];
    CatalogWalkable(key, params);
    var i := 0;
    while i < |entries|
      invariant 0 <= i <= |entries|
      invariant params.None? ==> i == 0
      invariant Walkable(entries[i..], params)
      invariant Expansion(entries[i..], params) == Expansion(entries, params)
    {
      var opt := entries[i];
      assert entries[i..][0] == opt && entries[i..][1..] == entries[i + 1..];
      if opt.pattern.None? && Falsy(params) {
        return Some(opt.cmd);
      }
      if opt.pattern.None? && !Falsy(params) {
        i := i + 1;
        continue;
      }
      var m := Exec(opt.pattern.value, params.value);
      if m.None? {
        i := i + 1;
        continue;
      }
      var finalCmd := opt.cmd;
      var j := 0;
      while j < |m.value|
        invariant 0 <= j <= |m.value|
        invariant finalCmd == Substituted(opt.cmd, m.value, j)
      {
        finalCmd := Replace(finalCmd, Placeholder(j), m.value[j]);
        j := j + 1;
      }
      return Some(finalCmd);
    }
    return None;
  }

  /** `getBuiltInCommand(cmd)`. */
  method GetBuiltInCommand(cmd: string) returns (r: Option<string>)
    ensures r == BuiltIn(cmd)
  {
    var fCmd := Before(cmd, ' ');
    if fCmd !in BuiltInCommands {
      return None;
    }
    var param := Param(cmd);
    r := Expand(fCmd, param);
  }

  /** `isBuiltInCommand(cmd)`: `getBuiltInCommand` gave neither `null` nor `undefined`. */
  method IsBuiltInCommand(cmd: string) returns (b: bool)
    ensures b <==> BuiltIn(cmd).Some?
  {
    var r := GetBuiltInCommand(cmd);
    b := r.Some?;
  }

  // ---------------------------------------------------------------------------------
  // Properties
  // ---------------------------------------------------------------------------------

  /** A bare trigger gives its parameterless template unchanged. */
  lemma BareTriggersGiveTheirTemplates()
    ensures BuiltIn("\\d") == Some(ListTablesAndViews)
    ensures BuiltIn("\\dt") == Some(ListTables)
    ensures BuiltIn("\\dv") == Some(ListViews)
  {
    BareTrigger("\\d");
    BareTrigger("\\dt");
    BareTrigger("\\dv");
  }

  /** A trigger alone has no parameter and selects the first entry of its trigger. */
  lemma BareTrigger(f: string)
    requires f in BuiltInCommands && ' ' !in f
    ensures BuiltIn(f) == Some(BuiltInCommands[f][0].cmd)
  {
    assert Before(f, ' ') == f;
    assert Param(f) == None;
  }

  /** The catalog's triggers are exactly `\d`, `\dt` and `\dv`. */
  lemma CatalogKeys()
    ensures BuiltInCommands.Keys == {"\\d", "\\dt", "\\dv"}
  {
  }

  /**
   * Only the first word selects the catalog entry: a line whose first word is none of
   * the three triggers is not a built-in command, whatever follows it.
   */
  lemma UnknownTriggerIsNoBuiltIn(cmd: string)
    requires Before(cmd, ' ') !in {"\\d", "\\dt", "\\dv"}
    ensures BuiltIn(cmd) == None
  {
    CatalogKeys();
  }

  /** Only a line that starts with a backslash is a built-in command. */
  lemma BuiltInStartsWithBackslash(cmd: string)
    requires BuiltIn(cmd).Some?
    ensures cmd != [] && cmd[0] == '\\'
  {
    var f := Before(cmd, ' ');
    assert f == "\\d" || f == "\\dt" || f == "\\dv";
    assert f[0] == '\\' && f <= cmd;
  }

  /** The parameter is the text after the first space, whenever something follows it. */
  lemma ParamIsTheRest(f: string, rest: string)
    requires ' ' !in f && rest != []
    ensures Before(f + " " + rest, ' ') == f && Param(f + " " + rest) == Some(rest)
  {
    var cmd := f + " " + rest;
    assert cmd[..|f|] == f && cmd[|f|] == ' ';
    BeforeAt(cmd, ' ', |f|);
    assert cmd[|f| + 1..] == rest;
  }

  /** With a parameter after the trigger, the lookup walks the trigger's entries with that parameter. */
  lemma WithParameter(f: string, rest: string)
    requires ' ' !in f && f in BuiltInCommands && rest != []
    ensures Walkable(BuiltInCommands[f], Some(rest))
    ensures BuiltIn(f + " " + rest) == Expansion(BuiltInCommands[f], Some(rest))
  {
    ParamIsTheRest(f, rest);
    CatalogWalkable(f, Some(rest));
  }

  lemma DescribeEntries()
    ensures BuiltInCommands["\\d"] == [Entry(None, ListTablesAndViews), Entry(Some(QualifiedName), DescribeTable)]
  {
  }

  lemma ListEntries()
    ensures BuiltInCommands["\\dt"] == [Entry(None, ListTables)] && BuiltInCommands["\\dv"] == [Entry(None, ListViews)]
  {
  }

  /** A single parameterless entry refuses a parameter. */
  lemma LoneEntryRefuses(e: Entry, rest: string)
    requires e.pattern.None? && rest != []
    ensures Walkable([e], Some(rest)) && Expansion([e], Some(rest)) == None
  {
    assert [e][1..] == [];
  }

  /** `\dt` and `\dv` take no parameter: with one they are no built-in command, and the line is SQL. */
  lemma ParameterlessTriggersRefuseParameters(f: string, rest: string)
    requires (f == "\\dt" || f == "\\dv") && rest != []
    ensures BuiltIn(f + " " + rest) == None
  {
    WithParameter(f, rest);
    ListEntries();
    LoneEntryRefuses(BuiltInCommands[f][0], rest);
  }

  /** Past a parameterless first entry, a parameter that the second entry's pattern matches selects that entry. */
  lemma SecondEntryMatches(es: seq<Entry>, param: Option<string>, m: seq<string>)
    requires Walkable(es, param) && |es| >= 2 && es[0].pattern.None? && !Falsy(param) && es[1].pattern.Some?
    requires Exec(es[1].pattern.value, param.value) == Some(m)
    ensures Expansion(es, param) == Some(Substituted(es[1].cmd, m, |m|))
  {
    assert es[1..][0] == es[1];
  }

  /** Past a parameterless first entry, a parameter that the second and last entry's pattern misses selects nothing. */
  lemma SecondEntryMisses(es: seq<Entry>, param: Option<string>)
    requires Walkable(es, param) && |es| == 2 && es[0].pattern.None? && !Falsy(param) && es[1].pattern.Some?
    requires Exec(es[1].pattern.value, param.value) == None
    ensures Expansion(es, param) == None
  {
    assert es[1..][0] == es[1] && es[1..][1..] == [];
    assert Expansion(es[1..], param) == Expansion(es[1..][1..], param);
  }

  /** A `\d` parameter the pattern does not match falls through: `\d` with it is no built-in command. */
  lemma UnmatchedParameterFallsThrough(rest: string)
    requires rest != [] && Exec(QualifiedName, rest) == None
    ensures BuiltIn("\\d " + rest) == None
  {
    assert "\\d " + rest == "\\d" + " " + rest;
    WithParameter("\\d", rest);
    DescribeEntries();
    SecondEntryMisses(BuiltInCommands["\\d"], Some(rest));
  }

  /** The `\\d` entries, given a parameter the pattern matches with the match array `m`: the column query with `m` substituted. */
  lemma DescribeExpansion(es: seq<Entry>, rest: string, m: seq<string>)
    requires es == [Entry(None, ListTablesAndViews), Entry(Some(QualifiedName), DescribeTable)]
    requires rest != [] && Exec(QualifiedName, rest) == Some(m) && Walkable(es, Some(rest))
    ensures Expansion(es, Some(rest)) == Some(Substituted(DescribeTable, m, |m|))
  {
    SecondEntryMatches(es, Some(rest), m);
  }

  /** The column query holds no `$` but those of its placeholders. */
  lemma DescribeTextsLackDollar()
    ensures '$' !in DescribeHead && '$' !in DescribeMiddle && '$' !in DescribeTail
  {
    SelectLacksDollar();
    TypeLacksDollar();
    NullableLacksDollar();
    ModifiersLacksDollar();
    FromLacksDollar();
    WhereLacksDollar();
  }

  lemma SelectLacksDollar() ensures '$' !in DescribeSelect {}
  lemma TypeLacksDollar() ensures '$' !in DescribeType {}
  lemma NullableLacksDollar() ensures '$' !in DescribeNullable {}
  lemma ModifiersLacksDollar() ensures '$' !in DescribeModifiers {}
  lemma FromLacksDollar() ensures '$' !in DescribeFrom {}
  lemma WhereLacksDollar() ensures '$' !in DescribeWhere {}

  /**
   * The placeholders take the two names: the schema replaces `$1` and the table `$2`,
   * as long as the schema holds no `$`.
   */
  lemma DescribeSubstitution(whole: string, x: string, y: string)
    requires '$' !in x
    ensures Substituted(DescribeTable, [whole, x, y], 3) == DescribeHead + x + DescribeMiddle + y + DescribeTail
  {
    DescribeTextsLackDollar();
    TwoPlaceholders(DescribeHead, DescribeMiddle, DescribeTail, whole, x, y);
  }

  /**
   * `\d schema.table`, with or without brackets around either name, describes that table:
   * the column query for the bare schema and table names.
   */
  lemma DescribeNamesTheTable(o1: string, x: string, c1: string, o2: string, y: string, c2: string)
    requires AllOf(AnyOf({'['}), o1) && AllOf(AnyOf({']'}), c1) && AllOf(AnyOf({'['}), o2) && AllOf(AnyOf({']'}), c2)
    requires x != [] && y != [] && AllOf(NameChar, x) && AllOf(NameChar, y) && '$' !in x
    ensures BuiltIn("\\d " + ((o1 + x + c1) + "." + (o2 + y + c2))) == Some(DescribeHead + x + DescribeMiddle + y + DescribeTail)
  {
    var rest := (o1 + x + c1) + "." + (o2 + y + c2);
    var m := [rest, x, y];
    QualifiedNameMatches(o1, x, c1, o2, y, c2);
    assert "\\d " + rest == "\\d" + " " + rest;
    WithParameter("\\d", rest);
    var es := BuiltInCommands["\\d"];
    DescribeEntries();
    DescribeExpansion(es, rest, m);
    assert |m| == 3;
    DescribeSubstitution(rest, x, y);
  }

  /** The names of the examples below are plain names, and their brackets brackets. */
  lemma ExampleNames()
    ensures AllOf(NameChar, "dbo") && AllOf(NameChar, "Customers") && '$' !in "dbo"
    ensures AllOf(AnyOf({'['}), "") && AllOf(AnyOf({']'}), "") && AllOf(AnyOf({'['}), "[") && AllOf(AnyOf({']'}), "]")
  {
  }

  lemma ExampleLines()
    ensures "\\d " + (("" + "dbo" + "") + "." + ("" + "Customers" + "")) == "\\d dbo.Customers"
    ensures "\\d " + (("[" + "dbo" + "]") + "." + ("[" + "Customers" + "]")) == "\\d [dbo].[Customers]"
  {
  }

  /**
   * `\d dbo.Customers` describes the table `Customers` of the schema `dbo`, and so does
   * `\d [dbo].[Customers]`: the brackets are not part of the names.
   */
  lemma DescribeExample()
    ensures BuiltIn("\\d dbo.Customers") == Some(DescribeHead + "dbo" + DescribeMiddle + "Customers" + DescribeTail)
    ensures BuiltIn("\\d [dbo].[Customers]") == BuiltIn("\\d dbo.Customers")
  {
    ExampleNames();
    ExampleLines();
    DescribeNamesTheTable("", "dbo", "", "", "Customers", "");
    DescribeNamesTheTable("[", "dbo", "]", "[", "Customers", "]");
  }
}
