/**
 * The interactive prompt, class `Prompt`: the pending batch that lines accumulate
 * into, the dispatch of each line (static commands, built-in commands, `GO`, a line
 * to append), the interrupt key, the refresh of the suggestion index from the
 * schema, and the tab completer that edits the line buffer in place.
 *
 * Each method is tied to a function of the session's state (`Shell`): the method's
 * new state is that function of its old state, and the lemmas below state what the
 * functions promise.
 */
module Session {
  import opened Wrappers
  import opened JsText
  import opened Records
  import opened Service
  import opened Commands
  import opened Suggestions

  // ---------------------------------------------------------------------------------
  // The schema query and its rows
  // ---------------------------------------------------------------------------------

  /** `suggestionCollector`: every column of every table, as quoted names, in table order. */
  const SuggestionCollector := CollectorSelect + CollectorTable + CollectorColumn + CollectorFrom + CollectorOrder + CollectorTail

  const CollectorSelect := "\n\tSELECT QUOTENAME([TABLE_SCHEMA])"
  const CollectorTable := " + '.' + QUOTENAME([TABLE_NAME])"
  const CollectorColumn := " AS [table], QUOTENAME([COLUMN_NAME])"
  const CollectorFrom := " AS [column]\n\tFROM information_schema"
  const CollectorOrder := ".columns\n\tORDER BY [TABLE_SCHEMA], "
  const CollectorTail := "[TABLE_NAME], [ORDINAL_POSITION];"

  /** The schema query holds no directive: `prepare` leaves it as it is. */
  lemma CollectorHasNoDirectives(cfg: Config)
    ensures AfterDirectives(cfg, Quiet, SuggestionCollector) == Prepared(WithDefaults(cfg, Quiet), SuggestionCollector)
    ensures Stripped(SuggestionCollector) == SuggestionCollector
  {
    SelectLacksDash();
    TableLacksDash();
    ColumnLacksDash();
    FromLacksDash();
    OrderLacksDash();
    TailLacksDash();
    NoDashNoDirectives(cfg, Quiet, SuggestionCollector);
  }

  lemma SelectLacksDash() ensures '-' !in CollectorSelect {}
  lemma TableLacksDash() ensures '-' !in CollectorTable {}
  lemma ColumnLacksDash() ensures '-' !in CollectorColumn {}
  lemma FromLacksDash() ensures '-' !in CollectorFrom {}
  lemma OrderLacksDash() ensures '-' !in CollectorOrder {}
  lemma TailLacksDash() ensures '-' !in CollectorTail {}

  /** `obj[key]`: the value of the record's field `key`; `None` is `undefined`. */
  function FieldOf(r: Record, key: string): Option<Value> {
    if r == [] then None else if r[0].0 == key then Some(r[0].1) else FieldOf(r[1..], key)
  }

  /** The row `{table, column}` a record of the schema query holds, when both are text. */
  function SchemaRowOf(r: Record): Option<SchemaRow> {
    match (FieldOf(r, "table"), FieldOf(r, "column"))
    case (Some(Text(t)), Some(Text(c))) => Some(SchemaRow(t, c))
    case _ => None
  }

  ghost predicate SchemaRecords(records: seq<Record>) {
    forall i :: 0 <= i < |records| ==> SchemaRowOf(records[i]).Some?
  }

  /** The rows of the schema query's records, in order. */
  function SchemaRows(records: seq<Record>): (rows: seq<SchemaRow>)
    requires SchemaRecords(records)
    ensures |rows| == |records|
    ensures forall i :: 0 <= i < |records| ==> SchemaRowOf(records[i]) == Some(rows[i])
  {
    if records == [] then []
    else
      assert SchemaRecords(records[..|records| - 1]) by {
        assert forall i :: 0 <= i < |records| - 1 ==> records[..|records| - 1][i] == records[i];
      }
      SchemaRows(records[..|records| - 1]) + [SchemaRowOf(records[|records| - 1]).value]
  }

  /** One more record gives one more row. */
  lemma SchemaRowsSnoc(records: seq<Record>, i: nat)
    requires SchemaRecords(records) && i < |records|
    ensures SchemaRecords(records[..i]) && SchemaRecords(records[..i + 1])
    ensures SchemaRows(records[..i + 1]) == SchemaRows(records[..i]) + [SchemaRowOf(records[i]).value]
  {
    assert forall k :: 0 <= k < i + 1 ==> records[..i + 1][k] == records[k];
    assert forall k :: 0 <= k < i ==> records[..i][k] == records[k];
    assert records[..i + 1][..i] == records[..i];
  }

  /** The grouping of rows with one more row is that row added to the grouping. */
  lemma GroupedSnoc(rows: seq<SchemaRow>, row: SchemaRow)
    ensures Grouped(rows + [row]) == Add(Grouped(rows), row)
  {
    assert (rows + [row])[..|rows|] == rows;
  }

  /** A reply to the schema query whose first row set exists holds a table and a column in every record. */
  ghost predicate SchemaReply(r: Reply) {
    r.Success? && r.sets != [] ==> SchemaRecords(r.sets[0].records)
  }

  /** The server answers the schema query `q` with schema rows, whatever was submitted before. */
  ghost predicate CollectorWf(d: Driver, q: string) {
    forall h :: SchemaReply(d(h, Stripped(q)))
  }

  // ---------------------------------------------------------------------------------
  // The session's state and what each event does to it
  // ---------------------------------------------------------------------------------

  /**
   * What a session does not change: the connection's settings, the driver, `newPrompt`
   * and the schema query.
   */
  datatype Env = Env(cfg: Config, driver: Driver, newPrompt: string, collector: string)

  ghost predicate EnvWf(e: Env) {
    DriverWf(e.driver) && CollectorWf(e.driver, e.collector)
  }

  /**
   * The prompt's state: the pending batch `sql`, the prompt text last set, the index
   * `rs`, readline's line buffer and cursor, whether readline was closed, and the
   * connection's record.
   */
  datatype Shell = Shell(sql: string, prompt: string, rs: Index, line: string, cursor: nat, rlClosed: bool, conn: Conn)

  /** `newPrompt`: `user/database= `. */
  function NewPrompt(user: string, database: string): (p: string)
    ensures p == user + "/" + database + "= "
  {
    user + "/" + database + "= "
  }

  /** `resumePrompt`, shown while a batch is pending without a final `;`. */
  const ResumePrompt := "-> "

  /** readline's prompt until one is set. */
  const DefaultPrompt := "> "

  /** The options of a batch run with no options object (`options || {}`). */
  const Plain := Flags(false, false, false)

  /** `{silent: true}`. */
  const Quiet := Flags(false, false, true)

  /** `s.slice(-1)`: the last character, or the empty text. */
  function SliceLast(s: string): (r: string)
    ensures |r| == (if s == [] then 0 else 1) && r <= s[|s| - |r|..]
  {
    if s == [] then [] else s[|s| - 1..]
  }

  /** `reset`: no pending batch, the new prompt. */
  function AfterReset(e: Env, s: Shell): Shell {
    s.(sql := "", prompt := e.newPrompt)
  }

  /** `close`: readline and the connection closed, the process ended. */
  function AfterClose(s: Shell): Shell {
    s.(rlClosed := true, conn := s.conn.(closed := true, exited := true))
  }

  /** The schema query's reply gives schema rows in its first row set. */
  lemma CollectorReply(e: Env, c: Conn)
    requires EnvWf(e)
    ensures var b := BatchSpec(e.cfg, e.driver, c, Quiet, e.collector);
      b.outcome.Completed? ==> Collectable(b.outcome.rows)
  {
    BatchSubmitsOnce(e.cfg, e.driver, c, Quiet, e.collector);
    assert SchemaReply(e.driver(c.submitted, Stripped(e.collector)));
  }

  /** The schema rows the callback of the refresh can read: a first row set holding schema rows. */
  ghost predicate Collectable(rows: Option<seq<RowSet>>) {
    rows.Some? && rows.value != [] ==> SchemaRecords(rows.value[0].records)
  }

  /**
   * The callback of `updateAvailableSuggestions`: a fresh index grouped from the rows
   * of the first row set. Without one (a driver error, or no row set) `r[0]` throws
   * after the index is cleared, and the process ends.
   */
  function AfterCollect(s: Shell, rows: Option<seq<RowSet>>): Shell
    requires Collectable(rows)
  {
    if rows.None? || rows.value == [] then s.(rs := NoSuggestions, conn := s.conn.(exited := true))
    else s.(rs := Grouped(SchemaRows(rows.value[0].records)))
  }

  /** `updateAvailableSuggestions`: the silent schema query, then its callback. */
  function AfterRefresh(e: Env, s: Shell): Shell
    requires EnvWf(e)
  {
    var b := BatchSpec(e.cfg, e.driver, s.conn, Quiet, e.collector);
    match b.outcome
    case Exited => s.(conn := b.conn)
    case Completed(rows, _) =>
      CollectorReply(e, s.conn);
      AfterCollect(s.(conn := b.conn), rows)
  }

  /** `runBatch`: the pending batch submitted; once it completes, `reset`. */
  function AfterRunBatch(e: Env, s: Shell): Shell
    requires EnvWf(e)
  {
    var b := BatchSpec(e.cfg, e.driver, s.conn, Plain, s.sql);
    if b.outcome.Exited? then s.(conn := b.conn) else AfterReset(e, s.(conn := b.conn))
  }

  /** `runBuiltInSingleCommand`: the expansion submitted; the pending batch and the prompt stay. */
  function AfterBuiltIn(e: Env, s: Shell, text: string): Shell
    requires EnvWf(e)
  {
    s.(conn := BatchSpec(e.cfg, e.driver, s.conn, Plain, text).conn)
  }

  /** `extendBatchCommand` and `extendBatchResumedCommand`: the line and a line end appended. */
  function AfterExtend(s: Shell, cmd: string, prompt: string): Shell {
    s.(sql := s.sql + cmd + "\n", prompt := prompt)
  }

  /** The branch `actionOnLine` takes. */
  datatype Action = Static(command: StaticCommand) | BuiltInBatch(text: string) | Go | Extended | Resumed

  /**
   * The branch for a line, from the trimmed line and whether a batch is pending: the
   * two catalogs are consulted only without a pending batch.
   */
  function Classify(pending: string, cmd: string): Action {
    var t := Trim(cmd);
    if pending == "" && t in StaticCommands then Static(StaticCommands[t])
    else if pending == "" && BuiltIn(t).Some? then BuiltInBatch(BuiltIn(t).value)
    else if ToUpper(t) == "GO" then Go
    else if SliceLast(t) == ";" then Extended
    else Resumed
  }

  /**
   * `actionOnLine(cmd)`. `\u` resets first: the refresh completes after `reset` has
   * returned.
   */
  function OnLine(e: Env, s: Shell, cmd: string): Shell
    requires EnvWf(e)
  {
    match Classify(s.sql, cmd)
    case Static(Help) => AfterReset(e, s)
    case Static(Quit) => AfterClose(s)
    case Static(Refresh) => AfterRefresh(e, AfterReset(e, s))
    case BuiltInBatch(text) => AfterBuiltIn(e, s, text)
    case Go => AfterRunBatch(e, s)
    case Extended => AfterExtend(s, cmd, e.newPrompt)
    case Resumed => AfterExtend(s, cmd, ResumePrompt)
  }

  /** `OnLine` for the branch the line takes. */
  lemma OnLineBranch(e: Env, s: Shell, cmd: string, a: Action)
    requires EnvWf(e) && Classify(s.sql, cmd) == a
    ensures OnLine(e, s, cmd) == match a
      case Static(Help) => AfterReset(e, s)
      case Static(Quit) => AfterClose(s)
      case Static(Refresh) => AfterRefresh(e, AfterReset(e, s))
      case BuiltInBatch(text) => AfterBuiltIn(e, s, text)
      case Go => AfterRunBatch(e, s)
      case Extended => AfterExtend(s, cmd, e.newPrompt)
      case Resumed => AfterExtend(s, cmd, ResumePrompt)
  {
  }

  /** Lines entered one after another. */
  function OnLines(e: Env, s: Shell, cmds: seq<string>): Shell
    requires EnvWf(e)
  {
    if cmds == [] then s else OnLine(e, OnLines(e, s, cmds[..|cmds| - 1]), cmds[|cmds| - 1])
  }

  /** `closeOrReset`: without a pending batch the session ends; otherwise the line is cleared and the batch dropped. */
  function OnInterrupt(e: Env, s: Shell): Shell {
    if s.sql == "" then AfterClose(s) else AfterReset(e, s.(line := "", cursor := 0))
  }

  /**
   * The completer's effect: a single hit rewrites the line buffer and moves the
   * cursor; the `TypeError` of `quoteName` escapes readline's key handler and ends
   * the process.
   */
  function AfterTab(s: Shell, c: Suggestions.Completion): Shell {
    match c
    case Thrown => s.(conn := s.conn.(exited := true))
    case Offer(_, _, edit) =>
      if edit.Some? then s.(line := edit.value.line, cursor := edit.value.cursor) else s
  }

  /** What the completer returns for the word before the cursor `cmd`. */
  function OnTab(s: Shell, cmd: string): Suggestions.Completion
    requires IndexWf(s.rs)
  {
    Complete(Available(s.rs, s.sql + "\n" + s.line), s.line, cmd)
  }

  // ---------------------------------------------------------------------------------
  // Properties of the dispatch
  // ---------------------------------------------------------------------------------

  /** Static and built-in commands are recognised only when no batch is pending. */
  lemma CommandsOnlyWhenIdle(pending: string, cmd: string)
    requires pending != ""
    ensures Classify(pending, cmd) in {Go, Extended, Resumed}
  {
  }

  /** A line that reads `GO` in any case, blanks aside, is never a command and always submits. */
  lemma GoIsNeverACommand(pending: string, cmd: string)
    requires ToUpper(Trim(cmd)) == "GO"
    ensures Classify(pending, cmd) == Go
  {
    var t := Trim(cmd);
    assert |t| == 2 && UpperChar(t[0]) == 'G';
    assert t[0] != '\\';
    if BuiltIn(t).Some? {
      BuiltInStartsWithBackslash(t);
    }
    assert t != "help";
  }

  /**
   * `GO` submits the pending batch, stripped of its directives, as one text and never
   * appends itself; once the batch completes no batch is pending, which is always
   * the case when errors do not stop the process.
   */
  lemma GoSubmitsPending(e: Env, s: Shell, cmd: string)
    requires EnvWf(e) && ToUpper(Trim(cmd)) == "GO"
    ensures var r := OnLine(e, s, cmd);
      && r.conn.submitted == s.conn.submitted + [Stripped(s.sql)]
      && r.rs == s.rs && r.line == s.line && r.cursor == s.cursor
      && (r.sql == s.sql || r.sql == "")
      && (!e.cfg.stopOnError ==> r.sql == "" && r.prompt == e.newPrompt && !r.conn.exited == !s.conn.exited)
  {
    GoIsNeverACommand(s.sql, cmd);
    BatchSubmitsOnce(e.cfg, e.driver, s.conn, Plain, s.sql);
    var b := BatchSpec(e.cfg, e.driver, s.conn, Plain, s.sql);
    assert !e.cfg.stopOnError ==> b.outcome.Completed?;
    assert b.outcome.Completed? ==> b.conn.exited == s.conn.exited by {
      StrippedIsPreparedText(e.cfg, Plain, s.sql);
    }
  }

  /**
   * Every other line is appended as typed, line end included, and changes nothing but
   * the pending batch and the prompt; the prompt is the new one exactly when the
   * trimmed line ends in `;`.
   */
  lemma OtherLinesExtend(e: Env, s: Shell, cmd: string)
    requires EnvWf(e) && ToUpper(Trim(cmd)) != "GO"
    requires s.sql != "" || (Trim(cmd) !in StaticCommands && BuiltIn(Trim(cmd)).None?)
    ensures OnLine(e, s, cmd) == s.(sql := s.sql + cmd + "\n",
      prompt := if SliceLast(Trim(cmd)) == ";" then e.newPrompt else ResumePrompt)
  {
  }

  /** The lines of a batch, each followed by a line end. */
  function Appended(cmds: seq<string>): string {
    if cmds == [] then "" else Appended(cmds[..|cmds| - 1]) + cmds[|cmds| - 1] + "\n"
  }

  /**
   * While a batch is pending, lines without `GO` accumulate: the batch becomes the
   * lines in order, and nothing is submitted.
   */
  lemma {:induction false} PendingLinesAccumulate(e: Env, s: Shell, cmds: seq<string>)
    requires EnvWf(e) && s.sql != ""
    requires forall i :: 0 <= i < |cmds| ==> ToUpper(Trim(cmds[i])) != "GO"
    ensures OnLines(e, s, cmds).sql == s.sql + Appended(cmds)
    ensures OnLines(e, s, cmds).conn == s.conn && OnLines(e, s, cmds).rs == s.rs
  {
    if cmds != [] {
      var init, last := cmds[..|cmds| - 1], cmds[|cmds| - 1];
      PendingLinesAccumulate(e, s, init);
      var x := OnLines(e, s, init);
      assert x.sql != "" by {
        assert |x.sql| >= |s.sql|;
      }
      OtherLinesExtend(e, x, last);
      AppendedSnoc(s.sql, cmds);
    }
  }

  /** The pending text followed by the lines, one more line at a time. */
  lemma AppendedSnoc(pending: string, cmds: seq<string>)
    requires cmds != []
    ensures pending + Appended(cmds) == pending + Appended(cmds[..|cmds| - 1]) + cmds[|cmds| - 1] + "\n"
  {
    var a, b := Appended(cmds[..|cmds| - 1]), cmds[|cmds| - 1];
    assert Appended(cmds) == a + b + "\n";
    LineEndAssociates(pending, a, b);
  }

  lemma LineEndAssociates(p: string, a: string, b: string)
    ensures p + (a + b + "\n") == p + a + b + "\n"
  {
  }

  /** A built-in command submits its expansion and keeps the prompt as it was. */
  lemma BuiltInRunsExpansion(e: Env, s: Shell, cmd: string, text: string)
    requires EnvWf(e) && s.sql == "" && Trim(cmd) !in StaticCommands && BuiltIn(Trim(cmd)) == Some(text)
    ensures var r := OnLine(e, s, cmd);
      r.conn.submitted == s.conn.submitted + [Stripped(text)] && r.sql == "" && r.prompt == s.prompt && r.rs == s.rs
  {
    BatchSubmitsOnce(e.cfg, e.driver, s.conn, Plain, text);
  }

  /** The interrupt key ends an idle session, and otherwise drops the pending batch and the line. */
  lemma InterruptRule(e: Env, s: Shell)
    ensures var r := OnInterrupt(e, s);
      if s.sql == "" then r.conn.exited && r.conn.closed && r.rlClosed && r.sql == s.sql
      else r.sql == "" && r.line == "" && r.cursor == 0 && r.prompt == e.newPrompt && r.conn == s.conn
  {
  }

  /**
   * A second interrupt ends what the first one did not: after dropping a pending
   * batch the prompt is idle again, so the next line is read as a command and the
   * next interrupt closes the session.
   */
  lemma InterruptDropsPending(e: Env, s: Shell, cmd: string)
    requires s.sql != ""
    ensures var r := OnInterrupt(e, s);
      && Classify(r.sql, cmd) == Classify("", cmd)
      && !r.rlClosed == !s.rlClosed && r.conn == s.conn
      && var r2 := OnInterrupt(e, r);
        r2.rlClosed && r2.conn.closed && r2.conn.exited && r2.conn.submitted == s.conn.submitted
  {
  }

  /** With no batch pending, `help` resets the prompt and changes nothing else. */
  lemma HelpWhenIdle(e: Env, s: Shell, cmd: string)
    requires EnvWf(e) && s.sql == "" && Trim(cmd) == "help"
    ensures OnLine(e, s, cmd) == s.(prompt := e.newPrompt)
  {
    assert Classify(s.sql, cmd) == Static(Help);
  }

  /** With no batch pending, `\q` closes readline and the connection, ends the process, and submits and writes nothing. */
  lemma QuitWhenIdle(e: Env, s: Shell, cmd: string)
    requires EnvWf(e) && s.sql == "" && Trim(cmd) == "\\q"
    ensures var r := OnLine(e, s, cmd);
      && r.rlClosed && r.conn.closed && r.conn.exited
      && r.sql == "" && r.prompt == s.prompt && r.rs == s.rs && r.line == s.line && r.cursor == s.cursor
      && r.conn.submitted == s.conn.submitted && r.conn.output == s.conn.output
  {
    assert Classify(s.sql, cmd) == Static(Quit);
  }

  /**
   * With no batch pending, `\u` resets the prompt, submits the schema query once and
   * does not join the batch.
   */
  lemma RefreshWhenIdle(e: Env, s: Shell, cmd: string)
    requires EnvWf(e) && s.sql == "" && Trim(cmd) == "\\u"
    ensures var r := OnLine(e, s, cmd);
      && r.sql == "" && r.prompt == e.newPrompt && r.rlClosed == s.rlClosed && r.line == s.line && r.cursor == s.cursor
      && r.conn.submitted == s.conn.submitted + [Stripped(e.collector)]
  {
    assert Classify(s.sql, cmd) == Static(Refresh);
    BatchSubmitsOnce(e.cfg, e.driver, s.conn, Quiet, e.collector);
  }

  /**
   * A refresh whose reply has a first row set replaces the index by the grouping of
   * its rows, whatever the index held, and writes nothing.
   */
  lemma RefreshRebuilds(e: Env, s: Shell)
    requires EnvWf(e)
    requires var reply := e.driver(s.conn.submitted, Stripped(e.collector));
      reply.Success? && reply.sets != []
    ensures var reply := e.driver(s.conn.submitted, Stripped(e.collector));
      var r := AfterRefresh(e, s);
      && SchemaRecords(reply.sets[0].records)
      && r.rs == Grouped(SchemaRows(reply.sets[0].records))
      && IndexWf(r.rs)
      && r.conn.output == s.conn.output && !r.conn.exited == !s.conn.exited
      && r.conn.submitted == s.conn.submitted + [Stripped(e.collector)]
  {
    var reply := e.driver(s.conn.submitted, Stripped(e.collector));
    assert SchemaReply(reply);
    BatchSubmitsOnce(e.cfg, e.driver, s.conn, Quiet, e.collector);
    SilentBatchWritesOnlyErrors(e.cfg, e.driver, s.conn, Quiet, e.collector);
    StrippedIsPreparedText(e.cfg, Quiet, e.collector);
    GroupedSpec(SchemaRows(reply.sets[0].records));
  }

  /** A refresh the server refuses, when errors do not stop the process, empties the index and ends the process. */
  lemma RefreshFailureEnds(e: Env, s: Shell)
    requires EnvWf(e) && !e.cfg.stopOnError
    requires e.driver(s.conn.submitted, Stripped(e.collector)).Failure?
    ensures AfterRefresh(e, s).rs == NoSuggestions && AfterRefresh(e, s).conn.exited
  {
    BatchSubmitsOnce(e.cfg, e.driver, s.conn, Quiet, e.collector);
  }

  /** Every line keeps the index well formed. */
  lemma OnLineKeepsIndex(e: Env, s: Shell, cmd: string)
    requires EnvWf(e) && IndexWf(s.rs)
    ensures IndexWf(OnLine(e, s, cmd).rs)
  {
    OnLineBranch(e, s, cmd, Classify(s.sql, cmd));
    RefreshKeepsIndex(e, AfterReset(e, s));
  }

  /** A refresh leaves a well-formed index, whatever its reply. */
  lemma RefreshKeepsIndex(e: Env, s: Shell)
    requires EnvWf(e) && IndexWf(s.rs)
    ensures IndexWf(AfterRefresh(e, s).rs)
  {
    var b := BatchSpec(e.cfg, e.driver, s.conn, Quiet, e.collector);
    if b.outcome.Completed? {
      CollectorReply(e, s.conn);
      var rows := b.outcome.rows;
      if rows.Some? && rows.value != [] {
        GroupedSpec(SchemaRows(rows.value[0].records));
      }
    }
  }

  // ---------------------------------------------------------------------------------
  // The prompt
  // ---------------------------------------------------------------------------------

  class Prompt {
    const connection: Connection
    const user: string
    const database: string
    /** `suggestionCollector`. */
    const collector: string
    /** The pending batch. */
    var sql: string
    /** The suggestion index. */
    var rs: Index
    /** The prompt text readline shows, as last set. */
    var prompt: string
    /** readline's line buffer, `rl.line`. */
    var line: string
    /** readline's cursor, `rl.cursor`. */
    var cursor: nat
    /** `rl.close()` has been called. */
    var rlClosed: bool

    ghost predicate Valid()
      reads this, connection
    {
      connection.Valid() && CollectorWf(connection.driver, collector) && IndexWf(rs)
    }

    function Context(): Env
      reads connection
    {
      Env(connection.Settings(), connection.driver, NewPrompt(user, database), collector)
    }

    function State(): Shell
      reads this, connection
    {
      Shell(sql, prompt, rs, line, cursor, rlClosed, connection.State())
    }

    /** `new Prompt(connection, config)`: an empty batch, an empty index, then the first refresh. */
    constructor (connection: Connection, user: string, database: string)
      requires connection.Valid() && CollectorWf(connection.driver, SuggestionCollector) && !connection.exited
      modifies connection
      ensures Valid() && this.connection == connection && this.user == user && this.database == database
      ensures collector == SuggestionCollector
      ensures connection.Settings() == old(connection.Settings())
      ensures State() == AfterRefresh(Context(), Shell("", DefaultPrompt, NoSuggestions, "", 0, false, old(connection.State())))
    {
      this.connection := connection;
      this.user := user;
      this.database := database;
      collector := SuggestionCollector;
      sql := "";
      rs := NoSuggestions;
      prompt := DefaultPrompt;
      line := "";
      cursor := 0;
      rlClosed := false;
      new;
      UpdateAvailableSuggestions();
    }

    /** `updateAvailableSuggestions`. */
    method UpdateAvailableSuggestions()
      requires Valid() && !connection.exited
      modifies this`rs, connection
      ensures Valid() && connection.Settings() == old(connection.Settings())
      ensures State() == AfterRefresh(old(Context()), old(State()))
    {
      ghost var e, c0 := Context(), connection.State();
      var options := new Options.Silent();
      var o := connection.Batch(collector, options);
      CollectorReply(e, c0);
      if o.Completed? {
        Collect(o.rows);
      }
    }

    /** The callback of `updateAvailableSuggestions`: the index rebuilt from `r[0]`. */
    method Collect(r: Option<seq<RowSet>>)
      requires Collectable(r)
      modifies this`rs, connection`exited
      ensures IndexWf(rs) && rs == AfterCollect(old(State()), r).rs
      ensures connection.exited == AfterCollect(old(State()), r).conn.exited
      ensures State() == old(State()).(rs := rs, conn := old(State()).conn.(exited := connection.exited))
    {
      rs := NoSuggestions;
      if r.None? || r.value == [] {
        // `r[0]` throws; nothing catches it
        connection.exited := true;
        return;
      }
      var first := r.value[0].records;
      var i := 0;
      while i < |first|
        invariant 0 <= i <= |first|
        invariant connection.exited == old(connection.exited)
        invariant rs == Grouped(SchemaRows(first[..i]))
      {
        var obj := SchemaRowOf(first[i]).value;
        SchemaRowsSnoc(first, i);
        GroupedSnoc(SchemaRows(first[..i]), obj);
        ghost var next := Add(rs, obj);
        if obj.table !in rs.columns {
          rs := Index(rs.tables + [obj.table], rs.columns[obj.table := [obj.column]]);
        } else {
          rs := Index(rs.tables, rs.columns[obj.table := rs.columns[obj.table] + [obj.column]]);
        }
        assert rs == next;
        i := i + 1;
      }
      assert first[..|first|] == first;
      GroupedSpec(SchemaRows(first));
    }

    /** `getAvailableSuggestions(line)`. */
    method GetAvailableSuggestions(l: string) returns (r: seq<string>)
      requires IndexWf(rs)
      ensures r == Available(rs, l)
    {
      var ix := rs;
      var suggestions := ix.tables;
      var usedTables := UsedTables(ix.tables, l);
      var i := 0;
      while i < |usedTables|
        invariant 0 <= i <= |usedTables|
        invariant forall t :: t in usedTables ==> t in ix.columns
        invariant suggestions == ix.tables + ColumnsOfTables(ix, usedTables[..i])
      {
        ColumnsOfTablesStep(ix, usedTables, i);
        suggestions := suggestions + ix.columns[usedTables[i]];
        i := i + 1;
      }
      assert usedTables[..|usedTables|] == usedTables;
      r := Unique(suggestions);
    }

    /** `completer(cmd)`: the list to show and the text completed, editing the line on a single hit. */
    method Completer(cmd: string) returns (c: Suggestions.Completion)
      requires IndexWf(rs)
      modifies this`line, this`cursor, connection`exited
      ensures c == OnTab(old(State()), cmd)
      ensures State() == AfterTab(old(State()), c)
    {
      var l := sql + "\n" + line;
      var allSuggestions := GetAvailableSuggestions(l);
      var origWord := AfterLast(cmd, ' ');
      var w := CompletionWord(origWord);
      if w.None? {
        c := Throw(allSuggestions, cmd);
      } else {
        c := CompleteWord(allSuggestions, cmd, w.value);
      }
    }

    /** The rest of `completer` once the word is known: the hits, then the policy on them. */
    method CompleteWord(all: seq<string>, cmd: string, word: string) returns (c: Suggestions.Completion)
      requires CompletionWord(AfterLast(cmd, ' ')) == Some(word)
      modifies this`line, this`cursor
      ensures c == Complete(all, old(line), cmd)
      ensures State() == AfterTab(old(State()), c)
    {
      var hits := Hits(all, word);
      CompleteByHits(all, line, cmd, word);
      c := Present(hits, cmd, AfterLast(cmd, ' '));
    }

    /** `quoteName` throws on the word; nothing catches it, and the process ends. */
    method Throw(all: seq<string>, cmd: string) returns (c: Suggestions.Completion)
      requires CompletionWord(AfterLast(cmd, ' ')).None?
      modifies connection`exited
      ensures c == Complete(all, old(line), cmd)
      ensures State() == AfterTab(old(State()), c)
    {
      CompleteThrows(all, line, cmd);
      connection.exited := true;
      c := Thrown;
    }

    /** The end of `completer`: the policy on the hits, and the in-place edit of a single hit. */
    method Present(hits: seq<string>, cmd: string, origWord: string) returns (c: Suggestions.Completion)
      requires origWord == AfterLast(cmd, ' ')
      modifies this`line, this`cursor
      ensures c == Decide(hits, old(line), cmd)
      ensures line == (if c.Offer? && c.edit.Some? then c.edit.value.line else old(line))
      ensures cursor == (if c.Offer? && c.edit.Some? then c.edit.value.cursor else old(cursor))
    {
      if |hits| == 1 {
        var crafted := cmd[..|cmd| - |origWord|] + hits[0];
        assert crafted == Lead(cmd) + hits[0];
        var rightOriginalLine := SliceFrom(line, |cmd|);
        DecideSingle(hits, line, cmd, hits[0]);
        c := Offer([""], cmd, Some(Edit(crafted + rightOriginalLine, |crafted|)));
        line := crafted + rightOriginalLine;
        cursor := |crafted|;
      } else if |hits| == 0 || |hits| > 10 {
        DecideOther(hits, line, cmd);
        c := Offer([], cmd, None);
      } else {
        DecideOther(hits, line, cmd);
        c := Offer(hits, cmd, None);
      }
    }

    /** `listen`. */
    method Listen()
      modifies this`prompt
      ensures prompt == NewPrompt(user, database)
    {
      prompt := NewPrompt(user, database);
    }

    /** `close`. */
    method Close()
      modifies this`rlClosed, connection`closed, connection`exited
      ensures State() == AfterClose(old(State()))
    {
      rlClosed := true;
      connection.Close();
      connection.exited := true;
    }

    /** `reset`. */
    method Reset()
      modifies this`sql, this`prompt
      ensures State() == AfterReset(old(Context()), old(State()))
    {
      sql := "";
      prompt := NewPrompt(user, database);
    }

    /** `closeOrReset`, on the interrupt key. */
    method CloseOrReset()
      modifies this`sql, this`prompt, this`line, this`cursor, this`rlClosed, connection`closed, connection`exited
      ensures State() == OnInterrupt(old(Context()), old(State()))
    {
      var empty := IsEmptyCommand();
      if empty {
        Close();
        return;
      }
      line, cursor := "", 0;
      Reset();
    }

    /** `isEmptyCommand`. */
    method IsEmptyCommand() returns (b: bool)
      ensures b <==> sql == ""
    {
      b := sql == "";
    }

    /** `runBuiltInSingleCommand(cmd)`, called only for a built-in command. */
    method RunBuiltInSingleCommand(cmd: string)
      requires Valid() && !connection.exited && BuiltIn(cmd).Some?
      modifies connection
      ensures Valid() && connection.Settings() == old(connection.Settings())
      ensures State() == AfterBuiltIn(old(Context()), old(State()), BuiltIn(cmd).value)
    {
      var text := GetBuiltInCommand(cmd);
      var options := new Options();
      var _ := connection.Batch(text.value, options);
    }

    /** `runBatch`. */
    method RunBatch()
      requires Valid() && !connection.exited
      modifies this`sql, this`prompt, connection
      ensures Valid() && connection.Settings() == old(connection.Settings())
      ensures State() == AfterRunBatch(old(Context()), old(State()))
    {
      var options := new Options();
      var o := connection.Batch(sql, options);
      if o.Completed? {
        Reset();
      }
    }

    /** `extendBatchCommand(cmd)`. */
    method ExtendBatchCommand(cmd: string)
      modifies this`sql, this`prompt
      ensures State() == AfterExtend(old(State()), cmd, NewPrompt(user, database))
    {
      sql := sql + cmd + "\n";
      prompt := NewPrompt(user, database);
    }

    /** `extendBatchResumedCommand(cmd)`. */
    method ExtendBatchResumedCommand(cmd: string)
      modifies this`sql, this`prompt
      ensures State() == AfterExtend(old(State()), cmd, ResumePrompt)
    {
      sql := sql + cmd + "\n";
      prompt := ResumePrompt;
    }

    /** `actionOnLine(cmd)`, on every line readline reads. */
    method ActionOnLine(cmd: string)
      requires Valid() && !connection.exited
      modifies this, connection
      ensures Valid() && connection.Settings() == old(connection.Settings())
      ensures State() == OnLine(old(Context()), old(State()), cmd)
    {
      ghost var e, s0 := Context(), State();
      var tCmd := Trim(cmd);
      var empty := IsEmptyCommand();
      if empty && tCmd in StaticCommands {
        match StaticCommands[tCmd] {
          case Help =>
            OnLineBranch(e, s0, cmd, Static(Help));
            Reset();
          case Quit =>
            OnLineBranch(e, s0, cmd, Static(Quit));
            Close();
          case Refresh =>
            OnLineBranch(e, s0, cmd, Static(Refresh));
            Reset();
            UpdateAvailableSuggestions();
        }
        return;
      }
      var builtIn := false;
      if empty {
        builtIn := IsBuiltInCommand(tCmd);
      }
      if builtIn {
        OnLineBranch(e, s0, cmd, BuiltInBatch(BuiltIn(tCmd).value));
        RunBuiltInSingleCommand(tCmd);
      } else if ToUpper(tCmd) == "GO" {
        OnLineBranch(e, s0, cmd, Go);
        RunBatch();
      } else if SliceLast(tCmd) == ";" {
        OnLineBranch(e, s0, cmd, Extended);
        ExtendBatchCommand(cmd);
      } else {
        OnLineBranch(e, s0, cmd, Resumed);
        ExtendBatchResumedCommand(cmd);
      }
    }
  }
}
