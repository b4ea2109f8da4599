/**
 * The batch side of the client, class `Connection`: inline directives, one batch with
 * its output policy, and the run of a script's batches one after another. The SQL
 * Server driver is a function from the texts submitted so far and the text submitted
 * now to its reply; what the client writes to standard output is an abstract log.
 */
module Service {
  import opened Wrappers
  import opened JsText
  import opened Records

  /** The options object a caller hands to `batch` and `run`, which `prepare` updates in place. */
  datatype Flags = Flags(verbose: bool, timing: bool, silent: bool)

  /** A connection's own settings: its verbose and timing defaults and its error policy. */
  datatype Config = Config(verbose: bool, timing: bool, stopOnError: bool)

  // ---------------------------------------------------------------------------------
  // Inline directives (`prepare`)
  // ---------------------------------------------------------------------------------

  const VerboseOn := "-- cheetah/verbose ON"
  const TimingOn := "-- cheetah/timing ON"
  const VerboseOff := "-- cheetah/verbose OFF"
  const TimingOff := "-- cheetah/timing OFF"

  datatype Toggle = Verbose | Timing

  /** One test of `prepare`: the marker looked for, the option it sets and to what, and the text it then removes. */
  datatype Directive = Directive(marker: string, toggles: Toggle, value: bool, strips: string)

  /** The four tests in the order `prepare` makes them; the timing OFF test strips the verbose OFF marker. */
  const Directives: seq<Directive> := [
    Directive(VerboseOn, Verbose, true, VerboseOn),
    Directive(TimingOn, Timing, true, TimingOn),
    Directive(VerboseOff, Verbose, false, VerboseOff),
    Directive(TimingOff, Timing, false, VerboseOff)
  ]

  /** The options and the SQL text as `prepare` goes along. */
  datatype Prepared = Prepared(flags: Flags, sql: string)

  function ApplyDirective(d: Directive, p: Prepared): Prepared {
    if !Contains(p.sql, d.marker) then p
    else
      var f := if d.toggles == Verbose then p.flags.(verbose := d.value) else p.flags.(timing := d.value);
      Prepared(f, Replace(p.sql, d.strips, ""))
  }

  function ApplyDirectives(ds: seq<Directive>, p: Prepared): Prepared
    decreases |ds|
  {
    if ds == [] then p else ApplyDirectives(ds[1..], ApplyDirective(ds[0], p))
  }

  /** The options `prepare` starts from: the caller's, or-ed with the connection's defaults; `silent` defaults to false. */
  function WithDefaults(cfg: Config, f: Flags): Flags {
    Flags(f.verbose || cfg.verbose, f.timing || cfg.timing, f.silent || false)
  }

  /** What `prepare` leaves behind: the updated options and the text sent on. */
  function AfterDirectives(cfg: Config, f: Flags, sql: string): Prepared {
    ApplyDirectives(Directives, Prepared(WithDefaults(cfg, f), sql))
  }

  /** The text `prepare` sends on, which does not depend on the options. */
  function Stripped(sql: string): string {
    ApplyDirectives(Directives, Prepared(Flags(false, false, false), sql)).sql
  }

  /** The four tests, written out one after the other. */
  lemma AfterDirectivesSteps(cfg: Config, f: Flags, sql: string)
    ensures AfterDirectives(cfg, f, sql)
      == ApplyDirective(Directives[3], ApplyDirective(Directives[2], ApplyDirective(Directives[1],
           ApplyDirective(Directives[0], Prepared(WithDefaults(cfg, f), sql)))))
  {
    var p0 := Prepared(WithDefaults(cfg, f), sql);
    var p1 := ApplyDirective(Directives[0], p0);
    var p2 := ApplyDirective(Directives[1], p1);
    var p3 := ApplyDirective(Directives[2], p2);
    var ds := Directives;
    assert ApplyDirectives(ds, p0) == ApplyDirectives(ds[1..], p1);
    assert ApplyDirectives(ds[1..], p1) == ApplyDirectives(ds[2..], p2) by { assert ds[1..][1..] == ds[2..]; }
    assert ApplyDirectives(ds[2..], p2) == ApplyDirectives(ds[3..], p3) by { assert ds[2..][1..] == ds[3..]; }
    assert ApplyDirectives(ds[3..], p3) == ApplyDirectives(ds[4..], ApplyDirective(ds[3], p3)) by { assert ds[3..][1..] == ds[4..]; }
  }

  lemma AfterDirectivesChain(cfg: Config, f: Flags, sql: string, p1: Prepared, p2: Prepared, p3: Prepared, p4: Prepared)
    requires p1 == ApplyDirective(Directives[0], Prepared(WithDefaults(cfg, f), sql))
    requires p2 == ApplyDirective(Directives[1], p1) && p3 == ApplyDirective(Directives[2], p2)
    requires p4 == ApplyDirective(Directives[3], p3)
    ensures AfterDirectives(cfg, f, sql) == p4
  {
    AfterDirectivesSteps(cfg, f, sql);
  }

  lemma {:induction false} DirectivesTextIgnoresFlags(ds: seq<Directive>, p: Prepared, q: Prepared)
    requires p.sql == q.sql
    ensures ApplyDirectives(ds, p).sql == ApplyDirectives(ds, q).sql
    decreases |ds|
  {
    if ds != [] {
      DirectivesTextIgnoresFlags(ds[1..], ApplyDirective(ds[0], p), ApplyDirective(ds[0], q));
    }
  }

  lemma StrippedIsPreparedText(cfg: Config, f: Flags, sql: string)
    ensures AfterDirectives(cfg, f, sql).sql == Stripped(sql)
  {
    DirectivesTextIgnoresFlags(Directives, Prepared(WithDefaults(cfg, f), sql), Prepared(Flags(false, false, false), sql));
  }

  /** A directive marker: two dashes, then text without a dash. */
  ghost predicate MarkerShaped(m: string) {
    |m| >= 3 && m[0] == '-' && m[1] == '-' && '-' !in m[2..]
  }

  /** Two markers no text can hold overlapping: both marker-shaped, neither a prefix of the other. */
  ghost predicate Apart(m: string, q: string) {
    MarkerShaped(m) && MarkerShaped(q) && !(m <= q) && !(q <= m)
  }

  /** Occurrences of two apart markers never overlap. */
  lemma MarkersDisjoint(s: string, m: string, q: string, i: int, j: int)
    requires Apart(m, q) && OccursAt(s, m, i) && OccursAt(s, q, j)
    ensures j + |q| <= i || i + |m| <= j
  {
    if i <= j {
      NoStartInside(s, m, q, i, j);
    } else {
      NoStartInside(s, q, m, j, i);
    }
  }

  /** A marker starting no earlier than an apart one starts after it ends. */
  lemma NoStartInside(s: string, m: string, q: string, i: int, j: int)
    requires Apart(m, q) && OccursAt(s, m, i) && OccursAt(s, q, j) && i <= j
    ensures i + |m| <= j
  {
    assert forall t :: i <= t < i + |m| ==> s[t] == m[t - i];
    assert forall t :: j <= t < j + |q| ==> s[t] == q[t - j];
  }

  function Shift(k: int, v: int, n: int): int {
    if k < v then k else k - n
  }

  /** Cutting `n` characters out at `v` keeps an occurrence that does not meet the cut, shifted when it lies after it. */
  lemma SpliceKeeps(s: string, v: int, n: int, q: string, k: int)
    requires 0 <= v && 0 <= n && v + n <= |s| && q != [] && OccursAt(s, q, k) && (k + |q| <= v || v + n <= k)
    ensures OccursAt(s[..v] + s[v + n..], q, Shift(k, v, n))
  {
    var r := s[..v] + s[v + n..];
    var k' := Shift(k, v, n);
    assert |r| == |s| - n && 0 <= k' && k' + |q| <= |r|;
    forall t | 0 <= t < |q|
      ensures r[k' + t] == q[t]
    {
      assert q[t] == s[k..k + |q|][t] == s[k + t];
      if k + |q| <= v {
        assert r[k' + t] == s[..v][k + t];
      } else {
        assert r[k' + t] == s[v + n..][k + t - v - n];
      }
    }
    assert r[k'..k' + |q|] == q;
  }

  /** Removing the first occurrence of a marker cuts it out of the text. */
  lemma RemoveFirst(s: string, m: string) returns (i: int)
    requires Contains(s, m)
    ensures OccursAt(s, m, i) && forall j :: 0 <= j < i ==> !OccursAt(s, m, j)
    ensures Replace(s, m, "") == s[..i] + s[i + |m|..]
  {
    i := IndexOf(s, m);
    IndexOfSpec(s, m);
    assert s[..i] + "" + s[i + |m|..] == s[..i] + s[i + |m|..];
  }

  /** Removing the first occurrence of one marker keeps every apart marker the text holds. */
  lemma RemovalKeeps(s: string, m: string, q: string)
    requires Apart(m, q) && Contains(s, q)
    ensures Contains(Replace(s, m, ""), q)
  {
    if Contains(s, m) {
      var i := RemoveFirst(s, m);
      var j := IndexOf(s, q);
      IndexOfSpec(s, q);
      MarkersDisjoint(s, m, q, i, j);
      SpliceKeeps(s, i, |m|, q, j);
      ContainsAt(Replace(s, m, ""), q, Shift(j, i, |m|));
    } else {
      ReplaceAbsent(s, m, "");
    }
  }

  /** Removing the first occurrence of a marker keeps a later occurrence of the same marker. */
  lemma RemovalKeepsSecond(s: string, m: string, i: int, j: int)
    requires m != [] && OccursAt(s, m, i) && OccursAt(s, m, j) && i + |m| <= j
    ensures Contains(Replace(s, m, ""), m)
  {
    ContainsAt(s, m, i);
    var first := RemoveFirst(s, m);
    SpliceKeeps(s, first, |m|, m, j);
    ContainsAt(Replace(s, m, ""), m, Shift(j, first, |m|));
  }

  lemma MarkersPairwiseApart()
    ensures Apart(VerboseOn, TimingOn) && Apart(VerboseOn, VerboseOff) && Apart(VerboseOn, TimingOff)
    ensures Apart(TimingOn, VerboseOff) && Apart(TimingOn, TimingOff) && Apart(VerboseOff, TimingOff)
  {
    assert VerboseOn[2..] == " cheetah/verbose ON";
    assert TimingOn[2..] == " cheetah/timing ON";
    assert VerboseOff[2..] == " cheetah/verbose OFF";
    assert TimingOff[2..] == " cheetah/timing OFF";
    assert VerboseOn[11] != TimingOn[11] && VerboseOn[11] != TimingOff[11];
    assert TimingOn[11] != VerboseOff[11] && VerboseOff[11] != TimingOff[11];
    assert VerboseOn[20] != VerboseOff[20] && TimingOn[19] != TimingOff[19];
  }

  /** The OFF tests come after the ON tests: a text holding both verbose markers leaves verbose off. */
  lemma VerboseOnThenOffEndsOff(cfg: Config, f: Flags, sql: string)
    requires Contains(sql, VerboseOn) && Contains(sql, VerboseOff)
    ensures !AfterDirectives(cfg, f, sql).flags.verbose
  {
    AfterDirectivesSteps(cfg, f, sql);
    MarkersPairwiseApart();
    var p0 := Prepared(WithDefaults(cfg, f), sql);
    var p1 := ApplyDirective(Directives[0], p0);
    var p2 := ApplyDirective(Directives[1], p1);
    var p3 := ApplyDirective(Directives[2], p2);
    RemovalKeeps(sql, VerboseOn, VerboseOff);
    if Contains(p1.sql, TimingOn) { RemovalKeeps(p1.sql, TimingOn, VerboseOff); }
    assert Contains(p2.sql, VerboseOff);
    assert !p3.flags.verbose;
  }

  /** A timing OFF marker is still there when the fourth test is made. */
  lemma TimingOffSurvives(cfg: Config, f: Flags, sql: string)
    requires Contains(sql, TimingOff)
    ensures Contains(ApplyDirective(Directives[2], ApplyDirective(Directives[1],
              ApplyDirective(Directives[0], Prepared(WithDefaults(cfg, f), sql)))).sql, TimingOff)
  {
    MarkersPairwiseApart();
    var p0 := Prepared(WithDefaults(cfg, f), sql);
    var p1 := ApplyDirective(Directives[0], p0);
    var p2 := ApplyDirective(Directives[1], p1);
    DirectiveKeeps(Directives[0], p0, TimingOff);
    DirectiveKeeps(Directives[1], p1, TimingOff);
    DirectiveKeeps(Directives[2], p2, TimingOff);
  }

  /** One test keeps every marker that is apart from the one it strips. */
  lemma DirectiveKeeps(d: Directive, p: Prepared, q: string)
    requires Apart(d.strips, q) && Contains(p.sql, q)
    ensures Contains(ApplyDirective(d, p).sql, q)
  {
    if Contains(p.sql, d.marker) { RemovalKeeps(p.sql, d.strips, q); }
  }

  /**
   * The timing OFF test removes the verbose OFF marker, not its own: timing ends off
   * and the timing OFF marker is still in the text sent on.
   */
  lemma TimingOffKeepsItsMarker(cfg: Config, f: Flags, sql: string)
    requires Contains(sql, TimingOff)
    ensures !AfterDirectives(cfg, f, sql).flags.timing
    ensures Contains(AfterDirectives(cfg, f, sql).sql, TimingOff)
  {
    AfterDirectivesSteps(cfg, f, sql);
    MarkersPairwiseApart();
    TimingOffSurvives(cfg, f, sql);
    var p3 := ApplyDirective(Directives[2], ApplyDirective(Directives[1],
                ApplyDirective(Directives[0], Prepared(WithDefaults(cfg, f), sql))));
    RemovalKeeps(p3.sql, VerboseOff, TimingOff);
  }

  /** Cutting a marker out keeps every occurrence of an apart marker, which lies wholly before or after the cut. */
  lemma CutKeeps(s: string, m: string, q: string, v: int, k: int)
    requires Apart(m, q) && OccursAt(s, m, v) && OccursAt(s, q, k)
    ensures k + |q| <= v || v + |m| <= k
    ensures OccursAt(s[..v] + s[v + |m|..], q, Shift(k, v, |m|))
  {
    MarkersDisjoint(s, m, q, v, k);
    SpliceKeeps(s, v, |m|, q, k);
  }

  /** Removing the first occurrence of one marker keeps two disjoint occurrences of an apart marker. */
  lemma RemovalKeepsPair(s: string, m: string, q: string, i: int, j: int) returns (i': int, j': int)
    requires Apart(m, q) && OccursAt(s, q, i) && OccursAt(s, q, j) && i + |q| <= j
    ensures OccursAt(Replace(s, m, ""), q, i') && OccursAt(Replace(s, m, ""), q, j') && i' + |q| <= j'
  {
    if Contains(s, m) {
      var v := RemoveFirst(s, m);
      CutKeeps(s, m, q, v, i);
      CutKeeps(s, m, q, v, j);
      i', j' := Shift(i, v, |m|), Shift(j, v, |m|);
    } else {
      ReplaceAbsent(s, m, "");
      i', j' := i, j;
    }
  }

  /** Only the first ON marker of an option is stripped: a second one reaches the driver. */
  lemma SecondOnMarkerSurvives(cfg: Config, f: Flags, sql: string, m: string, i: int, j: int)
    requires m == VerboseOn || m == TimingOn
    requires OccursAt(sql, m, i) && OccursAt(sql, m, j) && i + |m| <= j
    ensures Contains(AfterDirectives(cfg, f, sql).sql, m)
  {
    AfterDirectivesSteps(cfg, f, sql);
    MarkersPairwiseApart();
    var p0 := Prepared(WithDefaults(cfg, f), sql);
    var p1 := ApplyDirective(Directives[0], p0);
    var p2 := ApplyDirective(Directives[1], p1);
    var p3 := ApplyDirective(Directives[2], p2);
    if m == VerboseOn {
      RemovalKeepsSecond(sql, m, i, j);
      assert Contains(p1.sql, m);
      if Contains(p1.sql, TimingOn) { RemovalKeeps(p1.sql, TimingOn, m); }
    } else if Contains(sql, VerboseOn) {
      var i', j' := RemovalKeepsPair(sql, VerboseOn, m, i, j);
      RemovalKeepsSecond(p1.sql, m, i', j');
    } else {
      RemovalKeepsSecond(sql, m, i, j);
    }
    assert Contains(p2.sql, m);
    if Contains(p2.sql, VerboseOff) { RemovalKeeps(p2.sql, VerboseOff, m); }
    if Contains(p3.sql, TimingOff) { RemovalKeeps(p3.sql, VerboseOff, m); }
  }

  /** A text without any marker passes unchanged, with the options at their defaults. */
  lemma NoMarkersNoChange(cfg: Config, f: Flags, sql: string)
    requires !Contains(sql, VerboseOn) && !Contains(sql, TimingOn)
    requires !Contains(sql, VerboseOff) && !Contains(sql, TimingOff)
    ensures AfterDirectives(cfg, f, sql) == Prepared(WithDefaults(cfg, f), sql)
  {
    AfterDirectivesSteps(cfg, f, sql);
  }

  /** A text without a dash holds no directive and is submitted unchanged. */
  lemma NoDashNoDirectives(cfg: Config, f: Flags, sql: string)
    requires '-' !in sql
    ensures AfterDirectives(cfg, f, sql) == Prepared(WithDefaults(cfg, f), sql)
    ensures Stripped(sql) == sql
  {
    assert VerboseOn[0] == '-' && TimingOn[0] == '-' && VerboseOff[0] == '-' && TimingOff[0] == '-';
    Lacks(sql, VerboseOn, 0);
    Lacks(sql, TimingOn, 0);
    Lacks(sql, VerboseOff, 0);
    Lacks(sql, TimingOff, 0);
    NoMarkersNoChange(cfg, f, sql);
    StrippedIsPreparedText(cfg, f, sql);
  }

  lemma StrippedShortens(sql: string)
    ensures |Stripped(sql)| <= |sql|
    ensures Contains(sql, VerboseOn) || Contains(sql, TimingOn) ==> |Stripped(sql)| < |sql|
  {
    var z := Flags(false, false, false);
    AfterDirectivesSteps(Config(false, false, false), z, sql);
    var p0 := Prepared(z, sql);
    var p1 := ApplyDirective(Directives[0], p0);
    var p2 := ApplyDirective(Directives[1], p1);
    var p3 := ApplyDirective(Directives[2], p2);
    RemoveShortens(sql, VerboseOn);
    RemoveShortens(p1.sql, TimingOn);
    RemoveShortens(p2.sql, VerboseOff);
    RemoveShortens(p3.sql, VerboseOff);
    if !Contains(sql, VerboseOn) && Contains(sql, TimingOn) {
      assert p1.sql == sql;
    }
  }

  lemma RemoveShortens(s: string, m: string)
    ensures |Replace(s, m, "")| <= |s|
    ensures Contains(s, m) ==> |Replace(s, m, "")| == |s| - |m|
  {
    IndexOfSpec(s, m);
  }

  // ---------------------------------------------------------------------------------
  // One batch (`batch`)
  // ---------------------------------------------------------------------------------

  /** The driver's answer to one submitted text: an error, or one row set per statement that yields rows. */
  datatype Reply = Failure(message: string) | Success(sets: seq<RowSet>)

  /** The driver: from the texts submitted before and the text now submitted, its reply. */
  type Driver = (seq<string>, string) -> Reply

  ghost predicate WellDescribed(r: Reply) {
    r.Success? ==> forall k :: 0 <= k < |r.sets| ==> Described(r.sets[k])
  }

  /** Every reply of the driver carries metadata for its Date columns. */
  ghost predicate DriverWf(d: Driver) {
    forall h, s :: WellDescribed(d(h, s))
  }

  /** What the client writes to standard output, item by item. */
  datatype Out =
    | Echo(text: string)                   // the verbose description of a batch
    | ErrorLine(text: string)              // "\nERROR: ...\n"
    | TableBlock(grid: seq<seq<Cell>>)     // a rendered table of the grid
    | CountLine(text: string)              // "\n(n row)\n" or "\n(n rows)\n"
    | TimingLine                           // "\nTime: ... ms\n"

  /** The row-count line: the `s` is added for every count above zero, so one row reads "(1 rows)". */
  function RowCount(n: nat): string {
    "\n(" + Decimal(n) + " row" + (if n > 0 then "s" else "") + ")\n"
  }

  lemma RowCountExamples()
    ensures RowCount(0) == "\n(0 row)\n" && RowCount(1) == "\n(1 rows)\n" && RowCount(2) == "\n(2 rows)\n"
  {
  }

  /**
   * The count line reads back as the number of rows: between `(` and the closing word
   * stand decimal digits denoting it, and the word is `rows` exactly when there is at
   * least one row (so a single row reads `1 rows` and none `0 row`).
   */
  lemma RowCountReadsBack(n: nat)
    ensures var line, tail := RowCount(n), if n > 0 then " rows)\n" else " row)\n";
      && "\n(" <= line && 2 + |tail| < |line| && line[|line| - |tail|..] == tail
      && (forall i :: 2 <= i < |line| - |tail| ==> IsDigit(line[i]))
      && DecimalValue(line[2..|line| - |tail|]) == n
  {
    var line, tail := RowCount(n), if n > 0 then " rows)\n" else " row)\n";
    assert line == "\n(" + Decimal(n) + tail;
    assert line[2..|line| - |tail|] == Decimal(n);
    DecimalValueOfDecimal(n);
  }

  /** The output for one row set: a table when it has rows, then its count line in every case. */
  function RowSetLog(rs: RowSet): seq<Out>
    requires Described(rs)
  {
    (if |rs.records| > 0 then [TableBlock(Grid(rs))] else []) + [CountLine(RowCount(|rs.records|))]
  }

  function ResultLog(sets: seq<RowSet>): seq<Out>
    requires forall k :: 0 <= k < |sets| ==> Described(sets[k])
  {
    if sets == [] then [] else ResultLog(sets[..|sets| - 1]) + RowSetLog(sets[|sets| - 1])
  }

  /** The count lines of an output log, in order. */
  function CountLines(log: seq<Out>): seq<string> {
    if log == [] then [] else CountLines(log[..|log| - 1]) + (if log[|log| - 1].CountLine? then [log[|log| - 1].text] else [])
  }

  /** The tables of an output log, in order. */
  function Tables(log: seq<Out>): seq<seq<seq<Cell>>> {
    if log == [] then [] else Tables(log[..|log| - 1]) + (if log[|log| - 1].TableBlock? then [log[|log| - 1].grid] else [])
  }

  /** The grids of the row sets that have rows, in order. */
  function GridsOfNonEmpty(sets: seq<RowSet>): seq<seq<seq<Cell>>>
    requires forall k :: 0 <= k < |sets| ==> Described(sets[k])
  {
    if sets == [] then []
    else GridsOfNonEmpty(sets[..|sets| - 1])
         + (if |sets[|sets| - 1].records| > 0 then [Grid(sets[|sets| - 1])] else [])
  }

  lemma {:induction false} LogsAppend(a: seq<Out>, b: seq<Out>)
    ensures CountLines(a + b) == CountLines(a) + CountLines(b)
    ensures Tables(a + b) == Tables(a) + Tables(b)
    decreases |b|
  {
    if b == [] {
      assert a + b == a;
    } else {
      assert (a + b)[..|a + b| - 1] == a + b[..|b| - 1];
      LogsAppend(a, b[..|b| - 1]);
    }
  }

  lemma SingleLog(o: Out)
    ensures CountLines([o]) == (if o.CountLine? then [o.text] else [])
    ensures Tables([o]) == (if o.TableBlock? then [o.grid] else [])
  {
    assert [o][..0] == [];
  }

  /** One row set writes one count line, and a table exactly when it has rows. */
  lemma RowSetLogLines(rs: RowSet)
    requires Described(rs)
    ensures CountLines(RowSetLog(rs)) == [RowCount(|rs.records|)]
    ensures Tables(RowSetLog(rs)) == (if |rs.records| > 0 then [Grid(rs)] else [])
  {
    var count := CountLine(RowCount(|rs.records|));
    if |rs.records| > 0 {
      LogsAppend([TableBlock(Grid(rs))], [count]);
      SingleLog(TableBlock(Grid(rs)));
    } else {
      assert RowSetLog(rs) == [count];
    }
    SingleLog(count);
  }

  /**
   * Each row set of a successful batch gets exactly one count line, in order, with its
   * own number of rows; and a table exactly when it has rows.
   */
  lemma ResultLogPolicy(sets: seq<RowSet>)
    requires forall k :: 0 <= k < |sets| ==> Described(sets[k])
    ensures |CountLines(ResultLog(sets))| == |sets|
    ensures forall k :: 0 <= k < |sets| ==> CountLines(ResultLog(sets))[k] == RowCount(|sets[k].records|)
    ensures Tables(ResultLog(sets)) == GridsOfNonEmpty(sets)
  {
    ResultLogCounts(sets);
    ResultLogTables(sets);
  }

  /** The count lines of a batch's output: one per row set, in order. */
  lemma {:induction false} ResultLogCounts(sets: seq<RowSet>)
    requires forall k :: 0 <= k < |sets| ==> Described(sets[k])
    ensures |CountLines(ResultLog(sets))| == |sets|
    ensures forall k :: 0 <= k < |sets| ==> CountLines(ResultLog(sets))[k] == RowCount(|sets[k].records|)
    decreases |sets|
  {
    if sets != [] {
      var init, last := sets[..|sets| - 1], sets[|sets| - 1];
      CountLinesSnoc(sets);
      ResultLogCounts(init);
      CountsSnoc(CountLines(ResultLog(sets)), CountLines(ResultLog(init)), sets);
    }
  }

  /** Count lines that extend those of all but the last row set by the last one's. */
  lemma CountsSnoc(lines: seq<string>, before: seq<string>, sets: seq<RowSet>)
    requires sets != [] && lines == before + [RowCount(|sets[|sets| - 1].records|)]
    requires |before| == |sets| - 1
    requires forall k :: 0 <= k < |before| ==> before[k] == RowCount(|sets[..|sets| - 1][k].records|)
    ensures |lines| == |sets|
    ensures forall k :: 0 <= k < |sets| ==> lines[k] == RowCount(|sets[k].records|)
  {
    forall k | 0 <= k < |sets|
      ensures lines[k] == RowCount(|sets[k].records|)
    {
      if k < |before| {
        assert lines[k] == before[k] && sets[..|sets| - 1][k] == sets[k];
      }
    }
  }

  /** The last row set of a batch adds exactly its own count line. */
  lemma CountLinesSnoc(sets: seq<RowSet>)
    requires sets != [] && forall k :: 0 <= k < |sets| ==> Described(sets[k])
    ensures CountLines(ResultLog(sets)) == CountLines(ResultLog(sets[..|sets| - 1])) + [RowCount(|sets[|sets| - 1].records|)]
  {
    var init, last := sets[..|sets| - 1], sets[|sets| - 1];
    assert forall k :: 0 <= k < |init| ==> init[k] == sets[k];
    assert ResultLog(sets) == ResultLog(init) + RowSetLog(last);
    LogsAppend(ResultLog(init), RowSetLog(last));
    RowSetLogLines(last);
  }

  /** One more row set adds its own part of the output. */
  lemma ResultLogPrefixStep(sets: seq<RowSet>, i: nat)
    requires i < |sets| && forall k :: 0 <= k < |sets| ==> Described(sets[k])
    ensures ResultLog(sets[..i + 1]) == ResultLog(sets[..i]) + RowSetLog(sets[i])
  {
    assert sets[..i + 1][..i] == sets[..i];
  }

  /** The tables of a batch's output: the grids of the row sets with rows, in order. */
  lemma {:induction false} ResultLogTables(sets: seq<RowSet>)
    requires forall k :: 0 <= k < |sets| ==> Described(sets[k])
    ensures Tables(ResultLog(sets)) == GridsOfNonEmpty(sets)
    decreases |sets|
  {
    if sets != [] {
      var init, last := sets[..|sets| - 1], sets[|sets| - 1];
      assert forall k :: 0 <= k < |init| ==> init[k] == sets[k];
      ResultLogTables(init);
      assert ResultLog(sets) == ResultLog(init) + RowSetLog(last);
      LogsAppend(ResultLog(init), RowSetLog(last));
      RowSetLogLines(last);
    }
  }

  /** The verbose echo: the first word of the trimmed batch, or its whole first line when that word is `--`. */
  function Description(sql: string): string {
    var t := Trim(sql);
    var first := Before(t, ' ');
    if first == "--" then Before(t, '\n') else first
  }

  /** The echo is where the batch starts: its first word, or its first line after a leading `-- `. */
  lemma DescriptionLeadsBatch(sql: string)
    ensures Description(sql) <= Trim(sql)
    ensures Before(Trim(sql), ' ') != "--" ==> ' ' !in Description(sql)
    ensures Before(Trim(sql), ' ') == "--" ==> '\n' !in Description(sql) && "--" <= Description(sql)
    ensures var t, d := Trim(sql), Description(sql);
      |d| == |t| || t[|d|] == (if Before(t, ' ') == "--" then '\n' else ' ')
  {
    var t := Trim(sql);
    if Before(t, ' ') == "--" {
      assert t[..2] == "--";
      BeforeKeepsPrefix(t, '\n', 2);
    }
  }

  lemma BeforeKeepsPrefix(s: string, c: char, n: nat)
    requires n <= |s| && c !in s[..n]
    ensures s[..n] <= Before(s, c)
  {
  }

  /** The connection's record of a session: texts submitted, output written, closed, process exited. */
  datatype Conn = Conn(submitted: seq<string>, output: seq<Out>, closed: bool, exited: bool)

  /**
   * What `batch` hands its callback: the row sets (none after a driver error) and the
   * text it submitted; or nothing at all, because the process exited.
   */
  datatype Outcome = Completed(rows: Option<seq<RowSet>>, sql: string) | Exited

  datatype BatchResult = BatchResult(conn: Conn, flags: Flags, outcome: Outcome)

  function ErrorText(message: string): string {
    "\nERROR: " + message + "\n"
  }

  /** The reply's row sets as the callback receives them. */
  function RowsOf(r: Reply): Option<seq<RowSet>> {
    if r.Failure? then None else Some(r.sets)
  }

  /** The verbose echo, written unless silent. */
  function EchoLog(p: Prepared): seq<Out> {
    if p.flags.verbose && !p.flags.silent then [Echo("\n" + Description(p.sql))] else []
  }

  /** What the completion writes: the error line, or unless silent the row sets and the timing line. */
  function ReplyLog(f: Flags, reply: Reply): seq<Out>
    requires WellDescribed(reply)
  {
    match reply
    case Failure(message) => [ErrorLine(ErrorText(message))]
    case Success(sets) => if f.silent then [] else ResultLog(sets) + (if f.timing then [TimingLine] else [])
  }

  /**
   * One batch: directives applied, the echo, one submission, then the error policy or
   * the output of every row set.
   */
  function BatchSpec(cfg: Config, driver: Driver, c: Conn, f: Flags, sql: string): BatchResult
    requires DriverWf(driver)
  {
    Submission(cfg, driver, c, AfterDirectives(cfg, f, sql))
  }

  /** The part of a batch after `prepare`, from its updated options and text. */
  function Submission(cfg: Config, driver: Driver, c: Conn, p: Prepared): BatchResult
    requires DriverWf(driver)
  {
    assert WellDescribed(driver(c.submitted, p.sql));
    Finish(cfg, Conn(c.submitted + [p.sql], c.output + EchoLog(p), c.closed, c.exited), p.flags, p.sql, driver(c.submitted, p.sql))
  }

  /** The request's completion: the error policy, or the output of every row set. */
  function Finish(cfg: Config, c: Conn, f: Flags, sql: string, reply: Reply): BatchResult
    requires WellDescribed(reply)
  {
    var out := c.output + ReplyLog(f, reply);
    if reply.Failure? && cfg.stopOnError then BatchResult(Conn(c.submitted, out, true, true), f, Exited)
    else BatchResult(Conn(c.submitted, out, c.closed, c.exited), f, Completed(RowsOf(reply), sql))
  }

  /** A batch submits exactly one text, its stripped form; and it ends the process only when stopping on an error. */
  lemma BatchSubmitsOnce(cfg: Config, driver: Driver, c: Conn, f: Flags, sql: string)
    requires DriverWf(driver)
    ensures BatchSpec(cfg, driver, c, f, sql).conn.submitted == c.submitted + [Stripped(sql)]
    ensures BatchSpec(cfg, driver, c, f, sql).outcome.Exited?
        <==> cfg.stopOnError && driver(c.submitted, Stripped(sql)).Failure?
    ensures BatchSpec(cfg, driver, c, f, sql).outcome.Exited? ==>
        BatchSpec(cfg, driver, c, f, sql).conn.exited && BatchSpec(cfg, driver, c, f, sql).conn.closed
    ensures BatchSpec(cfg, driver, c, f, sql).outcome.Completed? ==>
        BatchSpec(cfg, driver, c, f, sql).outcome.rows == RowsOf(driver(c.submitted, Stripped(sql)))
  {
    StrippedIsPreparedText(cfg, f, sql);
  }

  /** A silent batch writes nothing but the error line, which the source prints even then. */
  lemma SilentBatchWritesOnlyErrors(cfg: Config, driver: Driver, c: Conn, f: Flags, sql: string)
    requires DriverWf(driver) && f.silent
    ensures var r := BatchSpec(cfg, driver, c, f, sql);
      r.conn.output == c.output
      || (driver(c.submitted, Stripped(sql)).Failure?
          && r.conn.output == c.output + [ErrorLine(ErrorText(driver(c.submitted, Stripped(sql)).message))])
  {
    StrippedIsPreparedText(cfg, f, sql);
    AfterDirectivesSteps(cfg, f, sql);
  }

  // ---------------------------------------------------------------------------------
  // A script (`run`)
  // ---------------------------------------------------------------------------------

  /** The batch separator `run` splits on: exactly this text, case and line ends included. */
  const Terminator := "\nGO\n"

  /** The parts whose trimmed text is not empty, in order. */
  function NonBlank(parts: seq<string>): seq<string> {
    if parts == [] then []
    else (if Trim(parts[0]) != "" then [parts[0]] else []) + NonBlank(parts[1..])
  }

  /** The filter keeps exactly the parts that are not blank. */
  lemma {:induction false} NonBlankKeeps(parts: seq<string>)
    ensures forall x :: x in NonBlank(parts) <==> x in parts && Trim(x) != ""
    decreases |parts|
  {
    if parts != [] {
      NonBlankKeeps(parts[1..]);
      assert parts == [parts[0]] + parts[1..];
    }
  }

  /** `sql.split("\nGO\n").filter((batch) => batch.trim() != '')`. */
  function Batches(sql: string): seq<string> {
    NonBlank(Split(sql, Terminator))
  }

  /** The texts `g` makes of the batches, in order. */
  function Mapped(g: string -> string, bs: seq<string>): (r: seq<string>)
    ensures |r| == |bs|
  {
    if bs == [] then [] else [g(bs[0])] + Mapped(g, bs[1..])
  }

  /** The texts the batches are submitted as, each stripped of its own directives. */
  function StrippedAll(bs: seq<string>): seq<string> {
    Mapped(Stripped, bs)
  }

  /** What `run` hands its callback: one entry per batch and the text it split; or nothing, because the process exited. */
  datatype RunOutcome = Finished(results: seq<Option<seq<RowSet>>>, sql: string) | RunExited

  datatype RunResult = RunResult(conn: Conn, flags: Flags, outcome: RunOutcome)

  /** One batch as `run` sees it: from the connection, the options and a batch's text to what the batch leaves. */
  type Step = (Conn, Flags, string) --> BatchResult

  ghost predicate Total(step: Step) {
    forall c, f, s :: step.requires(c, f, s)
  }

  /** `this.batch` on one connection and driver. */
  function BatchStep(cfg: Config, driver: Driver): Step {
    (c: Conn, f: Flags, s: string) requires DriverWf(driver) => BatchSpec(cfg, driver, c, f, s)
  }

  /** The batches from the `k`-th on, each started from the completion of the one before. */
  function RunFrom(step: Step, c: Conn, f: Flags, bs: seq<string>, k: nat,
                   results: seq<Option<seq<RowSet>>>, sql: string): RunResult
    requires Total(step)
    decreases |bs| - k
  {
    if k >= |bs| then RunResult(c, f, Finished(results, sql))
    else
      var b := step(c, f, bs[k]);
      if b.outcome.Exited? then RunResult(b.conn, b.flags, RunExited)
      else RunFrom(step, b.conn, b.flags, bs, k + 1, results + [b.outcome.rows], sql)
  }

  /** A script: directives applied to the whole, split into batches, the batches run in order with the same options. */
  function RunSpec(cfg: Config, driver: Driver, c: Conn, f: Flags, sql: string): RunResult
    requires DriverWf(driver)
  {
    var p := AfterDirectives(cfg, f, sql);
    var bs := Batches(p.sql);
    if bs == [] then RunResult(c, p.flags, Finished([], p.sql))
    else RunFrom(BatchStep(cfg, driver), c, p.flags, bs, 0, [], p.sql)
  }

  /**
   * What each batch promises the run, for a driver, a stopping policy and the way a
   * batch's text is turned into the text submitted: one submission, the reply handed
   * on, an exit only on a stopping error.
   */
  ghost predicate Faithful(step: Step, stop: bool, driver: Driver, strip: string -> string) {
    Total(step) && forall c, f, s :: StepKeeps(step, stop, driver, strip, c, f, s)
  }

  /** The promise of one batch, for one connection state, options and text. */
  ghost predicate StepKeeps(step: Step, stop: bool, driver: Driver, strip: string -> string, c: Conn, f: Flags, s: string)
    requires Total(step)
  {
    var b := step(c, f, s);
    && b.conn.submitted == c.submitted + [strip(s)]
    && (b.outcome.Exited? <==> stop && driver(c.submitted, strip(s)).Failure?)
    && (b.outcome.Exited? ==> b.conn.exited && b.conn.closed)
    && (b.outcome.Completed? ==> b.outcome.rows == RowsOf(driver(c.submitted, strip(s))))
  }

  lemma BatchStepFaithful(cfg: Config, driver: Driver)
    requires DriverWf(driver)
    ensures Faithful(BatchStep(cfg, driver), cfg.stopOnError, driver, Stripped)
  {
    var step := BatchStep(cfg, driver);
    forall c, f, s
      ensures StepKeeps(step, cfg.stopOnError, driver, Stripped, c, f, s)
    {
      BatchSubmitsOnce(cfg, driver, c, f, s);
    }
  }

  lemma MappedCons(g: string -> string, bs: seq<string>, k: nat, j: nat)
    requires k < j <= |bs|
    ensures Mapped(g, bs[k..j]) == [g(bs[k])] + Mapped(g, bs[k + 1..j])
  {
    assert bs[k..j] == [bs[k]] + bs[k + 1..j];
  }

  /** What a batch submits, followed by what the batches after it submit, is what they all submit. */
  lemma SubmittedShift(strip: string -> string, bs: seq<string>, k: nat, j: nat, before: seq<string>)
    requires k < j <= |bs|
    ensures (before + [strip(bs[k])]) + Mapped(strip, bs[k + 1..j]) == before + Mapped(strip, bs[k..j])
  {
    MappedCons(strip, bs, k, j);
  }

  lemma {:induction false} RunFromFinished(step: Step, stop: bool, driver: Driver, strip: string -> string,
                                           c: Conn, f: Flags, bs: seq<string>, k: nat,
                                           results: seq<Option<seq<RowSet>>>, sql: string)
    requires Faithful(step, stop, driver, strip) && k <= |bs|
    requires RunFrom(step, c, f, bs, k, results, sql).outcome.Finished?
    ensures var r := RunFrom(step, c, f, bs, k, results, sql);
      && r.conn.submitted == c.submitted + Mapped(strip, bs[k..])
      && |r.outcome.results| == |results| + |bs| - k
      && r.outcome.results[..|results|] == results
    decreases |bs| - k
  {
    if k < |bs| {
      var b := step(c, f, bs[k]);
      assert StepKeeps(step, stop, driver, strip, c, f, bs[k]);
      var results' := results + [b.outcome.rows];
      RunFromFinished(step, stop, driver, strip, b.conn, b.flags, bs, k + 1, results', sql);
      MappedCons(strip, bs, k, |bs|);
      assert bs[k..|bs|] == bs[k..] && bs[k + 1..|bs|] == bs[k + 1..];
      var r := RunFrom(step, b.conn, b.flags, bs, k + 1, results', sql);
      assert r.outcome.results[..|results|] == r.outcome.results[..|results'|][..|results|];
    } else {
      assert bs[k..] == [];
    }
  }

  lemma {:induction false} RunFromReplies(step: Step, stop: bool, driver: Driver, strip: string -> string,
                                          c: Conn, f: Flags, bs: seq<string>, k: nat,
                                          results: seq<Option<seq<RowSet>>>, sql: string, j: nat)
    requires Faithful(step, stop, driver, strip) && k <= j < |bs|
    requires RunFrom(step, c, f, bs, k, results, sql).outcome.Finished?
    ensures var rs := RunFrom(step, c, f, bs, k, results, sql).outcome.results;
      |rs| == |results| + |bs| - k
      && rs[|results| + j - k] == RowsOf(driver(c.submitted + Mapped(strip, bs[k..j]), strip(bs[j])))
    decreases |bs| - k
  {
    RunFromFinished(step, stop, driver, strip, c, f, bs, k, results, sql);
    var b := step(c, f, bs[k]);
    assert StepKeeps(step, stop, driver, strip, c, f, bs[k]);
    var results' := results + [b.outcome.rows];
    RunFromFinished(step, stop, driver, strip, b.conn, b.flags, bs, k + 1, results', sql);
    var r := RunFrom(step, b.conn, b.flags, bs, k + 1, results', sql);
    if j == k {
      assert bs[k..j] == [];
      assert c.submitted + Mapped(strip, bs[k..j]) == c.submitted;
      assert r.outcome.results[|results|] == r.outcome.results[..|results'|][|results|];
    } else {
      RunFromReplies(step, stop, driver, strip, b.conn, b.flags, bs, k + 1, results', sql, j);
      SubmittedShift(strip, bs, k, j, c.submitted);
    }
  }

  /**
   * A run that finishes has submitted every non-blank batch once, in order, each
   * stripped of its directives, and hands back one entry per batch: the reply to it.
   */
  lemma RunSubmitsEveryBatchInOrder(cfg: Config, driver: Driver, c: Conn, f: Flags, sql: string)
    requires DriverWf(driver)
    requires RunSpec(cfg, driver, c, f, sql).outcome.Finished?
    ensures var bs := Batches(Stripped(sql));
      var r := RunSpec(cfg, driver, c, f, sql);
      && r.conn.submitted == c.submitted + StrippedAll(bs)
      && |r.outcome.results| == |bs|
      && forall j :: 0 <= j < |bs| ==>
           r.outcome.results[j] == RowsOf(driver(c.submitted + StrippedAll(bs[..j]), Stripped(bs[j])))
  {
    StrippedIsPreparedText(cfg, f, sql);
    var bs := Batches(Stripped(sql));
    if bs != [] {
      var g := AfterDirectives(cfg, f, sql).flags;
      var step := BatchStep(cfg, driver);
      assert RunSpec(cfg, driver, c, f, sql) == RunFrom(step, c, g, bs, 0, [], Stripped(sql));
      BatchStepFaithful(cfg, driver);
      RunFromAll(step, cfg.stopOnError, driver, Stripped, c, g, bs, Stripped(sql));
    }
  }

  /** A run from the first batch that finishes: every batch submitted in order, and the reply to each handed back. */
  lemma RunFromAll(step: Step, stop: bool, driver: Driver, strip: string -> string,
                   c: Conn, f: Flags, bs: seq<string>, sql: string)
    requires Faithful(step, stop, driver, strip)
    requires RunFrom(step, c, f, bs, 0, [], sql).outcome.Finished?
    ensures var r := RunFrom(step, c, f, bs, 0, [], sql);
      && r.conn.submitted == c.submitted + Mapped(strip, bs)
      && |r.outcome.results| == |bs|
      && forall j :: 0 <= j < |bs| ==>
           r.outcome.results[j] == RowsOf(driver(c.submitted + Mapped(strip, bs[..j]), strip(bs[j])))
  {
    var r := RunFrom(step, c, f, bs, 0, [], sql);
    RunFromFinished(step, stop, driver, strip, c, f, bs, 0, [], sql);
    assert bs[0..] == bs;
    forall j | 0 <= j < |bs|
      ensures r.outcome.results[j] == RowsOf(driver(c.submitted + Mapped(strip, bs[..j]), strip(bs[j])))
    {
      RunFromReplies(step, stop, driver, strip, c, f, bs, 0, [], sql, j);
      assert bs[0..j] == bs[..j];
    }
  }

  lemma {:induction false} RunFromExited(step: Step, stop: bool, driver: Driver, strip: string -> string,
                                         c: Conn, f: Flags, bs: seq<string>, k: nat,
                                         results: seq<Option<seq<RowSet>>>, sql: string) returns (j: nat)
    requires Faithful(step, stop, driver, strip) && k <= |bs|
    requires RunFrom(step, c, f, bs, k, results, sql).outcome.RunExited?
    ensures var r := RunFrom(step, c, f, bs, k, results, sql);
      && stop && r.conn.exited && r.conn.closed
      && k <= j < |bs| && r.conn.submitted == c.submitted + Mapped(strip, bs[k..j + 1])
      && driver(c.submitted + Mapped(strip, bs[k..j]), strip(bs[j])).Failure?
    decreases |bs| - k
  {
    var b := step(c, f, bs[k]);
    assert StepKeeps(step, stop, driver, strip, c, f, bs[k]);
    if b.outcome.Exited? {
      j := k;
      assert RunFrom(step, c, f, bs, k, results, sql) == RunResult(b.conn, b.flags, RunExited);
      assert bs[k..k] == [] && bs[k..k + 1] == [bs[k]];
      assert c.submitted + Mapped(strip, bs[k..k]) == c.submitted;
    } else {
      var results' := results + [b.outcome.rows];
      assert RunFrom(step, c, f, bs, k, results, sql) == RunFrom(step, b.conn, b.flags, bs, k + 1, results', sql);
      j := RunFromExited(step, stop, driver, strip, b.conn, b.flags, bs, k + 1, results', sql);
      SubmittedShift(strip, bs, k, j, c.submitted);
      SubmittedShift(strip, bs, k, j + 1, c.submitted);
    }
  }

  /**
   * A run only ends early when the connection stops on errors: some batch failed, it
   * was the last one submitted, and the connection is closed and the process gone.
   */
  lemma RunStopsAtFailure(cfg: Config, driver: Driver, c: Conn, f: Flags, sql: string)
    requires DriverWf(driver)
    requires RunSpec(cfg, driver, c, f, sql).outcome.RunExited?
    ensures var bs := Batches(Stripped(sql));
      var r := RunSpec(cfg, driver, c, f, sql);
      && cfg.stopOnError && r.conn.exited && r.conn.closed
      && exists j :: 0 <= j < |bs| && r.conn.submitted == c.submitted + StrippedAll(bs[..j + 1])
           && driver(c.submitted + StrippedAll(bs[..j]), Stripped(bs[j])).Failure?
  {
    StrippedIsPreparedText(cfg, f, sql);
    var bs := Batches(Stripped(sql));
    BatchStepFaithful(cfg, driver);
    var j := RunFromExited(BatchStep(cfg, driver), cfg.stopOnError, driver, Stripped, c,
                           AfterDirectives(cfg, f, sql).flags, bs, 0, [], Stripped(sql));
    assert bs[0..j + 1] == bs[..j + 1] && bs[0..j] == bs[..j];
    var r := RunSpec(cfg, driver, c, f, sql);
    assert r.conn.submitted == c.submitted + StrippedAll(bs[..j + 1]);
  }

  /** A blank script runs nothing: the callback gets no results and the driver sees nothing. */
  lemma BlankScriptRunsNothing(cfg: Config, driver: Driver, c: Conn, f: Flags, sql: string)
    requires DriverWf(driver) && AllSpace(sql)
    ensures RunSpec(cfg, driver, c, f, sql) == RunResult(c, WithDefaults(cfg, f), Finished([], sql))
  {
    SpaceLacks(sql, VerboseOn, 3);
    SpaceLacks(sql, TimingOn, 3);
    SpaceLacks(sql, VerboseOff, 3);
    SpaceLacks(sql, TimingOff, 3);
    SpaceLacks(sql, Terminator, 1);
    NoMarkersNoChange(cfg, f, sql);
    SplitWithoutSeparator(sql, Terminator);
    TrimSpec(sql);
    assert Batches(sql) == NonBlank([sql]) == [] + NonBlank([]);
  }

  /** White space holds no text with a character other than white space. */
  lemma SpaceLacks(s: string, m: string, k: int)
    requires AllSpace(s) && 0 <= k < |m| && !IsSpace(m[k])
    ensures !Contains(s, m)
  {
    IndexOfSpec(s, m);
  }

  // ---------------------------------------------------------------------------------
  // The connection
  // ---------------------------------------------------------------------------------

  /** An options object: `{}` gives all three undefined, which the client reads as false. */
  class Options {
    var verbose: bool
    var timing: bool
    var silent: bool

    function Value(): Flags
      reads this
    {
      Flags(verbose, timing, silent)
    }

    /** `{}`. */
    constructor ()
      ensures Value() == Flags(false, false, false)
    {
      verbose, timing, silent := false, false, false;
    }

    /** `{silent: true}`. */
    constructor Silent()
      ensures Value() == Flags(false, false, true)
    {
      verbose, timing, silent := false, false, true;
    }
  }

  class Connection {
    var verbose: bool
    var timing: bool
    var stopOnError: bool
    /** The texts handed to `request.batch`, in order. */
    var submitted: seq<string>
    /** What has been written to standard output. */
    var output: seq<Out>
    /** `mssql.close()` has been called. */
    var closed: bool
    /** `process.exit` has been called: nothing runs after it. */
    var exited: bool
    const driver: Driver

    ghost predicate Valid() {
      DriverWf(driver)
    }

    function Settings(): Config
      reads this
    {
      Config(verbose, timing, stopOnError)
    }

    function State(): Conn
      reads this
    {
      Conn(submitted, output, closed, exited)
    }

    /** `new Connection(config)`: the defaults come from the configuration; errors stop the process. */
    constructor (verbose: bool, timing: bool, driver: Driver)
      requires DriverWf(driver)
      ensures Valid() && this.driver == driver
      ensures Settings() == Config(verbose, timing, true)
      ensures State() == Conn([], [], false, false)
    {
      this.verbose, this.timing, this.stopOnError := verbose, timing, true;
      this.submitted, this.output, this.closed, this.exited := [], [], false, false;
      this.driver := driver;
    }

    method Close()
      modifies this`closed
      ensures closed
    {
      closed := true;
    }

    /** `getRecords`: the header from the first record's keys, then one formatted row per record. */
    method GetRecords(recordset: RowSet) returns (results: seq<seq<Cell>>)
      requires |recordset.records| > 0 && Described(recordset)
      ensures |results| == 1 + |recordset.records|
      ensures results[0] == HeaderRow(recordset.records[0])
      ensures forall i :: 0 <= i < |recordset.records| ==> results[i + 1] == FormatRecord(recordset.records[i], recordset.columns)
      ensures results == Grid(recordset)
    {
      results := [HeaderRow(recordset.records[0])];
      var i := 0;
      while i < |recordset.records|
        invariant 0 <= i <= |recordset.records|
        invariant results == [HeaderRow(recordset.records[0])] + RecordRows(recordset, i)
      {
        var obj := recordset.records[i];
        results := results + [FormatRecord(obj, recordset.columns)];
        i := i + 1;
      }
      GridShape(recordset);
    }

    /** `prepare`: updates the options object in place and returns the text with the first markers stripped. */
    method Prepare(options: Options, sql: string) returns (r: string)
      modifies options
      ensures Prepared(options.Value(), r) == AfterDirectives(Settings(), old(options.Value()), sql)
    {
      options.verbose := options.verbose || verbose;
      options.timing := options.timing || timing;
      options.silent := options.silent || false;
      ghost var p0 := Prepared(options.Value(), sql);
      r := Test(options, sql, Directives[0]);
      ghost var p1 := Prepared(options.Value(), r);
      r := Test(options, r, Directives[1]);
      ghost var p2 := Prepared(options.Value(), r);
      r := Test(options, r, Directives[2]);
      ghost var p3 := Prepared(options.Value(), r);
      r := Test(options, r, Directives[3]);
      AfterDirectivesChain(Settings(), old(options.Value()), sql, p1, p2, p3, Prepared(options.Value(), r));
    }

    /** One `if (sql.indexOf(marker) >= 0)` of `prepare`: set the option and strip the text. */
    method Test(options: Options, sql: string, d: Directive) returns (r: string)
      modifies options
      ensures Prepared(options.Value(), r) == ApplyDirective(d, Prepared(old(options.Value()), sql))
    {
      r := sql;
      if Contains(sql, d.marker) {
        if d.toggles == Verbose {
          options.verbose := d.value;
        } else {
          options.timing := d.value;
        }
        r := Replace(sql, d.strips, "");
      }
    }

    /** `batch`: one submission; the callback's arguments, or `Exited` when the process ended. */
    method Batch(sql: string, options: Options) returns (o: Outcome)
      requires Valid() && !exited
      modifies this, options
      ensures Settings() == old(Settings())
      ensures BatchResult(State(), options.Value(), o) == BatchSpec(old(Settings()), driver, old(State()), old(options.Value()), sql)
    {
      var text := Prepare(options, sql);
      ghost var p := Prepared(options.Value(), text);
      if options.verbose && !options.silent {
        output := output + [Echo("\n" + Description(text))];
      }
      assert output == old(output) + EchoLog(p);
      var reply := driver(submitted, text);
      assert WellDescribed(reply);
      submitted := submitted + [text];
      o := Complete(text, reply, options);
    }

    /** The callback handed to `request.batch`. */
    method Complete(text: string, reply: Reply, options: Options) returns (o: Outcome)
      requires WellDescribed(reply)
      modifies this`output, this`closed, this`exited
      ensures BatchResult(State(), options.Value(), o) == Finish(Settings(), old(State()), options.Value(), text, reply)
    {
      match reply
      case Failure(message) =>
        output := output + [ErrorLine(ErrorText(message))];
        if stopOnError {
          Close();
          exited := true;
          o := Exited;
        } else {
          o := Completed(None, text);
        }
      case Success(sets) =>
        if !options.silent {
          WriteRowSets(sets);
          if options.timing {
            output := output + [TimingLine];
          }
        }
        o := Completed(Some(sets), text);
    }

    /** The completion's loop over the row sets: a table for each that has rows, then its count line. */
    method WriteRowSets(sets: seq<RowSet>)
      requires forall k :: 0 <= k < |sets| ==> Described(sets[k])
      modifies this`output
      ensures output == old(output) + ResultLog(sets)
    {
      var i := 0;
      while i < |sets|
        invariant 0 <= i <= |sets|
        invariant output == old(output) + ResultLog(sets[..i])
      {
        WriteRowSet(sets[i]);
        ResultLogPrefixStep(sets, i);
        i := i + 1;
      }
      assert sets[..|sets|] == sets;
    }

    /** One pass of that loop: the table when the row set has rows, then its count line. */
    method WriteRowSet(subrecordset: RowSet)
      requires Described(subrecordset)
      modifies this`output
      ensures output == old(output) + RowSetLog(subrecordset)
    {
      if |subrecordset.records| > 0 {
        var md := GetRecords(subrecordset);
        output := output + [TableBlock(md)];
      }
      output := output + [CountLine(RowCount(|subrecordset.records|))];
    }

    /** `run`: the script's batches one after another, each from the completion of the one before. */
    method Run(sql: string, options: Options) returns (o: RunOutcome)
      requires Valid() && !exited
      modifies this, options
      ensures Settings() == old(Settings())
      ensures RunResult(State(), options.Value(), o) == RunSpec(old(Settings()), driver, old(State()), old(options.Value()), sql)
    {
      var text := Prepare(options, sql);
      var batches := Batches(text);
      if batches == [] {
        return Finished([], text);
      }
      var results: seq<Option<seq<RowSet>>> := [];
      var k := 0;
      while k < |batches|
        invariant 0 <= k <= |batches| && !exited && Settings() == old(Settings())
        invariant RunFrom(BatchStep(Settings(), driver), State(), options.Value(), batches, k, results, text)
               == RunSpec(old(Settings()), driver, old(State()), old(options.Value()), sql)
      {
        var b := Batch(batches[k], options);
        if b.Exited? {
          return RunExited;
        }
        results := results + [b.rows];
        k := k + 1;
      }
      return Finished(results, text);
    }
  }

  // ---------------------------------------------------------------------------------
  // How `run` finds the next batch as written
  // ---------------------------------------------------------------------------------

  /** What `pipedCallback` does after a batch completes: call back, or submit the batch at an index. */
  datatype Continuation = CallBack | Submit(index: nat)

  /** As written: the finished batch is looked up by the text `batch` reports, its stripped text. */
  function ContinuationAsWritten(bs: seq<string>, batchsql: string): Continuation {
    var idx := SeqIndexOf(bs, batchsql);
    if idx == |bs| - 1 then CallBack else Submit(idx + 1)
  }

  /** As intended, and as `Run` does it: the batch after the `k`-th is the `k+1`-th. */
  function ContinuationIntended(bs: seq<string>, k: nat): Continuation
    requires k < |bs|
  {
    if k == |bs| - 1 then CallBack else Submit(k + 1)
  }

  /** A script whose batches repeat: after the last batch, the written code submits the second one again. */
  lemma RepeatedBatchIsResubmitted()
    ensures var bs := ["SELECT 1", "SELECT 2", "SELECT 1"];
      && ContinuationAsWritten(bs, Stripped(bs[2])) == Submit(1)
      && ContinuationIntended(bs, 2) == CallBack
  {
    var s := "SELECT 1";
    assert IndexOf(s, VerboseOn) == -1 && IndexOf(s, TimingOn) == -1;
    assert IndexOf(s, VerboseOff) == -1 && IndexOf(s, TimingOff) == -1;
    NoMarkersNoChange(Config(false, false, false), Flags(false, false, false), s);
  }

  /** A batch with its own directive: its stripped text is found nowhere, so the written code starts over at the first. */
  lemma StrippedBatchRestartsRun(bs: seq<string>, k: nat)
    requires 1 < |bs| && k < |bs| && (Contains(bs[k], VerboseOn) || Contains(bs[k], TimingOn))
    requires forall j :: 0 <= j < |bs| ==> |bs[j]| >= |bs[k]|
    ensures ContinuationAsWritten(bs, Stripped(bs[k])) == Submit(0)
    ensures k < |bs| - 1 ==> ContinuationIntended(bs, k) == Submit(k + 1)
  {
    StrippedShortens(bs[k]);
    assert Stripped(bs[k]) !in bs;
  }

  /**
   * On an ordinary script the written code does what was intended: when the batches
   * are distinct and the finished one holds no directive, looking it up by its
   * reported text finds its own position.
   */
  lemma AsWrittenAgrees(bs: seq<string>, k: nat)
    requires k < |bs| && Distinct(bs) && Stripped(bs[k]) == bs[k]
    ensures ContinuationAsWritten(bs, Stripped(bs[k])) == ContinuationIntended(bs, k)
  {
    assert bs[k] !in bs[..k];
  }

  /** The corrected continuation submits each batch exactly once, in order, then calls back. */
  lemma IntendedVisitsEachBatchOnce(bs: seq<string>, k: nat)
    requires k < |bs|
    ensures ContinuationIntended(bs, k) == CallBack <==> k == |bs| - 1
    ensures ContinuationIntended(bs, k).Submit? ==> ContinuationIntended(bs, k).index == k + 1
  {
  }
}
