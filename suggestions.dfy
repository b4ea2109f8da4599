/**
 * The suggestion index of the interactive prompt and the autocomplete that reads it:
 * the table-to-columns map built from the schema rows, the candidate list a line
 * makes available, the bracket normalisation of the word being completed, and the
 * policy that picks between completing in place, listing hits and listing nothing.
 */
module Suggestions {
  import opened Wrappers
  import opened JsText
  import opened Regex

  // ---------------------------------------------------------------------------------
  // First occurrences (`list.filter((s, pos) => list.indexOf(s) == pos)`)
  // ---------------------------------------------------------------------------------

  /** The elements at positions below `n` that `indexOf` finds at their own position. */
  function FirstOccurrences(s: seq<string>, n: nat): seq<string>
    requires n <= |s|
  {
    if n == 0 then []
    else FirstOccurrences(s, n - 1) + (if SeqIndexOf(s, s[n - 1]) == n - 1 then [s[n - 1]] else [])
  }

  /** The list without repetitions, each element kept where it first occurs. */
  function Unique(s: seq<string>): seq<string> {
    FirstOccurrences(s, |s|)
  }

  /** `indexOf` finds an element at its own position exactly when it does not occur earlier. */
  lemma FirstAtOwnPosition(s: seq<string>, j: nat)
    requires j < |s|
    ensures SeqIndexOf(s, s[j]) == j <==> s[j] !in s[..j]
  {
    var r := SeqIndexOf(s, s[j]);
    assert s[..j + 1][j] == s[j];
    assert r != -1;
    assert forall k :: 0 <= k < r ==> s[..r][k] == s[k];
    assert r <= j;
    assert r < j ==> s[..j][r] == s[j];
  }

  /** Whether a position is a first occurrence depends only on the list up to it. */
  lemma {:induction false} FirstOccurrencesOfPrefix(s: seq<string>, t: seq<string>, n: nat)
    requires n <= |s| <= |t| && s == t[..|s|]
    ensures FirstOccurrences(s, n) == FirstOccurrences(t, n)
  {
    if n > 0 {
      FirstOccurrencesOfPrefix(s, t, n - 1);
      FirstAtOwnPosition(s, n - 1);
      FirstAtOwnPosition(t, n - 1);
      assert s[n - 1] == t[n - 1] && s[..n - 1] == t[..n - 1];
      assert (SeqIndexOf(s, s[n - 1]) == n - 1) == (SeqIndexOf(t, t[n - 1]) == n - 1);
    }
  }

  /** `r` lists its elements in the order in which they first occur in `s`. */
  ghost predicate FirstSeenOrder(r: seq<string>, s: seq<string>) {
    forall i, j :: 0 <= i < j < |r| ==> SeqIndexOf(s, r[i]) < SeqIndexOf(s, r[j])
  }

  /** An element of a prefix is first found inside that prefix, at the same position. */
  lemma SeqIndexOfPrefix(s: seq<string>, m: nat, x: string)
    requires m <= |s| && x in s[..m]
    ensures 0 <= SeqIndexOf(s, x) < m && SeqIndexOf(s[..m], x) == SeqIndexOf(s, x)
  {
    var q := SeqIndexOf(s[..m], x);
    assert s[q] == x && s[..q] == s[..m][..q];
  }

  /**
   * The first occurrences are distinct, are the elements of the list up to `n`, and
   * come in the order in which they first occur.
   */
  lemma {:induction false} FirstOccurrencesSpec(s: seq<string>, n: nat)
    requires n <= |s|
    ensures Distinct(FirstOccurrences(s, n))
    ensures forall x :: x in FirstOccurrences(s, n) <==> x in s[..n]
    ensures FirstSeenOrder(FirstOccurrences(s, n), s)
  {
    if n > 0 {
      FirstOccurrencesSpec(s, n - 1);
      FirstAtOwnPosition(s, n - 1);
      assert s[..n] == s[..n - 1] + [s[n - 1]];
      var a := FirstOccurrences(s, n - 1);
      forall x | x in a
        ensures SeqIndexOf(s, x) < n - 1
      {
        SeqIndexOfPrefix(s, n - 1, x);
      }
      if SeqIndexOf(s, s[n - 1]) == n - 1 {
        var r := a + [s[n - 1]];
        forall i, j | 0 <= i < j < |r|
          ensures SeqIndexOf(s, r[i]) < SeqIndexOf(s, r[j])
        {
          if j < |a| {
            assert r[i] == a[i] && r[j] == a[j];
          } else {
            assert r[i] == a[i] && a[i] in a;
          }
        }
      }
    }
  }

  /** A distinct list in front keeps its place: its elements are all first occurrences. */
  lemma {:induction false} FirstOccurrencesOfDistinct(a: seq<string>, b: seq<string>, n: nat)
    requires Distinct(a) && n <= |a|
    ensures FirstOccurrences(a + b, n) == a[..n]
  {
    if n > 0 {
      FirstOccurrencesOfDistinct(a, b, n - 1);
      var s := a + b;
      assert s[n - 1] == a[n - 1] && s[..n - 1] == a[..n - 1];
      FirstAtOwnPosition(s, n - 1);
      assert a[..n] == a[..n - 1] + [a[n - 1]];
    }
  }

  /** Later positions only add to the first occurrences. */
  lemma {:induction false} FirstOccurrencesGrow(s: seq<string>, n: nat, m: nat)
    requires n <= m <= |s|
    ensures FirstOccurrences(s, n) <= FirstOccurrences(s, m)
    decreases m
  {
    if n < m {
      FirstOccurrencesGrow(s, n, m - 1);
    }
  }

  /**
   * `Unique` drops repetitions and nothing else, and keeps each element where it first
   * occurs; these three facts determine `Unique(s)`.
   */
  lemma UniqueSpec(s: seq<string>)
    ensures Distinct(Unique(s))
    ensures forall x :: x in Unique(s) <==> x in s
    ensures FirstSeenOrder(Unique(s), s)
  {
    FirstOccurrencesSpec(s, |s|);
    assert s[..|s|] == s;
  }

  /** A list without repetitions comes through `Unique` unchanged. */
  lemma UniqueOfDistinct(s: seq<string>)
    requires Distinct(s)
    ensures Unique(s) == s
  {
    FirstOccurrencesOfDistinct(s, [], |s|);
    assert s + [] == s;
  }

  /** A distinct list in front comes first in `Unique`, as it was. */
  lemma UniqueKeepsDistinctFront(a: seq<string>, b: seq<string>)
    requires Distinct(a)
    ensures a <= Unique(a + b)
  {
    FirstOccurrencesOfDistinct(a, b, |a|);
    FirstOccurrencesGrow(a + b, |a|, |a + b|);
    assert a[..|a|] == a;
  }

  // ---------------------------------------------------------------------------------
  // The index (`this.rs`)
  // ---------------------------------------------------------------------------------

  /** One schema row: a quoted table name `[schema].[table]` and one quoted column name. */
  datatype SchemaRow = SchemaRow(table: string, column: string)

  /**
   * `this.rs`: the table names in the order they became keys, each with the array of
   * its columns. The names come from `QUOTENAME` and start with `[`, so none is an
   * array index, and this order is what `Object.keys` lists.
   */
  datatype Index = Index(tables: seq<string>, columns: map<string, seq<string>>)

  /** `{}`. */
  const NoSuggestions := Index([], map[])

  /** The keys listed are the map's keys, each once. */
  ghost predicate IndexWf(ix: Index) {
    Distinct(ix.tables) && forall t :: t in ix.columns <==> t in ix.tables
  }

  /**
   * One turn of the refresh loop: a table seen for the first time gets a new array
   * holding its column, a known one gets the column pushed onto its array.
   */
  function Add(ix: Index, row: SchemaRow): Index {
    if row.table in ix.columns then Index(ix.tables, ix.columns[row.table := ix.columns[row.table] + [row.column]])
    else Index(ix.tables + [row.table], ix.columns[row.table := [row.column]])
  }

  /** What the refresh loop builds from `{}` and the rows, taken in order. */
  function Grouped(rows: seq<SchemaRow>): Index {
    if rows == [] then NoSuggestions else Add(Grouped(rows[..|rows| - 1]), rows[|rows| - 1])
  }

  /** The table of each row, in row order. */
  function TablesOf(rows: seq<SchemaRow>): (r: seq<string>)
    ensures |r| == |rows| && forall i :: 0 <= i < |rows| ==> r[i] == rows[i].table
  {
    if rows == [] then [] else TablesOf(rows[..|rows| - 1]) + [rows[|rows| - 1].table]
  }

  /** The columns of the rows of table `t`, in row order. */
  function ColumnsOf(rows: seq<SchemaRow>, t: string): seq<string> {
    if rows == [] then []
    else ColumnsOf(rows[..|rows| - 1], t) + (if rows[|rows| - 1].table == t then [rows[|rows| - 1].column] else [])
  }

  /** A table no row names has no columns. */
  lemma {:induction false} ColumnsOfAbsent(rows: seq<SchemaRow>, t: string)
    requires t !in TablesOf(rows)
    ensures ColumnsOf(rows, t) == []
  {
    if rows != [] {
      var init := rows[..|rows| - 1];
      assert TablesOf(init) == TablesOf(rows)[..|rows| - 1];
      ColumnsOfAbsent(init, t);
      assert TablesOf(rows)[|rows| - 1] == rows[|rows| - 1].table;
    }
  }

  /**
   * The refresh groups the rows by table: the keys are the tables, distinct, in the
   * order each first appears, and each table's array holds its columns in row order.
   */
  lemma {:induction false} GroupedSpec(rows: seq<SchemaRow>)
    ensures IndexWf(Grouped(rows))
    ensures Grouped(rows).tables == Unique(TablesOf(rows))
    ensures forall t :: t in Grouped(rows).columns <==> t in TablesOf(rows)
    ensures forall t :: t in Grouped(rows).columns ==> Grouped(rows).columns[t] == ColumnsOf(rows, t)
  {
    if rows != [] {
      var init, last := rows[..|rows| - 1], rows[|rows| - 1];
      GroupedSpec(init);
      assert rows == init + [last];
      AddKeepsGrouping(Grouped(init), init, last);
    }
  }

  /** The grouping of some rows, with one more row added, is the grouping of them all. */
  lemma AddKeepsGrouping(ix: Index, init: seq<SchemaRow>, last: SchemaRow)
    requires IndexWf(ix) && ix.tables == Unique(TablesOf(init))
    requires forall t :: t in ix.columns <==> t in TablesOf(init)
    requires forall t :: t in ix.columns ==> ix.columns[t] == ColumnsOf(init, t)
    ensures var rows, jx := init + [last], Add(ix, last);
      && IndexWf(jx) && jx.tables == Unique(TablesOf(rows))
      && (forall t :: t in jx.columns <==> t in TablesOf(rows))
      && (forall t :: t in jx.columns ==> jx.columns[t] == ColumnsOf(rows, t))
  {
    var rows := init + [last];
    assert rows[..|rows| - 1] == init && rows[|rows| - 1] == last;
    assert TablesOf(rows) == TablesOf(init) + [last.table];
    UniqueSnoc(TablesOf(init), last.table);
    UniqueSpec(TablesOf(rows));
    var jx := Add(ix, last);
    forall t | t in jx.columns
      ensures jx.columns[t] == ColumnsOf(rows, t)
    {
      assert ColumnsOf(rows, t) == ColumnsOf(init, t) + (if last.table == t then [last.column] else []);
      if t == last.table && t !in ix.columns {
        ColumnsOfAbsent(init, t);
      }
    }
  }

  /** One more element is a new first occurrence exactly when it did not occur before. */
  lemma UniqueSnoc(s: seq<string>, x: string)
    ensures Unique(s + [x]) == Unique(s) + (if x in s then [] else [x])
  {
    var t := s + [x];
    assert t[..|s|] == s;
    FirstOccurrencesOfPrefix(s, t, |s|);
    FirstAtOwnPosition(t, |s|);
  }

  // ---------------------------------------------------------------------------------
  // The candidates a line makes available (`getAvailableSuggestions`)
  // ---------------------------------------------------------------------------------

  /** `Object.keys(this.rs).filter(t => line.indexOf(t) != -1)`: the tables the line mentions. */
  function UsedTables(tables: seq<string>, line: string): (r: seq<string>)
    ensures forall t :: t in r <==> t in tables && Contains(line, t)
  {
    if tables == [] then []
    else
      var last := tables[|tables| - 1];
      assert tables == tables[..|tables| - 1] + [last];
      UsedTables(tables[..|tables| - 1], line) + (if Contains(line, last) then [last] else [])
  }

  /** The columns of the tables `used`, one array after another. */
  function ColumnsOfTables(ix: Index, used: seq<string>): (r: seq<string>)
    requires forall t :: t in used ==> t in ix.columns
    ensures forall x :: x in r <==> exists t :: t in used && x in ix.columns[t]
  {
    if used == [] then []
    else
      var last := used[|used| - 1];
      assert used == used[..|used| - 1] + [last];
      ColumnsOfTables(ix, used[..|used| - 1]) + ix.columns[last]
  }

  /** Gathering the columns of one more used table appends that table's columns. */
  lemma ColumnsOfTablesStep(ix: Index, used: seq<string>, i: nat)
    requires i < |used| && forall t :: t in used ==> t in ix.columns
    ensures ColumnsOfTables(ix, used[..i + 1]) == ColumnsOfTables(ix, used[..i]) + ix.columns[used[i]]
  {
    assert used[..i + 1][..i] == used[..i];
  }

  /** The list before the final filter: every table, then the columns of every table the line mentions. */
  function Candidates(ix: Index, line: string): seq<string>
    requires IndexWf(ix)
  {
    ix.tables + ColumnsOfTables(ix, UsedTables(ix.tables, line))
  }

  /** What `getAvailableSuggestions(line)` returns. */
  function Available(ix: Index, line: string): seq<string>
    requires IndexWf(ix)
  {
    Unique(Candidates(ix, line))
  }

  /** A candidate is offered exactly when it is a table, or a column of a table the line mentions. */
  ghost predicate Offered(ix: Index, line: string, x: string)
    requires IndexWf(ix)
  {
    x in ix.tables || exists t :: t in ix.tables && Contains(line, t) && x in ix.columns[t]
  }

  /**
   * The list is free of repetitions, lists every table first and in key order, holds
   * exactly the tables and the columns of the tables the line mentions, and keeps each
   * where it is first seen among the tables and then the mentioned tables' columns.
   */
  lemma AvailableSpec(ix: Index, line: string)
    requires IndexWf(ix)
    ensures Distinct(Available(ix, line))
    ensures ix.tables <= Available(ix, line)
    ensures forall x :: x in Available(ix, line) <==> Offered(ix, line, x)
    ensures FirstSeenOrder(Available(ix, line), ix.tables + ColumnsOfTables(ix, UsedTables(ix.tables, line)))
  {
    UniqueSpec(Candidates(ix, line));
    UniqueKeepsDistinctFront(ix.tables, ColumnsOfTables(ix, UsedTables(ix.tables, line)));
  }

  // ---------------------------------------------------------------------------------
  // The word being completed (`quoteName` and `word` of `completer`)
  // ---------------------------------------------------------------------------------

  /** `[^\[\]]`: anything but a bracket. */
  const Unbracketed := NoneOf({'[', ']'})

  /** `[\[]*([^\[\]]+)[\]]*`, not anchored: a name inside any number of brackets. */
  const BracketedName := Pattern([Star(AnyOf({'['})), Plus(Unbracketed), Star(AnyOf({']'}))], [1])

  /**
   * `quoteName`: the first run of non-bracket characters, in one pair of brackets.
   * `None` when `match` finds nothing, so that reading its group throws a TypeError.
   */
  function QuoteName(name: string): Option<string> {
    match Exec(BracketedName, name)
    case None => None
    case Some(m) => Some("[" + m[1] + "]")
  }

  ghost predicate BracketsOnly(name: string) {
    forall i :: 0 <= i < |name| ==> name[i] == '[' || name[i] == ']'
  }

  /** A non-bracket character at `q` is a match there: no opening bracket, one character, no closing one. */
  lemma FitsAt(name: string, q: nat)
    requires q < |name| && name[q] != '[' && name[q] != ']'
    ensures Fits(BracketedName.pieces, name, q, [0, 1, 0])
  {
    var ps := BracketedName.pieces;
    assert ps[1..] == [ps[1], ps[2]] && ps[1..][1..] == [ps[2]] && ps[1..][1..][1..] == [];
    assert [0, 1, 0][1..] == [1, 0] && [1, 0][1..] == [0] && [0][1..] == [];
    assert Takes(ps[1], name, q, 1);
    assert Fits([ps[2]], name, q + 1, [0]);
    assert Fits([ps[1], ps[2]], name, q, [1, 0]);
  }

  /** Any match holds a non-bracket character. */
  lemma FitsHasName(name: string, i: nat, v: seq<nat>)
    requires Fits(BracketedName.pieces, name, i, v)
    ensures !BracketsOnly(name)
  {
    var ps := BracketedName.pieces;
    assert ps[1..][0] == ps[1] && v[1..][0] == v[1];
    assert Takes(ps[1], name, i + v[0], v[1]);
    assert Accepts(Unbracketed, name[i + v[0]]);
  }

  /** `quoteName` throws exactly on a name made of brackets alone, the empty name among them. */
  lemma QuoteNameFails(name: string)
    ensures QuoteName(name).None? <==> BracketsOnly(name)
  {
    var ps := BracketedName.pieces;
    SearchIsLeftmostGreediest(ps, name, 0);
    if !BracketsOnly(name) {
      var q :| 0 <= q < |name| && name[q] != '[' && name[q] != ']';
      FitsAt(name, q);
    }
    if SearchFrom(ps, name, 0).Some? {
      var m := SearchFrom(ps, name, 0).value;
      FitsHasName(name, m.start, m.counts);
    }
  }

  /** A name inside brackets, any number of them on either side, comes out inside exactly one pair. */
  lemma QuoteNameOfName(o: string, x: string, c: string)
    requires AllOf(AnyOf({'['}), o) && x != [] && AllOf(Unbracketed, x) && AllOf(AnyOf({']'}), c)
    ensures QuoteName(o + x + c) == Some("[" + x + "]")
  {
    var s := o + x + c;
    var ps := BracketedName.pieces;
    var j1, j2 := |o|, |o| + |x|;
    assert s[..j1] == o && s[j1..j2] == x && s[j2..] == c;
    assert s[0..j1] == o && s[j2..j2 + |c|] == c;
    PieceSpans(ps[2], s, j2, c);
    GreedyCons(ps[2], [], s, j2, |c|, []);
    assert j2 < |s| ==> s[j2] == c[0];
    PieceSpans(ps[1], s, j1, x);
    GreedyCons(ps[1], [ps[2]], s, j1, |x|, [|c|]);
    assert s[j1] == x[0];
    PieceSpans(ps[0], s, 0, o);
    GreedyCons(ps[0], [ps[1], ps[2]], s, 0, |o|, [|x|, |c|]);
    assert [ps[2]] + [] == [ps[2]] && [ps[1]] + [ps[2]] == [ps[1], ps[2]] && [ps[0]] + [ps[1], ps[2]] == ps;
    assert [|c|] + [] == [|c|] && [|x|] + [|c|] == [|x|, |c|];
    var v := [|o|] + [|x|, |c|];
    assert v == [|o|, |x|, |c|];
    GreedyAllMatches(ps, s, 0, v);
    FoundAtStart(BracketedName, s, v);
    var m := Found(0, v);
    ExecFoundOne(BracketedName, s, m, 1);
    assert Offset(v, 1) == j1 && Offset(v, 2) == j2;
    assert Taken(s, m, 1, 2) == x;
  }

  /** What `quoteName` returns is a non-empty run of non-bracket characters in one pair of brackets. */
  lemma QuoteNameShape(name: string)
    requires QuoteName(name).Some?
    ensures var q := QuoteName(name).value;
      |q| >= 3 && q[0] == '[' && q[|q| - 1] == ']' && AllOf(Unbracketed, q[1..|q| - 1])
  {
    var ps := BracketedName.pieces;
    var m := SearchFrom(ps, name, 0).value;
    SearchIsLeftmostGreediest(ps, name, 0);
    ExecFoundOne(BracketedName, name, m, 1);
    var v := m.counts;
    assert ps[1..][0] == ps[1] && v[1..][0] == v[1];
    var i := m.start + v[0];
    assert Takes(ps[1], name, i, v[1]);
    assert Offset(v, 1) == v[0] && Offset(v, 2) == v[0] + v[1];
    var x := Taken(name, m, 1, 2);
    assert x == name[i..i + v[1]];
    var q := QuoteName(name).value;
    assert q == "[" + x + "]";
    assert q[1..|q| - 1] == x;
    forall t | 0 <= t < |x|
      ensures Accepts(Unbracketed, x[t])
    {
      assert x[t] == name[i + t];
    }
  }

  /** `parts.map(quoteName)`; `None` when `quoteName` throws on one of them. */
  function QuoteParts(parts: seq<string>): Option<seq<string>> {
    if parts == [] then Some([])
    else
      var head, tail := QuoteName(parts[0]), QuoteParts(parts[1..]);
      if head.None? || tail.None? then None else Some([head.value] + tail.value)
  }

  /** The map throws exactly when one part does, and otherwise quotes every part in its place. */
  lemma {:induction false} QuotePartsSpec(parts: seq<string>)
    ensures QuoteParts(parts).Some? <==> forall k :: 0 <= k < |parts| ==> QuoteName(parts[k]).Some?
    ensures QuoteParts(parts).Some? ==> var r := QuoteParts(parts).value;
      |r| == |parts| && forall k :: 0 <= k < |parts| ==> r[k] == QuoteName(parts[k]).value
  {
    if parts != [] {
      QuotePartsSpec(parts[1..]);
      assert forall k :: 1 <= k < |parts| ==> parts[1..][k - 1] == parts[k];
    }
  }

  /**
   * `word` of `completer`: the dot-separated parts of the word being completed, each
   * bracket-normalised, joined again, and the last character (a closing bracket) dropped.
   * `None` when `quoteName` throws.
   */
  function CompletionWord(origWord: string): Option<string> {
    match QuoteParts(Split(origWord, "."))
    case None => None
    case Some(quoted) =>
      var joined := Join(quoted, ".");
      Some(if joined == [] then [] else joined[..|joined| - 1])
  }

  /** The completion throws exactly when some dot-separated part of the word is brackets alone or empty. */
  lemma CompletionWordThrows(origWord: string)
    ensures CompletionWord(origWord).None? ==> exists k :: 0 <= k < |Split(origWord, ".")| && BracketsOnly(Split(origWord, ".")[k])
    ensures (exists k :: 0 <= k < |Split(origWord, ".")| && BracketsOnly(Split(origWord, ".")[k])) ==> CompletionWord(origWord).None?
  {
    var parts := Split(origWord, ".");
    QuotePartsSpec(parts);
    if QuoteParts(parts).None? {
      var k :| 0 <= k < |parts| && QuoteName(parts[k]).None?;
      QuoteNameFails(parts[k]);
    } else {
      forall k | 0 <= k < |parts|
        ensures !BracketsOnly(parts[k])
      {
        QuoteNameFails(parts[k]);
      }
    }
  }

  /** An unqualified name, bracketed or not, becomes `[name` so that it is a prefix of `[name]`. */
  lemma CompletionWordOfName(o: string, x: string, c: string)
    requires AllOf(AnyOf({'['}), o) && x != [] && AllOf(Unbracketed, x) && '.' !in x && AllOf(AnyOf({']'}), c)
    ensures CompletionWord(o + x + c) == Some("[" + x)
  {
    var s := o + x + c;
    assert '.' !in o by { assert forall t :: 0 <= t < |o| ==> o[t] == '['; }
    assert '.' !in c by { assert forall t :: 0 <= t < |c| ==> c[t] == ']'; }
    Lacks(s, ".", 0);
    SplitWithoutSeparator(s, ".");
    QuoteNameOfName(o, x, c);
    var q := "[" + x + "]";
    var r := QuoteParts([s]);
    QuotePartsSpec([s]);
    assert r.Some? && r.value[0] == q;
    assert r.value == [q];
    assert q[..|q| - 1] == "[" + x;
  }

  /** A name with one dot in it becomes `[schema].[table`. */
  lemma CompletionWordOfQualified(o1: string, x: string, c1: string, o2: string, y: string, c2: string)
    requires AllOf(AnyOf({'['}), o1) && x != [] && AllOf(Unbracketed, x) && '.' !in x && AllOf(AnyOf({']'}), c1)
    requires AllOf(AnyOf({'['}), o2) && y != [] && AllOf(Unbracketed, y) && '.' !in y && AllOf(AnyOf({']'}), c2)
    ensures CompletionWord((o1 + x + c1) + "." + (o2 + y + c2)) == Some("[" + x + "].[" + y)
  {
    var a, b := o1 + x + c1, o2 + y + c2;
    assert '.' !in a by {
      assert forall t :: 0 <= t < |o1| ==> o1[t] == '[';
      assert forall t :: 0 <= t < |c1| ==> c1[t] == ']';
    }
    assert '.' !in b by {
      assert forall t :: 0 <= t < |o2| ==> o2[t] == '[';
      assert forall t :: 0 <= t < |c2| ==> c2[t] == ']';
    }
    SplitOnce(a, '.', b);
    assert a + "." + b == a + ['.'] + b;
    QuoteNameOfName(o1, x, c1);
    QuoteNameOfName(o2, y, c2);
    var qa, qb := "[" + x + "]", "[" + y + "]";
    var r := QuoteParts([a, b]);
    QuotePartsSpec([a, b]);
    assert r.Some? && r.value[0] == qa && r.value[1] == qb;
    assert r.value == [qa, qb];
    assert Join([qa, qb], ".") == qa + "." + qb by { assert [qa, qb][1..] == [qb]; }
    var joined := qa + "." + qb;
    assert joined[..|joined| - 1] == "[" + x + "].[" + y;
  }

  // ---------------------------------------------------------------------------------
  // Hits and the completion policy
  // ---------------------------------------------------------------------------------

  /** `allSuggestions.filter(c => c.indexOf(word) == 0)`. */
  function Hits(cands: seq<string>, word: string): seq<string> {
    if cands == [] then []
    else
      var last := cands[|cands| - 1];
      Hits(cands[..|cands| - 1], word) + (if IndexOf(last, word) == 0 then [last] else [])
  }

  /** The hits are the candidates that start with the word, in candidate order and without new repetitions. */
  lemma {:induction false} HitsSpec(cands: seq<string>, word: string)
    ensures forall x :: x in Hits(cands, word) <==> x in cands && word <= x
    ensures Distinct(cands) ==> Distinct(Hits(cands, word)) && FirstSeenOrder(Hits(cands, word), cands)
  {
    if cands != [] {
      var init, last := cands[..|cands| - 1], cands[|cands| - 1];
      HitsSpec(init, word);
      IndexOfZeroIsPrefix(last, word);
      assert cands == init + [last];
      if Distinct(cands) {
        assert Distinct(init);
        assert last !in init;
        HitsKeepOrder(cands, Hits(init, word), word);
      }
    }
  }

  /** Hits in the order of the candidates but the last stay in order when the last is added. */
  lemma HitsKeepOrder(cands: seq<string>, h: seq<string>, word: string)
    requires cands != [] && Distinct(cands)
    requires forall x :: x in h ==> x in cands[..|cands| - 1]
    requires FirstSeenOrder(h, cands[..|cands| - 1])
    ensures var last := cands[|cands| - 1];
      FirstSeenOrder(h + (if IndexOf(last, word) == 0 then [last] else []), cands)
  {
    var init, last := cands[..|cands| - 1], cands[|cands| - 1];
    forall x | x in h
      ensures SeqIndexOf(cands, x) == SeqIndexOf(init, x) < |init|
    {
      SeqIndexOfPrefix(cands, |init|, x);
    }
    FirstAtOwnPosition(cands, |init|);
    var r := h + (if IndexOf(last, word) == 0 then [last] else []);
    forall i, j | 0 <= i < j < |r|
      ensures SeqIndexOf(cands, r[i]) < SeqIndexOf(cands, r[j])
    {
      assert r[i] == h[i] && h[i] in h;
      if j < |h| {
        assert r[j] == h[j] && h[j] in h;
      }
    }
  }

  /**
   * The hits of two lists one after the other are the hits of the first, then those of
   * the second; a single candidate is a hit exactly when it starts with the word. So
   * the hits are the candidates starting with the word, each where it stands.
   */
  lemma {:induction false} HitsAppend(a: seq<string>, b: seq<string>, word: string)
    ensures Hits(a + b, word) == Hits(a, word) + Hits(b, word)
    ensures |b| == 1 ==> Hits(b, word) == (if word <= b[0] then b else [])
    decreases |b|
  {
    if b == [] {
      assert a + b == a;
    } else {
      var init, last := b[..|b| - 1], b[|b| - 1];
      HitsAppend(a, init, word);
      assert (a + b)[..|a + b| - 1] == a + init && (a + b)[|a + b| - 1] == last;
      IndexOfZeroIsPrefix(last, word);
      if |b| == 1 {
        assert init == [] && b == [last];
      }
    }
  }

  /** The first two elements of a list are in it, and a list of one holds nothing else. */
  lemma FirstElements(h: seq<string>)
    ensures h != [] ==> h[0] in h
    ensures |h| >= 2 ==> h[1] in h
    ensures |h| == 1 ==> forall y :: y in h ==> y == h[0]
  {
  }

  /** A list without repetitions whose elements are all `x`, `x` among them, is `[x]`. */
  lemma Single(h: seq<string>, x: string)
    requires Distinct(h) && x in h && forall y :: y in h ==> y == x
    ensures h == [x]
  {
    FirstElements(h);
  }

  /** A replacement of the readline buffer: the new line and the new cursor. */
  datatype Edit = Edit(line: string, cursor: nat)

  /**
   * What `completer` does: it throws, or it returns `[shown, cmd]`; on a single hit it
   * also rewrites the line and moves the cursor.
   */
  datatype Completion = Thrown | Offer(shown: seq<string>, typed: string, edit: Option<Edit>)

  /** `cmd.substring(0, cmd.length - origWord.length)`: the command before the word being completed. */
  function Lead(cmd: string): (r: string)
    ensures r + AfterLast(cmd, ' ') == cmd
    ensures r == [] || r[|r| - 1] == ' '
  {
    cmd[..|cmd| - |AfterLast(cmd, ' ')|]
  }

  /** The result policy of `completer` on its hits. */
  function Decide(hits: seq<string>, line: string, cmd: string): Completion {
    if |hits| == 1 then
      var crafted := Lead(cmd) + hits[0];
      Offer([""], cmd, Some(Edit(crafted + SliceFrom(line, |cmd|), |crafted|)))
    else if |hits| == 0 || |hits| > 10 then Offer([], cmd, None)
    else Offer(hits, cmd, None)
  }

  /**
   * `completer(cmd)` over the available candidates `all`; `line` is the readline buffer
   * of which `cmd` is the part before the cursor.
   */
  function Complete(all: seq<string>, line: string, cmd: string): Completion {
    match CompletionWord(AfterLast(cmd, ' '))
    case None => Thrown
    case Some(word) => Decide(Hits(all, word), line, cmd)
  }

  /**
   * The completer throws exactly when a dot-separated part of the word before the
   * cursor is brackets only; otherwise it offers a list.
   */
  lemma CompleterThrowsExactly(all: seq<string>, line: string, cmd: string)
    ensures Complete(all, line, cmd) == Thrown ==>
      exists k :: 0 <= k < |Split(AfterLast(cmd, ' '), ".")| && BracketsOnly(Split(AfterLast(cmd, ' '), ".")[k])
    ensures (exists k :: 0 <= k < |Split(AfterLast(cmd, ' '), ".")| && BracketsOnly(Split(AfterLast(cmd, ' '), ".")[k])) ==>
      Complete(all, line, cmd) == Thrown
  {
    var w := AfterLast(cmd, ' ');
    CompletionWordThrows(w);
    if CompletionWord(w).Some? {
      assert Complete(all, line, cmd) == Decide(Hits(all, CompletionWord(w).value), line, cmd);
    }
  }

  /** Without a word, the completion throws. */
  lemma CompleteThrows(all: seq<string>, line: string, cmd: string)
    requires CompletionWord(AfterLast(cmd, ' ')).None?
    ensures Complete(all, line, cmd) == Thrown
  {
  }

  /** With the word at hand, the outcome is the policy applied to the hits. */
  lemma CompleteByHits(all: seq<string>, line: string, cmd: string, word: string)
    requires CompletionWord(AfterLast(cmd, ' ')) == Some(word)
    ensures Complete(all, line, cmd) == Decide(Hits(all, word), line, cmd)
  {
  }

  /** One hit: the completion in place. */
  lemma DecideSingle(hits: seq<string>, line: string, cmd: string, hit: string)
    requires hits == [hit]
    ensures Decide(hits, line, cmd) == Offer([""], cmd, Some(Edit(Lead(cmd) + hit + SliceFrom(line, |cmd|), |Lead(cmd)| + |hit|)))
  {
  }

  /** Any other number of hits: no edit; nothing listed for none or more than ten, else the hits. */
  lemma DecideOther(hits: seq<string>, line: string, cmd: string)
    requires |hits| != 1
    ensures var c := Decide(hits, line, cmd);
      && c.Offer? && c.typed == cmd && c.edit.None?
      && (|hits| == 0 || |hits| > 10 ==> c.shown == [])
      && (2 <= |hits| <= 10 ==> c.shown == hits)
  {
  }

  /** A single candidate starting with the word is the one hit. */
  lemma HitsOne(all: seq<string>, word: string, hit: string)
    requires Distinct(all)
    requires hit in all && word <= hit && forall x :: x in all && word <= x ==> x == hit
    ensures Hits(all, word) == [hit]
  {
    HitsSpec(all, word);
    Single(Hits(all, word), hit);
  }

  /** Two candidates starting with the word are two hits. */
  lemma HitsTwo(all: seq<string>, word: string, a: string, b: string)
    requires a != b && a in all && b in all && word <= a && word <= b
    ensures |Hits(all, word)| >= 2
  {
    HitsSpec(all, word);
    var hits := Hits(all, word);
    FirstElements(hits);
  }

  /** No candidate starting with the word, no hit. */
  lemma HitsNone(all: seq<string>, word: string)
    requires forall x :: x in all ==> !(word <= x)
    ensures Hits(all, word) == []
  {
    HitsSpec(all, word);
    FirstElements(Hits(all, word));
  }

  /**
   * A single candidate starting with the word: the word is replaced by it in the line,
   * what followed the cursor stays, the cursor goes right after the candidate, and
   * the list shown is `[""]`.
   */
  lemma CompleteInPlace(all: seq<string>, line: string, cmd: string, word: string, hit: string)
    requires Distinct(all) && CompletionWord(AfterLast(cmd, ' ')) == Some(word)
    requires hit in all && word <= hit && forall x :: x in all && word <= x ==> x == hit
    ensures Complete(all, line, cmd) == Offer([""], cmd, Some(Edit(Lead(cmd) + hit + SliceFrom(line, |cmd|), |Lead(cmd)| + |hit|)))
  {
    HitsOne(all, word, hit);
    CompleteByHits(all, line, cmd, word);
    DecideSingle(Hits(all, word), line, cmd, hit);
  }

  /** No candidate starts with the word: the line is left alone and nothing is listed. */
  lemma CompleteNone(all: seq<string>, line: string, cmd: string, word: string)
    requires CompletionWord(AfterLast(cmd, ' ')) == Some(word)
    requires forall x :: x in all ==> !(word <= x)
    ensures Complete(all, line, cmd) == Offer([], cmd, None)
  {
    HitsNone(all, word);
    CompleteByHits(all, line, cmd, word);
  }

  /**
   * Two or more candidates start with the word: the line is left alone, and the list
   * is empty when there are more than ten, else exactly those candidates, in order.
   */
  lemma CompleteSeveral(all: seq<string>, line: string, cmd: string, word: string, a: string, b: string)
    requires Distinct(all) && CompletionWord(AfterLast(cmd, ' ')) == Some(word)
    requires a != b && a in all && b in all && word <= a && word <= b
    ensures |Hits(all, word)| >= 2
    ensures var c := Complete(all, line, cmd);
      && c.Offer? && c.typed == cmd && c.edit.None?
      && (|Hits(all, word)| > 10 ==> c.shown == [])
      && (|Hits(all, word)| <= 10 ==> c.shown == Hits(all, word))
    ensures |Hits(all, word)| <= 10 ==>
      var shown := Complete(all, line, cmd).shown;
      && Distinct(shown) && FirstSeenOrder(shown, all) && forall x :: x in shown <==> x in all && word <= x
  {
    HitsSpec(all, word);
    HitsTwo(all, word, a, b);
    CompleteByHits(all, line, cmd, word);
    DecideOther(Hits(all, word), line, cmd);
  }
}
