/**
 * The shape of what the SQL Server driver returns for one statement (a row set and its
 * column metadata) and the display grid the client builds from it before rendering a table.
 */
module Records {
  import opened JsText
  import opened Wrappers

  /** A field value as the driver hands it over; `Instant` is a JavaScript Date, in milliseconds since the epoch. */
  datatype Value = Text(s: string) | Number(n: int) | Boolean(b: bool) | Null | Instant(ms: int)

  /** The declared SQL types the formatter tells apart; every other type is `OtherType`. */
  datatype SqlType = Date | DateTime | DateTime2 | DateTimeOffset | SmallDateTime | OtherType(name: string)

  /** Column metadata: declared type and numeric scale. */
  datatype Column = Column(kind: SqlType, scale: nat)

  /**
   * One row object: its own keys in the order `Object.keys` lists them, each with its
   * value. JavaScript lists names that are array indices first, in ascending order,
   * and the other names after them in the order the driver created them.
   */
  type Record = seq<(string, Value)>

  /** The rows of one statement and the metadata of its columns, keyed by column name. */
  datatype RowSet = RowSet(records: seq<Record>, columns: map<string, Column>)

  /**
   * A display cell: a value shown as it is, a Date to be formatted with a moment.js
   * pattern, or a Date of an unrecognised type shown as its ISO text cut at the seconds.
   */
  datatype Cell = Plain(v: Value) | Formatted(pattern: string, ms: int) | IsoSeconds(ms: int)

  /** Every Date field of the row set has column metadata, as the driver always supplies. */
  ghost predicate Described(rs: RowSet) {
    forall i, k :: 0 <= i < |rs.records| && 0 <= k < |rs.records[i]| && rs.records[i][k].1.Instant?
      ==> rs.records[i][k].0 in rs.columns
  }

  /** `Object.keys(obj)`. */
  function Keys(r: Record): (ks: seq<string>)
    ensures |ks| == |r| && forall k :: 0 <= k < |r| ==> ks[k] == r[k].0
  {
    if r == [] then [] else [r[0].0] + Keys(r[1..])
  }

  const DatePrefix := "YYYY-MM-DD"

  /**
   * The moment.js pattern of the `switch (column.type)`; `None` is its `default`
   * branch, which formats through `toISOString` instead.
   */
  function DatePattern(c: Column): Option<string> {
    match c.kind
    case Date => Some(DatePrefix)
    case DateTime => Some(DatePrefix + " HH:mm:ss.SSS")
    case DateTime2 => Some(DatePrefix + " HH:mm:ss." + Repeat('S', c.scale))
    case DateTimeOffset => Some(DatePrefix + " HH:mm:ss." + Repeat('S', c.scale) + " Z")
    case SmallDateTime => Some(DatePrefix + " HH:mm")
    case OtherType(_) => None
  }

  /** The cell of one field: a non-Date value passes through, a Date is formatted by its column's type. */
  function FormatField(key: string, v: Value, columns: map<string, Column>): (c: Cell)
    requires v.Instant? ==> key in columns
    ensures !v.Instant? ==> c == Plain(v)
    ensures v.Instant? ==> !c.Plain? && c.ms == v.ms
  {
    if !v.Instant? then Plain(v)
    else match DatePattern(columns[key])
      case Some(p) => Formatted(p, v.ms)
      case None => IsoSeconds(v.ms)
  }

  /** `Object.keys(obj).map(...)`: the cells of one row, in key order. */
  function FormatRecord(r: Record, columns: map<string, Column>): (cells: seq<Cell>)
    requires forall k :: 0 <= k < |r| && r[k].1.Instant? ==> r[k].0 in columns
    ensures |cells| == |r|
    ensures forall k :: 0 <= k < |r| ==> cells[k] == FormatField(r[k].0, r[k].1, columns)
  {
    if r == [] then [] else [FormatField(r[0].0, r[0].1, columns)] + FormatRecord(r[1..], columns)
  }

  /** The header row: the keys of the first record, shown as text. */
  function HeaderRow(r: Record): (cells: seq<Cell>)
    ensures |cells| == |r| && forall k :: 0 <= k < |r| ==> cells[k] == Plain(Text(r[k].0))
  {
    if r == [] then [] else [Plain(Text(r[0].0))] + HeaderRow(r[1..])
  }

  /** The grid that `getRecords` builds: the header row, then one row per record. */
  function Grid(rs: RowSet): (g: seq<seq<Cell>>)
    requires |rs.records| > 0 && Described(rs)
  {
    [HeaderRow(rs.records[0])] + RecordRows(rs, |rs.records|)
  }

  /** The formatted rows of the first `n` records. */
  function RecordRows(rs: RowSet, n: nat): (rows: seq<seq<Cell>>)
    requires n <= |rs.records| && Described(rs)
    ensures |rows| == n
  {
    if n == 0 then [] else RecordRows(rs, n - 1) + [FormatRecord(rs.records[n - 1], rs.columns)]
  }

  /** The grid has a header and one row per record, each row the formatted fields of its record. */
  lemma {:induction false} GridShape(rs: RowSet)
    requires |rs.records| > 0 && Described(rs)
    ensures |Grid(rs)| == 1 + |rs.records|
    ensures Grid(rs)[0] == HeaderRow(rs.records[0])
    ensures forall i :: 0 <= i < |rs.records| ==> Grid(rs)[i + 1] == FormatRecord(rs.records[i], rs.columns)
  {
    forall i | 0 <= i < |rs.records|
      ensures Grid(rs)[i + 1] == FormatRecord(rs.records[i], rs.columns)
    {
      RecordRowsAt(rs, |rs.records|, i);
    }
  }

  lemma {:induction false} RecordRowsAt(rs: RowSet, n: nat, i: nat)
    requires i < n <= |rs.records| && Described(rs)
    ensures RecordRows(rs, n)[i] == FormatRecord(rs.records[i], rs.columns)
    decreases n
  {
    if i < n - 1 {
      RecordRowsAt(rs, n - 1, i);
    }
  }

  /** Every pattern starts with the calendar date, and only Date stops there. */
  lemma PatternsStartWithDate(c: Column)
    requires DatePattern(c).Some?
    ensures DatePrefix <= DatePattern(c).value
    ensures DatePattern(c).value == DatePrefix <==> c.kind == Date
  {
  }

  /**
   * The fractional seconds of DateTime2 and DateTimeOffset have as many digits (`S`
   * tokens) as the column's scale, and DateTimeOffset is DateTime2 followed by the zone.
   */
  lemma {:induction false} FractionDigitsFollowScale(c: Column)
    requires c.kind == DateTime2 || c.kind == DateTimeOffset
    ensures Count('S', DatePattern(c).value) == c.scale
    ensures DatePattern(Column(DateTimeOffset, c.scale)).value == DatePattern(Column(DateTime2, c.scale)).value + " Z"
  {
    var head := DatePrefix + " HH:mm:ss.";
    assert 'S' !in head;
    CountAbsent('S', head);
    CountRepeat('S', c.scale);
    CountAppend('S', head, Repeat('S', c.scale));
    assert 'S' !in " Z";
    CountAbsent('S', " Z");
    CountAppend('S', head + Repeat('S', c.scale), " Z");
  }

  /** DateTime, whatever its metadata says, shows milliseconds: the pattern of DateTime2 of scale 3. */
  lemma DateTimeIsScaleThree(scale: nat)
    ensures DatePattern(Column(DateTime, scale)) == DatePattern(Column(DateTime2, 3))
  {
    assert Repeat('S', 3) == "SSS";
    assert DatePrefix + " HH:mm:ss." + "SSS" == DatePrefix + " HH:mm:ss.SSS";
  }

  /** SmallDateTime is DateTime cut at the minutes. */
  lemma SmallDateTimeCutsAtMinutes(scale: nat)
    ensures DatePattern(Column(SmallDateTime, scale)).value <= DatePattern(Column(DateTime, scale)).value
  {
  }
}
