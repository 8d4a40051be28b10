/**
 * scripts/export-by-year-csv.js: the tournaments whose name mentions a given year,
 * written as CSV with the text fields quoted as in section 2 of RFC 4180.
 */
module ExportByYearCsv {
  import opened Common
  import opened Text
  import opened Cli

  const Usage: string := "Usage: node scripts/export-by-year-csv.js 2023"
  const Header: string := "id,name,nameShortened"

  /** One CSV row before escaping. */
  datatype Row = Row(id: string, name: string, nameShortened: string)

  /** The row of an item: a missing short name becomes the empty string. */
  function ToRow(t: Tournament): (r: Row)
    ensures r.id == t.id && r.name == t.name
    ensures r.nameShortened == t.nameShortened.GetOr("")
  {
    Row(t.id, t.name, t.nameShortened.GetOr(""))
  }

  /** One row per item, in order. */
  function ToRows(ts: seq<Tournament>): (rows: seq<Row>)
    ensures |rows| == |ts|
    ensures forall i :: 0 <= i < |ts| ==> rows[i] == ToRow(ts[i])
  {
    if ts == [] then [] else [ToRow(ts[0])] + ToRows(ts[1..])
  }

  /** Every double quote in the text doubled. */
  function DoubleQuotes(s: string): (r: string)
    ensures |r| >= |s|
  {
    if s == [] then []
    else (if s[0] == '"' then "\"\"" else [s[0]]) + DoubleQuotes(s[1..])
  }

  /** `esc`: the field wrapped in double quotes with every embedded quote doubled;
      `null` and `undefined` become the empty field. */
  function Esc(s: Option<string>): (r: string)
    ensures |r| >= 2 && r[0] == '"' && r[|r| - 1] == '"'
    ensures s.None? ==> r == "\"\""
  {
    "\"" + DoubleQuotes(s.GetOr("")) + "\""
  }

  /** The line of a row: the raw id, the escaped name and the escaped short name, separated
      by commas. */
  function RowLine(r: Row): string
  {
    Join([r.id, Esc(Some(r.name)), Esc(Some(r.nameShortened))], ',')
  }

  function RowLines(rows: seq<Row>): (lines: seq<string>)
    ensures |lines| == |rows|
    ensures forall i :: 0 <= i < |rows| ==> lines[i] == RowLine(rows[i])
  {
    if rows == [] then [] else [RowLine(rows[0])] + RowLines(rows[1..])
  }

  /** The header line, then one line per row, joined by newlines. */
  function Csv(rows: seq<Row>): string
  {
    Join([Header] + RowLines(rows), '\n')
  }

  /** What the script writes: the file name, its contents and the number of rows. */
  datatype CsvExport = CsvExport(fileName: string, csv: string, rowCount: nat)

  /** The script run on the command-line argument `arg` over the snapshot's `items`. */
  function Export(arg: Option<string>, items: seq<Tournament>): (r: Result<CsvExport>)
    ensures r.UsageError? <==> YearArgument(arg).None?
    ensures r.Ok? ==> r.value.fileName == "tournaments_" + arg.value + ".csv"
    ensures r.Ok? ==> r.value.rowCount == |NamedInYear(items, arg.value)|
    ensures r.Ok? ==> r.value.csv == Csv(ToRows(NamedInYear(items, arg.value)))
  {
    match YearArgument(arg)
    case None => UsageError(Usage)
    case Some(year) =>
      var rows := ToRows(NamedInYear(items, year));
      Ok(CsvExport("tournaments_" + year + ".csv", Csv(rows), |rows|))
  }

  // ---- Reading the CSV back ----

  /** The body of a quoted field after its opening quote: `""` stands for one quote and a
      lone quote closes the field. Yields the value and what follows the closing quote. */
  function ParseQuotedBody(s: string): Option<(string, string)>
  {
    if s == [] then None
    else if s[0] == '"' then
      if |s| >= 2 && s[1] == '"' then
        match ParseQuotedBody(s[2..])
        case None => None
        case Some((v, rest)) => Some(("\"" + v, rest))
      else Some(("", s[1..]))
    else
      match ParseQuotedBody(s[1..])
      case None => None
      case Some((v, rest)) => Some(([s[0]] + v, rest))
  }

  /** A quoted field at the head of `s`. */
  function ParseQuoted(s: string): Option<(string, string)>
  {
    if s == [] || s[0] != '"' then None else ParseQuotedBody(s[1..])
  }

  lemma {:induction false} ParseQuotedBodyDoubled(x: string, rest: string)
    requires rest == [] || rest[0] != '"'
    ensures ParseQuotedBody(DoubleQuotes(x) + "\"" + rest) == Some((x, rest))
  {
    var s := DoubleQuotes(x) + "\"" + rest;
    if x == [] {
      assert s == "\"" + rest && s[1..] == rest;
    } else {
      ParseQuotedBodyDoubled(x[1..], rest);
      var tail := DoubleQuotes(x[1..]) + "\"" + rest;
      if x[0] == '"' {
        assert s == "\"\"" + tail && s[2..] == tail;
        assert "\"" + x[1..] == x;
      } else {
        assert s == [x[0]] + tail && s[1..] == tail;
        assert [x[0]] + x[1..] == x;
      }
    }
  }

  /** Round trip of `esc`: reading an escaped field back, whatever follows it (unless a
      quote), yields the original string and leaves what follows. */
  lemma EscRoundTrip(x: string, rest: string)
    requires rest == [] || rest[0] != '"'
    ensures ParseQuoted(Esc(Some(x)) + rest) == Some((x, rest))
  {
    ParseQuotedBodyDoubled(x, rest);
    assert (Esc(Some(x)) + rest)[1..] == DoubleQuotes(x) + "\"" + rest;
  }

  /** `s` cut at the first `c`. */
  function CutAt(s: string, c: char): Option<(string, string)>
  {
    if s == [] then None
    else if s[0] == c then Some(([], s[1..]))
    else
      match CutAt(s[1..], c)
      case None => None
      case Some((a, b)) => Some(([s[0]] + a, b))
  }

  lemma {:induction false} CutAtFirst(a: string, c: char, b: string)
    requires c !in a
    ensures CutAt(a + [c] + b, c) == Some((a, b))
  {
    if a == [] {
      assert a + [c] + b == [c] + b;
    } else {
      CutAtFirst(a[1..], c, b);
      assert (a + [c] + b)[1..] == a[1..] + [c] + b;
      assert [a[0]] + a[1..] == a;
    }
  }

  /** A row line: the raw id up to the first comma, then two quoted fields. */
  function ParseRow(line: string): Option<Row>
  {
    match CutAt(line, ',')
    case None => None
    case Some((id, afterId)) =>
      match ParseQuoted(afterId)
      case None => None
      case Some((name, afterName)) =>
        if afterName == [] || afterName[0] != ',' then None
        else
          match ParseQuoted(afterName[1..])
          case None => None
          case Some((short, afterShort)) =>
            if afterShort == [] then Some(Row(id, name, short)) else None
  }

  lemma RowLineShape(r: Row)
    ensures RowLine(r) == r.id + [','] + (Esc(Some(r.name)) + [','] + Esc(Some(r.nameShortened)))
  {
    var e1, e2 := Esc(Some(r.name)), Esc(Some(r.nameShortened));
    assert [r.id, e1, e2][1..] == [e1, e2];
    assert [e1, e2][1..] == [e2];
    assert Join([e2], ',') == e2;
    assert Join([e1, e2], ',') == e1 + [','] + e2;
    assert Join([r.id, e1, e2], ',') == r.id + [','] + Join([e1, e2], ',');
  }

  lemma RowRoundTrip(r: Row)
    requires ',' !in r.id
    ensures ParseRow(RowLine(r)) == Some(r)
  {
    var e1, e2 := Esc(Some(r.name)), Esc(Some(r.nameShortened));
    var afterId := e1 + ([','] + e2);
    RowLineShape(r);
    assert RowLine(r) == r.id + [','] + afterId;
    CutAtFirst(r.id, ',', afterId);
    EscRoundTrip(r.name, [','] + e2);
    EscRoundTrip(r.nameShortened, []);
    assert e2 + [] == e2;
    assert ParseQuoted(afterId) == Some((r.name, [','] + e2));
    assert ([','] + e2)[1..] == e2;
    assert ParseQuoted(e2) == Some((r.nameShortened, []));
  }

  function ParseRows(lines: seq<string>): Option<seq<Row>>
  {
    if lines == [] then Some([])
    else
      match ParseRow(lines[0])
      case None => None
      case Some(r) =>
        match ParseRows(lines[1..])
        case None => None
        case Some(rs) => Some([r] + rs)
  }

  /** The header line, then one row per line. */
  function ParseCsv(csv: string): Option<seq<Row>>
  {
    var lines := Split(csv, '\n');
    if lines[0] != Header then None else ParseRows(lines[1..])
  }

  /** A row whose id holds no comma and whose fields hold no line break. */
  predicate Plain(r: Row)
  {
    ',' !in r.id && '\n' !in r.id && '\n' !in r.name && '\n' !in r.nameShortened
  }

  lemma {:induction false} NoNewlineDoubled(s: string)
    requires '\n' !in s
    ensures '\n' !in DoubleQuotes(s)
  {
    if s != [] {
      NoNewlineDoubled(s[1..]);
    }
  }

  lemma NoNewlineInRowLine(r: Row)
    requires Plain(r)
    ensures '\n' !in RowLine(r)
  {
    RowLineShape(r);
    NoNewlineDoubled(r.name);
    NoNewlineDoubled(r.nameShortened);
  }

  lemma ParseRowsCons(lines: seq<string>, r: Row, rs: seq<Row>)
    requires |lines| > 0 && ParseRow(lines[0]) == Some(r) && ParseRows(lines[1..]) == Some(rs)
    ensures ParseRows(lines) == Some([r] + rs)
  {
  }

  lemma {:induction false} ParseRowLines(rows: seq<Row>)
    requires forall i :: 0 <= i < |rows| ==> Plain(rows[i])
    ensures ParseRows(RowLines(rows)) == Some(rows)
  {
    if rows != [] {
      var lines := RowLines(rows);
      ParseRowLines(rows[1..]);
      assert Plain(rows[0]);
      RowRoundTrip(rows[0]);
      assert lines[1..] == RowLines(rows[1..]);
      ParseRowsCons(lines, rows[0], rows[1..]);
      assert [rows[0]] + rows[1..] == rows;
    }
  }

  /**
   * The CSV has the header and exactly one line per row, and reading it back gives the
   * rows, provided no id holds a comma and no field a line break.
   */
  lemma CsvRoundTrip(rows: seq<Row>)
    requires forall i :: 0 <= i < |rows| ==> Plain(rows[i])
    ensures Split(Csv(rows), '\n') == [Header] + RowLines(rows)
    ensures |Split(Csv(rows), '\n')| == |rows| + 1
    ensures ParseCsv(Csv(rows)) == Some(rows)
  {
    var lines := [Header] + RowLines(rows);
    forall k | 0 <= k < |lines|
      ensures '\n' !in lines[k]
    {
      if k > 0 {
        NoNewlineInRowLine(rows[k - 1]);
      }
    }
    SplitJoin(lines, '\n');
    ParseRowLines(rows);
    assert lines[1..] == RowLines(rows);
  }

  /** What the script writes reads back as the rows of the items whose name contains the
      year, in the snapshot's order, one line each after the header. */
  lemma ExportRoundTrip(arg: Option<string>, items: seq<Tournament>)
    requires Export(arg, items).Ok?
    requires forall t :: t in NamedInYear(items, arg.value) ==> Plain(ToRow(t))
    ensures var e := Export(arg, items).value;
      && ParseCsv(e.csv) == Some(ToRows(NamedInYear(items, arg.value)))
      && |Split(e.csv, '\n')| == e.rowCount + 1
  {
    var selected := NamedInYear(items, arg.value);
    var rows := ToRows(selected);
    forall i | 0 <= i < |rows|
      ensures Plain(rows[i])
    {
      assert selected[i] in selected;
    }
    CsvRoundTrip(rows);
  }
}
