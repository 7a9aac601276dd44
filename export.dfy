/**
 * export.php: the year series of a request as a CSV attachment. The series is
 * the one get_data.php computes, without the internet `COALESCE`, plus a
 * mortality rate per 100 000 inhabitants; the attachment is named after the
 * search text.
 */
module Export {
  import opened Wrappers
  import opened Strings
  import opened Facts
  import opened Scope
  import opened CauseFilter
  import opened Aggregation
  import opened Requests

  /** The body of the 400 answer to a request without a country or without causes. */
  const BadRequestMessage: string := "Error: No se especificó el país o región."

  /** What every exception's message is prefixed with. */
  const FailurePrefix: string := "Error al generar el archivo: "

  // ------------------------------------------------------------ file name

  /**
   * `preg_replace('/[^a-z0-9]+/', '_', …)`: every maximal run of characters
   * outside `[a-z0-9]` becomes one `_`. `inRun` is true when the character
   * before `s` was already part of a replaced run.
   */
  function CollapseFrom(s: string, inRun: bool): (r: string)
    ensures forall i :: 0 <= i < |r| ==> IsLowerAlnum(r[i]) || r[i] == '_'
    ensures forall i :: 0 <= i < |r| - 1 ==> !(r[i] == '_' && r[i + 1] == '_')
    ensures inRun && |r| > 0 ==> r[0] != '_'
    decreases |s|
  {
    if |s| == 0 then ""
    else if IsLowerAlnum(s[0]) then [s[0]] + CollapseFrom(s[1..], false)
    else if inRun then CollapseFrom(s[1..], true)
    else "_" + CollapseFrom(s[1..], true)
  }

  /** The search text as it appears in the file name. */
  function SafeName(name: string): string {
    CollapseFrom(Lower(name), false)
  }

  /** `"datos_" . … . ".csv"`. */
  function Filename(name: string): string {
    "datos_" + SafeName(name) + ".csv"
  }

  /** The letters and digits of the text survive the collapse, in order, and nothing else does. */
  lemma {:induction false} CollapseKeepsAlnum(s: string, inRun: bool)
    ensures FilterChars(CollapseFrom(s, inRun), IsLowerAlnum) == FilterChars(s, IsLowerAlnum)
    decreases |s|
  {
    if |s| > 0 {
      CollapseKeepsAlnum(s[1..], !IsLowerAlnum(s[0]));
      var rest := CollapseFrom(s[1..], !IsLowerAlnum(s[0]));
      if IsLowerAlnum(s[0]) {
        assert ([s[0]] + rest)[1..] == rest;
      } else if !inRun {
        assert ("_" + rest)[1..] == rest;
      }
    }
  }

  /** A text already in collapsed form is left as it is. */
  lemma {:induction false} CollapseFixes(t: string, inRun: bool)
    requires forall i :: 0 <= i < |t| ==> IsLowerAlnum(t[i]) || t[i] == '_'
    requires forall i :: 0 <= i < |t| - 1 ==> !(t[i] == '_' && t[i + 1] == '_')
    requires inRun && |t| > 0 ==> t[0] != '_'
    ensures CollapseFrom(t, inRun) == t
    decreases |t|
  {
    if |t| > 0 {
      assert forall i :: 0 <= i < |t[1..]| ==> t[1..][i] == t[i + 1];
      CollapseFixes(t[1..], !IsLowerAlnum(t[0]));
      assert t == [t[0]] + t[1..];
    }
  }

  /** Sanitising a sanitised name changes nothing. */
  lemma SafeNameIdempotent(name: string)
    ensures SafeName(SafeName(name)) == SafeName(name)
  {
    var s := SafeName(name);
    assert Lower(s) == s by {
      assert forall i :: 0 <= i < |s| ==> LowerChar(s[i]) == s[i];
    }
    CollapseFixes(s, false);
  }

  /** A name made of lower-case letters and digits only is used unchanged. */
  lemma SafeNameOfAlnum(name: string)
    requires forall i :: 0 <= i < |name| ==> IsLowerAlnum(name[i])
    ensures SafeName(name) == name
  {
    assert Lower(name) == name by {
      assert forall i :: 0 <= i < |name| ==> LowerChar(name[i]) == name[i];
    }
    CollapseFixes(name, false);
  }

  /** The file name holds only lower-case letters, digits, `_` and the `.` of the extension. */
  lemma FilenameCharacters(name: string)
    ensures forall i :: 0 <= i < |Filename(name)| ==>
      var c := Filename(name)[i]; IsLowerAlnum(c) || c == '_' || c == '.'
  {
  }

  // ------------------------------------------------------------ the rows

  /**
   * `(TotalDeaths / TotalPopulation) * 100000`, exact: NULL when the
   * population is NULL, and NULL for a zero population as MySQL divides.
   */
  function MortalityRate(deaths: int, population: Option<int>): (r: Option<real>)
    ensures r.None? <==> population.None? || population.value == 0
    ensures r.Some? ==> r.value * (population.value as real) == (deaths as real) * 100000.0
  {
    match population
    case None => None
    case Some(p) =>
      if p == 0 then None
      else
        var v := ((deaths as real) / (p as real)) * 100000.0;
        assert v * (p as real) == (deaths as real) * 100000.0;
        Some(v)
  }

  /** One result row: `Year, TotalDeaths, TotalPopulation, Porcentaje_Uso, Tasa_Mortalidad_x_100k`. */
  datatype ExportRow = ExportRow(
    year: int, totalDeaths: int, totalPopulation: Option<int>,
    internet: Option<real>, rate: Option<real>)

  /** The export query: the series without `COALESCE`, each row with its rate. */
  function ExportRows(env: Env, db: Database, q: Query): (rows: seq<ExportRow>)
    ensures |rows| == |TimeSeries(env, db, q, false)|
  {
    var s := TimeSeries(env, db, q, false);
    seq(|s|, i requires 0 <= i < |s| =>
      ExportRow(s[i].year, s[i].totalDeaths, s[i].totalPopulation, s[i].internet,
        MortalityRate(s[i].totalDeaths, s[i].totalPopulation)))
  }

  /** One row per year of the matched mortality rows, in ascending order. */
  lemma ExportRowsYears(env: Env, db: Database, q: Query)
    ensures var rows, m := ExportRows(env, db, q), Matched(db.mortality, q);
      && (forall i, j :: 0 <= i < j < |rows| ==> rows[i].year < rows[j].year)
      && (forall i :: 0 <= i < |rows| ==> HasRowOfYear(m, rows[i].year))
      && (forall y :: HasRowOfYear(m, y) ==> exists i :: 0 <= i < |rows| && rows[i].year == y)
  {
    var s := TimeSeries(env, db, q, false);
    var rows := ExportRows(env, db, q);
    var m := Matched(db.mortality, q);
    assert forall i :: 0 <= i < |rows| ==> rows[i].year == s[i].year;
    TimeSeriesSpec(env, db, q, false);
    forall y | HasRowOfYear(m, y) ensures exists i :: 0 <= i < |rows| && rows[i].year == y {
      assert HasSeriesYear(s, y);
      var i :| 0 <= i < |s| && s[i].year == y;
      assert rows[i].year == y;
    }
    forall i | 0 <= i < |rows| ensures HasRowOfYear(m, rows[i].year) {
      assert HasSeriesYear(s, s[i].year);
    }
  }

  /**
   * Each row holds its year's deaths and population, an internet value only
   * when the year has a non-NULL one, and the rate of its own deaths and
   * population.
   */
  lemma ExportRowValues(env: Env, db: Database, q: Query, i: nat)
    requires i < |ExportRows(env, db, q)|
    ensures var row, m := ExportRows(env, db, q)[i], Matched(db.mortality, q);
      && row.totalDeaths == DeathsWhere(m, InYear(row.year))
      && row.totalPopulation == PopulationOf(db.population, q.scope, row.year)
      && (row.internet.None? <==> |InternetValues(env, db.internet, q.scope, row.year)| == 0)
      && row.rate == MortalityRate(row.totalDeaths, row.totalPopulation)
  {
    var s := TimeSeries(env, db, q, false);
    var row := ExportRows(env, db, q)[i];
    assert row == ExportRow(s[i].year, s[i].totalDeaths, s[i].totalPopulation, s[i].internet,
      MortalityRate(s[i].totalDeaths, s[i].totalPopulation));
    TimeSeriesAt(env, db, q, false, i);
  }

  // ------------------------------------------------------------ the CSV

  /** A CSV field as `fputcsv` receives it: a PHP null, a number or a text. */
  datatype Cell = NullCell | IntCell(i: int) | RealCell(r: real) | TextCell(t: string)

  /** The header names; with a result they come from the first row's keys, which are these aliases. */
  const HeaderNames: seq<string> := ["Year", "TotalDeaths", "TotalPopulation", "Porcentaje_Uso", "Tasa_Mortalidad_x_100k"]

  function HeaderLine(): (line: seq<Cell>)
    ensures |line| == |HeaderNames| && forall i :: 0 <= i < |line| ==> line[i] == TextCell(HeaderNames[i])
  {
    seq(|HeaderNames|, i requires 0 <= i < |HeaderNames| => TextCell(HeaderNames[i]))
  }

  function IntOrNull(v: Option<int>): Cell {
    match v
    case None => NullCell
    case Some(x) => IntCell(x)
  }

  function RealOrNull(v: Option<real>): Cell {
    match v
    case None => NullCell
    case Some(x) => RealCell(x)
  }

  /** The fields of one row, in column order. */
  function RowLine(r: ExportRow): seq<Cell> {
    [IntCell(r.year), IntCell(r.totalDeaths), IntOrNull(r.totalPopulation), RealOrNull(r.internet), RealOrNull(r.rate)]
  }

  function CellInt(c: Cell): Option<int> {
    match c
    case IntCell(x) => Some(x)
    case _ => None
  }

  function CellReal(c: Cell): Option<real> {
    match c
    case RealCell(x) => Some(x)
    case _ => None
  }

  /** Reads a written line back into a row; `None` for a line of another shape. */
  function ParseRowLine(line: seq<Cell>): Option<ExportRow> {
    if |line| == 5 && line[0].IntCell? && line[1].IntCell? then
      Some(ExportRow(line[0].i, line[1].i, CellInt(line[2]), CellReal(line[3]), CellReal(line[4])))
    else None
  }

  /** Every row is written with all its fields, under the header's five columns. */
  lemma RowLineRoundTrip(r: ExportRow)
    ensures |RowLine(r)| == |HeaderLine()|
    ensures ParseRowLine(RowLine(r)) == Some(r)
  {
  }

  /** The whole file: the header, then every row once, in order. */
  function ExportLines(rows: seq<ExportRow>): (lines: seq<seq<Cell>>)
    ensures |lines| == |rows| + 1
    ensures lines[0] == HeaderLine()
    ensures forall i :: 0 <= i < |rows| ==> lines[i + 1] == RowLine(rows[i])
    ensures forall i :: 0 <= i < |lines| ==> |lines[i]| == |HeaderNames|
  {
    [HeaderLine()] + seq(|rows|, i requires 0 <= i < |rows| => RowLine(rows[i]))
  }

  /** The output stream: the lines `fputcsv` has written so far. */
  class CsvStream {
    var lines: seq<seq<Cell>>

    constructor ()
      ensures lines == []
    {
      lines := [];
    }

    /** `fputcsv($output, $row)`. */
    method WriteLine(line: seq<Cell>)
      modifies this
      ensures lines == old(lines) + [line]
    {
      lines := lines + [line];
    }
  }

  /** The header, then the `foreach` over the result rows. */
  method WriteExport(out: CsvStream, rows: seq<ExportRow>)
    modifies out
    ensures out.lines == old(out.lines) + ExportLines(rows)
  {
    out.WriteLine(HeaderLine());
    for i := 0 to |rows|
      invariant out.lines == old(out.lines) + ExportLines(rows[..i])
    {
      assert ExportLines(rows[..i + 1]) == ExportLines(rows[..i]) + [RowLine(rows[i])];
      out.WriteLine(RowLine(rows[i]));
    }
    assert rows[..|rows|] == rows;
  }

  // ------------------------------------------------------------ endpoint

  datatype ExportResponse =
    | BadRequest(message: string)
    | Failed(filename: string, message: string)
    | Attachment(filename: string, lines: seq<seq<Cell>>)

  /** The response, as a function of the request and the tables. */
  function ExportOf(env: Env, db: Database, req: Request): (r: ExportResponse)
    ensures MissingInput(req) <==> r == BadRequest(BadRequestMessage)
    ensures !MissingInput(req) && Prepare(env, db, req).Err? ==>
      r == Failed(Filename(req.country), FailurePrefix + Prepare(env, db, req).error)
    ensures r.Attachment? <==> !MissingInput(req) && Prepare(env, db, req).Ok?
    ensures r.Attachment? ==>
      r.filename == Filename(req.country)
      && r.lines == ExportLines(ExportRows(env, db, Prepare(env, db, req).value))
  {
    if MissingInput(req) then BadRequest(BadRequestMessage)
    else
      match Prepare(env, db, req)
      case Err(m) => Failed(Filename(req.country), FailurePrefix + m)
      case Ok(q) => Attachment(Filename(req.country), ExportLines(ExportRows(env, db, q)))
  }

  /** The endpoint: resolve, query, and write the file to a fresh stream. */
  method Export(env: Env, db: Database, req: Request) returns (r: ExportResponse)
    ensures r == ExportOf(env, db, req)
  {
    if MissingInput(req) {
      return BadRequest(BadRequestMessage);
    }
    var filename := Filename(req.country);
    var prepared := Prepare(env, db, req);
    if prepared.Err? {
      return Failed(filename, FailurePrefix + prepared.error);
    }
    var out := new CsvStream();
    WriteExport(out, ExportRows(env, db, prepared.value));
    r := Attachment(filename, out.lines);
  }

  /** A request that matches no mortality row is not an error: the file holds the header alone. */
  lemma ExportEmptyIsHeaderOnly(env: Env, db: Database, req: Request)
    requires !MissingInput(req) && Prepare(env, db, req).Ok?
    requires |Matched(db.mortality, Prepare(env, db, req).value)| == 0
    ensures ExportOf(env, db, req) == Attachment(Filename(req.country), [HeaderLine()])
  {
    SeriesEmpty(env, db, Prepare(env, db, req).value, false);
  }
}
