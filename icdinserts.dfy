/**
 * The ICD-10 catalogue converter of idc10mortality.py: every row of the CSV
 * becomes one INSERT statement for the causes table, with the title's
 * single quotes doubled; the run stops at the first row that lacks a
 * column, keeping what it already wrote.
 */
module IcdInserts {
  import opened Wrappers
  import opened Strings

  // ------------------------------------------------------------- quoting

  const Quote: char := '\''

  /** `title.replace("'", "''")`. */
  function Escape(s: string): (e: string)
    ensures |e| >= |s|
    decreases |s|
  {
    if |s| == 0 then "" else (if s[0] == Quote then [Quote, Quote] else [s[0]]) + Escape(s[1..])
  }

  /** Reading a SQL string literal's body: a doubled quote stands for one quote. */
  function Unescape(e: string): string
    decreases |e|
  {
    if |e| >= 2 && e[0] == Quote && e[1] == Quote then [Quote] + Unescape(e[2..])
    else if |e| == 0 then ""
    else [e[0]] + Unescape(e[1..])
  }

  /** A literal body: every quote in it is one of a doubled pair, so the literal does not end early. */
  predicate LiteralBody(e: string)
    decreases |e|
  {
    |e| == 0
    || (e[0] != Quote && LiteralBody(e[1..]))
    || (|e| >= 2 && e[0] == Quote && e[1] == Quote && LiteralBody(e[2..]))
  }

  /** The escaping is the replacement the script performs. */
  lemma {:induction false} EscapeIsReplace(s: string)
    ensures Escape(s) == ReplaceAll(s, [Quote], [Quote, Quote])
    decreases |s|
  {
    if |s| > 0 {
      EscapeIsReplace(s[1..]);
      assert IsPrefix([Quote], s) <==> s[0] == Quote;
    }
  }

  /** The database reads the escaped title back as the title. */
  lemma {:induction false} EscapeRoundTrip(s: string)
    ensures Unescape(Escape(s)) == s
    decreases |s|
  {
    if |s| > 0 {
      EscapeRoundTrip(s[1..]);
      var e := Escape(s);
      assert e == (if s[0] == Quote then [Quote, Quote] else [s[0]]) + Escape(s[1..]);
      if s[0] == Quote {
        assert e[2..] == Escape(s[1..]);
      } else {
        assert e[1..] == Escape(s[1..]);
      }
    }
  }

  /** Whatever the title holds, its escaped form stays inside one string literal. */
  lemma {:induction false} EscapeIsLiteralBody(s: string)
    ensures LiteralBody(Escape(s))
    decreases |s|
  {
    if |s| > 0 {
      EscapeIsLiteralBody(s[1..]);
      var e := Escape(s);
      if s[0] == Quote {
        assert e[2..] == Escape(s[1..]);
      } else {
        assert e[1..] == Escape(s[1..]);
      }
    }
  }

  /** Every literal body is the escaped form of what it reads as: the escaping misses no string. */
  lemma {:induction false} LiteralBodyIsEscaped(e: string)
    requires LiteralBody(e)
    ensures Escape(Unescape(e)) == e
    decreases |e|
  {
    if |e| >= 2 && e[0] == Quote && e[1] == Quote {
      LiteralBodyIsEscaped(e[2..]);
      assert Unescape(e) == [Quote] + Unescape(e[2..]);
      assert e == [Quote, Quote] + e[2..];
    } else if |e| > 0 {
      LiteralBodyIsEscaped(e[1..]);
      assert e == [e[0]] + e[1..];
    }
  }

  // ----------------------------------------------------------- statements

  const TableName: string := "who_mortality_causes"
  const IcdRevision: string := "ICD-10"
  const ListType: string := "Detailed 2019"
  /** The table of the WHO document the detailed list comes from. */
  const TableReference: string := "Table 9 (Detailed)"
  /** The columns the statement fills, in the order of its values. */
  const ColumnList: string := "(icd_revision, list_type, short_code, description, detailed_codes, table_reference)"

  /** The text before the code: the target table, its columns, and the revision and list constants. */
  const Head: string := "INSERT INTO " + TableName + " " + ColumnList + " VALUES ('" + IcdRevision + "', '" + ListType + "', '"
  /** Between the code and the title. */
  const Middle: string := "', '"
  /** After the title: no detailed codes, the table reference, and the line end. */
  const Tail: string := "', NULL, '" + TableReference + "');\n"

  /** The statement written for one row. */
  function InsertLine(code: string, title: string): string {
    Head + code + Middle + Escape(title) + Tail
  }

  /** Reads a statement written by `InsertLine` back into its code and title. */
  function ParseInsert(line: string): Option<(string, string)> {
    ParseFramed(Head, Tail, line)
  }

  /** The code and title between a given head and tail. */
  function ParseFramed(head: string, tail: string, line: string): Option<(string, string)> {
    if |line| < |head| + |tail| || line[..|head|] != head || line[|line| - |tail|..] != tail then None
    else
      match SplitOnce(line[|head|..|line| - |tail|], Middle)
      case None => None
      case Some((code, body)) => Some((code, Unescape(body)))
  }

  lemma FramedRoundTrip(head: string, tail: string, code: string, title: string)
    requires Quote !in code
    ensures ParseFramed(head, tail, head + code + Middle + Escape(title) + tail) == Some((code, title))
  {
    var e := Escape(title);
    var mid := code + Middle + e;
    var line := head + code + Middle + e + tail;
    assert line == head + mid + tail;
    assert line[..|head|] == head && line[|line| - |tail|..] == tail;
    assert line[|head|..|line| - |tail|] == mid;
    SplitOnceAt(code, Middle, e);
    EscapeRoundTrip(title);
  }

  /** A statement whose code holds no quote reads back as the row's code and title. */
  lemma InsertLineRoundTrip(code: string, title: string)
    requires Quote !in code
    ensures ParseInsert(InsertLine(code, title)) == Some((code, title))
  {
    FramedRoundTrip(Head, Tail, code, title);
  }

  /** Every statement ends the line it is on. */
  lemma InsertLineEnds(code: string, title: string)
    ensures |InsertLine(code, title)| > 0 && InsertLine(code, title)[|InsertLine(code, title)| - 1] == '\n'
  {
    var body := "', NULL, '" + TableReference + "');";
    assert Tail == body + "\n";
    var t := Head + code + Middle + Escape(title);
    assert InsertLine(code, title) == t + Tail;
  }

  // ----------------------------------------------------------------- rows

  /** A CSV row as `csv.DictReader` gives it: a short row maps the missing columns to `None`. */
  type CsvRow = map<string, Option<string>>

  /** What stops the run: a missing column (`KeyError`), or a missing title (`None` has no `replace`). */
  datatype Failure = MissingColumn(column: string) | NoTitle

  /** Python's f-string rendering of a field: `None` prints as `None`. */
  function FieldText(v: Option<string>): string {
    match v
    case Some(s) => s
    case None => "None"
  }

  /** The fields of one INSERT: the code as printed and the title before escaping. */
  datatype Statement = Statement(code: string, title: string)

  function Sql(st: Statement): string {
    InsertLine(st.code, st.title)
  }

  /** The text of statements written one after the other. */
  function SqlAll(sts: seq<Statement>): string
    decreases |sts|
  {
    if |sts| == 0 then "" else SqlAll(sts[..|sts| - 1]) + Sql(sts[|sts| - 1])
  }

  /** The statement for a row, or why it cannot be written; `sub-code` is read before `definition`. */
  function RowStatement(row: CsvRow): (r: Result<Statement, Failure>)
    ensures r.Err? <==> ("sub-code" !in row || "definition" !in row || row["definition"].None?)
    ensures r.Ok? ==> r.value == Statement(FieldText(row["sub-code"]), row["definition"].value)
    ensures r == Err(MissingColumn("sub-code")) <==> "sub-code" !in row
  {
    if "sub-code" !in row then Err(MissingColumn("sub-code"))
    else if "definition" !in row then Err(MissingColumn("definition"))
    else match row["definition"]
      case None => Err(NoTitle)
      case Some(title) => Ok(Statement(FieldText(row["sub-code"]), title))
  }

  /** The statements the run writes, and the failure that stopped it, if any. */
  datatype Script = Script(statements: seq<Statement>, failure: Option<Failure>)

  function ScriptOf(rows: seq<CsvRow>): Script
    decreases |rows|
  {
    if |rows| == 0 then Script([], None)
    else
      var before := ScriptOf(rows[..|rows| - 1]);
      if before.failure.Some? then before
      else match RowStatement(rows[|rows| - 1])
        case Ok(st) => Script(before.statements + [st], None)
        case Err(f) => Script(before.statements, Some(f))
  }

  /** The row loop: one statement per row, until a row fails. */
  method Generate(rows: seq<CsvRow>) returns (text: string, failure: Option<Failure>, count: nat)
    ensures text == SqlAll(ScriptOf(rows).statements) && failure == ScriptOf(rows).failure
    ensures count == |ScriptOf(rows).statements|
  {
    text := "";
    count := 0;
    for i := 0 to |rows|
      invariant ScriptOf(rows[..i]).failure == None
      invariant text == SqlAll(ScriptOf(rows[..i]).statements) && count == |ScriptOf(rows[..i]).statements|
    {
      assert rows[..i + 1][..i] == rows[..i];
      var st := RowStatement(rows[i]);
      if st.Err? {
        AfterFailure(rows, i + 1, st.error);
        return text, Some(st.error), count;
      }
      ghost var sts := ScriptOf(rows[..i]).statements;
      assert (sts + [st.value])[..|sts|] == sts;
      text := text + Sql(st.value);
      count := count + 1;
    }
    assert rows[..|rows|] == rows;
    failure := None;
  }

  /** Once a row fails, later rows change nothing. */
  lemma {:induction false} AfterFailure(rows: seq<CsvRow>, k: nat, f: Failure)
    requires 0 < k <= |rows|
    requires ScriptOf(rows[..k]).failure == Some(f)
    ensures ScriptOf(rows) == ScriptOf(rows[..k])
    decreases |rows| - k
  {
    if k < |rows| {
      assert rows[..k + 1][..k] == rows[..k];
      AfterFailure(rows, k + 1, f);
    } else {
      assert rows[..k] == rows;
    }
  }

  /**
   * The run finishes exactly when every row has both columns and a title,
   * and then it writes one statement per row, in order, holding that row's
   * code and title.
   */
  lemma {:induction false} ScriptSucceeds(rows: seq<CsvRow>)
    ensures ScriptOf(rows).failure.None? <==> forall i :: 0 <= i < |rows| ==> RowStatement(rows[i]).Ok?
    ensures ScriptOf(rows).failure.None? ==> (|ScriptOf(rows).statements| == |rows|
      && forall i :: 0 <= i < |rows| ==> ScriptOf(rows).statements[i] == RowStatement(rows[i]).value)
    decreases |rows|
  {
    if |rows| > 0 {
      var n := |rows| - 1;
      ScriptSucceeds(rows[..n]);
      assert forall i :: 0 <= i < n ==> rows[..n][i] == rows[i];
    }
  }

  /** A run that stops, stops at the first failing row, with that row's failure, after one statement per earlier row. */
  lemma {:induction false} ScriptStopsAtFirst(rows: seq<CsvRow>)
    requires ScriptOf(rows).failure.Some?
    ensures exists k :: (0 <= k < |rows| && RowStatement(rows[k]) == Err(ScriptOf(rows).failure.value)
      && |ScriptOf(rows).statements| == k
      && forall j :: 0 <= j < k ==> RowStatement(rows[j]).Ok?)
    decreases |rows|
  {
    var n := |rows| - 1;
    var before := ScriptOf(rows[..n]);
    if before.failure.Some? {
      ScriptStopsAtFirst(rows[..n]);
      var k :| 0 <= k < n && RowStatement(rows[..n][k]) == Err(before.failure.value)
        && |before.statements| == k
        && forall j :: 0 <= j < k ==> RowStatement(rows[..n][j]).Ok?;
      assert rows[..n][k] == rows[k];
      assert forall j :: 0 <= j < k ==> rows[..n][j] == rows[j];
    } else {
      ScriptSucceeds(rows[..n]);
      assert forall j :: 0 <= j < n ==> rows[..n][j] == rows[j];
    }
  }

  // ----------------------------------------------------------------- run

  /** The message printed at the end of a run. */
  function Message(input: Option<seq<CsvRow>>): (m: string)
    ensures input.None? ==> m == FileNotFoundMessage
  {
    match input
    case None => FileNotFoundMessage
    case Some(rows) =>
      var s := ScriptOf(rows);
      match s.failure
      case None => SuccessMessage(|s.statements|)
      case Some(f) => FailureMessage(f)
  }

  function SuccessMessage(count: nat): string {
    "¡Éxito! Se han generado " + NatToString(count) + " comandos INSERT en el archivo 'import_icd10_detailed.sql'."
  }

  /** A `KeyError` prints the missing key in quotes, as Python's `str` of the exception does. */
  function FailureMessage(f: Failure): string {
    match f
    case MissingColumn(c) =>
      "ERROR: No se encontró la columna '" + c + "'. Asegúrate de que el CSV tenga las columnas 'sub-code' y 'definition'."
    case NoTitle => "Ha ocurrido un error inesperado: 'NoneType' object has no attribute 'replace'"
  }

  const FileNotFoundMessage: string := "ERROR: No se encontró el archivo 'icd10_2019.csv'. Asegúrate de que esté en el mismo directorio."

  /**
   * The whole script: without the input file no output file is created;
   * otherwise the output holds the statements written before the run ended.
   */
  method Run(input: Option<seq<CsvRow>>) returns (output: Option<string>, message: string)
    ensures output.None? <==> input.None?
    ensures input.Some? ==> output == Some(SqlAll(ScriptOf(input.value).statements))
    ensures message == Message(input)
  {
    if input.None? {
      return None, FileNotFoundMessage;
    }
    var text, failure, count := Generate(input.value);
    output := Some(text);
    match failure
    case None =>
      message := SuccessMessage(count);
    case Some(f) =>
      message := FailureMessage(f);
  }
}
