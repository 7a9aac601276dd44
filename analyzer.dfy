/**
 * The query side of v1/analyzer.py: its fixed whitelist of tables and
 * columns, the join relations, `parse_form_data`, `validate_selections`
 * and `build_sql_query`, which returns the paged query together with the
 * matching COUNT query.
 */
module Analyzer {
  import opened Wrappers
  import opened Collections
  import opened Strings

  // ------------------------------------------------------------ whitelist

  const AllowedTables: seq<string> := [
    "Mortalidad", "Poblacion", "uso_internet", "Paises",
    "Estado_Desarrollo", "who_mortality_age_ranges", "who_mortality_causes"]

  const MortalityColumns: seq<string> := [
    "Country", "Admin1", "Subdiv", "Year", "List", "Cause", "Sex", "Frmat", "IM_Frmat",
    "Deaths1", "Deaths2", "Deaths3", "Deaths4", "Deaths5", "Deaths6", "Deaths7", "Deaths8",
    "Deaths9", "Deaths10", "Deaths11", "Deaths12", "Deaths13", "Deaths14", "Deaths15", "Deaths16",
    "Deaths17", "Deaths18", "Deaths19", "Deaths20", "Deaths21", "Deaths22", "Deaths23", "Deaths24",
    "Deaths25", "Deaths26", "IM_deaths1", "IM_deaths2", "IM_deaths3", "IM_deaths4"]

  const PopulationColumns: seq<string> := [
    "Pais_Codigo", "Admin1", "Subdiv", "Anio", "Sexo", "Frmat",
    "Pob1", "Pob2", "Pob3", "Pob4", "Pob5", "Pob6", "Pob7", "Pob8", "Pob9", "Pob10", "Pob11",
    "Pob12", "Pob13", "Pob14", "Pob15", "Pob16", "Pob17", "Pob18", "Pob19", "Pob20", "Pob21",
    "Pob22", "Pob23", "Pob24", "Pob25", "Pob26", "Nacidos_Vivos"]

  /** A table whitelist and, per table, its column whitelist. */
  datatype Whitelist = Whitelist(tables: seq<string>, columns: map<string, seq<string>>)

  /** `ALLOWED_TABLES` with `ALLOWED_COLUMNS`. */
  const Allowed: Whitelist := Whitelist(AllowedTables, map[
    "Mortalidad" := MortalityColumns,
    "Poblacion" := PopulationColumns,
    "uso_internet" := ["Codigo_Pais", "Pais_Nombre", "Indicator Name", "Indicator Code", "Año", "Valor %"],
    "Paises" := ["Codigo_Pais", "Codigo_Pais_3", "Nombre", "Country_status_id"],
    "Estado_Desarrollo" := ["Codigo_Estado", "Descripcion"],
    "who_mortality_age_ranges" := ["column_code", "age_range"],
    "who_mortality_causes" := ["id", "icd_revision", "list_type", "short_code", "description", "detailed_codes", "table_reference"]])

  /** `ALLOWED_COLUMNS.get(table, [])`. */
  function ColumnsFor(w: Whitelist, t: string): seq<string> {
    if t in w.columns then w.columns[t] else []
  }

  /** `TABLE_RELATIONS[from][t]`: the single (left column, right column) pair joining `t` to the base table. */
  function Relation(from: string, t: string): Option<(string, string)> {
    var status := ("Paises.Country_status_id", "Estado_Desarrollo.Codigo_Estado");
    if from == "Mortalidad" then
      if t == "Paises" then Some(("Mortalidad.Country", "Paises.Codigo_Pais"))
      else if t == "who_mortality_causes" then Some(("Mortalidad.Cause", "who_mortality_causes.short_code"))
      else if t == "Estado_Desarrollo" then Some(status)
      else None
    else if from == "Poblacion" then
      if t == "Paises" then Some(("Poblacion.Pais_Codigo", "Paises.Codigo_Pais"))
      else if t == "Estado_Desarrollo" then Some(status)
      else None
    else if from == "uso_internet" then
      if t == "Paises" then Some(("uso_internet.Codigo_Pais", "Paises.Codigo_Pais"))
      else if t == "Estado_Desarrollo" then Some(status)
      else None
    else None
  }

  /** Only whitelisted tables take part in a relation, and never with themselves. */
  lemma RelationWithinWhitelist(from: string, t: string)
    requires Relation(from, t).Some?
    ensures from in Allowed.tables && t in Allowed.tables && from != t
  {
  }

  // ------------------------------------------------------ parse_form_data

  /**
   * The form as `cgi.FieldStorage` hands it over; a list field that is
   * absent reads as empty. `limit` is `None` when absent, `Some(None)` when
   * `int(...)` raises `ValueError`, `Some(Some(n))` when it parses to `n`.
   */
  datatype Form = Form(
    tables: seq<string>, columns: seq<string>, viewType: Option<string>, chartType: Option<string>,
    xAxis: Option<string>, yAxis: seq<string>, whereClause: Option<string>, limit: Option<Option<int>>)

  datatype Selections = Selections(
    tables: seq<string>, columns: seq<string>, viewType: string, chartType: string,
    xAxis: string, yAxis: seq<string>, whereClause: string, limit: int)

  const DefaultLimit: int := 1000

  /** The selections read from a form, with the defaults of `parse_form_data`. */
  function ParseForm(f: Form): (s: Selections)
    ensures s.tables == f.tables && s.columns == f.columns && s.yAxis == f.yAxis
    ensures s.viewType == f.viewType.GetOr("raw") && s.chartType == f.chartType.GetOr("none")
    ensures s.xAxis == f.xAxis.GetOr("") && s.whereClause == f.whereClause.GetOr("")
    ensures (f.limit.Some? && f.limit.value.Some?) ==> s.limit == f.limit.value.value
    ensures (f.limit.None? || f.limit.value.None?) ==> s.limit == DefaultLimit
  {
    Selections(
      f.tables, f.columns, f.viewType.GetOr("raw"), f.chartType.GetOr("none"),
      f.xAxis.GetOr(""), f.yAxis, f.whereClause.GetOr(""),
      if f.limit.Some? && f.limit.value.Some? then f.limit.value.value else DefaultLimit)
  }

  // -------------------------------------------------- validate_selections

  /** What validation ends in: accepted, refused with a message, or the unpacking error raised on a column without a dot. */
  datatype Verdict = Valid(message: string) | Invalid(message: string) | Raises(error: string)

  const ValidMessage: string := "Validación exitosa"
  const UnpackError: string := "not enough values to unpack (expected 2, got 1)"

  function TableNotAllowedMessage(t: string): string {
    "Tabla no permitida: " + t
  }

  function ColumnNotAllowedMessage(c: string): string {
    "Columna no permitida: " + c
  }

  /** A `table.column` name whose table is whitelisted and whose column is whitelisted for it. */
  predicate ColumnAllowed(w: Whitelist, col: string) {
    match SplitOnce(col, ".")
    case None => false
    case Some(parts) => parts.0 in w.tables && parts.1 in ColumnsFor(w, parts.0)
  }

  function TableRefused(w: Whitelist): string -> bool {
    (t: string) => t !in w.tables
  }

  function ColumnRefused(w: Whitelist): string -> bool {
    (c: string) => !ColumnAllowed(w, c)
  }

  /** Tables are checked first, then columns, each in order; the first failure decides. */
  function ValidateOf(w: Whitelist, sel: Selections): Verdict {
    match FirstWhere(sel.tables, TableRefused(w))
    case Some(i) => Invalid(TableNotAllowedMessage(sel.tables[i]))
    case None => ColumnsVerdict(w, sel.columns)
  }

  /** The column phase: the first column refused decides, a name without a dot raising. */
  function ColumnsVerdict(w: Whitelist, columns: seq<string>): Verdict {
    match FirstWhere(columns, ColumnRefused(w))
    case Some(i) =>
      if SplitOnce(columns[i], ".").None? then Raises(UnpackError)
      else Invalid(ColumnNotAllowedMessage(columns[i]))
    case None => Valid(ValidMessage)
  }

  /** `validate_selections`, its two loops with early returns. */
  method ValidateSelections(w: Whitelist, sel: Selections) returns (v: Verdict)
    ensures v == ValidateOf(w, sel)
  {
    for i := 0 to |sel.tables|
      invariant forall j :: 0 <= j < i ==> !TableRefused(w)(sel.tables[j])
    {
      if sel.tables[i] !in w.tables {
        FirstWhereAt(sel.tables, TableRefused(w), i);
        return Invalid(TableNotAllowedMessage(sel.tables[i]));
      }
    }
    FirstWhereNone(sel.tables, TableRefused(w));
    v := ValidateColumns(w, sel.columns);
  }

  /** The second loop of `validate_selections`. */
  method ValidateColumns(w: Whitelist, columns: seq<string>) returns (v: Verdict)
    ensures v == ColumnsVerdict(w, columns)
  {
    for i := 0 to |columns|
      invariant forall j :: 0 <= j < i ==> !ColumnRefused(w)(columns[j])
    {
      var col := columns[i];
      var parts := SplitOnce(col, ".");
      if parts.None? {
        FirstWhereAt(columns, ColumnRefused(w), i);
        return Raises(UnpackError);
      }
      var (table, column) := parts.value;
      if table !in w.tables || column !in ColumnsFor(w, table) {
        FirstWhereAt(columns, ColumnRefused(w), i);
        return Invalid(ColumnNotAllowedMessage(col));
      }
    }
    FirstWhereNone(columns, ColumnRefused(w));
    v := Valid(ValidMessage);
  }

  /** Validation accepts exactly the selections whose every table and column is whitelisted. */
  lemma ValidExactlyWhitelisted(w: Whitelist, sel: Selections)
    ensures ValidateOf(w, sel).Valid? <==>
      (forall i :: 0 <= i < |sel.tables| ==> sel.tables[i] in w.tables)
      && (forall i :: 0 <= i < |sel.columns| ==> ColumnAllowed(w, sel.columns[i]))
    ensures ValidateOf(w, sel).Valid? ==> ValidateOf(w, sel).message == ValidMessage
  {
    var ft := FirstWhere(sel.tables, TableRefused(w));
    var fc := FirstWhere(sel.columns, ColumnRefused(w));
    if ft.None? && fc.None? {
      assert forall i :: 0 <= i < |sel.columns| ==> !ColumnRefused(w)(sel.columns[i]);
    }
  }

  /** A column named without its table makes validation raise rather than refuse, unless an earlier check failed. */
  lemma UnqualifiedColumnRaises(w: Whitelist, sel: Selections, i: nat)
    requires forall j :: 0 <= j < |sel.tables| ==> sel.tables[j] in w.tables
    requires i < |sel.columns| && '.' !in sel.columns[i]
    requires forall j :: 0 <= j < i ==> ColumnAllowed(w, sel.columns[j])
    ensures ValidateOf(w, sel) == Raises(UnpackError)
  {
    NoFirstCharNoOccurrence(sel.columns[i], ".");
    assert FirstWhere(sel.columns, ColumnRefused(w)) == Some(i);
  }

  // ------------------------------------------------------ build_sql_query

  /** `JOIN <table> ON <left> = <right>`, kept as its parts. */
  datatype JoinClause = JoinOn(table: string, left: string, right: string)

  function Render(j: JoinClause): string {
    "JOIN " + j.table + " ON " + j.left + " = " + j.right
  }

  function RenderAll(js: seq<JoinClause>): (r: seq<string>)
    ensures |r| == |js| && forall i :: 0 <= i < |js| ==> r[i] == Render(js[i])
  {
    seq(|js|, i requires 0 <= i < |js| => Render(js[i]))
  }

  function Targets(js: seq<JoinClause>): (r: seq<string>)
    ensures |r| == |js| && forall i :: 0 <= i < |js| ==> r[i] == js[i].table
  {
    seq(|js|, i requires 0 <= i < |js| => js[i].table)
  }

  lemma TargetsAppend(a: seq<JoinClause>, b: seq<JoinClause>)
    ensures Targets(a + b) == Targets(a) + Targets(b)
  {
    assert |Targets(a + b)| == |Targets(a) + Targets(b)|;
    forall i | 0 <= i < |a + b| ensures Targets(a + b)[i] == (Targets(a) + Targets(b))[i] {
      if i < |a| { assert (a + b)[i] == a[i]; } else { assert (a + b)[i] == b[i - |a|]; }
    }
  }

  /** The relation joins: one per later table related to the base table, in table order. */
  function ExplicitJoins(from: string, rest: seq<string>): seq<JoinClause>
    decreases |rest|
  {
    if |rest| == 0 then []
    else
      var t := rest[|rest| - 1];
      ExplicitJoins(from, rest[..|rest| - 1])
        + match Relation(from, t)
          case None => []
          case Some(lr) => [JoinOn(t, lr.0, lr.1)]
  }

  const PaisesJoin: JoinClause := JoinOn("Paises", "Mortalidad.Country", "Paises.Codigo_Pais")
  const StatusJoin: JoinClause := JoinOn("Estado_Desarrollo", "Paises.Country_status_id", "Estado_Desarrollo.Codigo_Estado")

  /** Some selected column holds `prefix`. */
  predicate Mentions(cols: seq<string>, prefix: string) {
    exists i :: 0 <= i < |cols| && Contains(cols[i], prefix)
  }

  /** Whether some selected column names a Paises column, and whether one names a development-status column. */
  datatype Mentioned = Mentioned(countries: bool, status: bool)

  function MentionedBy(cols: seq<string>): Mentioned {
    Mentioned(Mentions(cols, "Paises."), Mentions(cols, "Estado_Desarrollo."))
  }

  /** The dimension joins added for the Mortalidad table, as the code is written. */
  function MortalityJoinsAsWritten(tables: seq<string>, m: Mentioned): seq<JoinClause> {
    if m.countries then (if "Paises" !in tables then [PaisesJoin] else [])
    else if m.status then (if "Estado_Desarrollo" !in tables then [PaisesJoin, StatusJoin] else [])
    else []
  }

  /** The dimension joins for Mortalidad as evidently intended: the Paises join only when that table is not already selected. */
  function MortalityJoins(tables: seq<string>, m: Mentioned): seq<JoinClause> {
    if m.countries then (if "Paises" !in tables then [PaisesJoin] else [])
    else if m.status then
      (if "Estado_Desarrollo" !in tables then (if "Paises" !in tables then [PaisesJoin] else []) + [StatusJoin] else [])
    else []
  }

  /** The dimension joins added for one selected table: only Mortalidad has any. */
  function DimensionJoinsAsWritten(tables: seq<string>, m: Mentioned): string -> seq<JoinClause> {
    (t: string) => if t == "Mortalidad" then MortalityJoinsAsWritten(tables, m) else []
  }

  function DimensionJoins(tables: seq<string>, m: Mentioned): string -> seq<JoinClause> {
    (t: string) => if t == "Mortalidad" then MortalityJoins(tables, m) else []
  }

  /** Every join of the query, as the code is written. */
  function JoinsAsWritten(tables: seq<string>, cols: seq<string>): seq<JoinClause>
    requires |tables| > 0
  {
    ExplicitJoins(tables[0], tables[1..]) + ConcatMap(tables, DimensionJoinsAsWritten(tables, MentionedBy(cols)))
  }

  /** Every join of the query, with the corrected dimension joins. */
  function Joins(tables: seq<string>, cols: seq<string>): seq<JoinClause>
    requires |tables| > 0
  {
    ExplicitJoins(tables[0], tables[1..]) + ConcatMap(tables, DimensionJoins(tables, MentionedBy(cols)))
  }

  /** The characters a WHERE clause may consist of. */
  predicate WhereChar(c: char) {
    IsAsciiAlnum(c) || c in "_=.<>!\"' ()"
  }

  /** The WHERE part: kept when non-empty and made only of allowed characters, silently dropped otherwise. */
  function WhereClause(w: string): string {
    if w != "" && forall i :: 0 <= i < |w| ==> WhereChar(w[i]) then "WHERE " + w else ""
  }

  /** What both queries share after their FROM table: the joins, then the WHERE part. */
  function QueryTail(joins: seq<JoinClause>, where: string): string {
    (if |joins| > 0 then " " + Join(RenderAll(joins), " ") else "") + (if where != "" then " " + where else "")
  }

  const CountHead: string := "SELECT COUNT(*) as total FROM "

  function QueryText(cols: seq<string>, from: string, tail: string, limit: int): string {
    "SELECT " + Join(cols, ", ") + " FROM " + from + tail + " LIMIT " + IntToString(limit)
  }

  function CountText(from: string, tail: string): string {
    CountHead + from + tail
  }

  /** The two queries over a given list of joins: the paged query and the query counting all its rows. */
  function QueriesWith(sel: Selections, joins: seq<JoinClause>): (string, string)
    requires |sel.tables| > 0
  {
    var tail := QueryTail(joins, WhereClause(sel.whereClause));
    (QueryText(sel.columns, sel.tables[0], tail, sel.limit), CountText(sel.tables[0], tail))
  }

  /** What `build_sql_query` returns, as the code is written: nothing without tables or columns, else both queries. */
  function SqlQueries(sel: Selections): (r: (string, string))
    ensures (|sel.tables| == 0 || |sel.columns| == 0) <==> r == ("", "")
    ensures |sel.tables| > 0 && |sel.columns| > 0 ==>
      var tail := QueryTail(JoinsAsWritten(sel.tables, sel.columns), WhereClause(sel.whereClause));
      r == (QueryText(sel.columns, sel.tables[0], tail, sel.limit), CountText(sel.tables[0], tail))
  {
    if |sel.tables| == 0 || |sel.columns| == 0 then ("", "")
    else QueriesWith(sel, JoinsAsWritten(sel.tables, sel.columns))
  }

  /** `build_sql_query` as evidently intended: the same, with the corrected dimension joins. */
  function SqlQueriesIntended(sel: Selections): (r: (string, string))
    ensures (|sel.tables| == 0 || |sel.columns| == 0) <==> r == ("", "")
    ensures |sel.tables| > 0 && |sel.columns| > 0 ==>
      var tail := QueryTail(Joins(sel.tables, sel.columns), WhereClause(sel.whereClause));
      r == (QueryText(sel.columns, sel.tables[0], tail, sel.limit), CountText(sel.tables[0], tail))
  {
    if |sel.tables| == 0 || |sel.columns| == 0 then ("", "")
    else QueriesWith(sel, Joins(sel.tables, sel.columns))
  }

  // ----------------------------------------------------- the method itself

  method RelationJoins(from: string, rest: seq<string>) returns (joins: seq<JoinClause>)
    ensures joins == ExplicitJoins(from, rest)
  {
    joins := [];
    for k := 0 to |rest|
      invariant joins == ExplicitJoins(from, rest[..k])
    {
      assert rest[..k + 1][..k] == rest[..k];
      var relation := Relation(from, rest[k]);
      if relation.Some? {
        joins := joins + [JoinOn(rest[k], relation.value.0, relation.value.1)];
      }
    }
    assert rest[..|rest|] == rest;
  }

  method MentionsScan(cols: seq<string>, prefix: string) returns (found: bool)
    ensures found <==> Mentions(cols, prefix)
  {
    found := false;
    for k := 0 to |cols|
      invariant !found && forall j :: 0 <= j < k ==> !Contains(cols[j], prefix)
    {
      if Contains(cols[k], prefix) {
        return true;
      }
    }
  }

  /** The loop adding dimension joins, table by table, as the code is written. */
  method AddDimensionJoins(tables: seq<string>, cols: seq<string>) returns (joins: seq<JoinClause>)
    ensures joins == ConcatMap(tables, DimensionJoinsAsWritten(tables, MentionedBy(cols)))
  {
    var countries := MentionsScan(cols, "Paises.");
    var status := MentionsScan(cols, "Estado_Desarrollo.");
    joins := [];
    for k := 0 to |tables|
      invariant joins == ConcatMap(tables[..k], DimensionJoinsAsWritten(tables, Mentioned(countries, status)))
    {
      assert tables[..k + 1][..k] == tables[..k];
      var t := tables[k];
      if t == "Mortalidad" && countries {
        if "Paises" !in tables {
          joins := joins + [PaisesJoin];
        }
      } else if t == "Mortalidad" && status {
        if "Estado_Desarrollo" !in tables {
          joins := joins + [PaisesJoin];
          joins := joins + [StatusJoin];
        }
      }
    }
    assert tables[..|tables|] == tables;
  }

  method WhereScan(w: string) returns (clause: string)
    ensures clause == WhereClause(w)
  {
    clause := "";
    if w != "" {
      for k := 0 to |w|
        invariant forall j :: 0 <= j < k ==> WhereChar(w[j])
      {
        if !WhereChar(w[k]) {
          return "";
        }
      }
      clause := "WHERE " + w;
    }
  }

  /** `build_sql_query`, its join loops and WHERE scan as the code is written. */
  method BuildSqlQuery(sel: Selections) returns (query: string, countQuery: string)
    ensures (query, countQuery) == SqlQueries(sel)
  {
    if |sel.tables| == 0 || |sel.columns| == 0 {
      return "", "";
    }
    var from := sel.tables[0];
    var explicit := RelationJoins(from, sel.tables[1..]);
    var dimensions := AddDimensionJoins(sel.tables, sel.columns);
    var joins := explicit + dimensions;
    var where := WhereScan(sel.whereClause);
    var tail := QueryTail(joins, where);
    query := QueryText(sel.columns, from, tail, sel.limit);
    countQuery := CountText(from, tail);
  }

  // ----------------------------------------------------------- properties

  lemma ConcatEnds<T>(a: seq<T>, b: seq<T>, c: seq<T>)
    ensures (a + b + c)[..|a|] == a && (a + b + c)[|a|..] == b + c
  {
  }

  /** The count query counts the rows the paged query pages through: same base table, joins and WHERE, no LIMIT. */
  lemma CountMatchesQuery(sel: Selections)
    requires |sel.tables| > 0 && |sel.columns| > 0
    ensures exists tail :: SqlQueries(sel) == (QueryText(sel.columns, sel.tables[0], tail, sel.limit), CountText(sel.tables[0], tail))
    ensures IsPrefix(CountHead + sel.tables[0], SqlQueries(sel).1)
  {
    var tail := QueryTail(JoinsAsWritten(sel.tables, sel.columns), WhereClause(sel.whereClause));
    assert SqlQueries(sel) == (QueryText(sel.columns, sel.tables[0], tail, sel.limit), CountText(sel.tables[0], tail));
    ConcatEnds(CountHead, sel.tables[0], tail);
  }

  /** A WHERE clause reaches the query only when it is free of statement separators and comment markers. */
  lemma WhereClauseSafe(w: string)
    ensures WhereClause(w) != "" <==> w != "" && forall i :: 0 <= i < |w| ==> WhereChar(w[i])
    ensures WhereClause(w) != "" ==> ';' !in w && '-' !in w && '#' !in w && '/' !in w
  {
    if WhereClause(w) != "" {
      forall i | 0 <= i < |w| ensures w[i] != ';' && w[i] != '-' && w[i] != '#' && w[i] != '/' {
        assert WhereChar(w[i]);
      }
    }
  }

  function RelatedTo(from: string): string -> bool {
    (t: string) => Relation(from, t).Some?
  }

  /** The relation joins target exactly the later tables related to the base table, in order, each with its relation. */
  lemma {:induction false} ExplicitJoinsSpec(from: string, rest: seq<string>)
    ensures Targets(ExplicitJoins(from, rest)) == Filter(rest, RelatedTo(from))
    ensures forall j :: j in ExplicitJoins(from, rest) ==> Relation(from, j.table) == Some((j.left, j.right))
    decreases |rest|
  {
    if |rest| > 0 {
      var n := |rest| - 1;
      ExplicitJoinsSpec(from, rest[..n]);
      var a := ExplicitJoins(from, rest[..n]);
      var b := match Relation(from, rest[n]) case None => [] case Some(lr) => [JoinOn(rest[n], lr.0, lr.1)];
      TargetsAppend(a, b);
      LastSplit(rest);
      FilterAppend(rest[..n], [rest[n]], RelatedTo(from));
      assert Filter([rest[n]], RelatedTo(from)) == (if RelatedTo(from)(rest[n]) then [rest[n]] else []) + Filter([], RelatedTo(from));
    }
  }

  /** The corrected Mortalidad joins target tables outside the selection, each once. */
  lemma MortalityTargets(tables: seq<string>, m: Mentioned)
    ensures var ts := Targets(MortalityJoins(tables, m));
      Distinct(ts) && forall x :: x in ts ==> x !in tables
  {
    var js := MortalityJoins(tables, m);
    if m.countries || !m.status || "Estado_Desarrollo" in tables {
      assert |js| <= 1;
    } else if "Paises" in tables {
      assert js == [StatusJoin];
    } else {
      assert js == [PaisesJoin, StatusJoin];
      assert Targets(js) == ["Paises", "Estado_Desarrollo"];
    }
  }

  /** The corrected dimension joins target tables outside the selection, each once. */
  lemma DimensionTargets(tables: seq<string>, m: Mentioned)
    requires Distinct(tables)
    ensures var td := Targets(ConcatMap(tables, DimensionJoins(tables, m)));
      Distinct(td) && forall x :: x in td ==> x !in tables
  {
    ConcatMapSingle(tables, DimensionJoins(tables, m), "Mortalidad");
    MortalityTargets(tables, m);
  }

  lemma TailFacts(tables: seq<string>)
    requires |tables| > 0 && Distinct(tables)
    ensures Distinct(tables[1..]) && tables[0] !in tables[1..]
  {
    var rest := tables[1..];
    forall i, j | 0 <= i < j < |rest| ensures rest[i] != rest[j] {
      assert rest[i] == tables[i + 1] && rest[j] == tables[j + 1];
    }
    forall i | 0 <= i < |rest| ensures rest[i] != tables[0] {
      assert rest[i] == tables[i + 1];
    }
  }

  lemma TailWithin(tables: seq<string>)
    requires |tables| > 0
    ensures forall x :: x in tables[1..] ==> x in tables
  {
    forall x | x in tables[1..] ensures x in tables {
      var i :| 0 <= i < |tables| - 1 && tables[1..][i] == x;
      assert tables[i + 1] == x;
    }
  }

  /** The relation joins target later tables of the selection, each once, never the base table. */
  lemma ExplicitTargetsFresh(tables: seq<string>)
    requires |tables| > 0 && Distinct(tables)
    ensures var te := Targets(ExplicitJoins(tables[0], tables[1..]));
      Distinct(te) && tables[0] !in te && forall y :: y in te ==> y in tables
  {
    var from, rest := tables[0], tables[1..];
    TailFacts(tables);
    TailWithin(tables);
    ExplicitJoinsSpec(from, rest);
    FilterDistinct(rest, RelatedTo(from));
  }

  /** With the tables selected once each, no table of the corrected query is joined twice or joined onto itself. */
  lemma JoinTargetsDistinct(tables: seq<string>, cols: seq<string>)
    requires |tables| > 0 && Distinct(tables)
    ensures Distinct([tables[0]] + Targets(Joins(tables, cols)))
  {
    var from, rest := tables[0], tables[1..];
    var e := ExplicitJoins(from, rest);
    var d := ConcatMap(tables, DimensionJoins(tables, MentionedBy(cols)));
    var te, td := Targets(e), Targets(d);
    ExplicitTargetsFresh(tables);
    assert Distinct(td) && forall y :: y in td ==> y !in tables by {
      DimensionTargets(tables, MentionedBy(cols));
    }
    assert Targets(Joins(tables, cols)) == te + td by {
      assert Joins(tables, cols) == e + d;
      TargetsAppend(e, d);
    }
    DistinctAround(from, te, td, tables);
  }

  /**
   * The case in which the dimension joins as written and as corrected part:
   * Mortalidad and Paises selected, Estado_Desarrollo not, and a
   * development-status column with no Paises column.
   */
  predicate StatusOnlyWithPaises(tables: seq<string>, m: Mentioned) {
    "Mortalidad" in tables && "Paises" in tables && "Estado_Desarrollo" !in tables && !m.countries && m.status
  }

  /** The joins as written are the corrected joins exactly outside that case. */
  lemma JoinsAsWrittenAgree(tables: seq<string>, cols: seq<string>)
    requires |tables| > 0
    ensures JoinsAsWritten(tables, cols) == Joins(tables, cols) <==> !StatusOnlyWithPaises(tables, MentionedBy(cols))
  {
    var m := MentionedBy(cols);
    var f, g := DimensionJoinsAsWritten(tables, m), DimensionJoins(tables, m);
    if StatusOnlyWithPaises(tables, m) {
      var k :| 0 <= k < |tables| && tables[k] == "Mortalidad";
      assert |f(tables[k])| == 2 && |g(tables[k])| == 1;
      ConcatMapLonger(tables, f, g, k);
    } else {
      if "Mortalidad" in tables {
        assert MortalityJoinsAsWritten(tables, m) == MortalityJoins(tables, m);
      }
      ConcatMapAgree(tables, f, g);
    }
  }

  /** Outside that case `build_sql_query` as written returns the corrected queries. */
  lemma SqlQueriesAgree(sel: Selections)
    requires |sel.tables| == 0 || !StatusOnlyWithPaises(sel.tables, MentionedBy(sel.columns))
    ensures SqlQueries(sel) == SqlQueriesIntended(sel)
  {
    if |sel.tables| > 0 {
      JoinsAsWrittenAgree(sel.tables, sel.columns);
    }
  }

  /** A `table.column` name made of a whitelisted table and one of its whitelisted columns is allowed. */
  lemma QualifiedColumnAllowed(w: Whitelist, t: string, c: string)
    requires '.' !in t && t in w.tables && c in ColumnsFor(w, t)
    ensures ColumnAllowed(w, t + "." + c)
  {
    SplitOnceAt(t, ".", c);
  }

  /** The column of the selection that shows the duplicated join. */
  const StatusColumn: string := "Estado_Desarrollo.Descripcion"

  lemma StatusColumnParts()
    ensures StatusColumn == "Estado_Desarrollo" + "." + "Descripcion"
    ensures '.' !in "Estado_Desarrollo"
    ensures 'P' !in StatusColumn
  {
  }

  lemma StatusColumnWhitelisted()
    ensures "Estado_Desarrollo" in Allowed.tables
    ensures "Descripcion" in ColumnsFor(Allowed, "Estado_Desarrollo")
  {
  }

  /** The tables of the selection that shows the duplicated join. */
  const SampleTables: seq<string> := ["Mortalidad", "Paises"]

  /** The selection that shows the duplicated join: Mortalidad and Paises, one development-status column. */
  const DuplicateSample: Selections := Selections(SampleTables, [StatusColumn], "raw", "none", "", [], "", DefaultLimit)

  lemma SampleTablesDistinct()
    ensures |SampleTables| > 0 && SampleTables[0] == "Mortalidad" && Distinct(SampleTables)
  {
    assert SampleTables[0] != SampleTables[1];
  }

  lemma StatusColumnAllowed()
    ensures ColumnAllowed(Allowed, StatusColumn)
  {
    StatusColumnParts();
    StatusColumnWhitelisted();
    QualifiedColumnAllowed(Allowed, "Estado_Desarrollo", "Descripcion");
  }

  lemma SampleTablesAllowed()
    ensures forall i :: 0 <= i < |SampleTables| ==> SampleTables[i] in Allowed.tables
  {
    assert SampleTables[0] in Allowed.tables && SampleTables[1] in Allowed.tables;
  }

  /** The selection that shows the duplicated join passes validation. */
  lemma DuplicateSampleValid()
    ensures ValidateOf(Allowed, DuplicateSample).Valid?
  {
    var sel := DuplicateSample;
    assert sel.tables == SampleTables && sel.columns == [StatusColumn];
    SampleTablesAllowed();
    StatusColumnAllowed();
    assert forall i :: 0 <= i < |sel.columns| ==> ColumnAllowed(Allowed, sel.columns[i]);
    ValidExactlyWhitelisted(Allowed, sel);
  }

  /** The column names the development-status table, not Paises. */
  lemma DuplicateSampleMentions()
    ensures MentionedBy([StatusColumn]) == Mentioned(false, true)
  {
    StatusColumnParts();
    NoFirstCharNoOccurrence(StatusColumn, "Paises.");
    assert IsPrefix("Estado_Desarrollo.", StatusColumn[0..]);
    IndexOfAt(StatusColumn, "Estado_Desarrollo.", 0);
    assert [StatusColumn][0] == StatusColumn;
  }

  /**
   * With Mortalidad and Paises selected and a development-status column but
   * no Paises column among the columns, the code as written joins Paises twice.
   */
  lemma DuplicatePaisesJoin(cols: seq<string>)
    requires MentionedBy(cols) == Mentioned(false, true)
    ensures JoinsAsWritten(SampleTables, cols) == [PaisesJoin, PaisesJoin, StatusJoin]
    ensures !Distinct(Targets(JoinsAsWritten(SampleTables, cols)))
    ensures Joins(SampleTables, cols) == [PaisesJoin, StatusJoin]
  {
    var tables := SampleTables;
    var m := MentionedBy(cols);
    assert tables[1..] == ["Paises"] && ["Paises"][..0] == [];
    assert ExplicitJoins("Mortalidad", ["Paises"]) == [PaisesJoin];
    assert tables[..1] == ["Mortalidad"] && tables[..1][..0] == [];
    assert ConcatMap(tables, DimensionJoinsAsWritten(tables, m)) == [PaisesJoin, StatusJoin];
    assert ConcatMap(tables, DimensionJoins(tables, m)) == [StatusJoin];
    assert Targets(JoinsAsWritten(tables, cols))[0] == Targets(JoinsAsWritten(tables, cols))[1];
  }

  /** The whole finding on one input: validation accepts it, and the joins as written name Paises twice. */
  lemma DuplicatePaisesJoinShown()
    ensures ValidateOf(Allowed, DuplicateSample).Valid?
    ensures !Distinct(Targets(JoinsAsWritten(DuplicateSample.tables, DuplicateSample.columns)))
    ensures Distinct(["Mortalidad"] + Targets(Joins(DuplicateSample.tables, DuplicateSample.columns)))
  {
    DuplicateSampleValid();
    DuplicateSampleMentions();
    DuplicatePaisesJoin([StatusColumn]);
    SampleTablesDistinct();
    JoinTargetsDistinct(SampleTables, [StatusColumn]);
  }
}
