/**
 * The query side of v1/who_data_viewer.py: the form fields as
 * `parse_form_data` reads them, the table -> columns whitelist
 * `load_metadata` builds from INFORMATION_SCHEMA, and `build_sql_query`,
 * which turns a selection into one bounded SELECT or an error message.
 */
module Viewer {
  import opened Wrappers
  import opened Collections
  import opened Strings

  // ------------------------------------------------------ parse_form_data

  /** What the form hands back for `tables`: nothing, a single string, or a list. */
  datatype FieldValue = Missing | One(text: string) | Many(items: seq<string>)

  datatype Form = Form(
    tables: FieldValue, columns: Option<string>, whereClause: Option<string>,
    viewType: Option<string>, chartType: Option<string>, xAxis: Option<string>, yAxes: Option<string>)

  datatype Selections = Selections(
    tables: seq<string>, columns: seq<string>, whereClause: string,
    viewType: string, chartType: string, xAxis: Option<string>, yAxes: seq<string>)

  /** Python's `value or default` on an optional form string: an empty value counts as absent. */
  function OrElse(v: Option<string>, default: string): (r: string)
    ensures v.Some? && v.value != "" ==> r == v.value
    ensures v.None? || v.value == "" ==> r == default
  {
    if v.Some? && v.value != "" then v.value else default
  }

  function StripAll(parts: seq<string>): (r: seq<string>)
    ensures |r| == |parts| && forall i :: 0 <= i < |parts| ==> r[i] == PyStrip(parts[i])
  {
    seq(|parts|, i requires 0 <= i < |parts| => PyStrip(parts[i]))
  }

  function NonEmptyText(): string -> bool {
    (s: string) => s != ""
  }

  /** `[c.strip() for c in s.split(',') if c.strip()]`. */
  function SplitList(s: string): (items: seq<string>)
    ensures forall i :: 0 <= i < |items| ==> items[i] != "" && PyStrip(items[i]) == items[i]
  {
    var stripped := StripAll(Explode(s, ","));
    var items := Filter(stripped, NonEmptyText());
    assert forall i :: 0 <= i < |items| ==> items[i] != "" && PyStrip(items[i]) == items[i] by {
      forall i | 0 <= i < |items| ensures items[i] != "" && PyStrip(items[i]) == items[i] {
        assert items[i] in stripped;
        var j :| 0 <= j < |stripped| && stripped[j] == items[i];
        TrimIdempotent(Explode(s, ",")[j], PySpace);
      }
    }
    items
  }

  /** Joining non-empty, already stripped items without commas and splitting again gives them back. */
  lemma SplitListJoin(items: seq<string>)
    requires forall i :: 0 <= i < |items| ==> items[i] != "" && PyStrip(items[i]) == items[i] && ',' !in items[i]
    ensures SplitList(Join(items, ",")) == items
  {
    if |items| == 0 {
      assert Explode("", ",") == [""];
      assert StripAll([""]) == [PyStrip("")];
    } else {
      ExplodeJoin(items, ",");
      assert StripAll(items) == items;
      FilterAll(items, NonEmptyText());
    }
  }

  /** The selections read from a form (the CGI branch; the WSGI branch parses the request into a form and takes it). */
  function ParseForm(f: Form): (s: Selections)
    ensures f.tables.One? ==> s.tables == [f.tables.text]
    ensures f.tables.Many? ==> s.tables == f.tables.items
    ensures f.tables.Missing? ==> s.tables == []
    ensures s.columns == SplitList(OrElse(f.columns, "")) && s.yAxes == SplitList(OrElse(f.yAxes, ""))
    ensures s.whereClause == OrElse(f.whereClause, "")
    ensures s.viewType == OrElse(f.viewType, "table_complex") && s.chartType == OrElse(f.chartType, "none")
    ensures s.xAxis.None? <==> OrElse(f.xAxis, "") == ""
  {
    var tables := match f.tables
      case One(t) => [t]
      case Many(xs) => xs
      case Missing => [];
    var x := OrElse(f.xAxis, "");
    Selections(
      tables, SplitList(OrElse(f.columns, "")), OrElse(f.whereClause, ""),
      OrElse(f.viewType, "table_complex"), OrElse(f.chartType, "none"),
      if x == "" then None else Some(x), SplitList(OrElse(f.yAxes, "")))
  }

  // -------------------------------------------------------- load_metadata

  /** Table name -> its column names, as INFORMATION_SCHEMA lists them. */
  type Metadata = map<string, seq<string>>

  /** The columns of `t` among the (table, column) rows, in row order. */
  function ColumnsOf(rows: seq<(string, string)>, t: string): seq<string>
    decreases |rows|
  {
    if |rows| == 0 then []
    else
      var last := rows[|rows| - 1];
      ColumnsOf(rows[..|rows| - 1], t) + (if last.0 == t then [last.1] else [])
  }

  predicate HasTable(rows: seq<(string, string)>, t: string) {
    exists i :: 0 <= i < |rows| && rows[i].0 == t
  }

  /** `meta.setdefault(table, []).append(col)` over all rows. */
  function MetadataOf(rows: seq<(string, string)>): Metadata
    decreases |rows|
  {
    if |rows| == 0 then map[]
    else
      var m := MetadataOf(rows[..|rows| - 1]);
      var last := rows[|rows| - 1];
      m[last.0 := (if last.0 in m then m[last.0] else []) + [last.1]]
  }

  /** The loop of `load_metadata`. */
  method LoadMetadata(rows: seq<(string, string)>) returns (meta: Metadata)
    ensures meta == MetadataOf(rows)
  {
    meta := map[];
    for i := 0 to |rows|
      invariant meta == MetadataOf(rows[..i])
    {
      assert rows[..i + 1][..i] == rows[..i];
      var (table, col) := rows[i];
      meta := meta[table := (if table in meta then meta[table] else []) + [col]];
    }
    assert rows[..|rows|] == rows;
  }

  /** Every table of the rows is a key, holding its columns in row order, and nothing else is a key. */
  lemma {:induction false} MetadataSpec(rows: seq<(string, string)>, t: string)
    ensures t in MetadataOf(rows) <==> HasTable(rows, t)
    ensures t in MetadataOf(rows) ==> MetadataOf(rows)[t] == ColumnsOf(rows, t)
    ensures t !in MetadataOf(rows) ==> ColumnsOf(rows, t) == []
    decreases |rows|
  {
    if |rows| > 0 {
      var n := |rows| - 1;
      var init := rows[..n];
      MetadataSpec(init, t);
      if HasTable(init, t) {
        var i :| 0 <= i < n && init[i].0 == t;
        assert rows[i].0 == t;
      }
      if HasTable(rows, t) && rows[n].0 != t {
        var i :| 0 <= i < |rows| && rows[i].0 == t;
        assert init[i] == rows[i];
      }
    }
  }

  lemma {:induction false} ColumnsOfMembers(rows: seq<(string, string)>, t: string, c: string)
    ensures c in ColumnsOf(rows, t) <==> (t, c) in rows
    decreases |rows|
  {
    if |rows| > 0 {
      var n := |rows| - 1;
      ColumnsOfMembers(rows[..n], t, c);
      assert rows == rows[..n] + [rows[n]];
    }
  }

  /** A (table, column) pair is whitelisted exactly when INFORMATION_SCHEMA listed it. */
  lemma MetadataMembers(rows: seq<(string, string)>, t: string, c: string)
    ensures (t in MetadataOf(rows) && c in MetadataOf(rows)[t]) <==> (t, c) in rows
  {
    MetadataSpec(rows, t);
    ColumnsOfMembers(rows, t, c);
  }

  // ------------------------------------------------------ build_sql_query

  const NoTablesMessage: string := "No tables selected."
  const ForbiddenWhereMessage: string := "La cláusula WHERE contiene palabras no permitidas."

  function UnknownTableMessage(t: string): string {
    "Tabla no permitida o inexistente: " + t
  }

  function UnknownColumnMessage(c: string): string {
    "Columna no permitida o inexistente: " + c
  }

  /** The tokens a WHERE clause may not hold, compared lowercased. */
  const Forbidden: seq<string> := [";", "--", "DROP", "ALTER", "INSERT", "UPDATE", "DELETE", "CREATE"]

  /** `TABLE_JOIN_HINTS`, keyed by an unordered pair of tables. */
  function Hint(a: string, b: string): Option<string> {
    if {a, b} == {"Mortalidad", "Paises"} then Some("Mortalidad.Country = Paises.Codigo_Pais")
    else if {a, b} == {"Poblacion", "Paises"} then Some("Poblacion.Pais_Codigo = Paises.Codigo_Pais")
    else if {a, b} == {"uso_internet", "Paises"} then Some("uso_internet.Codigo_Pais = Paises.Codigo_Pais")
    else if {a, b} == {"Mortalidad", "who_mortality_causes"} then Some("Mortalidad.Cause = who_mortality_causes.short_code")
    else None
  }

  /** The hint table does not care in which order a pair is asked. */
  lemma HintSymmetric(a: string, b: string)
    ensures Hint(a, b) == Hint(b, a)
  {
    assert {a, b} == {b, a};
  }

  /** A table is never joined to itself by a hint. */
  lemma HintNeedsTwoTables(a: string)
    ensures Hint(a, a).None?
  {
    assert {a, a} == {a};
    assert "Mortalidad" in {"Mortalidad", "Paises"} && "Paises" in {"Mortalidad", "Paises"};
    assert "Paises" in {"Poblacion", "Paises"} && "Poblacion" in {"Poblacion", "Paises"};
    assert "Paises" in {"uso_internet", "Paises"} && "uso_internet" in {"uso_internet", "Paises"};
    assert "Mortalidad" in {"Mortalidad", "who_mortality_causes"};
    assert "who_mortality_causes" in {"Mortalidad", "who_mortality_causes"};
  }

  /** `f"{t}.{c} AS `{t}.{c}`"`. */
  function Alias(t: string, c: string): string {
    t + "." + c + " AS `" + t + "." + c + "`"
  }

  /** An alias of a column the whitelist holds. */
  predicate Whitelisted(meta: Metadata, a: string) {
    exists t, c :: t in meta && c in meta[t] && a == Alias(t, c)
  }

  function NotIn(meta: Metadata): string -> bool {
    (t: string) => t !in meta
  }

  /** The first selected table the whitelist does not know. */
  function FirstUnknown(tables: seq<string>, meta: Metadata): (r: Option<nat>)
    ensures r.Some? ==> (r.value < |tables| && tables[r.value] !in meta
      && forall j :: 0 <= j < r.value ==> tables[j] in meta)
    ensures r.None? ==> forall j :: 0 <= j < |tables| ==> tables[j] in meta
  {
    FirstWhere(tables, NotIn(meta))
  }

  /** One alias for each selected table whose columns include `c`, in table order. */
  function ColumnHits(tables: seq<string>, meta: Metadata, c: string): seq<string>
    decreases |tables|
  {
    if |tables| == 0 then []
    else
      var t := tables[|tables| - 1];
      ColumnHits(tables[..|tables| - 1], meta, c) + (if t in meta && c in meta[t] then [Alias(t, c)] else [])
  }

  lemma {:induction false} ColumnHitsMembers(tables: seq<string>, meta: Metadata, c: string, a: string)
    ensures a in ColumnHits(tables, meta, c) <==>
      exists i :: 0 <= i < |tables| && tables[i] in meta && c in meta[tables[i]] && a == Alias(tables[i], c)
    decreases |tables|
  {
    if |tables| > 0 {
      var n := |tables| - 1;
      var init := tables[..n];
      ColumnHitsMembers(init, meta, c, a);
      assert forall i :: 0 <= i < n ==> init[i] == tables[i];
    }
  }

  /** The aliases column `c` contributes, or `None` when it is not allowed. */
  function ResolveColumn(tables: seq<string>, meta: Metadata, c: string): Option<seq<string>> {
    var hits := ColumnHits(tables, meta, c);
    if |hits| > 0 then Some(hits)
    else
      match SplitOnce(c, ".")
      case None => None
      case Some(parts) =>
        if parts.0 in meta && parts.1 in meta[parts.0] then Some([Alias(parts.0, parts.1)]) else None
  }

  /** The columns resolved one after the other; the first one not allowed is reported. */
  function ResolveAll(tables: seq<string>, meta: Metadata, cols: seq<string>): Result<seq<string>, string>
    decreases |cols|
  {
    if |cols| == 0 then Ok([])
    else
      match ResolveAll(tables, meta, cols[..|cols| - 1])
      case Err(e) => Err(e)
      case Ok(s) =>
        var c := cols[|cols| - 1];
        match ResolveColumn(tables, meta, c)
        case None => Err(UnknownColumnMessage(c))
        case Some(hits) => Ok(s + hits)
  }

  function AliasesOf(t: string, cs: seq<string>): (r: seq<string>)
    ensures |r| == |cs| && forall i :: 0 <= i < |cs| ==> r[i] == Alias(t, cs[i])
  {
    seq(|cs|, i requires 0 <= i < |cs| => Alias(t, cs[i]))
  }

  /** With no column chosen: every column of every selected table, in order. */
  function AllColumns(tables: seq<string>, meta: Metadata): seq<string>
    decreases |tables|
  {
    if |tables| == 0 then []
    else
      var t := tables[|tables| - 1];
      AllColumns(tables[..|tables| - 1], meta) + AliasesOf(t, if t in meta then meta[t] else [])
  }

  /** The select list: the chosen columns, or all of them. */
  function SelectList(sel: Selections, meta: Metadata): Result<seq<string>, string> {
    if |sel.columns| > 0 then ResolveAll(sel.tables, meta, sel.columns) else Ok(AllColumns(sel.tables, meta))
  }

  /** The first already used table sharing a join hint with `t`. */
  function FirstHint(t: string, used: seq<string>): Option<string>
    decreases |used|
  {
    if |used| == 0 then None
    else
      match Hint(t, used[0])
      case Some(h) => Some(h)
      case None => FirstHint(t, used[1..])
  }

  /** How table `t` enters the FROM clause after the `used` tables. */
  function JoinOf(t: string, used: seq<string>): string {
    match FirstHint(t, used)
    case Some(h) => "LEFT JOIN " + t + " ON " + h
    case None => ", " + t
  }

  /** One join clause per table after the first, each against the tables before it. */
  function JoinClauses(tables: seq<string>): seq<string>
    decreases |tables|
  {
    if |tables| <= 1 then []
    else
      var n := |tables| - 1;
      JoinClauses(tables[..n]) + [JoinOf(tables[n], tables[..n])]
  }

  predicate HasForbidden(w: string) {
    exists i :: 0 <= i < |Forbidden| && Contains(Lower(w), Lower(Forbidden[i]))
  }

  /** `SELECT <aliases> FROM <first table>`. */
  function SelectHead(cols: seq<string>, base: string): string {
    "SELECT " + Join(cols, ", ") + " FROM " + base
  }

  /** The WHERE part appended to the query. */
  function WherePart(w: string): string {
    if w == "" then "" else " WHERE " + w
  }

  /** The query assembled from its parts. */
  function QueryText(cols: seq<string>, base: string, joins: seq<string>, w: string): string {
    SelectHead(cols, base) + " " + Join(joins, " ") + WherePart(w) + " LIMIT 10000"
  }

  /** What `build_sql_query` returns: the query, or the error message. */
  function QueryOf(sel: Selections, meta: Metadata): (r: Result<string, string>)
    ensures |sel.tables| == 0 ==> r == Err(NoTablesMessage)
    ensures |sel.tables| > 0 && FirstUnknown(sel.tables, meta).Some? ==>
      r == Err(UnknownTableMessage(sel.tables[FirstUnknown(sel.tables, meta).value]))
  {
    if |sel.tables| == 0 then Err(NoTablesMessage)
    else
      match FirstUnknown(sel.tables, meta)
      case Some(i) => Err(UnknownTableMessage(sel.tables[i]))
      case None =>
        match SelectList(sel, meta)
        case Err(e) => Err(e)
        case Ok(cols) =>
          var w := PyStrip(sel.whereClause);
          if w != "" && HasForbidden(w) then Err(ForbiddenWhereMessage)
          else
            Ok(QueryText(cols, sel.tables[0], JoinClauses(sel.tables), w))
  }

  // ----------------------------------------------------- the method itself

  method Hits(tables: seq<string>, meta: Metadata, c: string) returns (hits: seq<string>)
    ensures hits == ColumnHits(tables, meta, c)
  {
    hits := [];
    for k := 0 to |tables|
      invariant hits == ColumnHits(tables[..k], meta, c)
    {
      assert tables[..k + 1][..k] == tables[..k];
      var t := tables[k];
      if t in meta && c in meta[t] {
        hits := hits + [Alias(t, c)];
      }
    }
    assert tables[..|tables|] == tables;
  }

  method FindHint(t: string, used: seq<string>) returns (hint: Option<string>)
    ensures hint == FirstHint(t, used)
  {
    hint := None;
    var k := 0;
    while k < |used|
      invariant 0 <= k <= |used|
      invariant FirstHint(t, used) == FirstHint(t, used[k..])
      decreases |used| - k
    {
      assert used[k..][1..] == used[k + 1..];
      var h := Hint(t, used[k]);
      if h.Some? {
        hint := h;
        return;
      }
      k := k + 1;
    }
  }

  method ScanForbidden(w: string) returns (bad: bool)
    ensures bad <==> HasForbidden(w)
  {
    bad := false;
    for k := 0 to |Forbidden|
      invariant !bad
      invariant forall j :: 0 <= j < k ==> !Contains(Lower(w), Lower(Forbidden[j]))
    {
      if Contains(Lower(w), Lower(Forbidden[k])) {
        return true;
      }
    }
  }

  /** The table check: the first selected table the whitelist does not know. */
  method CheckTables(tables: seq<string>, meta: Metadata) returns (unknown: Option<nat>)
    ensures unknown == FirstUnknown(tables, meta)
  {
    for i := 0 to |tables|
      invariant forall j :: 0 <= j < i ==> tables[j] in meta
    {
      if tables[i] !in meta {
        assert FirstUnknown(tables, meta) == Some(i);
        return Some(i);
      }
    }
    unknown := None;
  }

  /** The loop over the chosen columns. */
  method ChosenColumns(tables: seq<string>, meta: Metadata, cols: seq<string>) returns (r: Result<seq<string>, string>)
    ensures r == ResolveAll(tables, meta, cols)
  {
    var selected: seq<string> := [];
    for i := 0 to |cols|
      invariant ResolveAll(tables, meta, cols[..i]) == Ok(selected)
    {
      assert cols[..i + 1][..i] == cols[..i];
      var c := cols[i];
      var hits := Hits(tables, meta, c);
      if |hits| == 0 {
        var parts := SplitOnce(c, ".");
        if parts.Some? && parts.value.0 in meta && parts.value.1 in meta[parts.value.0] {
          hits := [Alias(parts.value.0, parts.value.1)];
        } else {
          ResolveAllErrorStays(tables, meta, cols, i + 1);
          return Err(UnknownColumnMessage(c));
        }
      }
      selected := selected + hits;
    }
    assert cols[..|cols|] == cols;
    r := Ok(selected);
  }

  /** The loop over every column of every selected table. */
  method EveryColumn(tables: seq<string>, meta: Metadata) returns (selected: seq<string>)
    ensures selected == AllColumns(tables, meta)
  {
    selected := [];
    for i := 0 to |tables|
      invariant selected == AllColumns(tables[..i], meta)
    {
      assert tables[..i + 1][..i] == tables[..i];
      var t := tables[i];
      var cs := if t in meta then meta[t] else [];
      for k := 0 to |cs|
        invariant selected == AllColumns(tables[..i], meta) + AliasesOf(t, cs[..k])
      {
        assert AliasesOf(t, cs[..k + 1]) == AliasesOf(t, cs[..k]) + [Alias(t, cs[k])];
        selected := selected + [Alias(t, cs[k])];
      }
      assert cs[..|cs|] == cs;
    }
    assert tables[..|tables|] == tables;
  }

  /** The loop over the tables after the first. */
  method BuildJoins(tables: seq<string>) returns (joins: seq<string>)
    requires |tables| > 0
    ensures joins == JoinClauses(tables)
  {
    joins := [];
    for i := 1 to |tables|
      invariant joins == JoinClauses(tables[..i])
    {
      assert tables[..i + 1][..i] == tables[..i];
      var t := tables[i];
      var hint := FindHint(t, tables[..i]);
      if hint.Some? {
        joins := joins + ["LEFT JOIN " + t + " ON " + hint.value];
      } else {
        joins := joins + [", " + t];
      }
    }
    assert tables[..|tables|] == tables;
  }

  /** `build_sql_query`: the table check, the column loops, the join loop and the WHERE check, in code order. */
  method BuildSqlQuery(sel: Selections, meta: Metadata) returns (r: Result<string, string>)
    ensures r == QueryOf(sel, meta)
  {
    var tables := sel.tables;
    if |tables| == 0 {
      return Err(NoTablesMessage);
    }
    var unknown := CheckTables(tables, meta);
    if unknown.Some? {
      return Err(UnknownTableMessage(tables[unknown.value]));
    }
    var selected: seq<string>;
    if |sel.columns| > 0 {
      var chosen := ChosenColumns(tables, meta, sel.columns);
      if chosen.Err? {
        return Err(chosen.error);
      }
      selected := chosen.value;
    } else {
      selected := EveryColumn(tables, meta);
    }
    assert SelectList(sel, meta) == Ok(selected);
    var joins := BuildJoins(tables);
    var query := SelectHead(selected, tables[0]) + " " + Join(joins, " ");
    var w := PyStrip(sel.whereClause);
    if w != "" {
      var bad := ScanForbidden(w);
      if bad {
        return Err(ForbiddenWhereMessage);
      }
      query := query + (" WHERE " + w);
    } else {
      assert query + WherePart(w) == query;
    }
    query := query + " LIMIT 10000";
    r := Ok(query);
  }

  /** Once a column fails, the error stays whatever columns follow. */
  lemma {:induction false} ResolveAllErrorStays(tables: seq<string>, meta: Metadata, cols: seq<string>, n: nat)
    requires 0 < n <= |cols|
    requires ResolveAll(tables, meta, cols[..n - 1]).Ok?
    requires ResolveColumn(tables, meta, cols[n - 1]).None?
    ensures ResolveAll(tables, meta, cols) == Err(UnknownColumnMessage(cols[n - 1]))
    decreases |cols|
  {
    if n < |cols| {
      var init := cols[..|cols| - 1];
      assert init[..n - 1] == cols[..n - 1] && init[n - 1] == cols[n - 1];
      ResolveAllErrorStays(tables, meta, init, n);
    } else {
      assert cols[..n - 1] == cols[..|cols| - 1];
    }
  }

  // ----------------------------------------------------------- properties

  /** Every alias a column contributes names a whitelisted table and column. */
  lemma ResolveColumnWhitelisted(tables: seq<string>, meta: Metadata, c: string)
    requires ResolveColumn(tables, meta, c).Some?
    ensures forall a :: a in ResolveColumn(tables, meta, c).value ==> Whitelisted(meta, a)
  {
    forall a | a in ResolveColumn(tables, meta, c).value ensures Whitelisted(meta, a) {
      if |ColumnHits(tables, meta, c)| > 0 {
        ColumnHitsMembers(tables, meta, c, a);
        var i :| 0 <= i < |tables| && tables[i] in meta && c in meta[tables[i]] && a == Alias(tables[i], c);
      }
    }
  }

  lemma {:induction false} ResolveAllWhitelisted(tables: seq<string>, meta: Metadata, cols: seq<string>)
    requires ResolveAll(tables, meta, cols).Ok?
    ensures forall a :: a in ResolveAll(tables, meta, cols).value ==> Whitelisted(meta, a)
    decreases |cols|
  {
    if |cols| > 0 {
      var c := cols[|cols| - 1];
      ResolveAllWhitelisted(tables, meta, cols[..|cols| - 1]);
      ResolveColumnWhitelisted(tables, meta, c);
    }
  }

  lemma {:induction false} AllColumnsWhitelisted(tables: seq<string>, meta: Metadata)
    ensures forall a :: a in AllColumns(tables, meta) ==> Whitelisted(meta, a)
    decreases |tables|
  {
    if |tables| > 0 {
      var t := tables[|tables| - 1];
      AllColumnsWhitelisted(tables[..|tables| - 1], meta);
      var cs := if t in meta then meta[t] else [];
      forall a | a in AliasesOf(t, cs) ensures Whitelisted(meta, a) {
        var k :| 0 <= k < |cs| && AliasesOf(t, cs)[k] == a;
        assert a == Alias(t, cs[k]);
      }
    }
  }

  /** Whatever the form holds, a built query selects only whitelisted columns. */
  lemma SelectListWhitelisted(sel: Selections, meta: Metadata)
    requires SelectList(sel, meta).Ok?
    ensures forall a :: a in SelectList(sel, meta).value ==> Whitelisted(meta, a)
  {
    if |sel.columns| > 0 {
      ResolveAllWhitelisted(sel.tables, meta, sel.columns);
    } else {
      AllColumnsWhitelisted(sel.tables, meta);
    }
  }

  /** A column a selected table holds is taken from every such table, and from nowhere else. */
  lemma ColumnFromSelectedTables(tables: seq<string>, meta: Metadata, c: string, a: string)
    requires exists i :: 0 <= i < |tables| && tables[i] in meta && c in meta[tables[i]]
    ensures ResolveColumn(tables, meta, c).Some?
    ensures a in ResolveColumn(tables, meta, c).value <==>
      exists i :: 0 <= i < |tables| && tables[i] in meta && c in meta[tables[i]] && a == Alias(tables[i], c)
  {
    var i :| 0 <= i < |tables| && tables[i] in meta && c in meta[tables[i]];
    ColumnHitsMembers(tables, meta, c, Alias(tables[i], c));
    ColumnHitsMembers(tables, meta, c, a);
  }

  /** The join hint used for a table is that of some earlier table; without one, the table is cross-joined. */
  lemma {:induction false} FirstHintSpec(t: string, used: seq<string>)
    ensures FirstHint(t, used).Some? ==> exists u :: u in used && Hint(t, u) == FirstHint(t, used)
    ensures FirstHint(t, used).None? <==> forall u :: u in used ==> Hint(t, u).None?
    decreases |used|
  {
    if |used| > 0 {
      FirstHintSpec(t, used[1..]);
      assert used == [used[0]] + used[1..];
    }
  }

  lemma ConcatEnds<T>(a: seq<T>, b: seq<T>, c: seq<T>, d: seq<T>, e: seq<T>)
    ensures (a + b + c + d + e)[..|a|] == a
    ensures (a + b + c + d + e)[|a + b + c|..] == d + e
  {
  }

  lemma QueryTextEnds(cols: seq<string>, base: string, joins: seq<string>, w: string)
    ensures IsPrefix(SelectHead(cols, base), QueryText(cols, base, joins, w))
    ensures var q, tail := QueryText(cols, base, joins, w), WherePart(w) + " LIMIT 10000";
      |tail| <= |q| && q[|q| - |tail|..] == tail
  {
    ConcatEnds(SelectHead(cols, base), " ", Join(joins, " "), WherePart(w), " LIMIT 10000");
  }

  /** A built query starts with the select list and ends with the WHERE clause, if any, and `LIMIT 10000`. */
  lemma QueryShape(sel: Selections, meta: Metadata)
    requires QueryOf(sel, meta).Ok?
    ensures SelectList(sel, meta).Ok?
    ensures IsPrefix(SelectHead(SelectList(sel, meta).value, sel.tables[0]), QueryOf(sel, meta).value)
    ensures var q, tail := QueryOf(sel, meta).value, WherePart(PyStrip(sel.whereClause)) + " LIMIT 10000";
      |tail| <= |q| && q[|q| - |tail|..] == tail
    ensures PyStrip(sel.whereClause) == "" || !HasForbidden(PyStrip(sel.whereClause))
  {
    QueryTextEnds(SelectList(sel, meta).value, sel.tables[0], JoinClauses(sel.tables), PyStrip(sel.whereClause));
  }

  /** No column, however named, gets through unless the whitelist holds it. */
  lemma UnknownColumnRejected(sel: Selections, meta: Metadata, i: nat)
    requires |sel.tables| > 0 && FirstUnknown(sel.tables, meta).None?
    requires i < |sel.columns|
    requires ResolveColumn(sel.tables, meta, sel.columns[i]).None?
    requires ResolveAll(sel.tables, meta, sel.columns[..i]).Ok?
    ensures QueryOf(sel, meta) == Err(UnknownColumnMessage(sel.columns[i]))
  {
    ResolveAllErrorStays(sel.tables, meta, sel.columns, i + 1);
    assert sel.columns[..i + 1][..i] == sel.columns[..i];
  }
}
