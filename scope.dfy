/**
 * Scope resolution, written out identically in get_data.php, get_stats.php,
 * export.php and get_causes_by_country.php: the name 'global' (in any
 * case) applies no country filter; otherwise the region list for the
 * lowercased name is used; otherwise the first `Paises` row whose name
 * contains the search text gives a single trimmed country code; otherwise
 * the name is not found.
 */
module Scope {
  import opened Wrappers
  import opened Strings
  import opened Facts

  datatype ScopeFilter = Global | Countries(codes: seq<string>)

  /** `SELECT … FROM Paises WHERE Nombre LIKE '%text%' LIMIT 1`, on storage order. */
  function FirstCountryMatch(countries: seq<CountryRow>, text: string): (r: Option<nat>)
    ensures r.Some? ==> r.value < |countries| && Contains(countries[r.value].name, text)
    ensures r.Some? ==> forall j :: 0 <= j < r.value ==> !Contains(countries[j].name, text)
    ensures r.None? ==> forall j :: 0 <= j < |countries| ==> !Contains(countries[j].name, text)
    decreases |countries|
  {
    if |countries| == 0 then None
    else if Contains(countries[0].name, text) then Some(0)
    else
      match FirstCountryMatch(countries[1..], text)
      case None => None
      case Some(k) => Some(k + 1)
  }

  /** The scope of a request; `None` is the "no encontrado" error. */
  function Resolve(env: Env, countries: seq<CountryRow>, searchName: string): (r: Option<ScopeFilter>)
    ensures r == Some(Global) <==> Lower(searchName) == "global"
    ensures Lower(searchName) != "global" && env.regions(Lower(searchName)).Some? ==>
      r == Some(Countries(env.regions(Lower(searchName)).value))
    ensures Lower(searchName) != "global" && env.regions(Lower(searchName)).None? ==>
      (r.None? <==> forall j :: 0 <= j < |countries| ==> !Contains(countries[j].name, searchName))
    ensures Lower(searchName) != "global" && env.regions(Lower(searchName)).None? && r.Some? ==>
      exists j :: 0 <= j < |countries| && Contains(countries[j].name, searchName)
        && (forall k :: 0 <= k < j ==> !Contains(countries[k].name, searchName))
        && r == Some(Countries([SqlTrim(countries[j].code)]))
  {
    var lower := Lower(searchName);
    if lower == "global" then Some(Global)
    else
      match env.regions(lower)
      case Some(codes) => Some(Countries(codes))
      case None =>
        match FirstCountryMatch(countries, searchName)
        case None => None
        case Some(j) => Some(Countries([SqlTrim(countries[j].code)]))
  }

  /** `TRIM(<column>) IN (…)` for a country scope; the global scope admits every row. */
  predicate InScope(scope: ScopeFilter, code: string) {
    match scope
    case Global => true
    case Countries(codes) => SqlTrim(code) in codes
  }

  /** `implode(',', array_fill(0, n, '?'))`. */
  function Placeholders(n: nat): string
    decreases n
  {
    if n == 0 then "" else if n == 1 then "?" else "?," + Placeholders(n - 1)
  }

  /** The country filter of a query, as appended to its `WHERE`. */
  function ScopeClause(scope: ScopeFilter, column: string): string {
    match scope
    case Global => ""
    case Countries(codes) => "AND TRIM(" + column + ") IN (" + Placeholders(|codes|) + ")"
  }

  /** The parameters bound to that filter. */
  function ScopeParams(scope: ScopeFilter): seq<string> {
    match scope
    case Global => []
    case Countries(codes) => codes
  }

  lemma {:induction false} PlaceholdersCount(n: nat)
    ensures Occurrences(Placeholders(n), '?') == n
    decreases n
  {
    if n >= 2 {
      PlaceholdersCount(n - 1);
      OccurrencesAppend("?,", Placeholders(n - 1), '?');
    }
  }

  /** The filter has exactly one placeholder per bound parameter. */
  lemma ScopeClauseArity(scope: ScopeFilter, column: string)
    requires '?' !in column
    ensures Occurrences(ScopeClause(scope, column), '?') == |ScopeParams(scope)|
  {
    if scope.Countries? {
      var n := |scope.codes|;
      PlaceholdersCount(n);
      OccurrencesAppend("AND TRIM(", column, '?');
      OccurrencesAppend("AND TRIM(" + column, ") IN (", '?');
      OccurrencesAppend("AND TRIM(" + column + ") IN (", Placeholders(n), '?');
      OccurrencesAppend("AND TRIM(" + column + ") IN (" + Placeholders(n), ")", '?');
    }
  }
}
