/**
 * The aggregate queries shared by get_data.php, get_stats.php and
 * export.php, as functions over the fact tables:
 *
 *  - the year series: `T_Mortalidad` (the matched mortality rows grouped by
 *    `Year` with their wide-row death sums), `LEFT JOIN`ed on the year with
 *    `T_Poblacion` (the scoped population rows of sex '1' or '2', grouped by
 *    `Anio`) and `T_Internet` (the scoped internet rows grouped by `Año`,
 *    averaging the converted values), ordered by year;
 *  - the breakdown: the matched rows grouped by (year, trimmed list, trimmed
 *    cause), `HAVING Deaths > 0`, ordered by year and then by deaths,
 *    largest first.
 */
module Aggregation {
  import opened Wrappers
  import opened Strings
  import opened Facts
  import opened Grouping
  import opened Sorting
  import opened Scope
  import opened CauseFilter

  /** A resolved request: the country scope and the kept cause pairs. */
  datatype Query = Query(scope: ScopeFilter, pairs: seq<CausePair>)

  /** The `WHERE` of every mortality query: in scope, and one of the kept causes. */
  predicate Selected(q: Query, r: MortalityRow) {
    InScope(q.scope, r.country) && Matches(q.pairs, r)
  }

  /** The mortality rows the `WHERE` admits, in storage order. */
  function Matched(ms: seq<MortalityRow>, q: Query): (r: seq<MortalityRow>)
    ensures |r| <= |ms|
    ensures forall x :: x in r <==> x in ms && Selected(q, x)
    decreases |ms|
  {
    if |ms| == 0 then []
    else
      assert ms == [ms[0]] + ms[1..];
      (if Selected(q, ms[0]) then [ms[0]] else []) + Matched(ms[1..], q)
  }

  lemma MatchedNonNegative(ms: seq<MortalityRow>, q: Query)
    requires NonNegativeDeaths(ms)
    ensures NonNegativeDeaths(Matched(ms, q))
  {
    var m := Matched(ms, q);
    forall i | 0 <= i < |m| ensures NonNegativeRow(m[i]) {
      assert m[i] in ms;
      var j :| 0 <= j < |ms| && ms[j] == m[i];
    }
  }

  // ------------------------------------------------------ reference sums

  /** The rows of year `y`. */
  function InYear(y: int): MortalityRow -> bool {
    (r: MortalityRow) => r.year == y
  }

  /** Sum of the death totals of the rows satisfying `p`. */
  function DeathsWhere(ms: seq<MortalityRow>, p: MortalityRow -> bool): int
    decreases |ms|
  {
    if |ms| == 0 then 0 else (if p(ms[0]) then RowDeaths(ms[0]) else 0) + DeathsWhere(ms[1..], p)
  }

  /** Only the rows `p` admits count. */
  lemma {:induction false} DeathsWhereExtensional(ms: seq<MortalityRow>, p: MortalityRow -> bool, q: MortalityRow -> bool)
    requires forall r :: r in ms ==> (p(r) <==> q(r))
    ensures DeathsWhere(ms, p) == DeathsWhere(ms, q)
    decreases |ms|
  {
    if |ms| > 0 {
      assert ms[0] in ms;
      assert forall r :: r in ms[1..] ==> r in ms;
      DeathsWhereExtensional(ms[1..], p, q);
    }
  }

  lemma {:induction false} DeathsWhereNonNegative(ms: seq<MortalityRow>, p: MortalityRow -> bool)
    requires NonNegativeDeaths(ms)
    ensures DeathsWhere(ms, p) >= 0
    decreases |ms|
  {
    if |ms| > 0 {
      RowDeathsNonNegative(ms[0]);
      assert forall i :: 1 <= i < |ms| ==> ms[1..][i - 1] == ms[i];
      DeathsWhereNonNegative(ms[1..], p);
    }
  }

  /** One grouping item per row: the row's group key and its wide-row death sum. */
  function DeathItems<K>(ms: seq<MortalityRow>, key: MortalityRow -> K): (es: seq<Entry<K>>)
    ensures |es| == |ms|
    decreases |ms|
  {
    if |ms| == 0 then [] else [Entry(key(ms[0]), RowDeaths(ms[0]))] + DeathItems(ms[1..], key)
  }

  /** The grouping items carry exactly the keys of the rows. */
  lemma {:induction false} DeathItemsKeys<K(!new)>(ms: seq<MortalityRow>, key: MortalityRow -> K, k: K)
    ensures HasKey(DeathItems(ms, key), k) <==> exists r :: r in ms && key(r) == k
    decreases |ms|
  {
    if |ms| > 0 {
      DeathItemsKeys(ms[1..], key, k);
      HasKeyCons(Entry(key(ms[0]), RowDeaths(ms[0])), DeathItems(ms[1..], key));
      assert ms == [ms[0]] + ms[1..];
    }
  }

  /** A conditional sum over the items is the death sum over the rows whose key satisfies the condition. */
  lemma {:induction false} DeathItemsSum<K>(ms: seq<MortalityRow>, key: MortalityRow -> K, p: K -> bool, q: MortalityRow -> bool)
    requires forall r :: q(r) == p(key(r))
    ensures SumWhere(DeathItems(ms, key), p) == DeathsWhere(ms, q)
    decreases |ms|
  {
    if |ms| > 0 {
      DeathItemsSum(ms[1..], key, p, q);
      assert ([Entry(key(ms[0]), RowDeaths(ms[0]))] + DeathItems(ms[1..], key))[1..] == DeathItems(ms[1..], key);
    }
  }

  lemma {:induction false} DeathItemsNonNegative<K>(ms: seq<MortalityRow>, key: MortalityRow -> K)
    requires NonNegativeDeaths(ms)
    ensures forall i :: 0 <= i < |ms| ==> DeathItems(ms, key)[i].amount >= 0
    decreases |ms|
  {
    if |ms| > 0 {
      RowDeathsNonNegative(ms[0]);
      assert forall i :: 1 <= i < |ms| ==> ms[1..][i - 1] == ms[i];
      DeathItemsNonNegative(ms[1..], key);
      assert forall i :: 1 <= i < |ms| ==> DeathItems(ms, key)[i] == DeathItems(ms[1..], key)[i - 1];
    }
  }

  // ----------------------------------------------------------- T_Mortalidad

  function YearOf(r: MortalityRow): int { r.year }

  predicate YearLe(a: Entry<int>, b: Entry<int>) { a.key <= b.key }

  lemma YearLeTotal()
    ensures TotalPreorder(YearLe)
  {
  }

  /** `SELECT M.Year, SUM(…) … GROUP BY M.Year`, ordered by year: strictly ascending, as the years are distinct. */
  function YearTotals(ms: seq<MortalityRow>): (r: seq<Entry<int>>)
    ensures forall i, j :: 0 <= i < j < |r| ==> r[i].key < r[j].key
    ensures multiset(r) == multiset(GroupAll(DeathItems(ms, YearOf)))
  {
    YearLeTotal();
    var g := GroupAll(DeathItems(ms, YearOf));
    var r := SortBy(g, YearLe);
    DistinctKeysPermutation(g, r);
    assert forall i, j :: 0 <= i < j < |r| ==> YearLe(r[i], r[j]);
    r
  }

  /** There is a year group exactly for each year of the rows. */
  lemma YearTotalsYears(ms: seq<MortalityRow>, y: int)
    ensures HasKey(YearTotals(ms), y) <==> exists r :: r in ms && r.year == y
  {
    var g := GroupAll(DeathItems(ms, YearOf));
    var t := YearTotals(ms);
    DeathItemsKeys(ms, YearOf, y);
    if HasKey(t, y) {
      var i :| 0 <= i < |t| && t[i].key == y;
      assert t[i] in multiset(g);
      var j :| 0 <= j < |g| && g[j] == t[i];
    }
    if HasKey(g, y) {
      var j :| 0 <= j < |g| && g[j].key == y;
      assert g[j] in multiset(t);
      var i :| 0 <= i < |t| && t[i] == g[j];
    }
  }

  /** Each year group holds the death sum of that year's rows. */
  lemma YearTotalsAmount(ms: seq<MortalityRow>, i: nat)
    requires i < |YearTotals(ms)|
    ensures YearTotals(ms)[i].amount == DeathsWhere(ms, InYear(YearTotals(ms)[i].key))
  {
    var items := DeathItems(ms, YearOf);
    var g := GroupAll(items);
    var t := YearTotals(ms);
    assert t[i] in multiset(g);
    var j :| 0 <= j < |g| && g[j] == t[i];
    GroupAllAmount(items, j);
    DeathItemsSum(ms, YearOf, Is(t[i].key), InYear(t[i].key));
  }

  // ------------------------------------------------------------ T_Poblacion

  /** `Sexo IN ('1', '2')` and the population country filter. */
  predicate PopEligible(scope: ScopeFilter, r: PopulationRow) {
    (r.sex == "1" || r.sex == "2") && InScope(scope, r.countryCode)
  }

  /** One grouping item per eligible population row: its year and its wide-row population sum. */
  function PopItems(ps: seq<PopulationRow>, scope: ScopeFilter): (es: seq<Entry<int>>)
    ensures |es| <= |ps|
    decreases |ps|
  {
    if |ps| == 0 then []
    else (if PopEligible(scope, ps[0]) then [Entry(ps[0].year, RowPopulation(ps[0]))] else []) + PopItems(ps[1..], scope)
  }

  /** Population sum over the eligible rows of one year. */
  function PopulationSum(ps: seq<PopulationRow>, scope: ScopeFilter, y: int): int
    decreases |ps|
  {
    if |ps| == 0 then 0
    else (if PopEligible(scope, ps[0]) && ps[0].year == y then RowPopulation(ps[0]) else 0) + PopulationSum(ps[1..], scope, y)
  }

  predicate HasPopulation(ps: seq<PopulationRow>, scope: ScopeFilter, y: int) {
    exists r :: r in ps && PopEligible(scope, r) && r.year == y
  }

  lemma PopItemsSpec(ps: seq<PopulationRow>, scope: ScopeFilter, y: int)
    ensures HasKey(PopItems(ps, scope), y) <==> HasPopulation(ps, scope, y)
    ensures SumWhere(PopItems(ps, scope), Is(y)) == PopulationSum(ps, scope, y)
  {
    PopItemsKeys(ps, scope, y);
    PopItemsSum(ps, scope, y);
  }

  lemma {:induction false} PopItemsKeys(ps: seq<PopulationRow>, scope: ScopeFilter, y: int)
    ensures HasKey(PopItems(ps, scope), y) <==> HasPopulation(ps, scope, y)
    decreases |ps|
  {
    if |ps| > 0 {
      PopItemsKeys(ps[1..], scope, y);
      var rest := PopItems(ps[1..], scope);
      HasPopulationCons(ps, scope, y);
      if PopEligible(scope, ps[0]) {
        var e := Entry(ps[0].year, RowPopulation(ps[0]));
        assert PopItems(ps, scope) == [e] + rest;
        HasKeyCons(e, rest);
      } else {
        assert PopItems(ps, scope) == rest;
      }
    }
  }

  lemma HasPopulationCons(ps: seq<PopulationRow>, scope: ScopeFilter, y: int)
    requires |ps| > 0
    ensures HasPopulation(ps, scope, y) <==> (PopEligible(scope, ps[0]) && ps[0].year == y) || HasPopulation(ps[1..], scope, y)
  {
    assert ps == [ps[0]] + ps[1..];
  }

  lemma {:induction false} PopItemsSum(ps: seq<PopulationRow>, scope: ScopeFilter, y: int)
    ensures SumWhere(PopItems(ps, scope), Is(y)) == PopulationSum(ps, scope, y)
    decreases |ps|
  {
    if |ps| > 0 {
      PopItemsSum(ps[1..], scope, y);
      var head := if PopEligible(scope, ps[0]) then [Entry(ps[0].year, RowPopulation(ps[0]))] else [];
      assert PopItems(ps, scope) == head + PopItems(ps[1..], scope);
      SumWhereConcat(head, PopItems(ps[1..], scope), Is(y));
    }
  }

  /**
   * The population the `LEFT JOIN` attaches to a year: the sum over that
   * year's eligible rows, or NULL (not 0) when there is no such row.
   */
  function PopulationOf(ps: seq<PopulationRow>, scope: ScopeFilter, y: int): (v: Option<int>)
    ensures v == if HasPopulation(ps, scope, y) then Some(PopulationSum(ps, scope, y)) else None
  {
    PopItemsSpec(ps, scope, y);
    LookupGroupAll(PopItems(ps, scope), y);
    Lookup(GroupAll(PopItems(ps, scope)), y)
  }

  // ------------------------------------------------------------- T_Internet

  /** The converted non-NULL internet values of the scoped rows of one year, in storage order. */
  function InternetValues(env: Env, inet: seq<InternetRow>, scope: ScopeFilter, y: int): (vs: seq<real>)
    ensures |vs| > 0 ==> HasInternetRow(inet, scope, y)
    ensures |vs| <= |inet|
    decreases |inet|
  {
    if |inet| == 0 then []
    else
      var rest := InternetValues(env, inet[1..], scope, y);
      assert HasInternetRow(inet[1..], scope, y) ==> HasInternetRow(inet, scope, y) by {
        if HasInternetRow(inet[1..], scope, y) {
          var r :| r in inet[1..] && InScope(scope, r.countryCode) && r.year == y;
          assert r in inet;
        }
      }
      var r := inet[0];
      assert r in inet;
      if InScope(scope, r.countryCode) && r.year == y && r.value.Some? then [InternetValue(env, r).value] + rest
      else rest
  }

  predicate HasInternetRow(inet: seq<InternetRow>, scope: ScopeFilter, y: int) {
    exists r :: r in inet && InScope(scope, r.countryCode) && r.year == y
  }

  function RealSum(xs: seq<real>): real
    decreases |xs|
  {
    if |xs| == 0 then 0.0 else xs[0] + RealSum(xs[1..])
  }

  /** `AVG` over the non-NULL values. */
  function Average(xs: seq<real>): real
    requires |xs| > 0
  {
    RealSum(xs) / (|xs| as real)
  }

  lemma {:induction false} RealSumBounds(xs: seq<real>, lo: real, hi: real)
    requires forall i :: 0 <= i < |xs| ==> lo <= xs[i] <= hi
    ensures (|xs| as real) * lo <= RealSum(xs) <= (|xs| as real) * hi
    decreases |xs|
  {
    if |xs| > 0 {
      assert forall i :: 1 <= i < |xs| ==> xs[1..][i - 1] == xs[i];
      RealSumBounds(xs[1..], lo, hi);
      var m := |xs[1..]| as real;
      assert |xs| as real == m + 1.0;
      assert (m + 1.0) * lo == m * lo + lo && (m + 1.0) * hi == m * hi + hi;
      assert lo <= xs[0] <= hi;
    }
  }

  /** An average lies between any bounds of the averaged values. */
  lemma AverageBounds(xs: seq<real>, lo: real, hi: real)
    requires |xs| > 0
    requires forall i :: 0 <= i < |xs| ==> lo <= xs[i] <= hi
    ensures lo <= Average(xs) <= hi
  {
    RealSumBounds(xs, lo, hi);
    var n := |xs| as real;
    assert n * lo <= RealSum(xs) <= n * hi;
    assert Average(xs) * n == RealSum(xs);
  }

  /**
   * The internet usage the `LEFT JOIN` attaches to a year. `coalesce` is the
   * `COALESCE(AVG(…), 0)` of get_data.php, written inside the derived table:
   * a year whose scoped rows are all NULL reads 0 there, but a year with no
   * scoped row at all is still NULL after the join. get_stats.php and
   * export.php have no `COALESCE`.
   */
  function InternetAvg(env: Env, inet: seq<InternetRow>, scope: ScopeFilter, y: int, coalesce: bool): (v: Option<real>)
    ensures coalesce ==> (v.None? <==> !HasInternetRow(inet, scope, y))
    ensures !coalesce ==> (v.None? <==> |InternetValues(env, inet, scope, y)| == 0)
    ensures |InternetValues(env, inet, scope, y)| > 0 ==> v == Some(Average(InternetValues(env, inet, scope, y)))
    ensures coalesce && HasInternetRow(inet, scope, y) && |InternetValues(env, inet, scope, y)| == 0 ==> v == Some(0.0)
  {
    var vs := InternetValues(env, inet, scope, y);
    if !HasInternetRow(inet, scope, y) then None
    else if |vs| > 0 then Some(Average(vs))
    else if coalesce then Some(0.0)
    else None
  }

  // ------------------------------------------------------------ the series

  /** One row of the year series; `internet` is `Porcentaje_Uso`. */
  datatype SeriesRow = SeriesRow(year: int, totalDeaths: int, totalPopulation: Option<int>, internet: Option<real>)

  /** The aggregated year series. */
  function TimeSeries(env: Env, db: Database, q: Query, coalesce: bool): (rows: seq<SeriesRow>)
    ensures |rows| == |YearTotals(Matched(db.mortality, q))|
  {
    var t := YearTotals(Matched(db.mortality, q));
    seq(|t|, i requires 0 <= i < |t| =>
      SeriesRow(t[i].key, t[i].amount,
        PopulationOf(db.population, q.scope, t[i].key),
        InternetAvg(env, db.internet, q.scope, t[i].key, coalesce)))
  }

  /** Some row of year `y`. */
  predicate HasRowOfYear(ms: seq<MortalityRow>, y: int) {
    exists r :: r in ms && r.year == y
  }

  predicate HasSeriesYear(rows: seq<SeriesRow>, y: int) {
    exists i :: 0 <= i < |rows| && rows[i].year == y
  }

  /**
   * The series has exactly one row per year of the matched mortality rows,
   * in ascending order (so population and internet years without mortality
   * never appear); each row holds that year's death sum, population sum or
   * NULL, and internet average.
   */
  lemma TimeSeriesSpec(env: Env, db: Database, q: Query, coalesce: bool)
    ensures forall i, j :: 0 <= i < j < |TimeSeries(env, db, q, coalesce)| ==>
      TimeSeries(env, db, q, coalesce)[i].year < TimeSeries(env, db, q, coalesce)[j].year
    ensures forall y :: HasSeriesYear(TimeSeries(env, db, q, coalesce), y) <==>
      exists r :: r in Matched(db.mortality, q) && r.year == y
    ensures forall i :: 0 <= i < |TimeSeries(env, db, q, coalesce)| ==>
      var row := TimeSeries(env, db, q, coalesce)[i];
      && row.totalDeaths == DeathsWhere(Matched(db.mortality, q), InYear(row.year))
      && row.totalPopulation == (if HasPopulation(db.population, q.scope, row.year) then Some(PopulationSum(db.population, q.scope, row.year)) else None)
      && row.internet == InternetAvg(env, db.internet, q.scope, row.year, coalesce)
  {
    var m := Matched(db.mortality, q);
    var t := YearTotals(m);
    var rows := TimeSeries(env, db, q, coalesce);
    assert forall i :: 0 <= i < |rows| ==> rows[i].year == t[i].key && rows[i].totalDeaths == t[i].amount;
    forall i | 0 <= i < |rows| ensures rows[i].totalDeaths == DeathsWhere(m, InYear(rows[i].year)) {
      YearTotalsAmount(m, i);
    }
    forall y ensures HasSeriesYear(rows, y) <==> exists r :: r in m && r.year == y {
      YearTotalsYears(m, y);
      if HasKey(t, y) {
        var i :| 0 <= i < |t| && t[i].key == y;
        assert rows[i].year == y;
      }
    }
  }

  /** The aggregate is empty exactly when no mortality row passes the filters. */
  lemma SeriesEmpty(env: Env, db: Database, q: Query, coalesce: bool)
    ensures |TimeSeries(env, db, q, coalesce)| == 0 <==> |Matched(db.mortality, q)| == 0
  {
    var m := Matched(db.mortality, q);
    var t := YearTotals(m);
    if |m| > 0 {
      assert m[0] in m;
      YearTotalsYears(m, m[0].year);
    }
    if |t| > 0 {
      assert HasKey(t, t[0].key);
      YearTotalsYears(m, t[0].key);
    }
  }

  /** The facts about one row of the series. */
  lemma TimeSeriesAt(env: Env, db: Database, q: Query, coalesce: bool, i: nat)
    requires i < |TimeSeries(env, db, q, coalesce)|
    ensures var row := TimeSeries(env, db, q, coalesce)[i];
      && row.totalDeaths == DeathsWhere(Matched(db.mortality, q), InYear(row.year))
      && row.totalPopulation == PopulationOf(db.population, q.scope, row.year)
      && row.internet == InternetAvg(env, db.internet, q.scope, row.year, coalesce)
  {
    TimeSeriesSpec(env, db, q, coalesce);
  }

  // ------------------------------------------------------------ breakdown

  datatype BreakdownKey = BreakdownKey(year: int, list: string, cause: string)

  /** `GROUP BY M.Year, TRIM(M.List), TRIM(M.Cause)`. */
  function BreakdownKeyOf(r: MortalityRow): BreakdownKey {
    BreakdownKey(r.year, SqlTrim(r.list), SqlTrim(r.cause))
  }

  /** The rows of breakdown group `k`. */
  function InGroup(k: BreakdownKey): MortalityRow -> bool {
    r => BreakdownKeyOf(r) == k
  }

  /** The breakdown groups of year `y`. */
  function KeyInYear(y: int): BreakdownKey -> bool {
    (k: BreakdownKey) => k.year == y
  }

  /** `ORDER BY M.Year, Deaths DESC`. */
  predicate BreakdownLe(a: Entry<BreakdownKey>, b: Entry<BreakdownKey>) {
    a.key.year < b.key.year || (a.key.year == b.key.year && a.amount >= b.amount)
  }

  lemma BreakdownLeTotal()
    ensures TotalPreorder(BreakdownLe)
  {
  }

  /** The breakdown query: groups with positive deaths, by year and then by deaths, largest first. */
  function Breakdown(ms: seq<MortalityRow>, q: Query): (b: seq<Entry<BreakdownKey>>)
    ensures DistinctKeys(b)
    ensures forall i :: 0 <= i < |b| ==> b[i].amount > 0
    ensures forall i, j :: 0 <= i < j < |b| ==>
      b[i].key.year < b[j].key.year || (b[i].key.year == b[j].key.year && b[i].amount >= b[j].amount)
    ensures multiset(b) == multiset(Positive(GroupAll(DeathItems(Matched(ms, q), BreakdownKeyOf))))
  {
    BreakdownLeTotal();
    var g := Positive(GroupAll(DeathItems(Matched(ms, q), BreakdownKeyOf)));
    var b := SortBy(g, BreakdownLe);
    PositiveDistinct(GroupAll(DeathItems(Matched(ms, q), BreakdownKeyOf)));
    DistinctKeysPermutation(g, b);
    PermutationPositive(g, b);
    b
  }

  /** Every breakdown row is the death sum of the matched rows of its (year, list, cause) group. */
  lemma BreakdownAmount(ms: seq<MortalityRow>, q: Query, i: nat)
    requires i < |Breakdown(ms, q)|
    ensures Breakdown(ms, q)[i].amount == DeathsWhere(Matched(ms, q), InGroup(Breakdown(ms, q)[i].key))
  {
    var m := Matched(ms, q);
    var items := DeathItems(m, BreakdownKeyOf);
    var all := GroupAll(items);
    var b := Breakdown(ms, q);
    assert b[i] in multiset(Positive(all));
    assert b[i] in all;
    var j :| 0 <= j < |all| && all[j] == b[i];
    GroupAllAmount(items, j);
    DeathItemsSum(m, BreakdownKeyOf, Is(b[i].key), InGroup(b[i].key));
  }

  /** Every group of matched rows with a positive death sum has its breakdown row. */
  lemma BreakdownComplete(ms: seq<MortalityRow>, q: Query, r: MortalityRow)
    requires r in Matched(ms, q)
    requires DeathsWhere(Matched(ms, q), InGroup(BreakdownKeyOf(r))) > 0
    ensures HasKey(Breakdown(ms, q), BreakdownKeyOf(r))
  {
    var m := Matched(ms, q);
    var items := DeathItems(m, BreakdownKeyOf);
    var k := BreakdownKeyOf(r);
    DeathItemsKeys(m, BreakdownKeyOf, k);
    DeathItemsSum(m, BreakdownKeyOf, Is(k), InGroup(k));
    PositiveGroupKept(items, k);
    var e :| e in Positive(GroupAll(items)) && e.key == k;
    PermutationHasKey(Positive(GroupAll(items)), Breakdown(ms, q), e);
  }

  /**
   * The breakdown uses the same predicate as the series, so with no negative
   * count each year's breakdown rows add up to that year's death sum: the
   * groups dropped by `HAVING Deaths > 0` are exactly the zero ones.
   */
  lemma BreakdownAddsUp(ms: seq<MortalityRow>, q: Query, y: int)
    requires NonNegativeDeaths(ms)
    ensures SumWhere(Breakdown(ms, q), KeyInYear(y)) == DeathsWhere(Matched(ms, q), InYear(y))
  {
    var m := Matched(ms, q);
    var items := DeathItems(m, BreakdownKeyOf);
    var all := GroupAll(items);
    var p := KeyInYear(y);
    MatchedNonNegative(ms, q);
    DeathItemsNonNegative(m, BreakdownKeyOf);
    GroupAllNonNegative(items);
    SumWherePermutation(Breakdown(ms, q), Positive(all), p);
    PositiveSumWhere(all, p);
    GroupAllSumWhere(items, p);
    DeathItemsSum(m, BreakdownKeyOf, p, InYear(y));
  }

  /** Each year's breakdown rows add up to that year's `TotalDeaths` in the series. */
  lemma SeriesBreakdownAgree(env: Env, db: Database, q: Query, coalesce: bool, i: nat)
    requires NonNegativeDeaths(db.mortality)
    requires i < |TimeSeries(env, db, q, coalesce)|
    ensures SumWhere(Breakdown(db.mortality, q), KeyInYear(TimeSeries(env, db, q, coalesce)[i].year))
      == TimeSeries(env, db, q, coalesce)[i].totalDeaths
  {
    TimeSeriesSpec(env, db, q, coalesce);
    BreakdownAddsUp(db.mortality, q, TimeSeries(env, db, q, coalesce)[i].year);
  }
}
