/**
 * get_stats.php: the summary of a request's year series (first and last
 * year, mean, largest and smallest yearly total and the year of each,
 * mean internet usage), the top cause of each year, and the top cause
 * overall. Every error raised after the input guard carries the suffix
 * " (en get_stats.php)".
 */
module StatsEndpoint {
  import opened Wrappers
  import opened Strings
  import opened Facts
  import opened Grouping
  import opened Scope
  import opened CauseFilter
  import opened Aggregation
  import opened Requests
  import opened Numbers

  // ------------------------------------------------------------- numbers

  /** The integers as reals, for `AVG`. */
  function ToReals(xs: seq<int>): (rs: seq<real>)
    ensures |rs| == |xs| && forall i :: 0 <= i < |xs| ==> rs[i] == xs[i] as real
  {
    seq(|xs|, i requires 0 <= i < |xs| => xs[i] as real)
  }

  lemma {:induction false} RealSumToReals(xs: seq<int>)
    ensures RealSum(ToReals(xs)) == IntSum(xs) as real
    decreases |xs|
  {
    if |xs| > 0 {
      assert ToReals(xs)[1..] == ToReals(xs[1..]);
      RealSumToReals(xs[1..]);
    }
  }

  /** The mean lies between the minimum and the maximum. */
  lemma MeanBetween(xs: seq<int>)
    requires |xs| > 0
    ensures (MinOf(xs) as real) <= IntMean(xs) <= (MaxOf(xs) as real)
  {
    RealSumToReals(xs);
    assert IntMean(xs) == Average(ToReals(xs));
    AverageBounds(ToReals(xs), MinOf(xs) as real, MaxOf(xs) as real);
  }

  /** `array_search($v, $xs)`: the first position holding `v`. */
  function FirstIndexOf<T(==)>(xs: seq<T>, v: T): (r: Option<nat>)
    ensures r.None? <==> v !in xs
    ensures r.Some? ==> r.value < |xs| && xs[r.value] == v
    ensures r.Some? ==> forall j :: 0 <= j < r.value ==> xs[j] != v
    decreases |xs|
  {
    if |xs| == 0 then None
    else if xs[0] == v then Some(0)
    else
      assert xs == [xs[0]] + xs[1..];
      match FirstIndexOf(xs[1..], v)
      case None => None
      case Some(k) => Some(k + 1)
  }

  // --------------------------------------------------------- the summary

  /** A row of the base query; `TotalDeaths` and `Porcentaje_Uso` as PDO returns them, NULL possible. */
  datatype BaseRow = BaseRow(year: int, totalDeaths: Option<int>, internet: Option<real>)

  /** The base query: the year series, without the internet `COALESCE`. */
  function BaseRows(env: Env, db: Database, q: Query): (rows: seq<BaseRow>)
    ensures |rows| == |TimeSeries(env, db, q, false)|
    ensures forall i :: 0 <= i < |rows| ==> rows[i].totalDeaths.Some?
  {
    var s := TimeSeries(env, db, q, false);
    seq(|s|, i requires 0 <= i < |s| => BaseRow(s[i].year, Some(s[i].totalDeaths), s[i].internet))
  }

  function Years(rows: seq<BaseRow>): (ys: seq<int>)
    ensures |ys| == |rows| && forall i :: 0 <= i < |rows| ==> ys[i] == rows[i].year
  {
    seq(|rows|, i requires 0 <= i < |rows| => rows[i].year)
  }

  function Deaths(rows: seq<BaseRow>): (ds: seq<Option<int>>)
    ensures |ds| == |rows| && forall i :: 0 <= i < |rows| ==> ds[i] == rows[i].totalDeaths
  {
    seq(|rows|, i requires 0 <= i < |rows| => rows[i].totalDeaths)
  }

  function Internet(rows: seq<BaseRow>): (vs: seq<Option<real>>)
    ensures |vs| == |rows| && forall i :: 0 <= i < |rows| ==> vs[i] == rows[i].internet
  {
    seq(|rows|, i requires 0 <= i < |rows| => rows[i].internet)
  }

  /** The overall top cause: `top_cause_list`, `top_cause_code`, `top_cause_overall_count`. */
  datatype TopOverall = TopOverall(list: string, cause: string, total: int)

  datatype Summary = Summary(
    startYear: int, endYear: int,
    avgDeaths: real, maxDeaths: int, minDeaths: int,
    avgInternet: real,
    maxDeathsYear: int, minDeathsYear: int,
    topCause: Option<TopOverall>)

  function NoSummaryMessage(name: string): string {
    "No se encontraron datos de resumen para '" + name + "'."
  }

  function NoMortalityMessage(name: string): string {
    "No se encontraron datos de Mortalidad para '" + name + "' con esas causas."
  }

  /** `avg_internet`: the mean of the non-NULL values, or 0 when there are none. */
  function AvgInternet(rows: seq<BaseRow>): (v: real)
    ensures |Somes(Internet(rows))| == 0 ==> v == 0.0
    ensures |Somes(Internet(rows))| > 0 ==> v == Average(Somes(Internet(rows)))
  {
    var vs := Somes(Internet(rows));
    if |vs| > 0 then Average(vs) else 0.0
  }

  /** Row `k` is the first, in result order, whose total is `v`. */
  predicate FirstWithTotal(rows: seq<BaseRow>, k: int, v: int) {
    0 <= k < |rows| && rows[k].totalDeaths == Some(v)
    && forall j :: 0 <= j < k ==> rows[j].totalDeaths != Some(v)
  }

  /** The summary block filled from the base rows, with its two exceptions. */
  function Summarize(name: string, rows: seq<BaseRow>, top: Option<TopOverall>): (r: Result<Summary, string>)
    ensures |rows| == 0 ==> r == Err(NoSummaryMessage(name))
    ensures |rows| > 0 && |Somes(Deaths(rows))| == 0 ==> r == Err(NoMortalityMessage(name))
    ensures r.Ok? <==> |Somes(Deaths(rows))| > 0
    ensures r.Ok? ==> r.value == SummaryOf(rows, top)
  {
    if |rows| == 0 then Err(NoSummaryMessage(name))
    else if |Somes(Deaths(rows))| == 0 then Err(NoMortalityMessage(name))
    else Ok(SummaryOf(rows, top))
  }

  /** The first and the last year of the rows: `min` and `max` over the year column. */
  function YearSpan(rows: seq<BaseRow>): (b: (int, int))
    requires |rows| > 0
    ensures forall i :: 0 <= i < |rows| ==> b.0 <= rows[i].year <= b.1
    ensures exists i :: 0 <= i < |rows| && rows[i].year == b.0
    ensures exists i :: 0 <= i < |rows| && rows[i].year == b.1
  {
    var ys := Years(rows);
    assert MinOf(ys) in ys && MaxOf(ys) in ys;
    (MinOf(ys), MaxOf(ys))
  }

  /** The year of the first row whose total is `v`: `$years[array_search($v, $deaths)]`. */
  function YearOfFirst(rows: seq<BaseRow>, v: int): (y: int)
    requires v in Somes(Deaths(rows))
    ensures exists k :: FirstWithTotal(rows, k, v) && rows[k].year == y
  {
    var ds := Deaths(rows);
    SomesMembers(ds, v);
    var k := FirstIndexOf(ds, Some(v));
    assert FirstWithTotal(rows, k.value, v);
    rows[k.value].year
  }

  /** Every non-NULL total lies between the smallest and the largest. */
  lemma TotalsBetween(rows: seq<BaseRow>)
    requires |Somes(Deaths(rows))| > 0
    ensures var filtered := Somes(Deaths(rows));
      forall i :: 0 <= i < |rows| && rows[i].totalDeaths.Some? ==>
        MinOf(filtered) <= rows[i].totalDeaths.value <= MaxOf(filtered)
  {
    var ds := Deaths(rows);
    var filtered := Somes(ds);
    forall i | 0 <= i < |rows| && rows[i].totalDeaths.Some?
      ensures MinOf(filtered) <= rows[i].totalDeaths.value <= MaxOf(filtered)
    {
      SomesMembers(ds, rows[i].totalDeaths.value);
    }
  }

  /** The summary of rows of which at least one has a total. */
  function SummaryOf(rows: seq<BaseRow>, top: Option<TopOverall>): (s: Summary)
    requires |Somes(Deaths(rows))| > 0
    ensures |rows| > 0
    ensures forall i :: 0 <= i < |rows| ==> s.startYear <= rows[i].year <= s.endYear
    ensures exists i :: 0 <= i < |rows| && rows[i].year == s.startYear
    ensures exists i :: 0 <= i < |rows| && rows[i].year == s.endYear
    ensures forall i :: 0 <= i < |rows| && rows[i].totalDeaths.Some? ==> s.minDeaths <= rows[i].totalDeaths.value <= s.maxDeaths
    ensures (s.minDeaths as real) <= s.avgDeaths <= (s.maxDeaths as real)
    ensures s.avgDeaths == IntMean(Somes(Deaths(rows)))
    ensures s.avgInternet == AvgInternet(rows)
    ensures s.topCause == top
    ensures exists k :: FirstWithTotal(rows, k, s.maxDeaths) && rows[k].year == s.maxDeathsYear
    ensures exists k :: FirstWithTotal(rows, k, s.minDeaths) && rows[k].year == s.minDeathsYear
  {
    var filtered := Somes(Deaths(rows));
    var mx, mn := MaxOf(filtered), MinOf(filtered);
    var span := YearSpan(rows);
    TotalsBetween(rows);
    MeanBetween(filtered);
    Summary(span.0, span.1, IntMean(filtered), mx, mn, AvgInternet(rows), YearOfFirst(rows, mx), YearOfFirst(rows, mn), top)
  }

  /** For the rows the base query returns the "no mortality data" exception cannot be raised: every total is non-NULL. */
  lemma NoMortalityUnreachable(env: Env, db: Database, q: Query, name: string, top: Option<TopOverall>)
    ensures Summarize(name, BaseRows(env, db, q), top).Ok? <==> |BaseRows(env, db, q)| > 0
  {
    var rows := BaseRows(env, db, q);
    if |rows| > 0 {
      SomesMembers(Deaths(rows), rows[0].totalDeaths.value);
    }
  }

  // ---------------------------------------------------- top causes by year

  /** One row of `top_causes_by_year`. */
  datatype TopCause = TopCause(year: int, list: string, cause: string, total: int)

  /** `RankedCauses` before the rank filter: the (year, list, cause) groups of the matched rows. */
  function CauseYearGroups(ms: seq<MortalityRow>, q: Query): (gs: seq<Entry<BreakdownKey>>)
    ensures DistinctKeys(gs)
  {
    GroupAll(DeathItems(Matched(ms, q), BreakdownKeyOf))
  }

  /** The groups of one year (a `PARTITION BY M.Year` window). */
  function GroupsOfYear(gs: seq<Entry<BreakdownKey>>, y: int): (r: seq<Entry<BreakdownKey>>)
    ensures forall e :: e in r <==> e in gs && e.key.year == y
    decreases |gs|
  {
    if |gs| == 0 then []
    else
      assert gs == [gs[0]] + gs[1..];
      (if gs[0].key.year == y then [gs[0]] else []) + GroupsOfYear(gs[1..], y)
  }

  /** The `rn = 1` row of one year: a group of that year with the largest total. */
  function TopOfYear(gs: seq<Entry<BreakdownKey>>, y: int): (r: Option<TopCause>)
    ensures r.None? <==> forall e :: e in gs ==> e.key.year != y
    ensures r.Some? ==> r.value.year == y && Entry(BreakdownKey(y, r.value.list, r.value.cause), r.value.total) in gs
    ensures r.Some? ==> forall e :: e in gs && e.key.year == y ==> e.amount <= r.value.total
  {
    var of := GroupsOfYear(gs, y);
    match Best(of)
    case None =>
      assert of == [];
      None
    case Some(b) =>
      assert forall e :: e in of ==> e.amount <= b.amount by {
        forall e | e in of ensures e.amount <= b.amount {
          var i :| 0 <= i < |of| && of[i] == e;
        }
      }
      Some(TopCause(y, b.key.list, b.key.cause, b.amount))
  }

  /** The top row of each year, years taken in descending order. */
  function TopsOf(gs: seq<Entry<BreakdownKey>>, ys: seq<Entry<int>>): (r: seq<Option<TopCause>>)
    ensures |r| == |ys| && forall i :: 0 <= i < |ys| ==> r[i] == TopOfYear(gs, ys[|ys| - 1 - i].key)
  {
    seq(|ys|, i requires 0 <= i < |ys| => TopOfYear(gs, ys[|ys| - 1 - i].key))
  }

  /** `top_causes_by_year`: the `rn = 1` rows, `ORDER BY M.Year DESC`. */
  function TopByYear(ms: seq<MortalityRow>, q: Query): seq<TopCause> {
    Somes(TopsOf(CauseYearGroups(ms, q), YearTotals(Matched(ms, q))))
  }

  predicate HasTopYear(t: seq<TopCause>, y: int) {
    exists i :: 0 <= i < |t| && t[i].year == y
  }

  /** Some group belongs to year `y`. */
  predicate GroupOfYear(gs: seq<Entry<BreakdownKey>>, y: int) {
    exists e :: e in gs && e.key.year == y
  }

  /** The group of a row's own key is there. */
  lemma RowHasGroup(m: seq<MortalityRow>, r: MortalityRow)
    requires r in m
    ensures HasKey(GroupAll(DeathItems(m, BreakdownKeyOf)), BreakdownKeyOf(r))
  {
    DeathItemsKeys(m, BreakdownKeyOf, BreakdownKeyOf(r));
  }

  lemma KeyGivesYear(gs: seq<Entry<BreakdownKey>>, k: BreakdownKey)
    requires HasKey(gs, k)
    ensures GroupOfYear(gs, k.year)
  {
    var j :| 0 <= j < |gs| && gs[j].key == k;
    assert gs[j] in gs;
  }

  /** Every year of the rows has at least one (year, list, cause) group. */
  lemma YearHasGroup(m: seq<MortalityRow>, r: MortalityRow)
    requires r in m
    ensures GroupOfYear(GroupAll(DeathItems(m, BreakdownKeyOf)), r.year)
  {
    RowHasGroup(m, r);
    KeyGivesYear(GroupAll(DeathItems(m, BreakdownKeyOf)), BreakdownKeyOf(r));
  }

  /** Row `i` of `t` carries the year `i`-th from the end of `ys`. */
  predicate YearsReversed(t: seq<TopCause>, ys: seq<Entry<int>>) {
    |t| == |ys| && forall i :: 0 <= i < |t| ==> t[i].year == ys[|ys| - 1 - i].key
  }

  /** Row `i` of `t` is the top row of the year `i`-th from the end of `ys`. */
  predicate TopsAligned(gs: seq<Entry<BreakdownKey>>, ys: seq<Entry<int>>, t: seq<TopCause>) {
    |t| == |ys| && forall i :: 0 <= i < |t| ==> TopOfYear(gs, ys[|ys| - 1 - i].key) == Some(t[i])
  }

  /** When every year has a group, every year has its top row. */
  lemma TopsOfAt(gs: seq<Entry<BreakdownKey>>, ys: seq<Entry<int>>)
    requires forall i :: 0 <= i < |ys| ==> GroupOfYear(gs, ys[i].key)
    ensures TopsAligned(gs, ys, Somes(TopsOf(gs, ys)))
    ensures YearsReversed(Somes(TopsOf(gs, ys)), ys)
  {
    var opts := TopsOf(gs, ys);
    forall i | 0 <= i < |opts| ensures opts[i].Some? {
      var y := ys[|ys| - 1 - i].key;
      var e :| e in gs && e.key.year == y;
    }
    SomesAllSome(opts);
    var t := Somes(opts);
    forall i | 0 <= i < |t| ensures t[i].year == ys[|ys| - 1 - i].key {
      assert opts[i] == Some(t[i]);
    }
  }

  /** Every year of the matched rows has a group, so every year has its top row. */
  lemma TopByYearAt(ms: seq<MortalityRow>, q: Query)
    ensures TopsAligned(CauseYearGroups(ms, q), YearTotals(Matched(ms, q)), TopByYear(ms, q))
    ensures YearsReversed(TopByYear(ms, q), YearTotals(Matched(ms, q)))
  {
    var m := Matched(ms, q);
    var gs := CauseYearGroups(ms, q);
    var ys := YearTotals(m);
    forall i | 0 <= i < |ys| ensures GroupOfYear(gs, ys[i].key) {
      var y := ys[i].key;
      assert HasKey(ys, y);
      YearTotalsYears(m, y);
      var r :| r in m && r.year == y;
      YearHasGroup(m, r);
    }
    TopsOfAt(gs, ys);
  }

  lemma TopsOfDescending(ys: seq<Entry<int>>, t: seq<TopCause>)
    requires forall i, j :: 0 <= i < j < |ys| ==> ys[i].key < ys[j].key
    requires YearsReversed(t, ys)
    ensures forall i, j :: 0 <= i < j < |t| ==> t[i].year > t[j].year
  {
    forall i, j | 0 <= i < j < |t| ensures t[i].year > t[j].year {
      assert t[i].year == ys[|ys| - 1 - i].key && t[j].year == ys[|ys| - 1 - j].key;
    }
  }

  /** The years strictly descend. */
  lemma TopByYearDescending(ms: seq<MortalityRow>, q: Query)
    ensures var t := TopByYear(ms, q);
      forall i, j :: 0 <= i < j < |t| ==> t[i].year > t[j].year
  {
    TopByYearAt(ms, q);
    TopsOfDescending(YearTotals(Matched(ms, q)), TopByYear(ms, q));
  }

  lemma TopsOfYears(ys: seq<Entry<int>>, t: seq<TopCause>, y: int)
    requires YearsReversed(t, ys)
    ensures HasTopYear(t, y) <==> HasKey(ys, y)
  {
    if HasKey(ys, y) {
      var k :| 0 <= k < |ys| && ys[k].key == y;
      assert t[|ys| - 1 - k].year == y;
    }
    if HasTopYear(t, y) {
      var i :| 0 <= i < |t| && t[i].year == y;
      assert ys[|ys| - 1 - i].key == y;
    }
  }

  /** One row per year of the matched rows, and no other. */
  lemma TopByYearYears(ms: seq<MortalityRow>, q: Query, y: int)
    ensures HasTopYear(TopByYear(ms, q), y) <==> HasRowOfYear(Matched(ms, q), y)
  {
    TopByYearAt(ms, q);
    TopsOfYears(YearTotals(Matched(ms, q)), TopByYear(ms, q), y);
    YearTotalsYears(Matched(ms, q), y);
  }

  lemma TopsAlignedIsTop(gs: seq<Entry<BreakdownKey>>, ys: seq<Entry<int>>, t: seq<TopCause>, i: nat)
    requires TopsAligned(gs, ys, t) && i < |t|
    ensures Entry(BreakdownKey(t[i].year, t[i].list, t[i].cause), t[i].total) in gs
    ensures forall e :: e in gs && e.key.year == t[i].year ==> e.amount <= t[i].total
  {
    assert TopOfYear(gs, ys[|ys| - 1 - i].key) == Some(t[i]);
  }

  /** Each row is a group of its year and no other group of that year has a larger total. */
  lemma TopByYearIsTop(ms: seq<MortalityRow>, q: Query, i: nat)
    requires i < |TopByYear(ms, q)|
    ensures var t := TopByYear(ms, q);
      && Entry(BreakdownKey(t[i].year, t[i].list, t[i].cause), t[i].total) in CauseYearGroups(ms, q)
      && forall e :: e in CauseYearGroups(ms, q) && e.key.year == t[i].year ==> e.amount <= t[i].total
  {
    TopByYearAt(ms, q);
    TopsAlignedIsTop(CauseYearGroups(ms, q), YearTotals(Matched(ms, q)), TopByYear(ms, q), i);
  }

  /** Each row's total is the death sum of its (year, list, cause) group. */
  lemma TopByYearTotal(ms: seq<MortalityRow>, q: Query, i: nat)
    requires i < |TopByYear(ms, q)|
    ensures var t := TopByYear(ms, q);
      t[i].total == DeathsWhere(Matched(ms, q), InGroup(BreakdownKey(t[i].year, t[i].list, t[i].cause)))
  {
    var m := Matched(ms, q);
    var gs := CauseYearGroups(ms, q);
    var t := TopByYear(ms, q);
    TopByYearIsTop(ms, q, i);
    var k := BreakdownKey(t[i].year, t[i].list, t[i].cause);
    var e := Entry(k, t[i].total);
    var items := DeathItems(m, BreakdownKeyOf);
    var j :| 0 <= j < |gs| && gs[j] == e;
    GroupAllAmount(items, j);
    DeathItemsSum(m, BreakdownKeyOf, Is(k), InGroup(k));
  }

  // ------------------------------------------------------ top cause overall

  function CauseGroups(ms: seq<MortalityRow>, q: Query): seq<Entry<CausePair>> {
    GroupAll(DeathItems(Matched(ms, q), CauseKeyOf))
  }

  /** `ORDER BY Total_Count DESC LIMIT 1`: a (list, cause) group of largest total, when there is any. */
  function TopOverallOf(ms: seq<MortalityRow>, q: Query): (r: Option<TopOverall>)
    ensures r.None? <==> |Matched(ms, q)| == 0
    ensures r.Some? ==> Entry(CausePair(r.value.list, r.value.cause), r.value.total) in CauseGroups(ms, q)
    ensures r.Some? ==> forall e :: e in CauseGroups(ms, q) ==> e.amount <= r.value.total
  {
    var gs := CauseGroups(ms, q);
    var m := Matched(ms, q);
    assert |m| > 0 ==> |gs| > 0 by {
      if |m| > 0 {
        assert m[0] in m;
        DeathItemsKeys(m, CauseKeyOf, CauseKeyOf(m[0]));
        assert HasKey(gs, CauseKeyOf(m[0]));
      }
    }
    assert |gs| > 0 ==> |m| > 0 by {
      if |gs| > 0 {
        assert HasKey(gs, gs[0].key);
        DeathItemsKeys(m, CauseKeyOf, gs[0].key);
      }
    }
    match Best(gs)
    case None => None
    case Some(b) =>
      assert forall e :: e in gs ==> e.amount <= b.amount by {
        forall e | e in gs ensures e.amount <= b.amount {
          var i :| 0 <= i < |gs| && gs[i] == e;
        }
      }
      Some(TopOverall(b.key.list, b.key.cause, b.amount))
  }

  /** The overall top total is the death sum of its (list, cause) rows. */
  lemma TopOverallTotal(ms: seq<MortalityRow>, q: Query)
    requires TopOverallOf(ms, q).Some?
    ensures var t := TopOverallOf(ms, q).value;
      t.total == DeathsWhere(Matched(ms, q), (r: MortalityRow) => CauseKeyOf(r) == CausePair(t.list, t.cause))
  {
    var t := TopOverallOf(ms, q).value;
    var m := Matched(ms, q);
    var gs := CauseGroups(ms, q);
    var k := CausePair(t.list, t.cause);
    var j :| 0 <= j < |gs| && gs[j] == Entry(k, t.total);
    GroupAllAmount(DeathItems(m, CauseKeyOf), j);
    DeathItemsSum(m, CauseKeyOf, Is(k), (r: MortalityRow) => CauseKeyOf(r) == k);
  }

  // ------------------------------------------------------------ endpoint

  const Suffix: string := " (en get_stats.php)"

  datatype StatsResponse =
    | StatsError(message: string)
    | StatsSuccess(summary: Summary, topByYear: seq<TopCause>)

  function GetStats(env: Env, db: Database, req: Request): (r: StatsResponse)
    ensures MissingInput(req) ==> r == StatsError(MissingMessage)
    ensures !MissingInput(req) && Prepare(env, db, req).Err? ==> r == StatsError(Prepare(env, db, req).error + Suffix)
    ensures r.StatsSuccess? ==> !MissingInput(req) && Prepare(env, db, req).Ok?
    ensures r.StatsSuccess? ==>
      var q := Prepare(env, db, req).value;
      && Summarize(req.country, BaseRows(env, db, q), TopOverallOf(db.mortality, q)) == Ok(r.summary)
      && r.topByYear == TopByYear(db.mortality, q)
  {
    if MissingInput(req) then StatsError(MissingMessage)
    else
      match Prepare(env, db, req)
      case Err(m) => StatsError(m + Suffix)
      case Ok(q) =>
        match Summarize(req.country, BaseRows(env, db, q), TopOverallOf(db.mortality, q))
        case Err(m) => StatsError(m + Suffix)
        case Ok(s) => StatsSuccess(s, TopByYear(db.mortality, q))
  }

  /**
   * Once the request resolves, the endpoint fails exactly when no mortality
   * row matches, and then with the "no summary" message; the top cause
   * overall is then always present.
   */
  lemma GetStatsOutcome(env: Env, db: Database, req: Request)
    requires !MissingInput(req) && Prepare(env, db, req).Ok?
    ensures var q := Prepare(env, db, req).value;
      && (GetStats(env, db, req).StatsError? <==> |Matched(db.mortality, q)| == 0)
      && (GetStats(env, db, req).StatsError? ==>
            GetStats(env, db, req).message == NoSummaryMessage(req.country) + Suffix)
      && (GetStats(env, db, req).StatsSuccess? ==> GetStats(env, db, req).summary.topCause.Some?)
  {
    var q := Prepare(env, db, req).value;
    var m := Matched(db.mortality, q);
    NoMortalityUnreachable(env, db, q, req.country, TopOverallOf(db.mortality, q));
    var t := YearTotals(m);
    if |m| > 0 {
      assert m[0] in m;
      YearTotalsYears(m, m[0].year);
    }
    if |t| > 0 {
      assert HasKey(t, t[0].key);
      YearTotalsYears(m, t[0].key);
    }
  }
}
