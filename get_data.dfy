/**
 * get_data.php: the year series (`data`) and the per-cause breakdown
 * (`breakdown`) of a request, or the error message of the first check
 * that fails.
 */
module DataEndpoint {
  import opened Wrappers
  import opened Facts
  import opened Grouping
  import opened Scope
  import opened CauseFilter
  import opened Aggregation
  import opened Requests

  datatype DataResponse =
    | DataError(message: string)
    | DataSuccess(data: seq<SeriesRow>, breakdown: seq<Entry<BreakdownKey>>)

  function NoDataMessage(name: string): string {
    "No se encontraron datos para '" + name + "' con las causas seleccionadas."
  }

  /** The whole endpoint. The series is the internet-`COALESCE` variant; the breakdown reuses its query. */
  function GetData(env: Env, db: Database, req: Request): (r: DataResponse)
    ensures MissingInput(req) ==> r == DataError(MissingMessage)
    ensures !MissingInput(req) && Prepare(env, db, req).Err? ==> r == DataError(Prepare(env, db, req).error)
    ensures r.DataSuccess? ==> |r.data| > 0 && Prepare(env, db, req).Ok?
    ensures r.DataSuccess? ==>
      r.data == TimeSeries(env, db, Prepare(env, db, req).value, true)
      && r.breakdown == Breakdown(db.mortality, Prepare(env, db, req).value)
  {
    if MissingInput(req) then DataError(MissingMessage)
    else
      match Prepare(env, db, req)
      case Err(m) => DataError(m)
      case Ok(q) =>
        var series := TimeSeries(env, db, q, true);
        if |series| == 0 then DataError(NoDataMessage(req.country))
        else DataSuccess(series, Breakdown(db.mortality, q))
  }

  /** A resolved request fails only when no mortality row matches it, with the "no data" message. */
  lemma GetDataNoData(env: Env, db: Database, req: Request)
    requires !MissingInput(req) && Prepare(env, db, req).Ok?
    ensures GetData(env, db, req).DataError? <==> |Matched(db.mortality, Prepare(env, db, req).value)| == 0
    ensures GetData(env, db, req).DataError? ==> GetData(env, db, req).message == NoDataMessage(req.country)
  {
    SeriesEmpty(env, db, Prepare(env, db, req).value, true);
  }

  /** Every breakdown year is a year of the series. */
  lemma BreakdownYearsInSeries(env: Env, db: Database, q: Query, coalesce: bool, i: nat)
    requires i < |Breakdown(db.mortality, q)|
    ensures HasSeriesYear(TimeSeries(env, db, q, coalesce), Breakdown(db.mortality, q)[i].key.year)
  {
    var m := Matched(db.mortality, q);
    var b := Breakdown(db.mortality, q);
    var items := DeathItems(m, BreakdownKeyOf);
    var all := GroupAll(items);
    assert b[i] in multiset(Positive(all));
    assert b[i] in all;
    assert HasKey(all, b[i].key);
    DeathItemsKeys(m, BreakdownKeyOf, b[i].key);
    var r :| r in m && BreakdownKeyOf(r) == b[i].key;
    TimeSeriesSpec(env, db, q, coalesce);
  }

  /**
   * A successful response is consistent: its years strictly ascend, every
   * breakdown year is one of them, and (with no negative count) each year's
   * breakdown deaths add up to that year's `TotalDeaths`.
   */
  lemma GetDataConsistent(env: Env, db: Database, req: Request)
    requires NonNegativeDeaths(db.mortality)
    requires GetData(env, db, req).DataSuccess?
    ensures var r := GetData(env, db, req);
      && (forall i, j :: 0 <= i < j < |r.data| ==> r.data[i].year < r.data[j].year)
      && (forall i :: 0 <= i < |r.breakdown| ==> HasSeriesYear(r.data, r.breakdown[i].key.year))
      && (forall i :: 0 <= i < |r.data| ==> SumWhere(r.breakdown, KeyInYear(r.data[i].year)) == r.data[i].totalDeaths)
  {
    var q := Prepare(env, db, req).value;
    TimeSeriesSpec(env, db, q, true);
    forall i | 0 <= i < |Breakdown(db.mortality, q)|
      ensures HasSeriesYear(TimeSeries(env, db, q, true), Breakdown(db.mortality, q)[i].key.year)
    {
      BreakdownYearsInSeries(env, db, q, true, i);
    }
    forall i | 0 <= i < |TimeSeries(env, db, q, true)|
      ensures SumWhere(Breakdown(db.mortality, q), KeyInYear(TimeSeries(env, db, q, true)[i].year))
        == TimeSeries(env, db, q, true)[i].totalDeaths
    {
      SeriesBreakdownAgree(env, db, q, true, i);
    }
  }
}
