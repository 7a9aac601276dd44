/**
 * The browser side of index.php and dashboard.php, without the rendering:
 * the cause selection held in `selectedCauses` and mirrored to
 * `localStorage`, the guards in front of a request to get_data.php, the
 * cause-list filter of the settings dialog, the pie chart's labels, years
 * and totals, the mortality rate drawn on the second line chart, and the
 * dashboard's per-country element ids. The two pages carry the same code
 * for the selection and the pie chart; one model serves both.
 */
module Client {
  import opened Wrappers
  import opened Collections
  import opened Strings
  import opened Grouping
  import opened Facts
  import opened Aggregation
  import opened Requests
  import Export
  import opened Catalogue

  // ------------------------------------------------------------ selection

  /**
   * The selection a page starts from, given what `localStorage` held
   * (`None`: nothing saved). A list in the old format, whose first code has
   * no `::`, is dropped.
   */
  function LoadedCauses(saved: Option<seq<string>>): (r: seq<string>)
    ensures r == [] || saved == Some(r)
    ensures |r| == 0 || Contains(r[0], "::")
    ensures saved.Some? && (|saved.value| == 0 || Contains(saved.value[0], "::")) ==> r == saved.value
  {
    match saved
    case None => []
    case Some(t) => if |t| > 0 && !Contains(t[0], "::") then [] else t
  }

  /** Checking a box: the code is added at the end unless it is already there. */
  function Checked(causes: seq<string>, code: string): (r: seq<string>)
    ensures code in r
    ensures forall x :: x in r <==> x in causes || x == code
    ensures Distinct(causes) ==> Distinct(r)
    ensures code in causes ==> r == causes
  {
    if code in causes then causes
    else
      assert Distinct(causes) ==> Distinct(causes + [code]) by {
        if Distinct(causes) {
          var s := causes + [code];
          forall i, j | 0 <= i < j < |s| ensures s[i] != s[j] {
            if j == |causes| { assert s[i] == causes[i]; }
          }
        }
      }
      causes + [code]
  }

  function Other(code: string): string -> bool {
    (c: string) => c != code
  }

  /** Unchecking a box: every occurrence of the code goes, the other codes keep their order. */
  function Unchecked(causes: seq<string>, code: string): (r: seq<string>)
    ensures code !in r
    ensures forall x :: x in r <==> x in causes && x != code
    ensures Distinct(causes) ==> Distinct(r)
    ensures code !in causes ==> r == causes
  {
    var r := Filter(causes, Other(code));
    assert Distinct(causes) ==> Distinct(r) by {
      if Distinct(causes) { FilterDistinct(causes, Other(code)); }
    }
    assert code !in causes ==> r == causes by {
      if code !in causes { FilterAll(causes, Other(code)); }
    }
    r
  }

  /** Unchecking a code that was just checked, when it was absent before, restores the selection. */
  lemma UncheckUndoesCheck(causes: seq<string>, code: string)
    requires code !in causes
    ensures Unchecked(Checked(causes, code), code) == causes
  {
    FilterAppend(causes, [code], Other(code));
    FilterAll(causes, Other(code));
    assert Filter([code], Other(code)) == [];
  }

  /** Unchecking removes the code wherever it occurs and leaves the codes around it in place. */
  lemma UncheckedKeepsOrder(a: seq<string>, b: seq<string>, code: string)
    ensures Unchecked(a + [code] + b, code) == Unchecked(a, code) + Unchecked(b, code)
  {
    FilterSkip(a, code, b, Other(code));
  }

  /** A page's selected codes together with the `localStorage` entry they are saved under. */
  class Selection {
    /** `selectedCauses`. */
    var causes: seq<string>
    /** The decoded `localStorage` entry `selectedCauses`; `None` when nothing is saved. */
    var saved: Option<seq<string>>

    /** What is saved is what is selected. */
    predicate Persisted()
      reads this
    {
      saved == Some(causes)
    }

    constructor (stored: Option<seq<string>>)
      ensures causes == [] && saved == stored
    {
      causes := [];
      saved := stored;
    }

    /** `loadSelectedCauses`: an absent or old-format entry is replaced by `'[]'`. */
    method Load()
      modifies this
      ensures causes == LoadedCauses(old(saved))
      ensures Persisted()
    {
      match saved
      case None =>
        causes := [];
        saved := Some([]);
      case Some(t) =>
        if |t| > 0 && !Contains(t[0], "::") {
          causes := [];
          saved := Some([]);
        } else {
          causes := t;
        }
    }

    /** `handleCauseSelection` for the box of `code`, now `checked` or not; the list is saved after each change. */
    method Toggle(code: string, checked: bool)
      modifies this
      ensures causes == (if checked then Checked(old(causes), code) else Unchecked(old(causes), code))
      ensures Persisted()
    {
      if checked {
        if code !in causes {
          causes := causes + [code];
        }
      } else {
        causes := Filter(causes, Other(code));
      }
      saved := Some(causes);
    }

    /** The deselect-all button. */
    method DeselectAll()
      modifies this
      ensures causes == [] && Persisted()
    {
      causes := [];
      saved := Some([]);
    }
  }

  // ---------------------------------------------------------------- guards

  datatype FetchStep = Alert(message: string) | Send(req: Request)

  const NameAlert: string := "Por favor, introduce un país, región o 'Global'."
  const IndexNoCausesAlert: string :=
    "No hay causas seleccionadas. Por favor, seleccione al menos una causa en el menú de configuración (⚙️) antes de buscar."
  const DashboardNoCausesNotice: string := "No hay causas seleccionadas. Configurelas (⚙️) y recargue."

  /** index.php's `fetchData` up to the request: the name is checked first, then the selection. */
  function IndexFetch(name: string, causes: seq<string>): (s: FetchStep)
    ensures s.Send? <==> name != "" && |causes| > 0
    ensures s.Send? ==> s.req == Request(name, causes)
    ensures name == "" ==> s == Alert(NameAlert)
    ensures name != "" && |causes| == 0 ==> s == Alert(IndexNoCausesAlert)
  {
    if name == "" then Alert(NameAlert)
    else if |causes| == 0 then Alert(IndexNoCausesAlert)
    else Send(Request(name, causes))
  }

  /** dashboard.php's `fetchAndRenderCharts`: the country name comes from the page, only the selection is checked. */
  function DashboardFetch(name: string, causes: seq<string>): (s: FetchStep)
    ensures s.Send? <==> |causes| > 0
    ensures s.Send? ==> s.req == Request(name, causes)
    ensures |causes| == 0 ==> s == Alert(DashboardNoCausesNotice)
  {
    if |causes| == 0 then Alert(DashboardNoCausesNotice) else Send(Request(name, causes))
  }

  /**
   * A request index.php sends passes get_data.php's missing-input guard,
   * except for the name "0", which JavaScript treats as present and PHP's
   * `empty()` as missing.
   */
  lemma IndexRequestGuard(name: string, causes: seq<string>)
    requires IndexFetch(name, causes).Send?
    ensures MissingInput(IndexFetch(name, causes).req) <==> name == "0"
  {
  }

  /** A request the dashboard sends is refused by the endpoint exactly when the country name is empty for PHP. */
  lemma DashboardRequestGuard(name: string, causes: seq<string>)
    requires DashboardFetch(name, causes).Send?
    ensures MissingInput(DashboardFetch(name, causes).req) <==> EmptyString(name)
  {
  }

  // ------------------------------------------------------- the cause lists

  /** `renderCauseLists`: the text filter, lowercased, against description and code; the revision exactly. */
  predicate MatchesFilter(e: CatalogueEntry, filterText: string, filterRev: string) {
    && (Contains(Lower(e.desc), Lower(filterText)) || Contains(Lower(e.code), Lower(filterText)))
    && (filterRev == "" || e.rev == filterRev)
  }

  function ListedBy(filterText: string, filterRev: string): CatalogueEntry -> bool {
    (e: CatalogueEntry) => MatchesFilter(e, filterText, filterRev)
  }

  function IsSelected(causes: seq<string>): CatalogueEntry -> bool {
    (e: CatalogueEntry) => e.code in causes
  }

  /** The result list, in catalogue order. */
  function ResultsList(entries: seq<CatalogueEntry>, filterText: string, filterRev: string): (r: seq<CatalogueEntry>)
    ensures forall e :: e in r <==> e in entries && MatchesFilter(e, filterText, filterRev)
  {
    Filter(entries, ListedBy(filterText, filterRev))
  }

  /** The selected list: the catalogue entries whose code is selected, whatever the filter. */
  function SelectedList(entries: seq<CatalogueEntry>, causes: seq<string>): (r: seq<CatalogueEntry>)
    ensures forall e :: e in r <==> e in entries && e.code in causes
  {
    Filter(entries, IsSelected(causes))
  }

  lemma LowerIdempotent(s: string)
    ensures Lower(Lower(s)) == Lower(s)
  {
    assert forall i :: 0 <= i < |s| ==> LowerChar(LowerChar(s[i])) == LowerChar(s[i]);
  }

  /** The text filter ignores the case of what is typed. */
  lemma FilterIgnoresCase(e: CatalogueEntry, filterText: string, filterRev: string)
    ensures MatchesFilter(e, filterText, filterRev) <==> MatchesFilter(e, Lower(filterText), filterRev)
  {
    LowerIdempotent(filterText);
  }

  lemma ContainsEmpty(s: string)
    ensures Contains(s, "")
  {
    assert IsPrefix("", s);
  }

  /** With an empty search box and no revision chosen, every cause is listed, in order. */
  lemma EmptyFilterListsAll(entries: seq<CatalogueEntry>)
    ensures ResultsList(entries, "", "") == entries
  {
    assert Lower("") == "";
    forall i | 0 <= i < |entries| ensures ListedBy("", "")(entries[i]) {
      ContainsEmpty(Lower(entries[i].desc));
    }
    FilterAll(entries, ListedBy("", ""));
  }

  // ---------------------------------------------------------------- labels

  /** `code.split('::')[1]`; JavaScript prints a missing part as `undefined`. */
  function ShortCode(code: string): string {
    var parts := Explode(code, "::");
    if |parts| > 1 then parts[1] else "undefined"
  }

  /** The label stored for a cause in `causeDescriptionMap`. */
  function LabelOf(e: CatalogueEntry): (text: string)
    ensures |text| > 0 && text[0] == '['
  {
    "[" + e.list + "] " + ShortCode(e.code) + " (" + e.rev + ")"
  }

  function LabelPairs(entries: seq<CatalogueEntry>): (kvs: seq<(string, string)>)
    ensures |kvs| == |entries|
    ensures forall i :: 0 <= i < |entries| ==> kvs[i] == (entries[i].code, LabelOf(entries[i]))
  {
    seq(|entries|, i requires 0 <= i < |entries| => (entries[i].code, LabelOf(entries[i])))
  }

  /** `causeDescriptionMap` after `loadAllCauses`: a later entry with the same code overwrites an earlier one. */
  function LabelMap(entries: seq<CatalogueEntry>): map<string, string> {
    Overwrite(LabelPairs(entries))
  }

  /** The `forEach` filling `causeDescriptionMap` after clearing it. */
  method BuildLabels(entries: seq<CatalogueEntry>) returns (m: map<string, string>)
    ensures m == LabelMap(entries)
  {
    ghost var kvs := LabelPairs(entries);
    m := map[];
    for i := 0 to |entries|
      invariant m == Overwrite(kvs[..i])
    {
      assert kvs[..i + 1][..i] == kvs[..i];
      m := m[entries[i].code := LabelOf(entries[i])];
    }
    assert kvs[..|entries|] == kvs;
  }

  /** The label of a pie slice: the stored label, or the composite code when there is none. */
  function PieLabel(labels: map<string, string>, k: BreakdownKey): (text: string)
    ensures |text| > 0
  {
    var code := k.list + "::" + k.cause;
    if code in labels && labels[code] != "" then labels[code] else code
  }

  /** The label of a catalogue entry whose codes hold no `:` names its list, its cause and its revision. */
  lemma LabelOfCatalogueEntry(descs: map<string, Description>, g: CatalogueGroup, withCountries: bool)
    requires ':' !in g.list && ':' !in g.cause
    ensures LabelOf(Enrich(descs, g, withCountries)) ==
      "[" + g.list + "] " + g.cause + " (" + Enrich(descs, g, withCountries).rev + ")"
  {
    ExplodeTwo(g.list, "::", g.cause);
  }

  /** A slice whose composite code belongs to a catalogue entry carries that entry's label (the last one, if repeated). */
  lemma PieLabelFound(entries: seq<CatalogueEntry>, i: nat, k: BreakdownKey)
    requires i < |entries| && entries[i].code == k.list + "::" + k.cause
    requires forall j :: i < j < |entries| ==> entries[j].code != entries[i].code
    ensures PieLabel(LabelMap(entries), k) == LabelOf(entries[i])
  {
    var kvs := LabelPairs(entries);
    assert forall j :: i < j < |kvs| ==> kvs[j].0 != kvs[i].0 by {
      forall j | i < j < |kvs| ensures kvs[j].0 != kvs[i].0 {
        assert kvs[j].0 == entries[j].code;
      }
    }
    OverwriteLastWins(kvs, i);
  }

  /** A slice whose composite code is not in the catalogue is labelled with the code itself. */
  lemma PieLabelFallback(entries: seq<CatalogueEntry>, k: BreakdownKey)
    requires forall j :: 0 <= j < |entries| ==> entries[j].code != k.list + "::" + k.cause
    ensures PieLabel(LabelMap(entries), k) == k.list + "::" + k.cause
  {
    var kvs := LabelPairs(entries);
    assert !HasFirst(kvs, k.list + "::" + k.cause) by {
      forall j | 0 <= j < |kvs| ensures kvs[j].0 != k.list + "::" + k.cause {
        assert kvs[j].0 == entries[j].code;
      }
    }
    OverwriteKeys(kvs, k.list + "::" + k.cause);
  }

  // ----------------------------------------------------------------- pie

  predicate StrictlyDescending(ys: seq<int>) {
    forall i, j :: 0 <= i < j < |ys| ==> ys[i] > ys[j]
  }

  /** Adds a year to a strictly descending list of distinct years. */
  function InsertYear(y: int, ys: seq<int>): (r: seq<int>)
    requires StrictlyDescending(ys)
    ensures StrictlyDescending(r)
    ensures forall x :: x in r <==> x in ys || x == y
    decreases |ys|
  {
    if |ys| == 0 then [y]
    else if y == ys[0] then ys
    else if y > ys[0] then
      assert forall x :: x in ys ==> x <= ys[0];
      [y] + ys
    else
      var tail := ys[1..];
      assert StrictlyDescending(tail);
      var rest := InsertYear(y, tail);
      assert forall x :: x in tail ==> x < ys[0];
      assert forall k :: 0 <= k < |rest| ==> rest[k] < ys[0] by {
        forall k | 0 <= k < |rest| ensures rest[k] < ys[0] {
          assert rest[k] in rest;
        }
      }
      assert ys == [ys[0]] + tail;
      [ys[0]] + rest
  }

  predicate HasBreakdownYear(b: seq<Entry<BreakdownKey>>, y: int) {
    exists i :: 0 <= i < |b| && b[i].key.year == y
  }

  /**
   * `[...new Set(years)].sort((a, b) => b - a)`: the distinct years of the
   * breakdown, most recent first. The set and the sort are taken together,
   * year by year; `StrictlyDescendingUnique` shows the order is the only one.
   */
  function PieYears(b: seq<Entry<BreakdownKey>>): (ys: seq<int>)
    ensures StrictlyDescending(ys)
    ensures forall y :: y in ys <==> HasBreakdownYear(b, y)
    decreases |b|
  {
    if |b| == 0 then []
    else
      var n := |b| - 1;
      var init := b[..n];
      var prev := PieYears(init);
      assert forall y :: HasBreakdownYear(init, y) ==> HasBreakdownYear(b, y) by {
        forall y | HasBreakdownYear(init, y) ensures HasBreakdownYear(b, y) {
          var i :| 0 <= i < |init| && init[i].key.year == y;
          assert b[i] == init[i];
        }
      }
      assert forall y :: HasBreakdownYear(b, y) && y != b[n].key.year ==> HasBreakdownYear(init, y) by {
        forall y | HasBreakdownYear(b, y) && y != b[n].key.year ensures HasBreakdownYear(init, y) {
          var i :| 0 <= i < |b| && b[i].key.year == y;
          assert init[i] == b[i];
        }
      }
      InsertYear(b[n].key.year, prev)
  }

  /** The tail of a strictly descending list holds exactly its members below the head. */
  lemma DescendingTail(a: seq<int>, x: int)
    requires StrictlyDescending(a) && |a| > 0
    ensures x in a[1..] <==> x in a && x < a[0]
  {
    if x in a[1..] {
      var k :| 0 <= k < |a| - 1 && a[1..][k] == x;
      assert a[k + 1] == x;
    }
    if x in a && x < a[0] {
      var k :| 0 <= k < |a| && a[k] == x;
      assert a[1..][k - 1] == x;
    }
  }

  /** The head of a non-empty strictly descending list is its largest member. */
  lemma DescendingHead(a: seq<int>, x: int)
    requires StrictlyDescending(a) && x in a
    ensures x <= a[0]
  {
    var k :| 0 <= k < |a| && a[k] == x;
  }

  /** Two strictly descending lists with the same years are the same list. */
  lemma {:induction false} StrictlyDescendingUnique(a: seq<int>, c: seq<int>)
    requires StrictlyDescending(a) && StrictlyDescending(c)
    requires forall x :: x in a <==> x in c
    ensures a == c
    decreases |a|
  {
    assert |c| > 0 ==> c[0] in c;
    if |a| > 0 {
      assert a[0] in a;
      DescendingHead(c, a[0]);
      DescendingHead(a, c[0]);
      var ta, tc := a[1..], c[1..];
      forall x ensures x in ta <==> x in tc {
        DescendingTail(a, x);
        DescendingTail(c, x);
      }
      assert StrictlyDescending(ta) && StrictlyDescending(tc);
      StrictlyDescendingUnique(ta, tc);
      assert a == [a[0]] + ta && c == [c[0]] + tc;
    }
  }

  /** The pie first drawn is that of the most recent year of the breakdown. */
  lemma PieFirstYearIsLatest(b: seq<Entry<BreakdownKey>>)
    requires |b| > 0
    ensures |PieYears(b)| > 0
    ensures HasBreakdownYear(b, PieYears(b)[0])
    ensures forall i :: 0 <= i < |b| ==> b[i].key.year <= PieYears(b)[0]
  {
    var ys := PieYears(b);
    assert HasBreakdownYear(b, b[0].key.year);
    assert b[0].key.year in ys;
    assert ys[0] in ys;
    forall i | 0 <= i < |b| ensures b[i].key.year <= ys[0] {
      assert HasBreakdownYear(b, b[i].key.year);
      var k :| 0 <= k < |ys| && ys[k] == b[i].key.year;
    }
  }

  function InPieYear(y: int): Entry<BreakdownKey> -> bool {
    (d: Entry<BreakdownKey>) => d.key.year == y
  }

  /** `breakdownData.filter(d => d.Year == selectedYear)`, in breakdown order. */
  function PieRows(b: seq<Entry<BreakdownKey>>, y: int): (rows: seq<Entry<BreakdownKey>>)
    ensures forall d :: d in rows <==> d in b && d.key.year == y
  {
    Filter(b, InPieYear(y))
  }

  /** The total in the pie's title: the sum of the slices' deaths. */
  function PieTotal(b: seq<Entry<BreakdownKey>>, y: int): int {
    Total(PieRows(b, y))
  }

  /** The pie's total is the breakdown's sum over the selected year. */
  lemma {:induction false} PieTotalIsYearSum(b: seq<Entry<BreakdownKey>>, y: int)
    ensures PieTotal(b, y) == SumWhere(b, KeyInYear(y))
    decreases |b|
  {
    if |b| > 0 {
      PieTotalIsYearSum(b[1..], y);
      if b[0].key.year == y {
        assert ([b[0]] + PieRows(b[1..], y))[1..] == PieRows(b[1..], y);
      } else {
        assert [] + PieRows(b[1..], y) == PieRows(b[1..], y);
      }
    }
  }

  /** For the breakdown get_data.php answers, the pie's total of a year is that year's point on the deaths line. */
  lemma PieTotalMatchesSeries(env: Env, db: Database, q: Query, coalesce: bool, i: nat)
    requires NonNegativeDeaths(db.mortality)
    requires i < |TimeSeries(env, db, q, coalesce)|
    ensures PieTotal(Breakdown(db.mortality, q), TimeSeries(env, db, q, coalesce)[i].year)
      == TimeSeries(env, db, q, coalesce)[i].totalDeaths
  {
    PieTotalIsYearSum(Breakdown(db.mortality, q), TimeSeries(env, db, q, coalesce)[i].year);
    SeriesBreakdownAgree(env, db, q, coalesce, i);
  }

  // ------------------------------------------------------------------ rate

  /** `(deaths / population) * 100000` when the population parses to a positive number, and 0 otherwise. */
  function ClientRate(deaths: int, population: Option<int>): (r: real)
    ensures population.None? || population.value <= 0 ==> r == 0.0
    ensures population.Some? && population.value > 0 ==>
      r * (population.value as real) == (deaths as real) * 100000.0
  {
    if population.Some? && population.value > 0 then
      var v := ((deaths as real) / (population.value as real)) * 100000.0;
      assert v * (population.value as real) == (deaths as real) * 100000.0;
      v
    else 0.0
  }

  /**
   * The chart's rate agrees with the exported one for a positive population;
   * for a zero population the chart draws 0 where the export writes NULL.
   */
  lemma ClientRateAgreesWithExport(deaths: int, population: Option<int>)
    ensures population.Some? && population.value > 0 ==>
      Export.MortalityRate(deaths, population) == Some(ClientRate(deaths, population))
    ensures population == Some(0) ==>
      Export.MortalityRate(deaths, population).None? && ClientRate(deaths, population) == 0.0
  {
  }

  // ------------------------------------------------------------ block ids

  /** dashboard.php's `$country_id_safe`: `c_` and the country code without its non-alphanumeric characters. */
  function CountryIdSafe(code: string): (id: string)
    ensures |id| >= 2 && id[..2] == "c_"
    ensures forall i :: 2 <= i < |id| ==> IsAsciiAlnum(id[i])
    ensures |id| <= |code| + 2
  {
    "c_" + FilterChars(code, IsAsciiAlnum)
  }

  /** An alphanumeric country code is kept whole. */
  lemma CountryIdOfAlnum(code: string)
    requires forall i :: 0 <= i < |code| ==> IsAsciiAlnum(code[i])
    ensures CountryIdSafe(code) == "c_" + code
  {
    FilterCharsAllKept(code, IsAsciiAlnum);
  }

  /** Sanitising the sanitised code changes nothing. */
  lemma CountryIdStable(code: string)
    ensures CountryIdSafe(CountryIdSafe(code)[2..]) == CountryIdSafe(code)
  {
    assert CountryIdSafe(code)[2..] == FilterChars(code, IsAsciiAlnum);
    FilterCharsIdempotent(code, IsAsciiAlnum);
  }
}
