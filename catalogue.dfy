/**
 * The cause catalogue of get_causes.php (every country) and
 * get_causes_by_country.php (one scope): the distinct trimmed (list, cause)
 * pairs of the usable mortality rows, in (list, cause) order, each with its
 * year span, and in get_causes.php its number of countries; then each pair
 * enriched with the description the `who_mortality_causes` table holds for
 * its cause code, or a default.
 */
module Catalogue {
  import opened Wrappers
  import opened Collections
  import opened Strings
  import opened Numbers
  import opened Sorting
  import opened Facts
  import opened Grouping
  import opened Scope
  import opened CauseFilter
  import opened Requests

  // ------------------------------------------------------------ the query

  /**
   * `TRIM(M.List) != '' AND TRIM(M.Cause) != '' AND LENGTH(TRIM(M.Cause)) <= 4`,
   * where `LENGTH` counts the bytes of the UTF-8 text, not its characters.
   */
  predicate Listable(r: MortalityRow) {
    SqlTrim(r.list) != "" && SqlTrim(r.cause) != "" && Utf8Length(SqlTrim(r.cause)) <= 4
  }

  /** A cause of three characters but five bytes, such as `ÑÑ1`, is not listed. */
  lemma MultibyteCauseDropped(r: MortalityRow)
    requires SqlTrim(r.list) != "" && SqlTrim(r.cause) == "ÑÑ1"
    ensures |SqlTrim(r.cause)| == 3 && !Listable(r)
  {
    var c := SqlTrim(r.cause);
    assert c[..2][..1] == "Ñ" && c[..1] == "Ñ" && c[..2] == "ÑÑ";
    assert Utf8Length("Ñ") == 2 by { assert "Ñ"[..0] == ""; }
    assert Utf8Length(c) == 5;
  }

  /** An ASCII cause code is listed exactly when it has one to four characters. */
  lemma AsciiCauseListable(r: MortalityRow)
    requires forall i :: 0 <= i < |SqlTrim(r.cause)| ==> SqlTrim(r.cause)[i] as int < 0x80
    ensures Listable(r) <==> SqlTrim(r.list) != "" && 0 < |SqlTrim(r.cause)| <= 4
  {
    AsciiUtf8Length(SqlTrim(r.cause));
  }

  predicate InCatalogue(scope: ScopeFilter, r: MortalityRow) {
    Listable(r) && InScope(scope, r.country)
  }

  /** The rows the catalogue query reads, in storage order. */
  function CatalogueRows(ms: seq<MortalityRow>, scope: ScopeFilter): (rs: seq<MortalityRow>)
    ensures forall r :: r in rs <==> r in ms && InCatalogue(scope, r)
    decreases |ms|
  {
    if |ms| == 0 then []
    else (if InCatalogue(scope, ms[0]) then [ms[0]] else []) + CatalogueRows(ms[1..], scope)
  }

  /** One `COUNT(*)` item per row, under the row's trimmed pair. */
  function CountItems(rs: seq<MortalityRow>): (es: seq<Entry<CausePair>>)
    ensures |es| == |rs|
    ensures forall i :: 0 <= i < |rs| ==> es[i] == Entry(CauseKeyOf(rs[i]), 1)
  {
    seq(|rs|, i requires 0 <= i < |rs| => Entry(CauseKeyOf(rs[i]), 1))
  }

  lemma CountItemsKeys(rs: seq<MortalityRow>, k: CausePair)
    ensures HasKey(CountItems(rs), k) <==> exists r :: r in rs && CauseKeyOf(r) == k
  {
    var es := CountItems(rs);
    if HasKey(es, k) {
      var i :| 0 <= i < |es| && es[i].key == k;
      assert rs[i] in rs;
    }
    if exists r :: r in rs && CauseKeyOf(r) == k {
      var r :| r in rs && CauseKeyOf(r) == k;
      var i :| 0 <= i < |rs| && rs[i] == r;
      assert es[i].key == k;
    }
  }

  /** `ORDER BY list_code, cause_code`, strictly. */
  predicate PairLt(a: CausePair, b: CausePair) {
    StrLt(a.list, b.list) || (a.list == b.list && StrLt(a.cause, b.cause))
  }

  predicate PairLe(a: Entry<CausePair>, b: Entry<CausePair>) {
    PairLt(a.key, b.key) || a.key == b.key
  }

  lemma PairLtTransitive(a: CausePair, b: CausePair, c: CausePair)
    requires PairLt(a, b) && PairLt(b, c)
    ensures PairLt(a, c)
  {
    if StrLt(a.list, b.list) && StrLt(b.list, c.list) {
      StrLtTransitive(a.list, b.list, c.list);
    }
    if a.list == b.list && b.list == c.list {
      StrLtIrreflexive(a.list);
      StrLtTransitive(a.cause, b.cause, c.cause);
    }
  }

  lemma PairLtTotal(a: CausePair, b: CausePair)
    requires a != b
    ensures PairLt(a, b) || PairLt(b, a)
  {
    if a.list != b.list {
      StrLtTotal(a.list, b.list);
    } else {
      StrLtTotal(a.cause, b.cause);
    }
  }

  lemma PairLeTotal()
    ensures TotalPreorder(PairLe)
  {
    forall a, b ensures PairLe(a, b) || PairLe(b, a) {
      if a.key != b.key { PairLtTotal(a.key, b.key); }
    }
    forall a, b, c | PairLe(a, b) && PairLe(b, c) ensures PairLe(a, c) {
      if PairLt(a.key, b.key) && PairLt(b.key, c.key) { PairLtTransitive(a.key, b.key, c.key); }
    }
  }

  /** Sorting distinct keys under `PairLe` orders them strictly. */
  lemma SortedDistinctStrict(s: seq<Entry<CausePair>>)
    requires SortedBy(s, PairLe) && DistinctKeys(s)
    ensures forall i, j :: 0 <= i < j < |s| ==> PairLt(s[i].key, s[j].key)
  {
    forall i, j | 0 <= i < j < |s| ensures PairLt(s[i].key, s[j].key) {
      assert PairLe(s[i], s[j]);
    }
  }

  /** The distinct pairs with their row counts, in (list, cause) order. */
  function PairCounts(rs: seq<MortalityRow>): (s: seq<Entry<CausePair>>)
    ensures forall i, j :: 0 <= i < j < |s| ==> PairLt(s[i].key, s[j].key)
    ensures multiset(s) == multiset(GroupAll(CountItems(rs)))
  {
    PairLeTotal();
    var g := GroupAll(CountItems(rs));
    var s := SortBy(g, PairLe);
    DistinctKeysPermutation(g, s);
    SortedDistinctStrict(s);
    s
  }

  /** Whether a row trims to pair `k`. */
  function OfPair(k: CausePair): MortalityRow -> bool {
    r => CauseKeyOf(r) == k
  }

  /** The rows of one pair, in row order. */
  function RowsOfPair(rs: seq<MortalityRow>, k: CausePair): (ps: seq<MortalityRow>)
    ensures forall r :: r in ps <==> r in rs && CauseKeyOf(r) == k
  {
    Filter(rs, OfPair(k))
  }

  function YearsOf(ps: seq<MortalityRow>): (ys: seq<int>)
    ensures |ys| == |ps| && forall i :: 0 <= i < |ps| ==> ys[i] == ps[i].year
  {
    seq(|ps|, i requires 0 <= i < |ps| => ps[i].year)
  }

  /** `M.Country` over the rows of one pair: what `COUNT(DISTINCT M.Country)` counts. */
  function CountriesOf(ps: seq<MortalityRow>): (cs: set<string>)
    ensures forall r :: r in ps ==> r.country in cs
    ensures forall c :: c in cs ==> exists r :: r in ps && r.country == c
  {
    set r | r in ps :: r.country
  }

  lemma YearsOfMembers(ps: seq<MortalityRow>, y: int)
    ensures y in YearsOf(ps) <==> exists r :: r in ps && r.year == y
  {
    var ys := YearsOf(ps);
    if y in ys {
      var i :| 0 <= i < |ys| && ys[i] == y;
      assert ps[i] in ps;
    }
    if exists r :: r in ps && r.year == y {
      var r :| r in ps && r.year == y;
      var i :| 0 <= i < |ps| && ps[i] == r;
      assert ys[i] == y;
    }
  }

  predicate PairPresent(rs: seq<MortalityRow>, k: CausePair) {
    exists r :: r in rs && CauseKeyOf(r) == k
  }

  /** One row of the catalogue query. */
  datatype CatalogueGroup = CatalogueGroup(
    list: string, cause: string,
    numCountries: nat, firstYear: int, lastYear: int, numRecords: int)

  function GroupOf(rs: seq<MortalityRow>, e: Entry<CausePair>): (g: CatalogueGroup)
    requires PairPresent(rs, e.key)
    ensures g.list == e.key.list && g.cause == e.key.cause && g.numRecords == e.amount
  {
    var ps := RowsOfPair(rs, e.key);
    var r :| r in rs && CauseKeyOf(r) == e.key;
    assert r in ps;
    var ys := YearsOf(ps);
    CatalogueGroup(e.key.list, e.key.cause, |CountriesOf(ps)|, MinOf(ys), MaxOf(ys), e.amount)
  }

  function GroupsOf(rs: seq<MortalityRow>, es: seq<Entry<CausePair>>): (gs: seq<CatalogueGroup>)
    requires forall i :: 0 <= i < |es| ==> PairPresent(rs, es[i].key)
    ensures |gs| == |es| && forall i :: 0 <= i < |es| ==> gs[i] == GroupOf(rs, es[i])
  {
    seq(|es|, i requires 0 <= i < |es| => GroupOf(rs, es[i]))
  }

  /** Every counted pair comes from some row. */
  lemma PairCountsPresent(rs: seq<MortalityRow>, i: nat)
    requires i < |PairCounts(rs)|
    ensures PairPresent(rs, PairCounts(rs)[i].key)
  {
    var s := PairCounts(rs);
    PermutationHasKey(s, GroupAll(CountItems(rs)), s[i]);
    CountItemsKeys(rs, s[i].key);
  }

  /** The catalogue query of a scope; get_causes.php uses the global scope. */
  function Catalogue(ms: seq<MortalityRow>, scope: ScopeFilter): seq<CatalogueGroup> {
    var rs := CatalogueRows(ms, scope);
    var s := PairCounts(rs);
    assert forall i :: 0 <= i < |s| ==> PairPresent(rs, s[i].key) by {
      forall i | 0 <= i < |s| ensures PairPresent(rs, s[i].key) {
        PairCountsPresent(rs, i);
      }
    }
    GroupsOf(rs, s)
  }

  function PairOfGroup(g: CatalogueGroup): CausePair {
    CausePair(g.list, g.cause)
  }

  /** The catalogue is ordered by list code, then cause code, with no pair twice. */
  lemma CatalogueOrdered(ms: seq<MortalityRow>, scope: ScopeFilter)
    ensures var c := Catalogue(ms, scope);
      forall i, j :: 0 <= i < j < |c| ==> PairLt(PairOfGroup(c[i]), PairOfGroup(c[j]))
  {
    var s := PairCounts(CatalogueRows(ms, scope));
    var c := Catalogue(ms, scope);
    CatalogueIsGroups(ms, scope);
    forall i, j | 0 <= i < j < |c| ensures PairLt(PairOfGroup(c[i]), PairOfGroup(c[j])) {
      assert PairOfGroup(c[i]) == s[i].key && PairOfGroup(c[j]) == s[j].key;
    }
  }

  predicate Listed(c: seq<CatalogueGroup>, k: CausePair) {
    exists i :: 0 <= i < |c| && PairOfGroup(c[i]) == k
  }

  /** The catalogue has the groups of `PairCounts`, one for one. */
  lemma CatalogueIsGroups(ms: seq<MortalityRow>, scope: ScopeFilter)
    ensures var rs := CatalogueRows(ms, scope);
      && |Catalogue(ms, scope)| == |PairCounts(rs)|
      && forall i :: 0 <= i < |PairCounts(rs)| ==> PairOfGroup(Catalogue(ms, scope)[i]) == PairCounts(rs)[i].key
  {
  }

  /** A pair is counted exactly when some row trims to it. */
  lemma PairCountsKeys(rs: seq<MortalityRow>, k: CausePair)
    ensures HasKey(PairCounts(rs), k) <==> PairPresent(rs, k)
  {
    PermutationKeys(PairCounts(rs), GroupAll(CountItems(rs)), k);
    CountItemsKeys(rs, k);
  }

  /** A pair is in the catalogue exactly when some row in scope passes the filter and trims to it. */
  lemma CatalogueComplete(ms: seq<MortalityRow>, scope: ScopeFilter, k: CausePair)
    ensures Listed(Catalogue(ms, scope), k) <==> exists r :: r in ms && InCatalogue(scope, r) && CauseKeyOf(r) == k
  {
    var rs := CatalogueRows(ms, scope);
    var c := Catalogue(ms, scope);
    var s := PairCounts(rs);
    CatalogueIsGroups(ms, scope);
    PairCountsKeys(rs, k);
    if Listed(c, k) {
      var i :| 0 <= i < |c| && PairOfGroup(c[i]) == k;
      assert s[i].key == k;
    }
    if HasKey(s, k) {
      var i :| 0 <= i < |s| && s[i].key == k;
      assert PairOfGroup(c[i]) == k;
    }
  }

  lemma {:induction false} CountRowsOfPair(rs: seq<MortalityRow>, k: CausePair)
    ensures SumWhere(CountItems(rs), Is(k)) == |RowsOfPair(rs, k)|
    decreases |rs|
  {
    if |rs| > 0 {
      assert CountItems(rs)[1..] == CountItems(rs[1..]);
      CountRowsOfPair(rs[1..], k);
    }
  }

  /** A counted pair's amount is the number of its rows. */
  lemma PairCountsAmount(rs: seq<MortalityRow>, i: nat)
    requires i < |PairCounts(rs)|
    ensures PairCounts(rs)[i].amount == |RowsOfPair(rs, PairCounts(rs)[i].key)|
  {
    ReorderedGroupAmount(CountItems(rs), PairCounts(rs), i);
    CountRowsOfPair(rs, PairCounts(rs)[i].key);
  }

  /** `MIN(M.Year)` and `MAX(M.Year)`: both attained by some row, and bounding every row. */
  predicate YearSpan(first: int, last: int, ps: seq<MortalityRow>) {
    && (exists r :: r in ps && r.year == first)
    && (exists r :: r in ps && r.year == last)
    && (forall r :: r in ps ==> first <= r.year <= last)
  }

  /** A group's year span and country count, from the rows of its pair. */
  lemma GroupOfSpec(rs: seq<MortalityRow>, e: Entry<CausePair>)
    requires PairPresent(rs, e.key)
    ensures YearSpan(GroupOf(rs, e).firstYear, GroupOf(rs, e).lastYear, RowsOfPair(rs, e.key))
    ensures GroupOf(rs, e).numCountries == |CountriesOf(RowsOfPair(rs, e.key))|
  {
    var g, ps := GroupOf(rs, e), RowsOfPair(rs, e.key);
    YearsOfMembers(ps, g.firstYear);
    YearsOfMembers(ps, g.lastYear);
    forall r | r in ps ensures g.firstYear <= r.year <= g.lastYear {
      YearsOfMembers(ps, r.year);
    }
  }

  /** The `i`-th catalogue group is the group of the `i`-th counted pair. */
  lemma CatalogueAt(ms: seq<MortalityRow>, scope: ScopeFilter, i: nat)
    requires i < |Catalogue(ms, scope)|
    ensures i < |PairCounts(CatalogueRows(ms, scope))|
    ensures PairPresent(CatalogueRows(ms, scope), PairCounts(CatalogueRows(ms, scope))[i].key)
    ensures Catalogue(ms, scope)[i] == GroupOf(CatalogueRows(ms, scope), PairCounts(CatalogueRows(ms, scope))[i])
  {
    PairCountsPresent(CatalogueRows(ms, scope), i);
  }

  /** Every catalogue group passes the filter. */
  lemma CatalogueFiltered(ms: seq<MortalityRow>, scope: ScopeFilter, i: nat)
    requires i < |Catalogue(ms, scope)|
    ensures var g := Catalogue(ms, scope)[i];
      g.list != "" && g.cause != "" && Utf8Length(g.cause) <= 4 && |g.cause| <= 4
  {
    var rs := CatalogueRows(ms, scope);
    CatalogueIsGroups(ms, scope);
    PairCountsPresent(rs, i);
    var r :| r in rs && CauseKeyOf(r) == PairCounts(rs)[i].key;
  }

  /**
   * Each group's years bound and are attained by the rows of its pair, its
   * country count is the number of distinct countries of those rows, and its
   * record count is their number.
   */
  lemma CatalogueGroupSpec(ms: seq<MortalityRow>, scope: ScopeFilter, i: nat)
    requires i < |Catalogue(ms, scope)|
    ensures YearSpan(Catalogue(ms, scope)[i].firstYear, Catalogue(ms, scope)[i].lastYear,
                     RowsOfPair(CatalogueRows(ms, scope), PairOfGroup(Catalogue(ms, scope)[i])))
    ensures Catalogue(ms, scope)[i].numCountries ==
            |CountriesOf(RowsOfPair(CatalogueRows(ms, scope), PairOfGroup(Catalogue(ms, scope)[i])))|
    ensures Catalogue(ms, scope)[i].numRecords ==
            |RowsOfPair(CatalogueRows(ms, scope), PairOfGroup(Catalogue(ms, scope)[i]))|
  {
    var rs := CatalogueRows(ms, scope);
    CatalogueAt(ms, scope, i);
    var e := PairCounts(rs)[i];
    assert PairOfGroup(Catalogue(ms, scope)[i]) == e.key;
    GroupOfSpec(rs, e);
    PairCountsAmount(rs, i);
  }

  // ------------------------------------------------------- descriptions

  datatype Description = Description(desc: string, rev: string)

  function DescriptionOf(d: DescriptionRow): Description {
    Description(SqlTrim(d.description), SqlTrim(d.revision))
  }

  /** The (trimmed short code, description) pairs of the description rows, in row order. */
  function DescriptionPairs(ds: seq<DescriptionRow>): (kvs: seq<(string, Description)>)
    ensures |kvs| == |ds|
    ensures forall i :: 0 <= i < |ds| ==> kvs[i] == (SqlTrim(ds[i].shortCode), DescriptionOf(ds[i]))
  {
    seq(|ds|, i requires 0 <= i < |ds| => (SqlTrim(ds[i].shortCode), DescriptionOf(ds[i])))
  }

  /** `$descriptions`: keyed by the trimmed short code, a later row overwriting an earlier one. */
  function DescriptionMap(ds: seq<DescriptionRow>): map<string, Description> {
    Overwrite(DescriptionPairs(ds))
  }

  /** The `foreach` filling `$descriptions`. */
  method BuildDescriptions(ds: seq<DescriptionRow>) returns (m: map<string, Description>)
    ensures m == DescriptionMap(ds)
  {
    ghost var kvs := DescriptionPairs(ds);
    m := map[];
    for i := 0 to |ds|
      invariant m == Overwrite(kvs[..i])
    {
      assert kvs[..i + 1][..i] == kvs[..i];
      m := m[SqlTrim(ds[i].shortCode) := DescriptionOf(ds[i])];
    }
    assert kvs[..|ds|] == kvs;
  }

  predicate HasCode(ds: seq<DescriptionRow>, code: string) {
    exists i :: 0 <= i < |ds| && SqlTrim(ds[i].shortCode) == code
  }

  /** A code has a description exactly when some row trims to it. */
  lemma DescriptionMapKeys(ds: seq<DescriptionRow>, code: string)
    ensures code in DescriptionMap(ds) <==> HasCode(ds, code)
  {
    var kvs := DescriptionPairs(ds);
    OverwriteKeys(kvs, code);
    if HasFirst(kvs, code) {
      var i :| 0 <= i < |kvs| && kvs[i].0 == code;
      assert SqlTrim(ds[i].shortCode) == code;
    }
    if HasCode(ds, code) {
      var i :| 0 <= i < |ds| && SqlTrim(ds[i].shortCode) == code;
      assert kvs[i].0 == code;
    }
  }

  /** The description of a code is that of the last row trimming to it: a later row overwrites an earlier one. */
  lemma DescriptionMapLastWins(ds: seq<DescriptionRow>, i: nat)
    requires i < |ds|
    requires forall j :: i < j < |ds| ==> SqlTrim(ds[j].shortCode) != SqlTrim(ds[i].shortCode)
    ensures SqlTrim(ds[i].shortCode) in DescriptionMap(ds)
    ensures DescriptionMap(ds)[SqlTrim(ds[i].shortCode)] == DescriptionOf(ds[i])
  {
    var kvs := DescriptionPairs(ds);
    assert forall j :: i < j < |kvs| ==> kvs[j].0 != kvs[i].0 by {
      forall j | i < j < |kvs| ensures kvs[j].0 != kvs[i].0 {
        assert kvs[j].0 == SqlTrim(ds[j].shortCode);
      }
    }
    OverwriteLastWins(kvs, i);
  }

  // --------------------------------------------------------- enrichment

  /** One entry of the answer: `code`, `rev`, `desc`, `list`. */
  datatype CatalogueEntry = CatalogueEntry(code: string, rev: string, desc: string, list: string)

  /** `" (first-last, N países)"` in get_causes.php, `" (first-last)"` in get_causes_by_country.php. */
  function SpanSuffix(g: CatalogueGroup, withCountries: bool): string {
    " (" + IntToString(g.firstYear) + "-" + IntToString(g.lastYear)
      + (if withCountries then ", " + NatToString(g.numCountries) + " países" else "") + ")"
  }

  /** What a cause code is described as when the table has no entry for it. */
  function DefaultDescription(cause: string): Description {
    Description("Causa " + cause, "Unknown")
  }

  /** The body of the enrichment `foreach` for one group. */
  function Enrich(descs: map<string, Description>, g: CatalogueGroup, withCountries: bool): (e: CatalogueEntry)
    ensures e.code == g.list + "::" + g.cause && e.list == g.list
    ensures g.cause in descs ==> e.rev == descs[g.cause].rev && e.desc == descs[g.cause].desc + SpanSuffix(g, withCountries)
    ensures g.cause !in descs ==> e.rev == "Unknown" && e.desc == "Causa " + g.cause + SpanSuffix(g, withCountries)
  {
    var d := if g.cause in descs then descs[g.cause] else DefaultDescription(g.cause);
    CatalogueEntry(g.list + "::" + g.cause, d.rev, d.desc + SpanSuffix(g, withCountries), g.list)
  }

  function EnrichedAll(descs: map<string, Description>, gs: seq<CatalogueGroup>, withCountries: bool): (es: seq<CatalogueEntry>)
    ensures |es| == |gs|
    ensures forall i :: 0 <= i < |gs| ==> es[i] == Enrich(descs, gs[i], withCountries)
  {
    seq(|gs|, i requires 0 <= i < |gs| => Enrich(descs, gs[i], withCountries))
  }

  /** The `foreach` appending to `$output_causes`. */
  method EnrichAll(descs: map<string, Description>, gs: seq<CatalogueGroup>, withCountries: bool)
    returns (out: seq<CatalogueEntry>)
    ensures out == EnrichedAll(descs, gs, withCountries)
  {
    out := [];
    for i := 0 to |gs|
      invariant |out| == i
      invariant forall k :: 0 <= k < i ==> out[k] == Enrich(descs, gs[k], withCountries)
    {
      out := out + [Enrich(descs, gs[i], withCountries)];
    }
  }

  /**
   * A catalogue code sent back to a data endpoint selects exactly its pair,
   * as long as neither code holds a `:` and neither has a PHP-trimmable end.
   */
  lemma EntryCodeRoundTrip(descs: map<string, Description>, g: CatalogueGroup, withCountries: bool)
    requires ':' !in g.list && ':' !in g.cause
    requires PhpTrim(g.list) == g.list && PhpTrim(g.cause) == g.cause
    ensures ParseCause(Enrich(descs, g, withCountries).code) == Some(CausePair(g.list, g.cause))
    ensures forall r :: Matches([CausePair(g.list, g.cause)], r) <==> CauseKeyOf(r) == CausePair(g.list, g.cause)
  {
    var code := Enrich(descs, g, withCountries).code;
    assert code == g.list + "::" + g.cause;
    ParseWellFormed(g.list, g.cause);
    MatchesOne(CausePair(g.list, g.cause));
  }

  // ---------------------------------------------------------- get_causes

  const NoCausesMessage: string := "No se encontraron causas en Mortalidad"

  datatype CausesResponse = CausesError(message: string) | CausesList(entries: seq<CatalogueEntry>)

  function GetCausesOf(db: Database): (r: CausesResponse)
    ensures r.CausesError? <==> |Catalogue(db.mortality, Global)| == 0
    ensures r.CausesError? ==> r.message == NoCausesMessage
    ensures r.CausesList? ==> r.entries == EnrichedAll(DescriptionMap(db.descriptions), Catalogue(db.mortality, Global), true)
  {
    var c := Catalogue(db.mortality, Global);
    if |c| == 0 then CausesError(NoCausesMessage)
    else CausesList(EnrichedAll(DescriptionMap(db.descriptions), c, true))
  }

  /** get_causes.php. */
  method GetCauses(db: Database) returns (r: CausesResponse)
    ensures r == GetCausesOf(db)
  {
    var c := Catalogue(db.mortality, Global);
    if |c| == 0 {
      return CausesError(NoCausesMessage);
    }
    var descs := BuildDescriptions(db.descriptions);
    var entries := EnrichAll(descs, c, true);
    r := CausesList(entries);
  }

  // ----------------------------------------------- get_causes_by_country

  const MissingCountryMessage: string := "Falta el parámetro country"

  function CountryNotFoundMessage(country: string): string {
    "Error: País '" + country + "' no encontrado."
  }

  function NoCausesForMessage(country: string): string {
    "No hay causas disponibles para '" + country + "'"
  }

  datatype CountryCausesResponse =
    | CountryError(message: string)
    | CountryCauses(country: string, causes: seq<CatalogueEntry>)

  function GetCausesByCountryOf(env: Env, db: Database, country: string): (r: CountryCausesResponse)
    ensures EmptyString(country) ==> r == CountryError(MissingCountryMessage)
    ensures !EmptyString(country) && Resolve(env, db.countries, country).None? ==>
      r == CountryError(CountryNotFoundMessage(country))
    ensures r.CountryCauses? <==>
      (!EmptyString(country) && Resolve(env, db.countries, country).Some?
       && |Catalogue(db.mortality, Resolve(env, db.countries, country).value)| > 0)
    ensures
      (!EmptyString(country) && Resolve(env, db.countries, country).Some?
       && |Catalogue(db.mortality, Resolve(env, db.countries, country).value)| == 0) ==>
      r == CountryError(NoCausesForMessage(country))
    ensures r.CountryCauses? ==>
      r.country == country
      && r.causes == EnrichedAll(DescriptionMap(db.descriptions), Catalogue(db.mortality, Resolve(env, db.countries, country).value), false)
  {
    if EmptyString(country) then CountryError(MissingCountryMessage)
    else
      match Resolve(env, db.countries, country)
      case None => CountryError(CountryNotFoundMessage(country))
      case Some(scope) =>
        var c := Catalogue(db.mortality, scope);
        if |c| == 0 then CountryError(NoCausesForMessage(country))
        else CountryCauses(country, EnrichedAll(DescriptionMap(db.descriptions), c, false))
  }

  /** get_causes_by_country.php. */
  method GetCausesByCountry(env: Env, db: Database, country: string) returns (r: CountryCausesResponse)
    ensures r == GetCausesByCountryOf(env, db, country)
  {
    if EmptyString(country) {
      return CountryError(MissingCountryMessage);
    }
    var scope := Resolve(env, db.countries, country);
    if scope.None? {
      return CountryError(CountryNotFoundMessage(country));
    }
    var c := Catalogue(db.mortality, scope.value);
    if |c| == 0 {
      return CountryError(NoCausesForMessage(country));
    }
    var descs := BuildDescriptions(db.descriptions);
    var entries := EnrichAll(descs, c, false);
    r := CountryCauses(country, entries);
  }

  /** A country scope only lists pairs that occur in rows of its countries. */
  lemma ScopedCatalogueInScope(ms: seq<MortalityRow>, codes: seq<string>, k: CausePair)
    requires Listed(Catalogue(ms, Countries(codes)), k)
    ensures exists r :: r in ms && SqlTrim(r.country) in codes && CauseKeyOf(r) == k
  {
    CatalogueComplete(ms, Countries(codes), k);
  }
}
