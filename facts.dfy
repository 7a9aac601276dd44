/**
 * The fact tables the v2 endpoints read, as sequences of rows in storage
 * order, with `Option` for SQL NULL; the collaborators the endpoints call
 * but whose code is not part of this model; and the wide-row sum
 * `COALESCE(Deaths1, 0) + … + COALESCE(Deaths26, 0)` (and the same over
 * `Pob1..Pob26`) that every aggregate query computes per row.
 */
module Facts {
  import opened Wrappers
  import opened Strings

  /** Age-group columns per row: `Deaths1..Deaths26` in Mortalidad, `Pob1..Pob26` in Poblacion. */
  const Partitions: nat := 26

  /** A row of `Mortalidad`; `deaths[i]` is column `Deaths<i+1>`. */
  datatype MortalityRow = MortalityRow(country: string, year: int, list: string, cause: string, deaths: seq<Option<int>>)

  /** A row of `Poblacion`; `pob[i]` is column `Pob<i+1>`. */
  datatype PopulationRow = PopulationRow(countryCode: string, year: int, sex: string, pob: seq<Option<int>>)

  /** A row of `uso_internet`: country code, `Año` and the text column `Valor %`. */
  datatype InternetRow = InternetRow(countryCode: string, year: int, value: Option<string>)

  /** A row of `Paises`. */
  datatype CountryRow = CountryRow(code: string, name: string)

  /** A row of `who_mortality_causes`, as the catalogue selects it. */
  datatype DescriptionRow = DescriptionRow(shortCode: string, description: string, revision: string)

  datatype Database = Database(
    mortality: seq<MortalityRow>,
    population: seq<PopulationRow>,
    internet: seq<InternetRow>,
    countries: seq<CountryRow>,
    descriptions: seq<DescriptionRow>)

  /**
   * What the endpoints obtain from code outside this model:
   * `get_country_codes_for_region` (regions.php, given the lowercased name,
   * `None` for a name that is not a region), and MySQL's
   * `CAST(… AS DECIMAL(10,2))` of a text value.
   */
  datatype Env = Env(regions: string -> Option<seq<string>>, toDecimal: string -> real)

  /** Every row carries exactly the 26 age-group cells the schema defines. */
  predicate WellFormed(db: Database) {
    (forall i :: 0 <= i < |db.mortality| ==> |db.mortality[i].deaths| == Partitions)
    && (forall i :: 0 <= i < |db.population| ==> |db.population[i].pob| == Partitions)
  }

  // ---------------------------------------------------------- wide-row sum

  /** `COALESCE(c1, 0) + … + COALESCE(cn, 0)` over one row's cells. */
  function CoalesceSum(cells: seq<Option<int>>): int
    decreases |cells|
  {
    if |cells| == 0 then 0 else cells[0].GetOr(0) + CoalesceSum(cells[1..])
  }

  /** The cells with NULL written as 0. */
  function ZeroFilled(cells: seq<Option<int>>): (r: seq<int>)
    ensures |r| == |cells|
    ensures forall i :: 0 <= i < |cells| ==> r[i] == (if cells[i].Some? then cells[i].value else 0)
  {
    seq(|cells|, i requires 0 <= i < |cells| => cells[i].GetOr(0))
  }

  function PlainSum(xs: seq<int>): int
    decreases |xs|
  {
    if |xs| == 0 then 0 else xs[0] + PlainSum(xs[1..])
  }

  /** The wide-row sum treats every NULL cell exactly as a 0. */
  lemma {:induction false} CoalesceSumIsZeroFilledSum(cells: seq<Option<int>>)
    ensures CoalesceSum(cells) == PlainSum(ZeroFilled(cells))
    decreases |cells|
  {
    if |cells| > 0 {
      CoalesceSumIsZeroFilledSum(cells[1..]);
      assert ZeroFilled(cells)[1..] == ZeroFilled(cells[1..]);
    }
  }

  /** A row whose cells are all NULL contributes 0, not NULL. */
  lemma {:induction false} CoalesceSumAllNull(cells: seq<Option<int>>)
    requires forall i :: 0 <= i < |cells| ==> cells[i].None?
    ensures CoalesceSum(cells) == 0
    decreases |cells|
  {
    if |cells| > 0 {
      CoalesceSumAllNull(cells[1..]);
    }
  }

  /** Non-negative counts give a non-negative row total. */
  lemma {:induction false} CoalesceSumNonNegative(cells: seq<Option<int>>)
    requires forall i :: 0 <= i < |cells| ==> cells[i].Some? ==> cells[i].value >= 0
    ensures CoalesceSum(cells) >= 0
    decreases |cells|
  {
    if |cells| > 0 {
      CoalesceSumNonNegative(cells[1..]);
    }
  }

  /** The sum splits over any partition of the columns. */
  lemma {:induction false} CoalesceSumAppend(a: seq<Option<int>>, b: seq<Option<int>>)
    ensures CoalesceSum(a + b) == CoalesceSum(a) + CoalesceSum(b)
    decreases |a|
  {
    if |a| == 0 {
      assert a + b == b;
    } else {
      assert (a + b)[1..] == a[1..] + b;
      CoalesceSumAppend(a[1..], b);
    }
  }

  /** A row's death total across the age groups. */
  function RowDeaths(r: MortalityRow): int { CoalesceSum(r.deaths) }

  /** A row's population total across the age groups. */
  function RowPopulation(r: PopulationRow): int { CoalesceSum(r.pob) }

  /** No death count of the row is negative. */
  predicate NonNegativeRow(r: MortalityRow) {
    forall j :: 0 <= j < |r.deaths| && r.deaths[j].Some? ==> r.deaths[j].value >= 0
  }

  /** No death count of the table is negative. */
  predicate NonNegativeDeaths(ms: seq<MortalityRow>) {
    forall i :: 0 <= i < |ms| ==> NonNegativeRow(ms[i])
  }

  lemma RowDeathsNonNegative(r: MortalityRow)
    requires NonNegativeRow(r)
    ensures RowDeaths(r) >= 0
  {
    CoalesceSumNonNegative(r.deaths);
  }

  /** The numeric value of a `Valor %` cell: comma replaced by a point, then cast; NULL stays NULL. */
  function InternetValue(env: Env, r: InternetRow): (v: Option<real>)
    ensures v.Some? <==> r.value.Some?
  {
    match r.value
    case None => None
    case Some(text) => Some(env.toDecimal(ReplaceAll(text, ",", ".")))
  }

  // ------------------------------------------------------ the SQL fragments

  /** One summand of the generated SQL: `COALESCE(<prefix><i>, 0)`. */
  function SumTerm(prefix: string, i: nat): string {
    "COALESCE(" + prefix + NatToString(i) + ", 0)"
  }

  /** Different columns give different summands, so no column is summed twice. */
  lemma SumTermInjective(prefix: string, i: nat, j: nat)
    requires SumTerm(prefix, i) == SumTerm(prefix, j)
    ensures i == j
  {
    var si, sj := NatToString(i), NatToString(j);
    var head := "COALESCE(" + prefix;
    assert SumTerm(prefix, i) == head + si + ", 0)";
    assert SumTerm(prefix, j) == head + sj + ", 0)";
    assert |si| == |sj|;
    assert si == SumTerm(prefix, i)[|head|..|head| + |si|];
    assert sj == SumTerm(prefix, j)[|head|..|head| + |sj|];
    NatToStringInjective(i, j);
  }

  /** Builds the 26 summands for columns `<prefix>1 .. <prefix>26`, in column order. */
  method SumTerms(prefix: string) returns (terms: seq<string>)
    ensures |terms| == Partitions
    ensures forall i :: 0 <= i < Partitions ==> terms[i] == SumTerm(prefix, i + 1)
  {
    terms := [];
    var i := 1;
    while i <= Partitions
      invariant 1 <= i <= Partitions + 1
      invariant |terms| == i - 1
      invariant forall k :: 0 <= k < i - 1 ==> terms[k] == SumTerm(prefix, k + 1)
    {
      terms := terms + [SumTerm(prefix, i)];
      i := i + 1;
    }
  }

  /** `SUM(t1 + … + tn)`. */
  function SumSql(terms: seq<string>): string {
    "SUM(" + Join(terms, " + ") + ")"
  }

  /** The generated summands name pairwise different columns. */
  lemma SumTermsDistinct(prefix: string, terms: seq<string>)
    requires |terms| == Partitions
    requires forall i :: 0 <= i < Partitions ==> terms[i] == SumTerm(prefix, i + 1)
    ensures forall i, j :: 0 <= i < j < |terms| ==> terms[i] != terms[j]
  {
    forall i, j | 0 <= i < j < |terms| ensures terms[i] != terms[j] {
      if terms[i] == terms[j] {
        SumTermInjective(prefix, i + 1, j + 1);
      }
    }
  }
}
