/**
 * Cause-code parsing, repeated in get_data.php, get_stats.php and
 * export.php: each requested `list::cause` string that `explode('::', …)`
 * cuts into exactly two parts becomes the predicate
 * `TRIM(M.List) = list AND TRIM(M.Cause) = cause` (both parts PHP-trimmed);
 * the kept predicates are OR-ed together and every other string is dropped.
 */
module CauseFilter {
  import opened Wrappers
  import opened Strings
  import opened Facts

  datatype CausePair = CausePair(list: string, cause: string)

  /** One requested code, or `None` when it does not cut into exactly two parts. */
  function ParseCause(code: string): Option<CausePair> {
    var parts := Explode(code, "::");
    if |parts| == 2 then Some(CausePair(PhpTrim(parts[0]), PhpTrim(parts[1]))) else None
  }

  /** The pairs kept from the request, in request order. */
  function Kept(codes: seq<string>): (pairs: seq<CausePair>)
    ensures |pairs| <= |codes|
  {
    SomesOf(codes, ParseCause)
  }

  /** A pair is kept exactly when some requested code parses to it. */
  lemma KeptMembers(codes: seq<string>, p: CausePair)
    ensures p in Kept(codes) <==> exists i :: 0 <= i < |codes| && ParseCause(codes[i]) == Some(p)
  {
    SomesOfMembers(codes, ParseCause, p);
  }

  /** Nothing is kept when no code parses. */
  lemma KeptNone(codes: seq<string>)
    requires forall i :: 0 <= i < |codes| ==> ParseCause(codes[i]).None?
    ensures Kept(codes) == []
  {
    SomesOfNone(codes, ParseCause);
  }

  /** The `WHERE` predicate the kept pairs stand for. */
  predicate Matches(pairs: seq<CausePair>, r: MortalityRow) {
    exists i :: 0 <= i < |pairs| && SqlTrim(r.list) == pairs[i].list && SqlTrim(r.cause) == pairs[i].cause
  }

  /** One kept pair selects exactly the rows that trim to it. */
  lemma MatchesOne(p: CausePair)
    ensures forall r :: Matches([p], r) <==> CauseKeyOf(r) == p
  {
    forall r ensures Matches([p], r) <==> CauseKeyOf(r) == p {
      var k := CauseKeyOf(r);
      assert k.list == SqlTrim(r.list) && k.cause == SqlTrim(r.cause);
      assert [p][0] == p;
      if Matches([p], r) {
        var i :| 0 <= i < 1 && SqlTrim(r.list) == [p][i].list && SqlTrim(r.cause) == [p][i].cause;
        assert i == 0;
      }
    }
  }

  /** The trimmed (list, cause) pair of a row: `GROUP BY TRIM(M.List), TRIM(M.Cause)`. */
  function CauseKeyOf(r: MortalityRow): CausePair {
    CausePair(SqlTrim(r.list), SqlTrim(r.cause))
  }

  /** The text of one condition: two placeholders, bound to the list and the cause. */
  const Condition: string := ConditionHead + "?" + ConditionMiddle + "?" + ")"
  const ConditionHead: string := "(TRIM(M.List) = "
  const ConditionMiddle: string := " AND TRIM(M.Cause) = "

  /** The parameters bound to the conditions, two per pair. */
  function Params(pairs: seq<CausePair>): (ps: seq<string>)
    ensures |ps| == 2 * |pairs|
    decreases |pairs|
  {
    if |pairs| == 0 then [] else [pairs[0].list, pairs[0].cause] + Params(pairs[1..])
  }

  /** Pair `i` binds parameters `2i` (its list) and `2i + 1` (its cause). */
  lemma {:induction false} ParamsAt(pairs: seq<CausePair>, i: nat)
    requires i < |pairs|
    ensures Params(pairs)[2 * i] == pairs[i].list && Params(pairs)[2 * i + 1] == pairs[i].cause
    decreases i
  {
    if i > 0 {
      ParamsAt(pairs[1..], i - 1);
      assert Params(pairs) == [pairs[0].list, pairs[0].cause] + Params(pairs[1..]);
    }
  }

  /** The `foreach` over the requested codes that collects conditions and parameters. */
  method BuildCauseFilter(codes: seq<string>) returns (conditions: seq<string>, params: seq<string>)
    ensures conditions == Repeat(Condition, |Kept(codes)|)
    ensures params == Params(Kept(codes))
  {
    conditions, params := [], [];
    ghost var kept: seq<CausePair> := [];
    for i := 0 to |codes|
      invariant kept == Kept(codes[..i])
      invariant conditions == Repeat(Condition, |kept|)
      invariant params == Params(kept)
    {
      var parts := Explode(codes[i], "::");
      SomesOfStep(codes, ParseCause, i);
      if |parts| == 2 {
        var p := CausePair(PhpTrim(parts[0]), PhpTrim(parts[1]));
        ParamsSnoc(kept, p);
        conditions := conditions + [Condition];
        params := params + [p.list, p.cause];
        kept := kept + [p];
      }
    }
    assert codes[..|codes|] == codes;
  }

  lemma {:induction false} ParamsSnoc(pairs: seq<CausePair>, p: CausePair)
    ensures Params(pairs + [p]) == Params(pairs) + [p.list, p.cause]
    decreases |pairs|
  {
    if |pairs| == 0 {
      assert [p][1..] == [];
    } else {
      assert (pairs + [p])[1..] == pairs[1..] + [p];
      ParamsSnoc(pairs[1..], p);
    }
  }

  /** `" AND (" . implode(' OR ', $conditions) . ") "`. */
  function CauseClause(conditions: seq<string>): string {
    " AND (" + Join(conditions, " OR ") + ") "
  }

  lemma OccurrencesFive(a: string, b: string, c: string, d: string, e: string, x: char)
    ensures Occurrences(a + b + c + d + e, x)
      == Occurrences(a, x) + Occurrences(b, x) + Occurrences(c, x) + Occurrences(d, x) + Occurrences(e, x)
  {
    OccurrencesAppend(a, b, x);
    OccurrencesAppend(a + b, c, x);
    OccurrencesAppend(a + b + c, d, x);
    OccurrencesAppend(a + b + c + d, e, x);
  }

  lemma NoOccurrence(s: string, x: char)
    requires x !in s
    ensures Occurrences(s, x) == 0
  {
  }

  /** Any text of the condition's shape holds exactly its two placeholders. */
  lemma ConditionShapeCount(head: string, middle: string)
    requires '?' !in head && '?' !in middle
    ensures Occurrences(head + "?" + middle + "?" + ")", '?') == 2
  {
    NoOccurrence(head, '?');
    NoOccurrence(middle, '?');
    OccurrencesFive(head, "?", middle, "?", ")", '?');
  }

  /** One condition holds two placeholders. */
  lemma ConditionCount()
    ensures Occurrences(Condition, '?') == 2
  {
    ConditionShapeCount(ConditionHead, ConditionMiddle);
  }

  lemma {:induction false} JoinConditionsCount(conds: seq<string>)
    requires forall i :: 0 <= i < |conds| ==> conds[i] == Condition
    ensures Occurrences(Join(conds, " OR "), '?') == 2 * |conds|
    decreases |conds|
  {
    ConditionCount();
    if |conds| > 1 {
      var rest := Join(conds[1..], " OR ");
      JoinConditionsCount(conds[1..]);
      OccurrencesAppend(Condition, " OR ", '?');
      OccurrencesAppend(Condition + " OR ", rest, '?');
    }
  }

  /** The clause carries exactly one placeholder per bound parameter. */
  lemma CauseClauseArity(codes: seq<string>, conditions: seq<string>, params: seq<string>)
    requires conditions == Repeat(Condition, |Kept(codes)|)
    requires params == Params(Kept(codes))
    ensures Occurrences(CauseClause(conditions), '?') == |params|
  {
    JoinConditionsCount(conditions);
    var body := Join(conditions, " OR ");
    assert CauseClause(conditions) == " AND (" + body + ") ";
    OccurrencesInside(" AND (", body, ") ", '?');
  }

  // --------------------------------------------------- what parses to what

  /** A well-formed `list::cause` code parses to its two trimmed halves. */
  lemma ParseWellFormed(l: string, c: string)
    requires ':' !in l && ':' !in c
    ensures ParseCause(l + "::" + c) == Some(CausePair(PhpTrim(l), PhpTrim(c)))
  {
    ExplodeTwo(l, "::", c);
  }

  /** A code without `::` is dropped. */
  lemma ParseNoSeparator(code: string)
    requires !Contains(code, "::")
    ensures ParseCause(code) == None
  {
    ExplodeNoSeparator(code, "::");
  }

  /** A code with two separators is dropped. */
  lemma ParseThreeParts(a: string, b: string, c: string)
    requires ':' !in a && ':' !in b && ':' !in c
    ensures ParseCause(a + "::" + b + "::" + c) == None
  {
    ExplodeThree(a, "::", b, c);
  }

  /** Blank halves are not rejected: a code such as `" :: "` is kept, as the pair of empty codes. */
  lemma ParseKeepsBlankHalves(l: string, c: string)
    requires ':' !in l && ':' !in c
    requires PhpTrim(l) == "" && PhpTrim(c) == ""
    ensures ParseCause(l + "::" + c) == Some(CausePair("", ""))
  {
    ParseWellFormed(l, c);
  }
}
