/**
 * The request handling written out identically in get_data.php,
 * get_stats.php and export.php: the JSON body's `country` and `causes`
 * (absent values read as '' and []), the `empty()` guard, and the
 * resolution of a request into a query, with the two exceptions it raises
 * in code order: an unknown scope first, then no valid cause.
 */
module Requests {
  import opened Wrappers
  import opened Strings
  import opened Facts
  import opened Scope
  import opened CauseFilter
  import opened Aggregation

  datatype Request = Request(country: string, causes: seq<string>)

  /** PHP's `empty()` on a string: true for "" and for "0". */
  predicate EmptyString(s: string) {
    s == "" || s == "0"
  }

  /** The guard every endpoint applies before any query. */
  predicate MissingInput(req: Request) {
    EmptyString(req.country) || |req.causes| == 0
  }

  /** The message get_data.php and get_stats.php answer a missing input with. */
  const MissingMessage: string := "Falta el país o la lista de causas."

  function NotFoundMessage(name: string): string {
    "País o Región '" + name + "' no encontrado."
  }

  const NoValidCausesMessage: string := "No se proporcionaron causas válidas."

  /** Scope resolution, then cause parsing; the `Err` is the message of the exception thrown. */
  function Prepare(env: Env, db: Database, req: Request): (r: Result<Query, string>)
    ensures Resolve(env, db.countries, req.country).None? ==> r == Err(NotFoundMessage(req.country))
    ensures Resolve(env, db.countries, req.country).Some? && |Kept(req.causes)| == 0 ==> r == Err(NoValidCausesMessage)
    ensures r.Ok? <==> Resolve(env, db.countries, req.country).Some? && |Kept(req.causes)| > 0
    ensures r.Ok? ==> r.value == Query(Resolve(env, db.countries, req.country).value, Kept(req.causes))
  {
    match Resolve(env, db.countries, req.country)
    case None => Err(NotFoundMessage(req.country))
    case Some(scope) =>
      var pairs := Kept(req.causes);
      if |pairs| == 0 then Err(NoValidCausesMessage) else Ok(Query(scope, pairs))
  }

  /** No kept code: every code was cut into other than two parts. */
  lemma NoSeparatorNothingKept(codes: seq<string>)
    requires forall i :: 0 <= i < |codes| ==> !Contains(codes[i], "::")
    ensures |Kept(codes)| == 0
  {
    forall i | 0 <= i < |codes| ensures ParseCause(codes[i]).None? {
      ParseNoSeparator(codes[i]);
    }
    KeptNone(codes);
  }

  /**
   * A non-empty cause list none of whose codes holds `::` is still rejected,
   * once the scope is known; an unknown scope is reported first, whatever
   * the causes.
   */
  lemma PrepareRejectsMalformed(env: Env, db: Database, req: Request)
    requires forall i :: 0 <= i < |req.causes| ==> !Contains(req.causes[i], "::")
    ensures Prepare(env, db, req) ==
      if Resolve(env, db.countries, req.country).None? then Err(NotFoundMessage(req.country))
      else Err(NoValidCausesMessage)
  {
    NoSeparatorNothingKept(req.causes);
  }

  /** A well-formed code is kept, so a request holding one resolves whenever its scope does. */
  lemma PrepareAcceptsWellFormed(env: Env, db: Database, req: Request, i: nat, l: string, c: string)
    requires i < |req.causes| && req.causes[i] == l + "::" + c
    requires ':' !in l && ':' !in c
    requires Resolve(env, db.countries, req.country).Some?
    ensures Prepare(env, db, req).Ok?
    ensures CausePair(PhpTrim(l), PhpTrim(c)) in Prepare(env, db, req).value.pairs
  {
    ParseWellFormed(l, c);
    KeptMembers(req.causes, CausePair(PhpTrim(l), PhpTrim(c)));
  }
}
