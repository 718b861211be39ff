/**
 * The two input checks run before any target is resolved: the search
 * radius (`validate_radius`) and the survey name (`validate_survey`).
 */
module Validation {
  import opened Base
  import opened Text

  /** The largest accepted cone-search radius, in degrees. */
  const MaxRadius: real := 1.5

  /**
   * `isinstance(x, (int, float))`, with the value as a double. A YAML boolean
   * passes, because Python's `bool` is a subclass of `int`.
   */
  function Numeric(x: Scalar): (d: Option<Double>)
    ensures d.Some? <==> x.Int? || x.Flt? || x.Bool?
    ensures x.Int? ==> d == Some(Finite(x.i as real))
    ensures x.Flt? ==> d == Some(x.d)
    ensures x.Bool? ==> d == Some(Finite(if x.b then 1.0 else 0.0))
  {
    match x
    case Int(i) => Some(Finite(i as real))
    case Flt(d) => Some(d)
    case Bool(b) => Some(Finite(if b then 1.0 else 0.0))
    case _ => None
  }

  /** Python's `d <= c` for a double and a finite constant (false for NaN). */
  predicate AtMost(d: Double, c: real)
    ensures d.Finite? ==> (AtMost(d, c) <==> d.x <= c)
    ensures d == NaN ==> !AtMost(d, c)
  {
    match d
    case Finite(x) => x <= c
    case NegInf => true
    case _ => false
  }

  /** Python's `d > c` for a double and a finite constant (false for NaN). */
  predicate Above(d: Double, c: real)
    ensures d.Finite? ==> (Above(d, c) <==> d.x > c)
    ensures d == NaN ==> !Above(d, c)
  {
    match d
    case Finite(x) => x > c
    case PosInf => true
    case _ => false
  }

  /** The accepted radii: `0 < r <= 1.5` degrees. */
  predicate InRadiusRange(d: Double) {
    d.Finite? && 0.0 < d.x <= MaxRadius
  }

  /**
   * `validate_radius` as written: a range error is raised when
   * `radius <= 0 or radius > 1.5`, which leaves NaN (for which both
   * comparisons are false) accepted.
   */
  function ValidateRadiusAsWritten(x: Scalar): (r: Result<Scalar>)
    ensures r.Ok? ==> r.value == x
    ensures r.Ok? <==> Numeric(x).Some? && (InRadiusRange(Numeric(x).value) || Numeric(x).value == NaN)
    ensures Numeric(x).None? ==> r == Err(Error(TypeError, RadiusNotNumber))
  {
    match Numeric(x)
    case None => Err(Error(TypeError, RadiusNotNumber))
    case Some(d) =>
      if AtMost(d, 0.0) || Above(d, MaxRadius) then Err(Error(ValueError, RadiusOutOfRange))
      else Ok(x)
  }

  /**
   * `validate_radius` with its evident intent: a non-number raises the type
   * error before any range check; a number is returned unchanged exactly
   * when `0 < r <= 1.5`, and raises the range error otherwise.
   */
  function ValidateRadius(x: Scalar): (r: Result<Scalar>)
    ensures r.Ok? <==> Numeric(x).Some? && InRadiusRange(Numeric(x).value)
    ensures r.Ok? ==> r.value == x
    ensures r.Err? ==> r.error == if Numeric(x).None? then Error(TypeError, RadiusNotNumber)
                                  else Error(ValueError, RadiusOutOfRange)
  {
    match Numeric(x)
    case None => Err(Error(TypeError, RadiusNotNumber))
    case Some(d) =>
      if !AtMost(d, 0.0) && !Above(d, MaxRadius) && d != NaN then Ok(x)
      else Err(Error(ValueError, RadiusOutOfRange))
  }

  /** The written check and the intended one differ on NaN, and only there. */
  lemma RadiusCheckDiffersOnlyOnNaN(x: Scalar)
    ensures x != Flt(NaN) ==> ValidateRadiusAsWritten(x) == ValidateRadius(x)
    ensures ValidateRadiusAsWritten(Flt(NaN)) == Ok(Flt(NaN))
    ensures ValidateRadius(Flt(NaN)) == Err(Error(ValueError, RadiusOutOfRange))
  {
  }

  /** The boundary values of the radius check. */
  lemma RadiusBoundaries()
    ensures ValidateRadius(Flt(Finite(0.0))).Err?
    ensures ValidateRadius(Flt(Finite(1.5))) == Ok(Flt(Finite(1.5)))
    ensures ValidateRadius(Flt(Finite(1.5000001))).Err?
    ensures ValidateRadius(Int(1)) == Ok(Int(1)) && ValidateRadius(Int(2)).Err?
    ensures ValidateRadius(Str("0.5")) == Err(Error(TypeError, RadiusNotNumber))
  {
  }

  /** `data_full_name.split('.')[0]`: the schema part of `schema.table`. */
  function SchemaPrefix(fullName: string): (p: string)
    ensures '.' !in p
    ensures |p| <= |fullName| && p == fullName[..|p|]
    ensures |p| == |fullName| || fullName[|p|] == '.'
  {
    Split(fullName, '.')[0]
  }

  /** The schema part of `schema + "." + table` is `schema` when it has no dot. */
  lemma SchemaPrefixOfQualified(schema: string, table: string)
    requires '.' !in schema
    ensures SchemaPrefix(schema + "." + table) == schema
  {
    var full := schema + "." + table;
    var p := SchemaPrefix(full);
    assert full[|schema|] == '.';
    assert forall j :: 0 <= j < |schema| ==> full[j] == schema[j] && full[j] != '.';
    assert |p| <= |schema| by {
      assert forall j :: 0 <= j < |p| ==> p[j] == full[j];
    }
  }

  /**
   * `validate_survey`: the schema part must be in the local allow-list and
   * the full name must be among the table names the service lists for that
   * schema; otherwise the run stops through `sys.exit()`. The service's
   * answer is the parameter `listing`.
   */
  function ValidateSurvey(fullName: string, available: seq<string>, listing: string -> seq<string>): (r: Result<()>)
    ensures var schema := SchemaPrefix(fullName);
            r.Ok? <==> schema in available && fullName in listing(schema)
    ensures r.Err? ==> r.error == Error(SystemExit, SurveyNotAvailable)
  {
    var schema := SchemaPrefix(fullName);
    var check1 := schema in available;
    var check2 := fullName in listing(schema);
    if !check1 || !check2 then Err(Error(SystemExit, SurveyNotAvailable)) else Ok(())
  }

  /**
   * For a dot-free schema name, `schema.table` is accepted exactly when the
   * schema is allowed and the service lists `schema.table` under it.
   */
  lemma SurveyAccepted(schema: string, table: string, available: seq<string>, listing: string -> seq<string>)
    requires '.' !in schema
    ensures var full := schema + "." + table;
            ValidateSurvey(full, available, listing).Ok?
            <==> schema in available && full in listing(schema)
    ensures var full := schema + "." + table;
            ValidateSurvey(full, available, listing).Err?
            ==> ValidateSurvey(full, available, listing) == Err(Error(SystemExit, SurveyNotAvailable))
  {
    SchemaPrefixOfQualified(schema, table);
  }
}
