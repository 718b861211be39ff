/**
 * `main`: validate the survey, then the radius, resolve the target by the
 * `type` setting, run the cone search and save the catalog under
 * `<schema_name>_<target file name>`. The reference tables, the service's
 * table listing and the cone search itself are parameters.
 */
module Pipeline {
  import opened Base
  import opened Validation
  import opened Targets
  import opened Catalog

  /** The parsed settings file. */
  datatype Settings = Settings(
    schemaName: string,
    tableName: string,
    kind: Scalar,        // `type`
    obj: Scalar,         // `object`: a field number or a cluster name
    radius: Scalar,      // `radius`, in degrees
    radiusText: string)  // `str(radius)`, as Python prints the radius

  /** The local reference tables. */
  datatype References = References(
    available: seq<string>,   // first column of the allow-list of surveys
    fields: seq<FieldRow>,    // the SMASH field list
    bica08: seq<ClusterRow>,  // Bica08 LMC clusters
    bica20: seq<ClusterRow>)  // Bica20 table 2

  /** The cone search to run: dataset, centre and radius. */
  datatype Query = Query(dataName: string, ra: real, dec: real, radius: Scalar)

  /** What a run does once its inputs are accepted. */
  datatype Plan = Plan(query: Query, basename: string)

  /** `settings['schema_name'] + '.' + settings['table_name']`. */
  function DataName(s: Settings): (n: string)
    ensures |n| == |s.schemaName| + 1 + |s.tableName| && n[|s.schemaName|] == '.'
    ensures n[..|s.schemaName|] == s.schemaName && n[|s.schemaName| + 1..] == s.tableName
  {
    s.schemaName + "." + s.tableName
  }

  /**
   * The resolver chosen by the `type` setting: "SMASH field" or "cluster";
   * any other value raises NotImplementedError.
   */
  function Resolve(s: Settings, refs: References): (r: Result<Target>)
    ensures s.kind == Str("SMASH field") ==> r == GetSmashField(refs.fields, s.obj, s.radiusText)
    ensures s.kind == Str("cluster") ==> r == GetClusterCoords(refs.bica08, refs.bica20, s.obj, s.radiusText)
    ensures s.kind !in {Str("SMASH field"), Str("cluster")} ==> r == Err(Error(NotImplementedError, UnknownType))
  {
    if s.kind == Str("SMASH field") then GetSmashField(refs.fields, s.obj, s.radiusText)
    else if s.kind == Str("cluster") then GetClusterCoords(refs.bica08, refs.bica20, s.obj, s.radiusText)
    else Err(Error(NotImplementedError, UnknownType))
  }

  /**
   * Everything `main` decides before the cone search: the survey check
   * comes first, then the radius check, then target resolution; the first
   * failure ends the run.
   */
  function PlanRun(s: Settings, refs: References, listing: string -> seq<string>): (r: Result<Plan>)
    ensures ValidateSurvey(DataName(s), refs.available, listing).Err? ==>
              r == Err(Error(SystemExit, SurveyNotAvailable))
    ensures ValidateSurvey(DataName(s), refs.available, listing).Ok? && ValidateRadius(s.radius).Err? ==>
              r == Err(ValidateRadius(s.radius).error)
    ensures ValidateSurvey(DataName(s), refs.available, listing).Ok? && ValidateRadius(s.radius).Ok?
              && Resolve(s, refs).Err?
            ==> r == Err(Resolve(s, refs).error)
    ensures r.Ok? ==> ValidateSurvey(DataName(s), refs.available, listing).Ok?
                      && Numeric(s.radius).Some? && InRadiusRange(Numeric(s.radius).value)
                      && Resolve(s, refs).Ok?
    ensures r.Ok? ==>
              var t := Resolve(s, refs).value;
              r.value == Plan(Query(DataName(s), t.ra, t.dec, s.radius), s.schemaName + "_" + t.fileName)
  {
    var name := DataName(s);
    var _ :- ValidateSurvey(name, refs.available, listing);
    var rad :- ValidateRadius(s.radius);
    var target :- Resolve(s, refs);
    Ok(Plan(Query(name, target.ra, target.dec, rad), s.schemaName + "_" + target.fileName))
  }

  /** When all three checks pass, the run searches the resolved centre and names the catalog after the schema. */
  lemma PlanRunAccepts(s: Settings, refs: References, listing: string -> seq<string>, t: Target)
    requires ValidateSurvey(DataName(s), refs.available, listing).Ok?
    requires ValidateRadius(s.radius).Ok?
    requires Resolve(s, refs) == Ok(t)
    ensures PlanRun(s, refs, listing) == Ok(Plan(Query(DataName(s), t.ra, t.dec, s.radius), s.schemaName + "_" + t.fileName))
  {
  }

  /** A radius outside `(0, 1.5]` stops an accepted survey before any target is looked up. */
  lemma RadiusRejectedBeforeResolution(s: Settings, refs: References, listing: string -> seq<string>)
    requires ValidateSurvey(DataName(s), refs.available, listing).Ok?
    requires Numeric(s.radius).Some? && !InRadiusRange(Numeric(s.radius).value)
    ensures PlanRun(s, refs, listing) == Err(Error(ValueError, RadiusOutOfRange))
  {
  }

  /** Once survey and radius are accepted, a `type` other than the two known ones raises NotImplementedError. */
  lemma UnknownTypeRejected(s: Settings, refs: References, listing: string -> seq<string>)
    requires ValidateSurvey(DataName(s), refs.available, listing).Ok? && ValidateRadius(s.radius).Ok?
    requires s.kind != Str("SMASH field") && s.kind != Str("cluster")
    ensures PlanRun(s, refs, listing) == Err(Error(NotImplementedError, UnknownType))
  {
  }

  /**
   * A SMASH-field run names its catalog `<schema>_TAP_f<id>_<radius>deg`,
   * and the field number can be read back from the name.
   */
  lemma FieldRunNamesItsField(s: Settings, refs: References, listing: string -> seq<string>, k: int)
    requires s.kind == Str("SMASH field")
    requires PlanRun(s, refs, listing).Ok?
    requires Rows.OnlyMatch(refs.fields, FieldMatcher(s.obj), k)
    ensures var b := PlanRun(s, refs, listing).value.basename;
            |b| > |s.schemaName| && b[..|s.schemaName| + 1] == s.schemaName + "_"
            && FieldIdOfFileName(b[|s.schemaName| + 1..]) == Some(refs.fields[k].fieldId)
            && IntOf(s.obj) == Ok(refs.fields[k].fieldId)
  {
    var row := refs.fields[k];
    var name := FieldFileName(row.fieldId, s.radiusText);
    var b := s.schemaName + "_" + name;
    SmashFieldLookup(refs.fields, s.obj, s.radiusText);
    assert Resolve(s, refs) == Ok(Target(row.ra, row.dec, name));
    assert PlanRun(s, refs, listing).value.basename == b;
    assert b[..|s.schemaName| + 1] == s.schemaName + "_" && b[|s.schemaName| + 1..] == name;
    FieldFileNameNamesField(row.fieldId, s.radiusText);
  }

  /** The field file name of field 42 searched with radius 0.5. */
  lemma FieldFileName42()
    ensures FieldFileName(42, "0.5") == "TAP_f42_0p5deg"
  {
    assert Text.IntToString(42) == "42";
    assert RadiusTag("0.5") == "0p5";
  }

  /**
   * A SMASH-field run on `schema.table` whose object matches exactly one row
   * `k` of the field list, with an accepted radius: the cone search is
   * centred on that field and the catalog is named
   * `<schema>_TAP_f<id>_<radius>deg` (for field 42 of `smash_dr2.object` at
   * 0.5 degrees, `smash_dr2_TAP_f42_0p5deg`).
   */
  lemma SmashFieldRun(s: Settings, refs: References, listing: string -> seq<string>, k: int)
    requires s.kind == Str("SMASH field") && '.' !in s.schemaName
    requires ValidateRadius(s.radius).Ok?
    requires Rows.OnlyMatch(refs.fields, FieldMatcher(s.obj), k)
    requires s.schemaName in refs.available && DataName(s) in listing(s.schemaName)
    ensures PlanRun(s, refs, listing)
            == Ok(Plan(Query(s.schemaName + "." + s.tableName, refs.fields[k].ra, refs.fields[k].dec, s.radius),
                       s.schemaName + "_" + FieldFileName(refs.fields[k].fieldId, s.radiusText)))
  {
    var row := refs.fields[k];
    SurveyAccepted(s.schemaName, s.tableName, refs.available, listing);
    SmashFieldLookup(refs.fields, s.obj, s.radiusText);
    PlanRunAccepts(s, refs, listing, Target(row.ra, row.dec, FieldFileName(row.fieldId, s.radiusText)));
  }

  /** The outcome of a whole run. */
  datatype Outcome = Aborted(error: Error) | Finished(written: Option<string>, message: string)

  /**
   * `main`: plan the run; on success run the cone search (`search`, the
   * remote query), build the table and save it under
   * `<outputDir>/catalogs/<basename>.fits`. A failed check produces no table
   * and writes nothing.
   */
  method Run(s: Settings, refs: References, listing: string -> seq<string>,
             search: Query -> TableData, outputDir: string, dirExists: bool)
    returns (outcome: Outcome, table: Table?)
    requires forall q :: |search(q).units| == |search(q).names|
    ensures PlanRun(s, refs, listing).Err? ==>
              outcome == Aborted(PlanRun(s, refs, listing).error) && table == null
    ensures PlanRun(s, refs, listing).Ok? ==>
              var plan := PlanRun(s, refs, listing).value;
              var data := search(plan.query);
              && table != null && fresh(table) && table.Valid()
              && table.names == data.names && table.rows == data.rows
              && table.units[..] == NormaliseAll(data.units)
              && outcome == Finished(
                   if dirExists then Some(CatalogPath(outputDir, plan.basename)) else None,
                   if dirExists then SavedMessage(outputDir, plan.basename) else NotSavedMessage)
  {
    var planned := PlanRun(s, refs, listing);
    if planned.Err? {
      return Aborted(planned.error), null;
    }
    var plan := planned.value;
    var fetched := new Table(search(plan.query));
    var written, message;
    table, written, message := SaveCat(fetched, plan.basename, outputDir, dirExists);
    outcome := Finished(written, message);
  }
}
