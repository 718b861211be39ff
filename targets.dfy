/**
 * Target resolution: the centre of the cone search and the file name of the
 * catalog, either from the table of SMASH fields (`get_smash_field`) or from
 * the two Bica cluster catalogues (`get_cluster_coords`). The reference
 * tables are passed in as sequences of rows.
 */
module Targets {
  import opened Base
  import opened Text
  import opened Rows

  /** A row of the SMASH field list: `fieldid`, `ra`, `dec`. */
  datatype FieldRow = FieldRow(fieldId: int, ra: real, dec: real)

  /** A row of a Bica catalogue: `Names`, `_RAJ2000`, `_DEJ2000`. */
  datatype ClusterRow = ClusterRow(names: string, ra: real, dec: real)

  /** The resolved centre and the file name derived for it. */
  datatype Target = Target(ra: real, dec: real, fileName: string)

  /** `str(radius).replace('.', 'p')`, from the radius as Python prints it. */
  function RadiusTag(radiusText: string): (t: string)
    ensures |t| == |radiusText| && '.' !in t
  {
    ReplaceChar(radiusText, '.', 'p')
  }

  // ---------------------------------------------------------------- fields

  /** Python's `int(x)` for a finite float: truncation toward zero. */
  function Truncate(x: real): (n: int)
    ensures x >= 0.0 ==> n as real <= x < n as real + 1.0
    ensures x < 0.0 ==> n as real - 1.0 < x <= n as real
  {
    if x >= 0.0 then x.Floor else -((-x).Floor)
  }

  /** Python's `int(obj)` for the `object` setting. */
  function IntOf(obj: Scalar): (r: Result<int>)
    ensures obj.Int? ==> r == Ok(obj.i)
    ensures obj.Bool? ==> r == Ok(if obj.b then 1 else 0)
    ensures obj.Flt? && obj.d.Finite? ==> r == Ok(Truncate(obj.d.x))
    ensures obj.Str? ==> (r.Ok? <==> ParseInt(obj.s).Some?) && (r.Ok? ==> r.value == ParseInt(obj.s).value)
    ensures r.Err? ==> r.error.cause == ObjectNotInteger
    ensures r.Err? ==> r.error.raised == if obj.Null? then TypeError
                                         else if obj in {Flt(PosInf), Flt(NegInf)} then OverflowError
                                         else ValueError
  {
    match obj
    case Int(i) => Ok(i)
    case Bool(b) => Ok(if b then 1 else 0)
    case Flt(Finite(x)) => Ok(Truncate(x))
    case Flt(NaN) => Err(Error(ValueError, ObjectNotInteger))
    case Flt(_) => Err(Error(OverflowError, ObjectNotInteger))
    case Str(s) =>
      (match ParseInt(s)
       case Some(i) => Ok(i)
       case None => Err(Error(ValueError, ObjectNotInteger)))
    case Null => Err(Error(TypeError, ObjectNotInteger))
  }

  /**
   * One element of the mask `fields['fieldid'] == obj`: numeric equality;
   * an integer column never equals text or `None`.
   */
  predicate FieldMatches(obj: Scalar, row: FieldRow)
    ensures FieldMatches(obj, row) ==> IntOf(obj) == Ok(row.fieldId)
    ensures obj.Str? || obj.Null? ==> !FieldMatches(obj, row)
  {
    match obj
    case Int(i) => row.fieldId == i
    case Bool(b) => row.fieldId == if b then 1 else 0
    case Flt(d) => d.Finite? && d.x == row.fieldId as real
    case _ => false
  }

  function FieldMatcher(obj: Scalar): FieldRow -> bool {
    row => FieldMatches(obj, row)
  }

  /** The `fieldid` column. */
  function FieldIds(fields: seq<FieldRow>): (ids: seq<int>)
    ensures |ids| == |fields| && forall k :: 0 <= k < |fields| ==> ids[k] == fields[k].fieldId
  {
    seq(|fields|, k requires 0 <= k < |fields| => fields[k].fieldId)
  }

  /** `f"TAP_f{id}_{radius}deg"` with the radius's dots turned into `p`. */
  function FieldFileName(id: int, radiusText: string): (n: string)
    ensures |n| > 8 && n[..5] == "TAP_f" && n[|n| - 3..] == "deg"
  {
    "TAP_f" + IntToString(id) + "_" + RadiusTag(radiusText) + "deg"
  }

  /**
   * Reads the field number back out of a field file name: the integer
   * between the leading `TAP_f` and the next `_`.
   */
  function FieldIdOfFileName(name: string): Option<int> {
    if |name| < 5 || name[..5] != "TAP_f" then None
    else
      var rest := name[5..];
      if '_' !in rest then None else ParseInt(rest[..IndexOf(rest, '_')])
  }

  /** The field file name records the field number it was made for. */
  lemma FieldFileNameNamesField(id: int, radiusText: string)
    ensures FieldIdOfFileName(FieldFileName(id, radiusText)) == Some(id)
  {
    var digits := IntToString(id);
    var name := FieldFileName(id, radiusText);
    var tail := RadiusTag(radiusText) + "deg";
    assert name == "TAP_f" + (digits + ['_'] + tail);
    assert name[..5] == "TAP_f" && name[5..] == digits + ['_'] + tail;
    assert '_' !in digits by {
      assert forall k :: 0 <= k < |digits| ==> digits[k] == '-' || IsDigit(digits[k]) by {
        forall k | 0 <= k < |digits| ensures digits[k] == '-' || IsDigit(digits[k]) {
          if !IsDigits(digits) && k > 0 {
            assert digits[k] == digits[1..][k - 1];
          }
        }
      }
    }
    IndexOfAfterPiece(digits, '_', tail);
    assert (digits + ['_'] + tail)[..|digits|] == digits;
    ParseIntToString(id);
  }

  /** Two different fields never share a file name. */
  lemma FieldFileNamesDistinct(a: int, b: int, radiusText: string)
    requires a != b
    ensures FieldFileName(a, radiusText) != FieldFileName(b, radiusText)
  {
    FieldFileNameNamesField(a, radiusText);
    FieldFileNameNamesField(b, radiusText);
  }

  /**
   * `get_smash_field`: `int(obj)` must be among the field ids (else the
   * "not available" ValueError), and `.item()` on the rows equal to `obj`
   * must see exactly one row (else ValueError). The result is that row's
   * coordinates and its file name.
   */
  function GetSmashField(fields: seq<FieldRow>, obj: Scalar, radiusText: string): (r: Result<Target>)
    ensures r.Err? ==> r.error.raised in {ValueError, OverflowError, TypeError}
  {
    var id :- IntOf(obj);
    if id !in FieldIds(fields) then Err(Error(ValueError, FieldNotAvailable))
    else
      var line := Filter(fields, FieldMatcher(obj));
      if |line| != 1 then Err(Error(ValueError, NotExactlyOneRow))
      else Ok(Target(line[0].ra, line[0].dec, FieldFileName(line[0].fieldId, radiusText)))
  }

  /**
   * Field lookup succeeds exactly when one row of the field list equals the
   * requested object, and then yields that row's position and file name; an
   * object `int()` refuses raises that error, and an id absent from the list
   * raises the "not available" ValueError.
   */
  lemma SmashFieldLookup(fields: seq<FieldRow>, obj: Scalar, radiusText: string)
    ensures var r := GetSmashField(fields, obj, radiusText);
            r.Ok? <==> exists k :: OnlyMatch(fields, FieldMatcher(obj), k)
    ensures forall k :: OnlyMatch(fields, FieldMatcher(obj), k) ==>
              GetSmashField(fields, obj, radiusText)
              == Ok(Target(fields[k].ra, fields[k].dec, FieldFileName(fields[k].fieldId, radiusText)))
    ensures IntOf(obj).Err? ==> GetSmashField(fields, obj, radiusText) == Err(IntOf(obj).error)
    ensures IntOf(obj).Ok? && IntOf(obj).value !in FieldIds(fields) ==>
              GetSmashField(fields, obj, radiusText) == Err(Error(ValueError, FieldNotAvailable))
  {
    var p := FieldMatcher(obj);
    FilterOne(fields, p);
    assert forall k :: 0 <= k < |fields| && p(fields[k]) ==> IntOf(obj) == Ok(fields[k].fieldId);
    if IntOf(obj).Ok? {
      var ids := FieldIds(fields);
      forall k | OnlyMatch(fields, p, k) ensures IntOf(obj).value in ids {
        assert ids[k] == IntOf(obj).value;
      }
    }
  }

  // -------------------------------------------------------------- clusters

  /** `n.strip().split(',')`: the aliases of a row; the pieces are not trimmed. */
  function Aliases(names: string): (a: seq<string>)
    ensures |a| >= 1 && forall p :: p in a ==> ',' !in p
  {
    Split(Strip(names), ',')
  }

  /** `chain(*names)`: every alias of every row, in order. */
  function AllAliases(rows: seq<ClusterRow>): (all: seq<string>)
    ensures forall a :: a in all <==> exists k :: 0 <= k < |rows| && a in Aliases(rows[k].names)
  {
    Chain(rows, (row: ClusterRow) => Aliases(row.names))
  }

  /** One element of the mask `[obj in item for item in names]`. */
  predicate ClusterMatches(obj: Scalar, row: ClusterRow)
    ensures ClusterMatches(obj, row) ==> obj.Str? && ',' !in obj.s
  {
    obj.Str? && obj.s in Aliases(row.names)
  }

  function ClusterMatcher(obj: Scalar): ClusterRow -> bool {
    row => ClusterMatches(obj, row)
  }

  /** `f"{name.replace(' ', '')}_{radius}deg"` with the radius's dots turned into `p`. */
  function ClusterFileName(name: string, radiusText: string): (n: string)
    ensures |n| >= 4 && n[|n| - 3..] == "deg"
    ensures ' ' !in radiusText ==> ' ' !in n
  {
    var t := RadiusTag(radiusText);
    assert ' ' !in radiusText ==> forall k :: 0 <= k < |t| ==> t[k] != ' ';
    RemoveChar(name, ' ') + "_" + t + "deg"
  }

  /**
   * `get_cluster_coords`: the Bica08 rows followed by the Bica20 rows; a name
   * that is no row's alias raises NotImplementedError, and `.item()` needs
   * the name in exactly one row (else ValueError). The result is that row's
   * coordinates and the file name built from the name.
   */
  function GetClusterCoords(bica08: seq<ClusterRow>, bica20: seq<ClusterRow>, obj: Scalar, radiusText: string)
    : (r: Result<Target>)
    ensures var rows := bica08 + bica20;
            r.Ok? <==> exists k :: OnlyMatch(rows, ClusterMatcher(obj), k)
    ensures var rows := bica08 + bica20;
            forall k :: OnlyMatch(rows, ClusterMatcher(obj), k) ==>
              r == Ok(Target(rows[k].ra, rows[k].dec, ClusterFileName(obj.s, radiusText)))
    ensures var rows := bica08 + bica20;
            r == Err(Error(NotImplementedError, ClusterNotAvailable))
            <==> forall k :: 0 <= k < |rows| ==> !ClusterMatches(obj, rows[k])
    ensures r.Err? ==> r.error in {Error(NotImplementedError, ClusterNotAvailable), Error(ValueError, NotExactlyOneRow)}
  {
    var rows := bica08 + bica20;
    FilterOne(rows, ClusterMatcher(obj));
    if !obj.Str? || obj.s !in AllAliases(rows) then
      Err(Error(NotImplementedError, ClusterNotAvailable))
    else
      var hit := Filter(rows, ClusterMatcher(obj));
      if |hit| != 1 then Err(Error(ValueError, NotExactlyOneRow))
      else Ok(Target(hit[0].ra, hit[0].dec, ClusterFileName(obj.s, radiusText)))
  }

  /** A names field `first + ", " + second` has the aliases `first` and `" " + second`. */
  lemma AliasesOfPair(first: string, second: string)
    requires first != [] && !IsSpace(first[0]) && ',' !in first
    requires second != [] && !IsSpace(second[|second| - 1]) && ',' !in second
    ensures Aliases(first + ", " + second) == [first, " " + second]
  {
    var s := first + ", " + second;
    assert s[0] == first[0] && s[|s| - 1] == second[|second| - 1];
    StripUnpadded(s);
    assert s == first + [','] + (" " + second);
    SplitTwo(first, " " + second, ',');
  }

  /**
   * Alias matching compares untrimmed pieces: in a row named
   * `first + ", " + second` (as "NGC 104, 47 Tuc") the first alias is found,
   * but the second only with its leading blank.
   */
  lemma AliasesAreNotTrimmed(first: string, second: string, ra: real, dec: real)
    requires first != [] && !IsSpace(first[0]) && ',' !in first
    requires second != [] && !IsSpace(second[|second| - 1]) && ',' !in second
    requires second != first
    ensures var row := ClusterRow(first + ", " + second, ra, dec);
            ClusterMatches(Str(first), row) && !ClusterMatches(Str(second), row)
            && ClusterMatches(Str(" " + second), row)
  {
    AliasesOfPair(first, second);
    assert |second| != |" " + second|;
  }
}
