/**
 * `save_cat`: the unit tags of the downloaded table are rewritten in place,
 * column by column, and the table is written as
 * `<prefix>/catalogs/<fname>.fits` when the directory `prefix` exists.
 */
module Catalog {
  import opened Base

  /**
   * A column's unit: none at all, a raw tag as the service sent it, or one
   * of the canonical units the script assigns. A canonical unit never
   * compares equal to the raw strings the script tests for.
   */
  datatype Unit = NoUnit | Tag(text: string) | Dimensionless | Degree | Magnitude

  /** The unit a column has after the rewrite of one column. */
  function NormaliseUnit(u: Unit): (r: Unit)
    ensures u == Tag("None") ==> r == Dimensionless
    ensures u == Tag("Degrees") || u == Tag("degrees") ==> r == Degree
    ensures u == Tag("Magnitude") ==> r == Magnitude
    ensures u !in {Tag("None"), Tag("Degrees"), Tag("degrees"), Tag("Magnitude")} ==> r == u
  {
    if u == Tag("None") then Dimensionless
    else if u == Tag("Degrees") then Degree
    else if u == Tag("degrees") then Degree
    else if u == Tag("Magnitude") then Magnitude
    else u
  }

  /** The units of all columns after the rewrite, column order unchanged. */
  function NormaliseAll(units: seq<Unit>): (r: seq<Unit>)
    ensures |r| == |units|
  {
    seq(|units|, k requires 0 <= k < |units| => NormaliseUnit(units[k]))
  }

  /** Rewriting a unit a second time changes nothing. */
  lemma NormaliseUnitIdempotent(u: Unit)
    ensures NormaliseUnit(NormaliseUnit(u)) == NormaliseUnit(u)
  {
  }

  /** Rewriting the whole table a second time changes nothing. */
  lemma NormaliseAllIdempotent(units: seq<Unit>)
    ensures NormaliseAll(NormaliseAll(units)) == NormaliseAll(units)
  {
    forall k | 0 <= k < |units| ensures NormaliseAll(NormaliseAll(units))[k] == NormaliseAll(units)[k] {
      NormaliseUnitIdempotent(units[k]);
    }
  }

  /**
   * Only the four raw tags change; a column without a unit, any other raw
   * tag and every canonical unit stay as they are.
   */
  lemma NormaliseUnitChanges(u: Unit)
    ensures NormaliseUnit(u) != u <==> u in {Tag("None"), Tag("Degrees"), Tag("degrees"), Tag("Magnitude")}
    ensures NormaliseUnit(u).Tag? ==> NormaliseUnit(u) == u
  {
  }

  /** One cell of the downloaded table; its value is never touched here. */
  datatype Cell = Number(x: real) | Chars(s: string) | Masked

  /** What the remote query returns: column names, their units, the rows. */
  datatype TableData = TableData(names: seq<string>, units: seq<Unit>, rows: seq<seq<Cell>>)

  /** The astropy table: names and rows, and the per-column unit tags as an array. */
  class Table {
    var names: seq<string>
    var rows: seq<seq<Cell>>
    const units: array<Unit>

    ghost predicate Valid()
      reads this
    {
      units.Length == |names|
    }

    constructor (data: TableData)
      requires |data.units| == |data.names|
      ensures Valid() && fresh(units)
      ensures names == data.names && rows == data.rows && units[..] == data.units
    {
      names := data.names;
      rows := data.rows;
      units := new Unit[|data.units|](k requires 0 <= k < |data.units| => data.units[k]);
    }

    /** The loop `for col in table.colnames` of `save_cat`. */
    method NormaliseUnits()
      requires Valid()
      modifies units
      ensures Valid()
      ensures units[..] == NormaliseAll(old(units[..]))
    {
      for i := 0 to units.Length
        invariant forall k :: 0 <= k < i ==> units[k] == NormaliseUnit(old(units[k]))
        invariant forall k :: i <= k < units.Length ==> units[k] == old(units[k])
      {
        var u := units[i];
        if u == Tag("None") {
          units[i] := Dimensionless;
        } else if u == Tag("Degrees") {
          units[i] := Degree;
        } else if u == Tag("degrees") {
          units[i] := Degree;
        } else if u == Tag("Magnitude") {
          units[i] := Magnitude;
        }
      }
    }
  }

  /** `f'{prefix}/catalogs/{fname}.fits'`: where the catalog is written. */
  function CatalogPath(prefix: string, fname: string): (p: string)
    ensures |p| == |prefix| + |fname| + 15
    ensures p[..|prefix|] == prefix && p[|prefix|..|prefix| + 10] == "/catalogs/"
    ensures p[|prefix| + 10..|p| - 5] == fname && p[|p| - 5..] == ".fits"
  {
    prefix + "/catalogs/" + fname + ".fits"
  }

  const SavedLead: string := "Catalog saved as \""

  /** The path quoted by the confirmation message as written. */
  function ReportedPathAsWritten(prefix: string, fname: string): (p: string)
    ensures |p| == |prefix| + |fname| + 6
    ensures p[..|prefix|] == prefix && p[|prefix|] == '/' && p[|p| - 5..] == ".fits"
  {
    prefix + "/" + fname + ".fits"
  }

  /** The confirmation message as written. */
  function SavedMessageAsWritten(prefix: string, fname: string): (m: string)
    ensures |m| > |SavedLead| && m[|SavedLead|..|m| - 1] == ReportedPathAsWritten(prefix, fname)
  {
    SavedLead + ReportedPathAsWritten(prefix, fname) + "\""
  }

  /**
   * The message as written quotes a path that is never the file just
   * written, so it is never the message quoting that file.
   */
  lemma SavedMessageMisreportsPath(prefix: string, fname: string)
    ensures ReportedPathAsWritten(prefix, fname) != CatalogPath(prefix, fname)
    ensures SavedMessageAsWritten(prefix, fname) != SavedMessage(prefix, fname)
  {
    assert |CatalogPath(prefix, fname)| == |ReportedPathAsWritten(prefix, fname)| + 9;
    assert |SavedMessage(prefix, fname)| == |SavedMessageAsWritten(prefix, fname)| + 9;
  }

  /** The confirmation message, quoting the path the catalog was written to. */
  function SavedMessage(prefix: string, fname: string): (m: string)
    ensures |m| > |SavedLead| && m[|SavedLead|..|m| - 1] == CatalogPath(prefix, fname)
  {
    SavedLead + CatalogPath(prefix, fname) + "\""
  }

  const NotSavedMessage: string := "Catalog not saved: directory does not exist!"

  /**
   * `save_cat(table, fname, prefix)`: rewrites the unit tags, then writes the
   * file only when `prefix` is an existing directory; the same table is
   * returned either way. `dirExists` stands for `os.path.isdir(prefix)`.
   */
  method SaveCat(table: Table, fname: string, prefix: string, dirExists: bool)
    returns (result: Table, written: Option<string>, message: string)
    requires table.Valid()
    modifies table.units
    ensures result == table && table.Valid()
    ensures table.units[..] == NormaliseAll(old(table.units[..]))
    ensures written == if dirExists then Some(CatalogPath(prefix, fname)) else None
    ensures message == if dirExists then SavedMessage(prefix, fname) else NotSavedMessage
  {
    table.NormaliseUnits();
    if dirExists {
      written := Some(CatalogPath(prefix, fname));
      message := SavedMessage(prefix, fname);
    } else {
      written := None;
      message := NotSavedMessage;
    }
    result := table;
  }
}
