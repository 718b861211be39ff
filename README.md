# query_noirlab, modelled in Dafny

`query_noirlab.py` downloads a cone-search catalog from the NOIRLab Astro
Data Lab. Its settings file names the survey (`schema_name.table_name`), the
kind of target (`type`: a SMASH field or a star cluster), the target
(`object`) and a search radius in degrees. Before the cone search, the
script checks its inputs in a fixed order:

1. the survey must be in the local allow-list and in the table listing the
   service returns for its schema (a remote query of its own);
2. the radius must be a number, and is refused when `r <= 0` or `r > 1.5`;
3. the target is then resolved from local reference tables, either the
   SMASH field list or the Bica 2008 and Bica 2020 cluster catalogues.

The first check that fails ends the run. On success the script runs the
cone search and rewrites the unit tags of the downloaded table, column by
column. It then writes the table to
`<prefix>/catalogs/<schema>_<target file name>.fits`, where `<prefix>` is
the directory holding the script.

The model follows the script's structure, one module per concern:

- `Base`: the YAML scalars the settings can hold (`int`, `float` including
  NaN and the infinities, `bool`, `str`, `None`), the Python exceptions
  raised, and a `Result` type that carries them.
- `Text`: the Python string operations the script relies on, written out
  and proved: `strip()`, `split(sep)`, `replace`, `str(int)` and `int(str)`.
- `Rows`: numpy boolean-mask selection and `.item()`. `.item()` succeeds
  only when exactly one row is selected.
- `Validation`: `validate_radius` and `validate_survey`.
- `Targets`: `get_smash_field` and `get_cluster_coords`, with the file names
  they build.
- `Catalog`: `save_cat`. The unit rewrite is a loop over the columns of a
  `Table` class whose unit tags are an array updated in place.
- `Pipeline`: `main`. The checks and the dispatch on `type` are a function
  (`PlanRun`); the whole run is a method (`Run`).

In these places the model follows the code, where a reader might expect
otherwise:

- Unit tags. The code rewrites exactly `'None'`, `'Degrees'`, `'degrees'`
  and `'Magnitude'`. It does not match case-insensitively, and it does not
  treat a blank unit as dimensionless.
- Cluster aliases. The pieces of `Names.strip().split(',')` are not trimmed.
  So in a row named `"NGC 104, 47 Tuc"` the name `"47 Tuc"` is not found,
  and only `" 47 Tuc"` is (`Targets.AliasesAreNotTrimmed`).
- Ties. A name or field id held by two rows is not a lookup of the first
  match. `.item()` raises ValueError.
- Survey refusal. A refused survey ends the run through `sys.exit()`, which
  is a normal exit with status 0 rather than an error status. The model
  reports it as `Error(SystemExit, SurveyNotAvailable)`.
- Check order. The survey check, with its query to the service, comes before
  the radius check (line 37 before line 38). So an out-of-range radius is
  reported only after that query, and a refused survey hides a bad radius.

Two defects of the script are recorded under "## Findings", each with a
member for the code as written and a corrected member. The run itself
(`Pipeline.PlanRun`, `Pipeline.Run`, `Catalog.SaveCat`) is built from the
corrected members: a NaN radius is refused, and the confirmation message
quotes the path actually written. `Validation.RadiusCheckDiffersOnlyOnNaN`
and `Catalog.SavedMessageMisreportsPath` state exactly where this differs
from the script.

## Model

| member | source | states |
|---|---|---|
| Validation.Numeric | query_noirlab.py:78 | `isinstance(radius, (int, float))` holds exactly for integers, floats and booleans (`bool` is a subclass of `int`); the numeric value is kept |
| Validation.ValidateRadius | query_noirlab.py:74-83 | accepts exactly the numbers with `0 < r <= 1.5` and returns them unchanged; a non-number raises TypeError; any other number, NaN included, raises ValueError |
| Validation.AtMost | query_noirlab.py:80 | Python's `radius <= c` on a double: the real comparison for a finite value, false for NaN |
| Validation.Above | query_noirlab.py:80 | Python's `radius > c` on a double: the real comparison for a finite value, false for NaN |
| Validation.ValidateRadiusAsWritten | query_noirlab.py:80 | the check as written accepts a number exactly when it is in `(0, 1.5]` or is NaN |
| Validation.RadiusCheckDiffersOnlyOnNaN | query_noirlab.py:78-83 | the written and the intended radius checks agree on every input except NaN; the written one accepts NaN and the intended one rejects it |
| Validation.RadiusBoundaries | query_noirlab.py:80-81 | 0 is rejected, 1.5 is accepted, anything above 1.5 is rejected, an integer radius is checked like a float, and text is a TypeError |
| Validation.SchemaPrefix | query_noirlab.py:56 | `data_full_name.split('.')[0]` is the dot-free prefix of the name, ending at the first dot or at the end |
| Validation.SchemaPrefixOfQualified | query_noirlab.py:36 | for a dot-free schema, the prefix of `schema + "." + table` is the schema |
| Validation.ValidateSurvey | query_noirlab.py:52-71 | the survey is accepted if and only if the schema part of the name is in the allow-list and the name is in the service's listing for that schema; a refusal is the `sys.exit()` of line 71 |
| Validation.SurveyAccepted | query_noirlab.py:52-71 | `schema.table` is accepted if and only if the schema is in the allow-list and the service lists `schema.table` for it; otherwise the run exits |
| Targets.RadiusTag | query_noirlab.py:97 | `str(radius).replace('.', 'p')` has the same length and no dot |
| Targets.Truncate | query_noirlab.py:92 | `int()` of a finite float truncates toward zero |
| Targets.FieldIds | query_noirlab.py:92 | the `fieldid` column lists the rows' ids in row order |
| Targets.IntOf | query_noirlab.py:92 | `int(object)`: an integer is itself, a boolean is 0 or 1, a finite float is truncated, text is parsed as `int()` parses it; NaN and unparsable text raise ValueError, an infinity OverflowError, `None` TypeError |
| Targets.FieldMatches | query_noirlab.py:94 | a row the mask `fields['fieldid'] == object` selects has the id `int(object)` yields; text and `None` select no row |
| Targets.FieldFileName | query_noirlab.py:97 | the field file name starts with `TAP_f` and ends with `deg` |
| Targets.GetSmashField | query_noirlab.py:86-100 | field lookup fails only with ValueError, OverflowError or TypeError |
| Targets.SmashFieldLookup | query_noirlab.py:92-97 | lookup succeeds if and only if exactly one row equals `object`, and then gives that row's position and `TAP_f<id>_<radius>deg`; an `int()` failure propagates; an id not in the list is the "not available" ValueError |
| Targets.FieldFileNameNamesField | query_noirlab.py:97 | the field number can be read back from `TAP_f<id>_<radius>deg` |
| Targets.FieldFileNamesDistinct | query_noirlab.py:97 | two different fields never get the same file name |
| Targets.Aliases | query_noirlab.py:117 | a row's aliases are at least one comma-free piece |
| Rows.Chain | query_noirlab.py:120 | `chain(*…)` holds an item if and only if some row's sequence holds it |
| Targets.AllAliases | query_noirlab.py:120 | `chain(*names)` holds a name if and only if some row has it as an alias |
| Targets.ClusterMatches | query_noirlab.py:124 | a row is selected only for a text name, and a name holding a comma selects no row |
| Targets.ClusterFileName | query_noirlab.py:127 | the cluster file name ends with `deg`, and holds no blank when the radius text has none |
| Targets.GetClusterCoords | query_noirlab.py:103-130 | over the Bica08 rows followed by the Bica20 rows: success if and only if exactly one row has the name as an alias, with that row's coordinates and the blank-free name as file name; no such row is NotImplementedError; several rows are ValueError |
| Targets.AliasesOfPair | query_noirlab.py:117 | a names field `first + ", " + second` splits into `first` and `" " + second` |
| Targets.AliasesAreNotTrimmed | query_noirlab.py:117-124 | in such a row the first alias matches, the bare second alias does not, and the second alias with its leading blank does |
| Rows.Filter | query_noirlab.py:94 | a mask selection keeps only matching rows and every matching row, and is empty exactly when no row matches |
| Rows.FilterOne | query_noirlab.py:96 | `.item()` sees one row if and only if exactly one row matches, and that row is the one it yields |
| Text.IsSpace | query_noirlab.py:117 | the whitespace that `strip()` removes includes blank, tab, newline and carriage return, and never a digit, a sign or a comma |
| Text.IsInfoSeparator | query_noirlab.py:92 | the four separator controls U+001C to U+001F are whitespace to `strip()` but refused by `int()` |
| Text.StripLeft | query_noirlab.py:117 | dropping leading whitespace leaves a suffix that starts with a non-space, after a run of whitespace |
| Text.StripRight | query_noirlab.py:117 | dropping trailing whitespace leaves a prefix that ends with a non-space, before a run of whitespace |
| Text.Strip | query_noirlab.py:117 | `strip()` never lengthens the text, and its result neither starts nor ends with whitespace |
| Text.StripIsInfix | query_noirlab.py:117 | the strip is an infix of the text with only whitespace before and after it |
| Text.StripNoSpace | query_noirlab.py:117 | text without whitespace is its own strip |
| Text.StripUnpadded | query_noirlab.py:117 | text whose ends are not whitespace is its own strip |
| Text.Split | query_noirlab.py:56 | `split(sep)` gives at least one separator-free piece, the first being the text before the first separator |
| Text.JoinSplit | query_noirlab.py:117 | joining the pieces of a split with the separator gives back the text |
| Text.SplitJoin | query_noirlab.py:117 | splitting a join of separator-free pieces gives back the pieces |
| Text.SplitTwo | query_noirlab.py:117 | text with one separator splits into its two sides |
| Text.ReplaceChar | query_noirlab.py:97 | `replace(a, b)` on single characters changes each `a` to `b` and nothing else |
| Text.RemoveChar | query_noirlab.py:127 | `replace(' ', '')` leaves no blank |
| Text.RemoveCharCounts | query_noirlab.py:127 | removal keeps every other character as often as it occurs |
| Text.RemoveCharAppend | query_noirlab.py:127 | removal works piecewise, so the kept characters keep their order |
| Text.NatToString | query_noirlab.py:97 | `str(n)` is decimal digits without a leading zero |
| Text.IntToString | query_noirlab.py:97 | `str(i)` is decimal digits without a leading zero, preceded by `-` exactly when the integer is negative |
| Text.ParseInt | query_noirlab.py:92 | `int(text)` accepts exactly the text holding none of U+001C to U+001F that, once surrounding whitespace is stripped, is an optional sign followed by decimal digits; unsigned digits give a non-negative value |
| Text.SeparatorPaddingRefused | query_noirlab.py:92 | text padded with a separator control, as `"\x1c42"` or `"42\x1f"`, is refused by `int()` though `strip()` would remove the padding |
| Text.ParseIntToString | query_noirlab.py:92 | `int(str(i)) == i` |
| Catalog.NormaliseUnit | query_noirlab.py:172-179 | `'None'` becomes dimensionless, `'Degrees'` and `'degrees'` become degree, `'Magnitude'` becomes mag, and every other unit stays |
| Catalog.NormaliseAll | query_noirlab.py:171 | the rewrite covers every column and keeps their number |
| Catalog.NormaliseUnitChanges | query_noirlab.py:172-179 | a unit changes if and only if it is one of the four raw tags; no raw tag is produced |
| Catalog.NormaliseUnitIdempotent | query_noirlab.py:172-179 | rewriting a unit twice is the same as once |
| Catalog.NormaliseAllIdempotent | query_noirlab.py:171-179 | rewriting a whole table twice is the same as once |
| Catalog.Table.constructor | query_noirlab.py:157 | the downloaded table keeps the names, rows and unit tags the search returned |
| Catalog.Table.NormaliseUnits | query_noirlab.py:171-179 | the loop leaves each column's unit rewritten by `NormaliseUnit`, in place |
| Catalog.CatalogPath | query_noirlab.py:184 | the file is `<prefix>` + `/catalogs/` + `<fname>` + `.fits` |
| Catalog.ReportedPathAsWritten | query_noirlab.py:186 | the path the message quotes as written is `<prefix>/<fname>.fits`, with no `catalogs` directory |
| Catalog.SavedMessageAsWritten | query_noirlab.py:186 | the message as written quotes that path |
| Catalog.SavedMessageMisreportsPath | query_noirlab.py:184-186 | the path the message quotes as written is never the path the file is written to, so the message as written is never the corrected one |
| Catalog.SavedMessage | query_noirlab.py:186 | the corrected message quotes exactly `<prefix>/catalogs/<fname>.fits` |
| Catalog.SaveCat | query_noirlab.py:165-190 | units are rewritten in place and the same table is returned; the file `<prefix>/catalogs/<fname>.fits` is written and reported exactly when `prefix` is a directory; otherwise the not-saved message |
| Pipeline.DataName | query_noirlab.py:36 | the data name is the schema name, a dot, then the table name |
| Pipeline.Resolve | query_noirlab.py:39-44 | `type` "SMASH field" uses the field list, "cluster" uses the cluster catalogues, and anything else is NotImplementedError |
| Pipeline.PlanRun | query_noirlab.py:36-47 | the survey check comes first (exit), then the radius check, then resolution, whose error is the run's error; a successful plan searches the resolved centre with the radius and names the catalog `<schema>_<file name>` |
| Pipeline.PlanRunAccepts | query_noirlab.py:36-47 | when all checks pass, the plan is that search and that name |
| Pipeline.RadiusRejectedBeforeResolution | query_noirlab.py:37-38 | an out-of-range radius for an accepted survey is a ValueError whatever the target |
| Pipeline.UnknownTypeRejected | query_noirlab.py:43-44 | with valid survey and radius, any other `type` is NotImplementedError |
| Pipeline.FieldRunNamesItsField | query_noirlab.py:47 | a SMASH-field run's basename is `<schema>_` followed by a name from which the matched field's number (`int(object)`) reads back |
| Pipeline.FieldFileName42 | query_noirlab.py:97 | field 42 at radius 0.5 is named `TAP_f42_0p5deg` |
| Pipeline.SmashFieldRun | query_noirlab.py:36-47 | a listed survey, an accepted radius and an object matching exactly one row of the field list give a search centred on that row and the name `<schema>_TAP_f<id>_<radius>deg` |
| Pipeline.Run | query_noirlab.py:28-48 | a refused run builds no table and writes nothing; otherwise the searched table is built, its units are rewritten, and it is saved as `SaveCat` states |

## Left out

- Pipeline.PlanRun: uses the corrected radius check, so a NaN radius is refused where the script (line 80) goes on to resolve the target and search; `Validation.RadiusCheckDiffersOnlyOnNaN` shows this is the only input where they differ.
- Catalog.SaveCat: its message is the corrected one, quoting `<prefix>/catalogs/<fname>.fits`, where line 186 prints `<prefix>/<fname>.fits`; `Catalog.SavedMessageMisreportsPath` states the difference.
- Pipeline.Run: inherits both corrections above, so it differs from lines 28-48 on a NaN radius and in the path the confirmation message quotes.

- The network. The service's table listing (`validate_survey`) and the cone
  search (`download_data`) are parameters. The ADQL text and its `%.5f`/`%.3f`
  formatting are not modelled.
- `download_data` is not modelled. Its `sec_column` loop is dead code, and it
  only prints timing.
- File and YAML I/O are not modelled: `sys.argv`, reading the settings,
  reading the FITS/ASCII reference tables, `os.path` joins, `os.mkdir` and
  `table.write`. The reference tables are sequences of rows. `os.path.isdir`
  is the boolean `dirExists`. When `main` calls `save_cat`, `prefix` is the
  script's own directory (lines 30 and 48), which exists whenever the script
  runs. So from `main` the not-saved branch cannot be reached; `SaveCat`
  models it for the function on its own.
- The console messages built with `:.5f`/`:.3f` in `get_smash_field` and
  `get_cluster_coords` are not modelled. No float rendering is modelled, and
  `str(radius)` is taken as the parameter `radiusText`.
- Floats are modelled as reals plus NaN and the infinities. Rounding is not
  modelled.
- astropy unit semantics are left out. Units are tags compared for equality,
  and the canonical units never equal the raw tags.
- Text.ParseInt: does not accept the underscores between digits, or the
  non-ASCII digits, that Python's `int()` accepts.
- Targets.FieldMatches: follows numpy 1.25 and later, where comparing the
  integer `fieldid` column with a text `object` (line 94) gives an all-False
  mask, so `.item()` fails on the empty selection with ValueError. Older numpy
  can instead return the single value `False`. astropy takes `fields[False]`
  as row index 0, so the script would silently use the first field's id and
  position. That version-dependent behaviour is not modelled. (`None` and the
  infinite floats never reach line 94, because `int()` at line 92 raises first.)
- `schema_name` and `table_name` are taken to be strings. Other YAML values
  would raise TypeError in the concatenation.
- The module docstring also mentions a single coordinate, a coordinate list
  and a Vizier fallback. `main` implements none of these, so they are not
  modelled.

## Findings

| source | as written | input that shows it | evidently intended | confidence | as-written member | corrected member |
|---|---|---|---|---|---|---|
| query_noirlab.py:80 | `radius <= 0 or radius > 1.5` raises the range error; both comparisons are false for NaN | `radius: .nan` in the settings is accepted | only `0 < radius <= 1.5` is accepted | high; not executed | Validation.ValidateRadiusAsWritten | Validation.ValidateRadius |
| query_noirlab.py:186 | the message quotes `{prefix}/{fname}.fits` | any save, e.g. prefix `/data`, fname `x`: the file goes to `/data/catalogs/x.fits` but `/data/x.fits` is reported | the message quotes the path written at line 184 | high; not executed | Catalog.SavedMessageAsWritten | Catalog.SavedMessage |
