# GCRCatalogs core, modelled in Dafny

GCRCatalogs is the DESC collection of catalog readers for the DC2 and
cosmoDC2 simulated data sets. Every reader lists the native quantities of
its files, maps homogenized quantity names to native ones (the *quantity
modifiers*), and iterates over its data sets. This project models the parts
of the readers that are pure logic, and proves properties about them.
Databases, directories, HDF5 groups, parquet schemas and dataframes are
replaced by inputs given as sequences and maps.

The modelled readers and their shared parts are:

- the PostgreSQL object reader (`dc2_postgres.py`): the type translator, the
  four tract/patch filter patterns, the filter optimizer, the WHERE/SELECT
  assembly and the column catalog (modules `PgObject`, `PgFilters`,
  `PgStability`, `Partitions`);
- the HDF5 object and coadd readers and the two static coadd readers
  (`dc2_object.py`, `dc2_coadd.py`, `dc2_static_coadd_reader.py`,
  `dc2_static_merged_coadd.py`): data set discovery, tract and patch
  parsing, the getters, the caches, the native filters, the modifier tables,
  the quantity information dictionary and the flag mask (modules
  `Hdf5Datasets`, `TractPatch`, `CoaddTables`, `ObjectInfo`, `FlagMasks`);
- the DM parquet readers (`dc2_source.py`, `dc2_dia_source.py`,
  `dc2_dm_object.py`, `dc2_metacal.py`): schema versions, versioned
  modifier tables, schema reading and defaults (modules `DmSchemas`,
  `Dc2Source`, `DiaSource`, `DmObject`, `Metacal`);
- the cosmoDC2 and UniverseMachine healpix readers (`cosmodc2.py`,
  `um_hpx.py`): file-name matching, the healpix file list and its
  completeness check, the version checks, the modifier tables and the SED
  names (modules `CosmoFiles`, `CosmoVersions`, `CosmoModifiers`,
  `CosmoSeds`, `UmHpx`, `StrictVersions`);
- the photo-z reader (`photoz.py`), the truth reader (`dc2_truth.py`), the
  focal plane reader (`focal_plane.py`), the single visit reader
  (`single_visit_catalog.py`) and the AlphaQ add-on reader
  (`alphaq_addon.py`) (modules `PhotoZ`, `Dc2Truth`, `FocalPlane`,
  `SingleVisit`, `AlphaQ`).

Python strings are `seq<char>`. `str.replace`, `str.split`, `str.join`,
`str.strip` and `str()` are modelled with CPython's semantics in
`strings.dfy`; `int()` on a string is modelled for ASCII text: surrounding
ASCII whitespace, an optional sign and ASCII digits (see "Left out"). Python exceptions become `Err(kind)` values
(`wrappers.dfy`). Dictionaries that keep insertion order are `ODict` values
(`ordered_maps.dfy`). A modifier table is a map from the `_`-separated words
of a key to a `Modifier` (`tables.dfy`); functions applied to native
quantities are named, not computed.

The regular expressions are applied with `re.match`, so only a prefix of
the text has to match, and `$` accepts the end or one final newline. They
are written as scanners over the text, with lemmas proving that each
scanner accepts exactly the texts of the pattern's shape.

## Model

| member | source | states |
|---|---|---|
| PgObject.TranslateDtype | GCRCatalogs/dc2_postgres.py:26-32 | exactly `bigint`, `double precision` and `boolean` become int64, float64 and bool; every other name is returned unchanged and never fails |
| PgObject.TranslateDtypeRoundTrip | GCRCatalogs/dc2_postgres.py:26-32 | the translation loses nothing: the PostgreSQL type name can be recovered from the result |
| PgFilters.Classify | GCRCatalogs/dc2_postgres.py:74-82 | a filter is a tract filter iff either tract pattern matches; it is a patch filter iff neither tract pattern matches and a patch pattern does; the group comes from the left patch pattern when that one matches |
| PgFilters.TractLeftComplete | GCRCatalogs/dc2_postgres.py:47 | every filter that begins `tract OP N` (spaces optional, any trailing text) matches the left tract pattern |
| PgFilters.TractLeftSound | GCRCatalogs/dc2_postgres.py:47 | every filter the left tract pattern matches begins with spaces, `tract`, spaces, a tract operator, spaces and a digit |
| PgFilters.TractRightComplete | GCRCatalogs/dc2_postgres.py:48 | every filter that begins `N OP tract` matches the right tract pattern |
| PgFilters.TractRightSound | GCRCatalogs/dc2_postgres.py:48 | every filter the right tract pattern matches begins with spaces, digits, spaces, an operator, spaces and `tract` |
| PgFilters.PatchLeftComplete | GCRCatalogs/dc2_postgres.py:49 | every filter that begins `patch OP d,d` (OP `=` or `!=`) matches the left patch pattern, with that `d,d` as its group |
| PgFilters.PatchLeftSound | GCRCatalogs/dc2_postgres.py:49 | every filter the left patch pattern matches is spaces, `patch`, spaces, a patch operator, spaces and its group, then anything |
| PgFilters.PatchRightComplete | GCRCatalogs/dc2_postgres.py:50 | every filter that begins `d,d OP patch` matches the right patch pattern, with that `d,d` as its group |
| PgFilters.PatchRightSound | GCRCatalogs/dc2_postgres.py:50 | every filter the right patch pattern matches is spaces, its group, spaces, a patch operator, spaces and `patch`, then anything |
| PgObject.OptimizeFilters | GCRCatalogs/dc2_postgres.py:73-93 | the loop returns the rewritten tract/patch filters in input order followed by the other filters in input order, one output per input |
| PgObject.OptimizeLength | GCRCatalogs/dc2_postgres.py:62-65 | nothing is dropped: there are as many outputs as inputs, whatever the docstring allows |
| PgObject.OptimizeIsPermutation | GCRCatalogs/dc2_postgres.py:73-92 | the output is a reordering of the inputs each rewritten on its own |
| Partitions.PartitionIsPermutation | GCRCatalogs/dc2_postgres.py:73-92 | for any predicate and any rewrite that leaves unselected elements alone, the partition is a reordering of the elements rewritten one by one |
| Partitions.PartitionIdempotent | GCRCatalogs/dc2_postgres.py:73-92 | partitioning twice is partitioning once when no rewritten element is selected again |
| Partitions.PrefixStep | GCRCatalogs/dc2_postgres.py:76-91 | one more element extends exactly one of the two parts, by its rewrite or by itself |
| PgObject.OptimizeAppend | GCRCatalogs/dc2_postgres.py:73-92 | both output groups keep input order: optimizing a concatenation concatenates the groups of the parts |
| PgObject.OptimizeSingle | GCRCatalogs/dc2_postgres.py:91 | a filter that matches no pattern is passed through verbatim; one that matches is rewritten |
| PgStability.TractLeftRewriteStable | GCRCatalogs/dc2_postgres.py:77 | a rewritten left-form tract filter matches none of the four patterns |
| PgStability.PatchLeftRewriteStable | GCRCatalogs/dc2_postgres.py:85-87 | a rewritten left-form patch filter matches none of the four patterns |
| PgStability.PatchRightRewriteStable | GCRCatalogs/dc2_postgres.py:85-87 | a rewritten right-form patch filter starts with the quoted literal and matches none of the four patterns |
| PgStability.RewriteStable | GCRCatalogs/dc2_postgres.py:74-89 | rewriting any tract or patch filter that is not right-form tract a second time changes nothing |
| PgStability.TractRightRewriteAgain | GCRCatalogs/dc2_postgres.py:75-77 | a rewritten right-form tract filter still begins `N OP tract`, so it is rewritten again and grows |
| PgStability.PatchLeftText | GCRCatalogs/dc2_postgres.py:85-87 | in a left-form patch filter the leading `patch` becomes the UDF call and the rest is rewritten |
| PgStability.PatchRightText | GCRCatalogs/dc2_postgres.py:85-87 | in a right-form patch filter the leading `d,d` becomes the quoted literal and the rest is rewritten |
| PgStability.TractRightText | GCRCatalogs/dc2_postgres.py:77 | a rewritten right-form tract filter keeps `N OP` and continues with the UDF call |
| PgObject.OptimizeIdempotent | GCRCatalogs/dc2_postgres.py:73-92 | optimizing the optimizer's output again changes nothing when no filter is right-form tract |
| PgObject.OptimizeTwiceTractRight | GCRCatalogs/dc2_postgres.py:75-78 | a right-form tract filter is rewritten differently by a second pass |
| PgObject.AllFilters | GCRCatalogs/dc2_postgres.py:206-209 | the filters are the base filters followed by the native filters, or the base filters alone without native filters |
| PgObject.WhereClause | GCRCatalogs/dc2_postgres.py:211-215 | the clause is empty exactly when there are no filters |
| PgObject.WhereClauseParts | GCRCatalogs/dc2_postgres.py:212-213 | a non-empty clause is `WHERE ` followed by the optimized filters, each in parentheses, joined by ` AND ` |
| PgObject.SelectQuery | GCRCatalogs/dc2_postgres.py:223-228 | the query starts with `SELECT ` and ends with a space, the WHERE clause and `;` |
| PgObject.SelectQueryParse | GCRCatalogs/dc2_postgres.py:223-228 | the query text is `SELECT `, the columns joined by `, `, ` FROM `, `schema.table`, a space, the clause and `;`: for column names without space or comma, a schema without dot or space and a table without space, reading the text back gives exactly the columns, schema, table and clause |
| PgObject.ColumnDtypes | GCRCatalogs/dc2_postgres.py:134-138 | the catalog is a valid ordered dictionary: its keys are distinct and are exactly its domain |
| PgObject.ColumnDtypesKeys | GCRCatalogs/dc2_postgres.py:134-138 | a name is recorded iff some row carries it, unless it is `coord` and `coord` is skipped |
| PgObject.ColumnDtypesLastWins | GCRCatalogs/dc2_postgres.py:138 | each recorded name has the translated type of the last row carrying it |
| PgObject.DpddDtypes | GCRCatalogs/dc2_postgres.py:136-137 | the dpdd catalog never records `coord` |
| PgObject.NativeQuantityList | GCRCatalogs/dc2_postgres.py:173-174 | the native quantities are exactly the dpdd column names other than `coord`, each once |
| PgObject.NativeTables | GCRCatalogs/dc2_postgres.py:116-119 | the native tables are the other tables followed by the dpdd table |
| PgObject.NativeDtypes | GCRCatalogs/dc2_postgres.py:160-171 | the native catalog is a valid ordered dictionary over all tables' rows |
| PgObject.QueryDtypes | GCRCatalogs/dc2_postgres.py:222 | `KeyError` iff some requested column is not a dpdd column; otherwise `TypeError` iff some requested column has a type `_translate_dtype` left untranslated; otherwise every requested column gets its (translated) dpdd type, in request order |
| PgObject.DtypeFields | GCRCatalogs/dc2_postgres.py:222 | the comprehension succeeds iff every requested column is a dpdd column (else `KeyError`), pairing each column with its dpdd type in request order |
| Strings.ReplaceSkipsPrefix | GCRCatalogs/dc2_postgres.py:77 | `str.replace` copies a prefix in which the pattern cannot start |
| Strings.ReplaceAbsent | GCRCatalogs/dc2_postgres.py:77 | `str.replace` changes nothing when the pattern does not occur |
| Strings.PyIntIntToString | GCRCatalogs/dc2_object.py:120 | `int(str(i)) == i` |
| Strings.SplitJoin | GCRCatalogs/dc2_object.py:120 | splitting on a character absent from the pieces inverts joining them with it |
| Strings.EvenCharsJoinChars | GCRCatalogs/dc2_object.py:121 | `','.join(s)` can be undone by taking every other character |
| Dc2Truth.WhereClause | GCRCatalogs/dc2_truth.py:42-50 | the clause always starts ` FROM truth`; it is exactly that iff there are no native filters, and otherwise continues with ` WHERE ` |
| Dc2Truth.SingleWrapped | GCRCatalogs/dc2_truth.py:47-48 | a filter that is neither a list nor a tuple behaves as a one-element list |
| Dc2Truth.EmptyListDangles | GCRCatalogs/dc2_truth.py:45-50 | an empty list leaves ` WHERE ` with no condition after it |
| Dc2Truth.TwoFiltersJoined | GCRCatalogs/dc2_truth.py:50 | filters are joined by a bare ` AND `, without parentheses |
| Dc2Truth.WhereNamesEach | GCRCatalogs/dc2_truth.py:50 | every filter appears in the clause |
| Dc2Truth.Query | GCRCatalogs/dc2_truth.py:55-56 | the query starts `SELECT ` and ends with a space and the clause |
| Dc2Truth.QueryUnfiltered | GCRCatalogs/dc2_truth.py:42-56 | without filters the query is the columns joined by `, ` and then two spaces and `FROM truth` |
| Dc2Truth.QueryNamesEach | GCRCatalogs/dc2_truth.py:55-56 | every requested column appears in the query |
| Dc2Truth.NativeDataPositional | GCRCatalogs/dc2_truth.py:35-36 | with one column per distinct native name, each name holds the column at its own position, and no other name is present |
| Dc2Truth.QuantityInfo | GCRCatalogs/dc2_truth.py:66-69 | a described quantity gets `{'description': d}`; any other gets the caller's default |
| Dc2Truth.QuantityInfoRows | GCRCatalogs/dc2_truth.py:22-69 | a quantity is described iff some metadata row names it, and then by the last such row |
| Dc2Truth.LastRow | GCRCatalogs/dc2_truth.py:23 | the row found names the quantity and no later row does |
| CosmoVersions.ReaderCheck | GCRCatalogs/cosmodc2.py:122-124 | opening succeeds iff the configured version parses and is not later than the reader's `1.0.0`; otherwise `ValueError` |
| CosmoVersions.ReaderCheckFormat | GCRCatalogs/cosmodc2.py:122-124 | a configured version written as `str()` prints it passes exactly when it is not later than `1.0.0` |
| CosmoVersions.ReaderCheckDefault | GCRCatalogs/cosmodc2.py:122-124 | the default configured version `0.0.0` passes the opening check |
| CosmoVersions.PresentRun | GCRCatalogs/cosmodc2.py:204-209 | the collected numbers are the stored `versionMajor`, `versionMinor`, `versionMinorMinor` values in order, stopping at the first one missing |
| CosmoVersions.CheckVersion | GCRCatalogs/cosmodc2.py:202-213 | the check passes iff the catalog's version and the configured version both parse and are equal; every failure is `ValueError` |
| CosmoVersions.CatalogVersionMissing | GCRCatalogs/cosmodc2.py:210 | a file without `versionMajor` has version `0.0` |
| CosmoVersions.CatalogVersionMajorOnly | GCRCatalogs/cosmodc2.py:210 | a file with only `versionMajor` gives a one-number text that `StrictVersion` rejects with `ValueError` |
| CosmoVersions.CatalogVersionPresent | GCRCatalogs/cosmodc2.py:204-210 | with major and minor present, the catalog version is those numbers and the patch, or 0 when the patch is missing |
| CosmoVersions.CheckVersionFormat | GCRCatalogs/cosmodc2.py:210-213 | against a configured version printed by `str()`, the check passes iff the catalog version is that version |
| CosmoFiles.Greedy | GCRCatalogs/cosmodc2.py:160-162 | the greedy `(\d+)` backtracks to the longest digit run after which the template's tail matches, and no longer run has a matching tail |
| CosmoFiles.MatchFileName | GCRCatalogs/cosmodc2.py:160-166 | a name formatted from the template with one-digit redshift bounds, followed by anything not starting with a digit, matches and yields exactly its numbers |
| CosmoFiles.MatchShape | GCRCatalogs/cosmodc2.py:160-162 | a matching name has its two one-digit groups and then a pixel run that the tail follows |
| CosmoFiles.MatchLengthOf | GCRCatalogs/cosmodc2.py:160-162 | on a formatted name, the match covers exactly that name |
| CosmoFiles.ScanKeys | GCRCatalogs/cosmodc2.py:161-174 | a (lower redshift, pixel) key is in the dictionary iff some listed name matches, passes the selection and carries that key |
| CosmoFiles.ScanLast | GCRCatalogs/cosmodc2.py:174 | a key holds the path of the last name (in scan order) that supplies it |
| CosmoFiles.ScanOrder | GCRCatalogs/cosmodc2.py:161-174 | the keys found in a prefix of the names start the keys of the whole scan: insertion order is kept |
| CosmoFiles.HealpixFileList | GCRCatalogs/cosmodc2.py:155-185 | the result is the scan of the sorted listing; it fails only when the completeness check is asked for, and then with `ValueError` |
| CosmoFiles.Grid | GCRCatalogs/cosmodc2.py:177-181 | the grid is undefined (the `min`/`max` of no keys) exactly when no file is kept and a redshift bound is missing |
| CosmoFiles.CheckComplete | GCRCatalogs/cosmodc2.py:176-183 | the completeness check only ever fails with `ValueError` |
| CosmoFiles.PixelsOfMembers | GCRCatalogs/cosmodc2.py:181 | the default pixels are exactly the pixels of the kept keys |
| CosmoFiles.CompleteDefaults | GCRCatalogs/cosmodc2.py:176-183 | with no selection, the check passes iff every lower redshift from the smallest to the largest kept one has a file for every kept pixel |
| CosmoFiles.CompleteEmpty | GCRCatalogs/cosmodc2.py:176-183 | with no file kept, the check fails iff a redshift bound is missing or the given grid is non-empty |
| CosmoFiles.CompleteHasFiles | GCRCatalogs/cosmodc2.py:161-183 | when the check passes, every cell of the grid has a listed file whose name supplies it |
| CosmoFiles.DatasetsKeep | GCRCatalogs/cosmodc2.py:282-286 | a file is read iff its key is in the dictionary and the native filters accept its (pixel, lower redshift) |
| CosmoSeds.ParseSed | GCRCatalogs/cosmodc2.py:429-434 | a match captures a non-empty lower-case component and two non-empty digit runs |
| CosmoSeds.ParseSedText | GCRCatalogs/cosmodc2.py:429-434 | the pattern matches every SED name printed from valid groups (with or without the dust tag, with or without one trailing newline) and captures exactly those groups |
| CosmoSeds.ParseSedSound | GCRCatalogs/cosmodc2.py:429-434 | every name the pattern matches is the text of its captured groups followed by nothing or one newline |
| CosmoSeds.ComponentWords | GCRCatalogs/cosmodc2.py:428-435 | only `total`, `disk` and `spheroid` have a translation; any other component raises `KeyError` |
| CosmoSeds.SedKey | GCRCatalogs/cosmodc2.py:435 | the key starts `sed`, start, width, and fails with `KeyError` exactly when the component is unknown |
| CosmoSeds.SedKeyText | GCRCatalogs/cosmodc2.py:428-435 | the key reads `sed_{start}_{width}` then `''`, `_disk` or `_bulge`, then nothing with dust and `_no_host_extinction` without |
| CosmoSeds.SedEntry | GCRCatalogs/cosmodc2.py:430-436 | a non-matching name adds nothing; a matching one adds its key aliasing the name itself, or raises `KeyError` for an unknown component |
| CosmoSeds.DropPlaceholders | GCRCatalogs/cosmodc2.py:438-441 | the natives that start with `emissionLines/` or end with `ContinuumLuminosity` are removed and every other native is kept |
| CosmoSeds.SedNativeKept | GCRCatalogs/cosmodc2.py:429-441 | the removal never drops a native quantity that an SED key aliases |
| CosmoModifiers.BaseNoMag | GCRCatalogs/cosmodc2.py:306-404 | no key of the fixed table is a magnitude key or starts with `sed` |
| CosmoModifiers.BlockDistinct | GCRCatalogs/cosmodc2.py:407-425 | one pass of the band loop writes each key at most once |
| CosmoModifiers.ModifiersErr | GCRCatalogs/cosmodc2.py:305-451 | building the table fails exactly when some SED native has a component outside the translation table |
| CosmoModifiers.OtherKeys | GCRCatalogs/cosmodc2.py:306-404 | every key other than magnitudes, SEDs and `halo_id` is present iff the fixed table has it, with the fixed value |
| CosmoModifiers.HaloFinal | GCRCatalogs/cosmodc2.py:443-449 | `halo_id` is `hostHaloTag` up to version 0.2, `UMachineNative/halo_id` below 0.4.6 and `uniqueHaloID` from 0.4.6 on: the second override wins |
| CosmoModifiers.OverridesOther | GCRCatalogs/cosmodc2.py:443-449 | the version overrides touch no key but `halo_id` |
| CosmoModifiers.BandKeys | GCRCatalogs/cosmodc2.py:406-425 | a magnitude key is present iff the pass of its own band writes it, with that pass's value |
| CosmoModifiers.SdssKeys | GCRCatalogs/cosmodc2.py:408-414 | the six SDSS keys of a band exist iff the band is not `y` or `Y`, with the lensed, observed and rest-frame natives of that band |
| CosmoModifiers.LsstKeys | GCRCatalogs/cosmodc2.py:416-421 | the six LSST keys exist for every band of `ugrizyY` with their values |
| CosmoModifiers.SameLower | GCRCatalogs/cosmodc2.py:416-421 | LSST keys of bands that differ only in case read the same natives, because the natives use the lower-cased band |
| CosmoModifiers.ShortAliases | GCRCatalogs/cosmodc2.py:423-425 | `mag_{b}` and `mag_true_{b}` exist iff the band is not `Y`, as the lensed and the plain observed LSST magnitude with dust |
| CosmoModifiers.ShortAliasesLsst | GCRCatalogs/cosmodc2.py:423-425 | each short alias holds the same value as its `_lsst` key |
| CosmoModifiers.SedKeys | GCRCatalogs/cosmodc2.py:427-436 | an SED key is present iff some native is named for it, and it aliases one such native (a later one overwrites an earlier) |
| UmHpx.Stem | GCRCatalogs/um_hpx.py:98-100 | a stem exists exactly when the name matches the file-name pattern |
| UmHpx.StemNumbers | GCRCatalogs/um_hpx.py:101 | unpacking succeeds iff the stem holds exactly three digit runs; otherwise `ValueError` |
| UmHpx.Numbers | GCRCatalogs/um_hpx.py:98-101 | a name yields no numbers exactly when the pattern does not match it; unpacking failures are `ValueError` |
| UmHpx.NumbersOfName | GCRCatalogs/um_hpx.py:89-101 | a name formatted from the template with one-digit redshift bounds, followed by anything, gives back exactly the numbers it was formatted from |
| UmHpx.Scan | GCRCatalogs/um_hpx.py:95-104 | the collected redshift values are exactly the bounds, and the pixels exactly the pixels, of the matching names; any unpacking failure is `ValueError` |
| UmHpx.HealpixInfoErr | GCRCatalogs/um_hpx.py:92-106 | the defaults fail iff the directory is empty, some matching name cannot be unpacked, or no name matches (the `min` of nothing) |
| UmHpx.HealpixInfoOk | GCRCatalogs/um_hpx.py:95-106 | on success the defaults are the least and greatest bound of any matching file, and the pixels are exactly the matching files' pixels, whatever the listing order |
| UmHpx.CandidatesSpec | GCRCatalogs/um_hpx.py:110 | the candidate list has one entry per block of `range(lo, hi)` and pixel, the file of block `z` and pixel `j` at position `(z - lo) * n + j`, and nothing else |
| UmHpx.CheckFileList | GCRCatalogs/um_hpx.py:111-114 | the kept files are the existing candidates in candidate order; failures are `AssertionError` |
| UmHpx.CheckFileListErr | GCRCatalogs/um_hpx.py:112-114 | the check fails iff completeness is asserted and a candidate is absent, or an existing candidate is not a regular file |
| UmHpx.PixelOnlyHolds | GCRCatalogs/um_hpx.py:179-187 | a filter on `healpix_pixel` alone gives the same answer in the pixel pass and the block pass |
| UmHpx.BlocksRead | GCRCatalogs/um_hpx.py:183-196 | the inner loop of one pixel reads a block iff it is in range and accepted |
| UmHpx.DatasetsRead | GCRCatalogs/um_hpx.py:175-199 | a (pixel, block) is read iff the pixel is asked for, the block is in range, every filter accepts both arguments, and the file opens; the pixel pass only saves work |
| UmHpx.UmFixedKeys | GCRCatalogs/um_hpx.py:54-68 | every key outside the magnitude loop is the dictionary display's, `is_central` being `upid == -1` |
| UmHpx.MagBlockWrites | GCRCatalogs/um_hpx.py:84-85 | one pass writes exactly its SDSS and LSST `Mag_true_{b}_..._z0` keys, both aliasing the same rest-frame magnitude |
| UmHpx.UmMagKeys | GCRCatalogs/um_hpx.py:82-85 | a `Mag` key is present iff it is the SDSS or LSST name of a band of `gri`, aliasing that band's rest-frame magnitude |
| PhotoZ.DefaultNameComplete | GCRCatalogs/photoz.py:21-59 | every name of the shape `run\d.\d+[a-z]+_PZ_tract_\d+.h5`, then nothing or one newline, matches the default pattern |
| PhotoZ.DefaultNameSound | GCRCatalogs/photoz.py:21-59 | every name the default pattern matches has exactly that shape |
| PhotoZ.Changes | GCRCatalogs/photoz.py:76 | from row `i` on, a row is listed iff its patch differs from the row before, in increasing order |
| PhotoZ.Boundaries | GCRCatalogs/photoz.py:76 | the boundaries are 0, every row whose patch differs from the previous one, and the row count, strictly increasing |
| PhotoZ.Runs | GCRCatalogs/photoz.py:76-78 | the slices start at 0 and end at the row count |
| PhotoZ.RunsSlices | GCRCatalogs/photoz.py:77-78 | the slices are non-empty, in range, back to back, each labelled with the patch of its first row |
| PhotoZ.RunConstant | GCRCatalogs/photoz.py:76-78 | every row of a slice has the slice's patch |
| PhotoZ.RunsMaximal | GCRCatalogs/photoz.py:76-78 | each slice is constant and neighbouring slices hold different patches |
| PhotoZ.RunContaining | GCRCatalogs/photoz.py:76-78 | every row lies in exactly one slice |
| PhotoZ.TractEntry | GCRCatalogs/photoz.py:70-78 | an entry takes its tract from the first row and records the file name; an empty file raises `IndexError` at `iloc[0]` |
| PhotoZ.DatasetsErr | GCRCatalogs/photoz.py:58-80 | the loop fails exactly when a file it reads is empty |
| PhotoZ.DatasetsNames | GCRCatalogs/photoz.py:58-80 | the recorded files are the matching, readable names, in order; the others are skipped |
| PhotoZ.DatasetsEntries | GCRCatalogs/photoz.py:70-80 | each recorded entry is the entry of its own file |
| PhotoZ.DefaultDatasets | GCRCatalogs/photoz.py:58-80 | with the default pattern the recorded files are the readable names of that shape in sorted order, and every such name of the listing is recorded |
| PhotoZ.ModifierPairs | GCRCatalogs/photoz.py:39-46 | the assignments are `id`, `pz_z_peak`, then one `pz_pdf_z…` key per bin centre whose value is the bin index |
| PhotoZ.ModifierKeys | GCRCatalogs/photoz.py:39-46 | with distinct bin keys, the dictionary's keys are `id`, `pz_z_peak` and the bin keys in order |
| PhotoZ.ModifierValues | GCRCatalogs/photoz.py:39-46 | `id` is `ID`, `pz_z_peak` is `z_peak`, and bin `i`'s key is column `i` |
| PhotoZ.NativeQuantitiesSpec | GCRCatalogs/photoz.py:48-51 | the native list is the modifier values in order followed by the two filter quantities |
| PhotoZ.ScanUnits | GCRCatalogs/photoz.py:96-111 | the yielded patches are exactly the patches the filters let through, in order |
| PhotoZ.ScanRereads | GCRCatalogs/photoz.py:104-106 | a file is re-read for a yield exactly when its name differs from the file of the yield before |
| PhotoZ.IterateUnfiltered | GCRCatalogs/photoz.py:96-111 | without filters every patch of every tract is yielded, the first one reading its file |
| PhotoZ.SliceOf | GCRCatalogs/photoz.py:108-110 | a slice within bounds is the sub-sequence; bounds past the end are clamped as Python does |
| PhotoZ.PatchGetter | GCRCatalogs/photoz.py:75-110 | the getter of a patch returns, for the patch column, that patch once per row of its slice and nothing else |
| DmSchemas.SchemaVersion | GCRCatalogs/dc2_source.py:108-113 | the detected version is always one of 1, 2 and 3 |
| DmSchemas.VersionNames | GCRCatalogs/dc2_source.py:108-113 | the version is 1 only with a `_fluxSigma` column, 2 only with a `_fluxErr` column and none ending `_fluxSigma`, and 3 only when no column ends with either |
| DmSchemas.FluxName | GCRCatalogs/dc2_source.py:138 | the flux word is `flux` exactly up to version 2 |
| DmSchemas.ErrName | GCRCatalogs/dc2_source.py:139 | the error word is `Sigma` exactly up to version 1 |
| DmSchemas.DpddModifiers | GCRCatalogs/dc2_source.py:105-106 | a DPDD catalog maps exactly its schema columns, each to the identity |
| Dc2Source.SourceModifiers | GCRCatalogs/dc2_source.py:135-136 | the table is built iff the version is 1, 2 or 3; any other version raises `ValueError` |
| Dc2Source.SourceVersionedNames | GCRCatalogs/dc2_source.py:138-190 | the centroid errors, PSF fluxes and blendedness read the native names built from the version's flux and error words |
| Dc2Source.SourceKeysStable | GCRCatalogs/dc2_source.py:141-206 | every accepted version has the same quantities; only native names change |
| Dc2Source.SourceCleanIsGood | GCRCatalogs/dc2_source.py:193-206 | `good` masks the six pixel flags, and `clean` is the same mask with `deblend_skipped` in front |
| Dc2Source.QuantityModifiersOk | GCRCatalogs/dc2_source.py:105-115 | installing the modifiers never raises, since the detected version is always accepted; a DPDD catalog reads exactly its schema columns as themselves |
| Dc2Source.FilterSorted | GCRCatalogs/dc2_source.py:262-274 | keeping some entries of a sorted listing keeps it sorted |
| Dc2Source.DatasetsSpec | GCRCatalogs/dc2_source.py:261-276 | the data sets come in sorted order, and a file is one iff it is listed, matches the pattern and opens |
| Dc2Source.FromDtypes | GCRCatalogs/dc2_source.py:319 | the native schema has exactly the frame's columns, each with its dtype and no default |
| Dc2Source.FirstNonEmpty | GCRCatalogs/dc2_source.py:314-323 | the position found is the first data set with any column, or none when all are empty |
| Dc2Source.SchemaFromDatafilesFirst | GCRCatalogs/dc2_source.py:313-325 | the schema read from the data files is the schema of the first non-empty data set, or empty |
| Dc2Source.ReaderSchema | GCRCatalogs/dc2_source.py:91-103 | with no data set the reader raises `RuntimeError`; a non-empty YAML schema is used as it is |
| Dc2Source.GenerateSchemaYaml | GCRCatalogs/dc2_source.py:333-335 | writing fails with `RuntimeError` iff the schema file exists and `overwrite` is not set |
| Dc2Source.WithDefaultsSpec | GCRCatalogs/dc2_source.py:341-344 | boolean `_flag_bad` and `_flag_noGoodPixels` columns get default `True`; every other column is unchanged, and no column is added or lost |
| Dc2Source.WithDefaultsIdempotent | GCRCatalogs/dc2_source.py:341-344 | applying the defaults twice is applying them once |
| Dc2Source.NativeQuantities | GCRCatalogs/dc2_source.py:377-379 | the native quantities are exactly the schema's columns |
| DiaSource.DiaApFluxNames | GCRCatalogs/dc2_dia_source.py:107-112 | the aperture flux and its error read the version's flux columns, calibrated with `fluxmag0` |
| DiaSource.DiaPsFluxNames | GCRCatalogs/dc2_dia_source.py:114-119 | the PSF flux and its error read the version's flux columns, calibrated with `fluxmag0` |
| DiaSource.DiaCentroidFixed | GCRCatalogs/dc2_dia_source.py:105-106 | `xErr` and `yErr` are `slot_Centroid_xErr` and `slot_Centroid_yErr` in every version |
| DiaSource.XErrAgreesWithSource | GCRCatalogs/dc2_dia_source.py:105-106 | the fixed `xErr` agrees with the source reader's exactly from version 2 on |
| DiaSource.DiaCleanIsGood | GCRCatalogs/dc2_dia_source.py:142-152 | `clean` and `good` are the same mask over the six pixel flags |
| DiaSource.DiaKeysStable | GCRCatalogs/dc2_dia_source.py:91-154 | every version, accepted without a check, has the same quantities |
| DiaSource.DiaQuantityModifiers | GCRCatalogs/dc2_dia_source.py:66-76 | a DPDD catalog reads exactly its schema columns as themselves; otherwise the table has the keys of every version |
| DmObject.DmSchemaVersion | GCRCatalogs/dc2_dm_object.py:63-70 | the version is the source reader's up to 2, else 3 iff `base_Blendedness_abs_instFlux` is a column, else 4 |
| DmObject.BlendSuffix | GCRCatalogs/dc2_dm_object.py:99 | the blendedness suffix is non-empty exactly up to version 3 |
| DmObject.DmModifiers | GCRCatalogs/dc2_dm_object.py:94-95 | the table is built iff the version is 1 to 4; otherwise `ValueError` |
| DmObject.DmKeys | GCRCatalogs/dc2_dm_object.py:101-188 | a key outside the band loop's shapes is present iff the fixed part has it, with its value; a band-shaped key is present iff its band is looped over and that band's pass writes it, with that pass's value |
| DmObject.DmMag | GCRCatalogs/dc2_dm_object.py:139 | `mag_{b}` is `{b}_mag` for exactly the bands looped over |
| DmObject.DmPsFlux | GCRCatalogs/dc2_dm_object.py:141-142 | `psFlux_{b}` reads the version's PSF flux column in nanojansky for exactly the bands looped over |
| DmObject.DmCModelMag | GCRCatalogs/dc2_dm_object.py:166-176 | `mag_{b}_cModel` is `{b}_modelfit_mag` when the catalog has `_modelfit_mag` columns, and otherwise computed from the cModel flux: the later assignment wins |
| DmObject.DmFixedKey | GCRCatalogs/dc2_dm_object.py:101-136 | a key set before the band loop keeps its value whatever the bands |
| DmObject.DmXErr | GCRCatalogs/dc2_dm_object.py:98-109 | the centroid error reads `Sigma` columns in version 1 and `Err` columns after |
| DmObject.DmBlendedness | GCRCatalogs/dc2_dm_object.py:99-113 | the blendedness column carries `_` and the flux word up to version 3 and nothing after |
| DmObject.DmGood | GCRCatalogs/dc2_dm_object.py:116-126 | `good` masks the seven flags |
| DmObject.DmCleanIsGood | GCRCatalogs/dc2_dm_object.py:126-130 | `clean` is `good` with `deblend_skipped` also required unset |
| DmObject.DmBlendednessDetected | GCRCatalogs/dc2_dm_object.py:67-113 | in version 3 the blendedness column read is the column the version was detected by |
| DmObject.DmReader | GCRCatalogs/dc2_dm_object.py:49-75 | no data set raises `RuntimeError`; a DPDD catalog reads exactly the first data set's columns as themselves |
| DmObject.DmReaderMag | GCRCatalogs/dc2_dm_object.py:72-139 | `mag_{b}` is a key iff the first data set has the five-character column `{b}_mag` |
| Metacal.VariantsDistinct | GCRCatalogs/dc2_metacal.py:56 | the variant loop visits each of the five variants exactly once |
| Metacal.BaseSize | GCRCatalogs/dc2_metacal.py:47-53 | there are five fixed keys |
| Metacal.MetacalCount | GCRCatalogs/dc2_metacal.py:47-80 | with distinct bands all keys are distinct and there are 5 + 5 · (4 + 4 · bands) of them, 85 for `riz` |
| Metacal.MetacalBaseKept | GCRCatalogs/dc2_metacal.py:47-53 | the fixed keys, including `objectId` → `id`, survive the loops unchanged |
| Metacal.MetacalShape | GCRCatalogs/dc2_metacal.py:56-63 | for every variant, `mcal_{g1,g2,T,s2n}{v}` reads `mcal_gauss_{q}{v}`, whatever the bands |
| Metacal.BandKey | GCRCatalogs/dc2_metacal.py:66-80 | each of a looped band's four entries of each variant is in the table with its value |
| Metacal.FluxKeyName | GCRCatalogs/dc2_metacal.py:67 | the flux key's words join to `mcal_flux_{b}{v}` |
| Metacal.FluxErrKeyName | GCRCatalogs/dc2_metacal.py:69 | the flux error key's words join to `mcal_flux_err_{b}{v}` |
| Metacal.MetacalFlux | GCRCatalogs/dc2_metacal.py:66-70 | `mcal_flux_{b}{v}` and `mcal_flux_err_{b}{v}` rescale the Gaussian-fit flux and its error of the same band and variant |
| Metacal.MetacalMag | GCRCatalogs/dc2_metacal.py:72-75 | `mcal_mag_{b}{v}` reads the derived quantity `mcal_flux_{b}{v}`, which is itself a key of the table |
| Metacal.MetacalMagErr | GCRCatalogs/dc2_metacal.py:76-80 | `mcal_mag_err_{b}{v}` reads the derived flux and flux error of the same band and variant, both keys of the table |
| FocalPlane.Rebinning | GCRCatalogs/focal_plane.py:33 | `float(x or 1)`: no rebinning or a zero rebinning means 1, any other value is kept |
| FocalPlane.ParseSensor | GCRCatalogs/focal_plane.py:26-33 | the parsed visit holds no `_`, the raft is `R` and at most two characters, the name `S` and at most two; a name without the fields raises `IndexError` |
| FocalPlane.ParsePhosimName | GCRCatalogs/focal_plane.py:26-33 | a phosim image name `lsst_e_<visit>_f<filter>_R<xy>_S<xy>_E000.fits` parses to exactly its visit, `R<xy>` and `S<xy>` |
| FocalPlane.AddSensorToRaft | GCRCatalogs/focal_plane.py:49-55 | a sensor is filed iff its raft and visit are the raft's and its name is new; otherwise the raft is unchanged; filed sensors are never replaced |
| FocalPlane.AddSensorToRaftValid | GCRCatalogs/focal_plane.py:49-53 | every sensor of a raft stays filed under its own name, of the raft's raft and visit |
| FocalPlane.NewPlane | GCRCatalogs/focal_plane.py:59-62 | a new focal plane has its visit and no rafts |
| FocalPlane.AddRaft | GCRCatalogs/focal_plane.py:64-68 | a raft is added iff its visit is the plane's and its name is new; otherwise the plane is unchanged |
| FocalPlane.AddSensor | GCRCatalogs/focal_plane.py:70-73 | adding fails with `KeyError` iff the sensor's raft is missing and cannot be created because its visit differs; otherwise the plane gains that raft name at most |
| FocalPlane.AddSensorValid | GCRCatalogs/focal_plane.py:70-73 | every raft stays filed under its name with the plane's visit, and every sensor filed correctly |
| FocalPlane.AddSensorFiles | GCRCatalogs/focal_plane.py:70-73 | a sensor of the plane's visit with a new name is filed; one of an existing raft with another visit or a taken name changes nothing; filed sensors stay |
| FocalPlane.LoadValid | GCRCatalogs/focal_plane.py:100-102 | loading keeps the plane valid and its visit |
| FocalPlane.LoadWith | GCRCatalogs/focal_plane.py:100-102 | a load keeps the plane's visit and every raft; it fails only with `KeyError` from `add_sensor` or with the error parsing some file raised |
| FocalPlane.Load | GCRCatalogs/focal_plane.py:100-102 | `_load_focal_plane` keeps the visit and every raft, and fails only with `IndexError` (a file name without the sensor fields) or `KeyError` |
| FocalPlane.LoadAbsorbs | GCRCatalogs/focal_plane.py:100-102 | after a load every file's sensor is filed or refused for good |
| FocalPlane.LoadTwice | GCRCatalogs/focal_plane.py:100-116 | the reader reloads on every listing; loading a second time changes nothing |
| FocalPlane.NativeQuantities | GCRCatalogs/focal_plane.py:104-111 | listing succeeds iff loading does, and lists `visit` and the names of the loaded plane |
| FocalPlane.QuantityKinds | GCRCatalogs/focal_plane.py:105-110 | every listed name is `visit`, a raft name or `raft-sensor` of a filed sensor |
| FocalPlane.Getter | GCRCatalogs/focal_plane.py:113-122 | `visit` succeeds iff loading does; a name without `-` succeeds iff it is a raft; errors are `KeyError` or `ValueError` |
| FocalPlane.SensorQuantitySplit | GCRCatalogs/focal_plane.py:110-118 | a `raft-sensor` name splits back into its raft and sensor |
| FocalPlane.GetterVisit | GCRCatalogs/focal_plane.py:114-116 | on a loaded plane `visit` fetches the plane itself |
| FocalPlane.GetterRaft | GCRCatalogs/focal_plane.py:108-122 | a listed raft name fetches that raft |
| FocalPlane.GetterSensor | GCRCatalogs/focal_plane.py:110-120 | the listed `raft-sensor` name of a filed sensor fetches that sensor |
| FocalPlane.IterNativeDataset | GCRCatalogs/focal_plane.py:124-127 | native filters are refused with `ValueError`; without them the getter is yielded |
| FocalPlane.CatalogVisit | GCRCatalogs/focal_plane.py:83-96 | a root that is neither a directory nor a glob raises `ValueError`; the instance catalog's visit wins; with neither it nor an image, `IndexError` |
| FocalPlane.CatalogVisitFirstFiled | GCRCatalogs/focal_plane.py:93-102 | without an instance catalog the visit is the first image's own, so that image is always filed |
| AlphaQ.PrefixesSpec | GCRCatalogs/alphaq_addon.py:91 | prefixing one index `i` gives exactly the tuples headed by `i` whose tail is listed |
| AlphaQ.PrefixedSpec | GCRCatalogs/alphaq_addon.py:91 | prepending each index below `n` gives exactly the tuples whose head is below `n` and whose tail is listed |
| AlphaQ.ProductSpec | GCRCatalogs/alphaq_addon.py:91 | `product(*map(range, shape))` enumerates exactly the index tuples within the shape |
| AlphaQ.ParseInts | GCRCatalogs/alphaq_addon.py:104 | `int` of each piece, one integer per piece; the first failure raises `ValueError` |
| AlphaQ.ParseIntsOk | GCRCatalogs/alphaq_addon.py:104 | the pieces parse exactly when each is an integer literal |
| AlphaQ.ParseIntsValues | GCRCatalogs/alphaq_addon.py:104 | each parsed index is the integer `int` reads from its own piece |
| AlphaQ.ParseQuantity | GCRCatalogs/alphaq_addon.py:99-105 | a name without `/` is a whole field; failures are `ValueError` |
| AlphaQ.ParseIndexStrings | GCRCatalogs/alphaq_addon.py:92-104 | `int(str(i))` gives back every index |
| AlphaQ.IndexNameJoined | GCRCatalogs/alphaq_addon.py:92 | for a field name without `/`, the strip leaves `name/i1/.../ik` untouched |
| AlphaQ.ParseJoined | GCRCatalogs/alphaq_addon.py:102-104 | `name/i1/.../ik` splits at the first `/` into the field name and the integer indices |
| AlphaQ.ParseIndexName | GCRCatalogs/alphaq_addon.py:92-105 | the getter inverts the naming: an element name reads back as its field and indices |
| AlphaQ.ElementNameIn | GCRCatalogs/alphaq_addon.py:88-92 | each index tuple within a field's shape names a native quantity |
| AlphaQ.FieldNamesParse | GCRCatalogs/alphaq_addon.py:88-105 | every native name of a field reads back as that whole field or as one element within its shape |
| AlphaQ.TidalNativesParse | GCRCatalogs/alphaq_addon.py:84-105 | every native quantity of the tidal catalog belongs to some field and is read by the getter without error |
| AlphaQ.AssignLookup | GCRCatalogs/alphaq_addon.py:78-81 | a key assigned only one value by the loops is present iff assigned or already there, with that value |
| AlphaQ.TidalEigval | GCRCatalogs/alphaq_addon.py:78-79 | `tidal_eigvals[i]` reads element `i` of the `eigvals` field, for `i` below 3 |
| AlphaQ.TidalEigvect | GCRCatalogs/alphaq_addon.py:80-81 | `tidal_eigvects[i][j]` reads element `(i, j)` of the `eigvects` field, for `i, j` below 3 |
| AlphaQ.TidalGalaxyId | GCRCatalogs/alphaq_addon.py:75-77 | `galaxy_id` is read under its own name |
| AlphaQ.TidalEigvalRead | GCRCatalogs/alphaq_addon.py:78-105 | each eigenvalue native is a native name of a three-element `eigvals` field, and the getter reads it back as that element |
| AlphaQ.TidalEigvectRead | GCRCatalogs/alphaq_addon.py:80-105 | each eigenvector native is a native name of a 3×3 `eigvects` field, and the getter reads it back as that element |
| AlphaQ.AddonDatasets | GCRCatalogs/alphaq_addon.py:36-42 | the add-on quantities are exactly the data-set objects found walking the group |
| AlphaQ.AddonNatives | GCRCatalogs/alphaq_addon.py:30-46 | the native list is the parent's list together with the add-on data sets |
| AlphaQ.AddonRoute | GCRCatalogs/alphaq_addon.py:55-59 | a name in the add-on set is read from the add-on group; any other from `galaxyProperties/` of the main file |
| AlphaQ.AddonRoutesNatives | GCRCatalogs/alphaq_addon.py:30-59 | every listed native is routed to the file that lists it |
| AlphaQ.AddonIter | GCRCatalogs/alphaq_addon.py:52 | any truthy native filters fail the assertion; `None` and empty filters pass |
| SingleVisit.Init | GCRCatalogs/single_visit_catalog.py:107-118 | the reader is built exactly when the band is one of `u g r i z y` and the detector is absent or in `[0, 189)`; otherwise a plain `Exception` |
| SingleVisit.VisitListMembers | GCRCatalogs/single_visit_catalog.py:125-129 | an identifier is in the visit list iff it is in the repository, has the band, and matches the visit and detector when those are given |
| SingleVisit.VisitList | GCRCatalogs/single_visit_catalog.py:125-129 | the visit list is no longer than the repository's list and holds only repository identifiers with the band and the given visit and detector |
| SingleVisit.VisitListOrder | GCRCatalogs/single_visit_catalog.py:125-129 | the visit list keeps the repository's order, one identifier at a time |
| SingleVisit.VisitListAppend | GCRCatalogs/single_visit_catalog.py:125-129 | the list of two runs of identifiers is the list of the first followed by the list of the second |
| SingleVisit.VisitListBand | GCRCatalogs/single_visit_catalog.py:125-129 | with neither visit nor detector, every identifier of the band is queried |
| SingleVisit.AppendDict | GCRCatalogs/single_visit_catalog.py:74-82 | appending succeeds iff every key of `dict1` is in `dict2` (else `KeyError`) and keeps `dict1`'s keys |
| SingleVisit.AppendDictColumns | GCRCatalogs/single_visit_catalog.py:80-81 | each appended column is `dict1`'s column followed by `dict2`'s |
| SingleVisit.AppendDictAssoc | GCRCatalogs/single_visit_catalog.py:74-82 | appending dictionaries with the same keys is associative |
| SingleVisit.AppendAllOk | GCRCatalogs/single_visit_catalog.py:134-140 | appending a run of dictionaries fails, with `KeyError`, exactly when a later one lacks a key of the first |
| SingleVisit.AppendAll | GCRCatalogs/single_visit_catalog.py:134-140 | appending a run of dictionaries fails only with `KeyError` and otherwise keeps the first dictionary's keys |
| SingleVisit.AppendAllColumns | GCRCatalogs/single_visit_catalog.py:134-140 | each resulting column is the first column followed by that column of every later dictionary in order |
| SingleVisit.LoadVisitsOk | GCRCatalogs/single_visit_catalog.py:134-140 | loading the visits fails with `KeyError` exactly when a later visit lacks one of the first visit's columns |
| SingleVisit.LoadVisits | GCRCatalogs/single_visit_catalog.py:134-140 | loading fails only with `KeyError`; the loaded columns are the first visit's, or the prior data's when there is no visit |
| SingleVisit.LoadVisitsColumns | GCRCatalogs/single_visit_catalog.py:134-140 | the loaded data have the first visit's columns, each concatenated over the visits in visit order |
| SingleVisit.LoadNothing | GCRCatalogs/single_visit_catalog.py:134-140 | an empty visit list leaves the data as they were |
| SingleVisit.NativeQuantities | GCRCatalogs/single_visit_catalog.py:153-154 | the native quantities are the loaded columns, and loading's errors propagate |
| SingleVisit.Getter | GCRCatalogs/single_visit_catalog.py:145-146 | a loaded column is returned as loaded; any other name raises `KeyError` |
| SingleVisit.IterNativeDataset | GCRCatalogs/single_visit_catalog.py:148-151 | native filters raise `ValueError`; without them the getter is yielded |
| SingleVisit.ItemColumn | GCRCatalogs/single_visit_catalog.py:41-71 | an unviewable field without copying raises under `raise`, is skipped under `skip`; every other field gives its column; as written, a string field that is read raises `NameError` |
| SingleVisit.ColumnsFromOk | GCRCatalogs/single_visit_catalog.py:41-71 | the loop over the schema fails exactly when some field raises, with `ValueError` (or, as written, `NameError`) |
| SingleVisit.ColumnsFrom | GCRCatalogs/single_visit_catalog.py:41-71 | the schema loop fails only with `ValueError` (or, as written, `NameError`) and keeps every column already present |
| SingleVisit.ColumnsFromKeys | GCRCatalogs/single_visit_catalog.py:41-71 | the keys added are exactly the names of the fields not skipped |
| SingleVisit.ColumnsFromUntouched | GCRCatalogs/single_visit_catalog.py:41-71 | a column no field names is left as it was |
| SingleVisit.ColumnsFromValue | GCRCatalogs/single_visit_catalog.py:41-71 | with distinct field names, each kept field's column is its data |
| SingleVisit.KeptNamesMembers | GCRCatalogs/single_visit_catalog.py:44-61 | a name is kept iff some field of that name is not skipped |
| SingleVisit.AsDictSpec | GCRCatalogs/single_visit_catalog.py:12-72 | with the string read corrected: `asDict` succeeds iff the option is valid and no unviewable field meets `raise` without copying (else `ValueError`); the result maps each kept field's name to its data and nothing else |
| SingleVisit.AsWrittenNoStrings | GCRCatalogs/single_visit_catalog.py:44-52 | as written, `asDict` succeeds only if every string field is skipped |
| SingleVisit.AsDict | GCRCatalogs/single_visit_catalog.py:12-72 | with the string read corrected, an unknown `unviewable` option is `ValueError` and `ValueError` is the only failure |
| SingleVisit.AsDictAsWritten | GCRCatalogs/single_visit_catalog.py:12-72 | as written, an unknown `unviewable` option is `ValueError`, and the only other failure is `NameError` |
| SingleVisit.ReadVisitStringField | GCRCatalogs/single_visit_catalog.py:44-52 | a catalog with one string field read with the defaults raises `NameError` as written and gives the column once corrected |
| SingleVisit.NoStringsAgree | GCRCatalogs/single_visit_catalog.py:44-71 | on a catalog without string fields, the written and the corrected readings agree |
| FlagMasks.MaskOf | GCRCatalogs/dc2_object.py:60-64 | the mask exists exactly when every flag broadcasts to the length, and element `i` is true iff every flag is off there |
| FlagMasks.FlagMask | GCRCatalogs/dc2_object.py:48-64 | no flag is an `IndexError`; a flag of another length (other than one) is a `ValueError`; otherwise the mask has the first flag's length and is true exactly where every flag is off |
| FlagMasks.FlagMaskCons | GCRCatalogs/dc2_object.py:61-62 | a further flag of the same length clears the elements it marks and keeps the others |
| FlagMasks.AllClearCons | GCRCatalogs/dc2_object.py:61-62 | every flag is off at an element iff the first is and every other is |
| FlagMasks.FlagMaskAllOff | GCRCatalogs/dc2_object.py:60-64 | with every flag off everywhere the mask is all true |
| ObjectInfo.Bands | GCRCatalogs/dc2_object.py:167 | a band is listed iff `{b}_mag` is one of the columns |
| ObjectInfo.BandsDistinct | GCRCatalogs/dc2_object.py:167 | the columns form a set, so no band is listed twice |
| ObjectInfo.BandMeta | GCRCatalogs/dc2_object.py:292-293 | a band copy keeps the unit and the two flags, and changes nothing when the description has no quoted placeholder |
| ObjectInfo.Expand | GCRCatalogs/dc2_object.py:289-297 | a name with `<band>` becomes one entry per band with the band substituted; any other name is kept as it is |
| ObjectInfo.ExpandSpec | GCRCatalogs/dc2_object.py:289-297 | one metadata entry assigns `v` to `k` iff `k` and `v` are its plain name and information or one of its band copies |
| ObjectInfo.ExpandedSpec | GCRCatalogs/dc2_object.py:281-297 | the assignments of the whole file are exactly those some entry makes |
| ObjectInfo.InfoDictSpec | GCRCatalogs/dc2_object.py:262-299 | a name has information iff some entry assigns it, and the information kept is one that an entry assigns |
| ObjectInfo.MarkAtEnd | GCRCatalogs/dc2_object.py:291 | replacing a trailing placeholder in a name with no earlier `<` substitutes just that placeholder |
| ObjectInfo.InfoBandEntry | GCRCatalogs/dc2_object.py:289-294 | `pre<band>` gives `pre{b}` the band copy of its information when no other entry assigns that name |
| ObjectInfo.InfoPlainEntry | GCRCatalogs/dc2_object.py:296-297 | a name without the placeholder keeps its own information when no other entry assigns it |
| CoaddTables.MagNative | GCRCatalogs/dc2_object.py:224 | the magnitude column of band `b` is `{b}_mag` |
| CoaddTables.ObjectBlockOf | GCRCatalogs/dc2_object.py:223-257 | every key the band loop writes for `b` is tagged with `b` |
| CoaddTables.ObjectMagValue | GCRCatalogs/dc2_object.py:224 | one pass of the band loop writes `mag_{b}` once, as `{b}_mag` |
| CoaddTables.ObjectFixedUnshaped | GCRCatalogs/dc2_object.py:186-221 | no key written before the band loop has the loop's shape |
| CoaddTables.ObjectKeys | GCRCatalogs/dc2_object.py:175-259 | with distinct bands, each band key is present iff its band is looped over and that pass writes it, with that pass's value; every other key is the fixed part's |
| CoaddTables.ObjectTable | GCRCatalogs/dc2_object.py:175-259 | the table's keys are the fixed part's keys and the keys some band pass writes, and no others |
| CoaddTables.ObjectMag | GCRCatalogs/dc2_object.py:223-224 | `mag_{b}` is present iff `b` is looped over, and reads `{b}_mag` |
| CoaddTables.ObjectMagColumns | GCRCatalogs/dc2_object.py:167-224 | with the bands taken from the columns, `mag_{b}` is present iff the column `{b}_mag` exists, and reads it |
| CoaddTables.ObjectGood | GCRCatalogs/dc2_object.py:201-211 | `good` masks the seven pixel flags |
| CoaddTables.ObjectCleanIsGood | GCRCatalogs/dc2_object.py:211-215 | `clean` is the mask of `good` with `deblend_skipped` as well |
| CoaddTables.StaticBlockOf | GCRCatalogs/dc2_static_coadd_reader.py:92-103 | every key the static band loop writes for `b` starts with `b` |
| CoaddTables.StaticMagValue | GCRCatalogs/dc2_static_coadd_reader.py:93 | one pass writes `{b}_magLSST` once, as `{b}_mag` |
| CoaddTables.StaticKeys | GCRCatalogs/dc2_static_coadd_reader.py:74-105 | each band key is present iff its band is looped over and that pass writes it, with that value; every other key is the fixed part's |
| CoaddTables.StaticTable | GCRCatalogs/dc2_static_coadd_reader.py:74-105 | the table's keys are the fixed part's keys and the keys some band pass writes, and no others |
| CoaddTables.StaticMag | GCRCatalogs/dc2_static_coadd_reader.py:92-93 | `{b}_magLSST` is present iff `b` is looped over, and reads `{b}_mag` |
| CoaddTables.MergedBlockValues | GCRCatalogs/dc2_static_merged_coadd.py:48-50 | one pass writes exactly `mag_{b}_lsst` and `magerr_{b}_lsst`, as the lower-cased band's `_mag` and `_mag_err` |
| CoaddTables.MergedKeys | GCRCatalogs/dc2_static_merged_coadd.py:43-50 | the merged reader's keys are `ra`, `dec` and the two magnitudes of each looped band, and nothing else, with those values |
| CoaddTables.MergedTable | GCRCatalogs/dc2_static_merged_coadd.py:43-50 | the table's keys are `ra`, `dec` and the keys some band pass writes, and no others |
| CoaddTables.MergedStaticBands | GCRCatalogs/dc2_static_merged_coadd.py:48-50 | for the bands `ugrizy` the lower-casing changes nothing |
| Hdf5Datasets.FileGroups | GCRCatalogs/dc2_object.py:337-343 | a file's datasets are exactly its keys that match the group pattern after `lstrip('/')` |
| Hdf5Datasets.GroupDatasetsSpec | GCRCatalogs/dc2_object.py:324-345 | a dataset is found iff some listed name matches the file pattern, opens, and holds that matching key |
| Hdf5Datasets.GroupDatasets | GCRCatalogs/dc2_object.py:324-345 | every dataset found is a key of a file that opens, and the key matches the group pattern |
| Hdf5Datasets.ListingDatasetsSpec | GCRCatalogs/dc2_object.py:325 | sorting the listing changes only the order of the datasets found |
| Hdf5Datasets.ListingDatasets | GCRCatalogs/dc2_object.py:324-345 | every dataset found from the sorted listing is a key of a file that opens, matching the group pattern |
| Hdf5Datasets.GroupColumns | GCRCatalogs/dc2_static_coadd_reader.py:63 | the file's columns are those of its groups' `axis0` |
| Hdf5Datasets.GroupKeys | GCRCatalogs/dc2_static_coadd_reader.py:62 | a file brings one dataset per child group, in order |
| Hdf5Datasets.StaticDatasetsSpec | GCRCatalogs/dc2_static_coadd_reader.py:40-72 | datasets and columns come only from files whose every group matches and has `axis0`, and such a file brings all of them |
| Hdf5Datasets.StaticDatasets | GCRCatalogs/dc2_static_coadd_reader.py:40-72 | every dataset comes from a file that opens, whose every group matches and has `axis0`, and which holds that group |
| Hdf5Datasets.StaticAllOrNothing | GCRCatalogs/dc2_static_coadd_reader.py:48-67 | when one group of a file is a dataset, every group of that file is |
| Hdf5Datasets.StaticRejected | GCRCatalogs/dc2_static_coadd_reader.py:51-60 | a file with a rejected group or a group without `axis0` contributes nothing |
| Hdf5Datasets.StaticCatalog | GCRCatalogs/dc2_static_coadd_reader.py:32-35 | the reader is built iff some dataset was found; otherwise `RuntimeError` |
| Hdf5Datasets.StaticCatalogSpec | GCRCatalogs/dc2_static_coadd_reader.py:32-72 | a dataset is found iff a listed file matching the file pattern is accepted and holds that group |
| Hdf5Datasets.LoadDataset | GCRCatalogs/dc2_static_coadd_reader.py:132-144 | without the cache the table is read each time; a stored table is returned without reading; a first `MemoryError` empties the cache and reads again, a second propagates |
| Hdf5Datasets.ClearCache | GCRCatalogs/dc2_static_coadd_reader.py:126-127 | the store is empty afterwards |
| Hdf5Datasets.LoadTwice | GCRCatalogs/dc2_static_coadd_reader.py:136-144 | a second load of a loaded dataset reads nothing and returns the same table |
| Hdf5Datasets.LoadKeepsOthers | GCRCatalogs/dc2_static_coadd_reader.py:136-138 | a load without `MemoryError` keeps every other stored table |
| Hdf5Datasets.LoadAfterMemoryError | GCRCatalogs/dc2_static_coadd_reader.py:140-142 | after one `MemoryError` the store holds only the table just read |
| Hdf5Datasets.ClearThenLoad | GCRCatalogs/dc2_static_coadd_reader.py:126-144 | after clearing, the next load reads the table again |
| Hdf5Datasets.CoaddGet | GCRCatalogs/dc2_coadd.py:94-107 | a name outside the columns is a `KeyError`; a table-format store is read per column; a fixed store is read once and then served from its cache |
| Hdf5Datasets.ClearWrapper | GCRCatalogs/dc2_coadd.py:106-107 | clearing drops only the cached frame |
| Hdf5Datasets.FixedReadOnce | GCRCatalogs/dc2_coadd.py:101-107 | a fixed store serves later names from the first read until `clear_cache`, after which it reads the new data |
| Hdf5Datasets.ObjectGet | GCRCatalogs/dc2_object.py:107-113 | the object wrapper reads the whole table once and serves names from the cache, a missing one as `KeyError` |
| TractPatch.DatasetInfo | GCRCatalogs/dc2_object.py:119-121 | a key without `_` is an `IndexError`; a non-integer second field is a `ValueError` (even with no third field, since `int(items[1])` runs first); an integer second field with no third field is an `IndexError`; otherwise the tract is `int` of the second field and the patch the third field's characters joined by `,` |
| TractPatch.GroupParts | GCRCatalogs/dc2_object.py:18 | a match of `<head>_\d+_\d\d$` is the head, a digit run, and two digits at the end |
| TractPatch.GroupPartsOf | GCRCatalogs/dc2_object.py:18 | `<head>_<digits>_q` matches iff `q` is two digits followed by the end or one newline |
| TractPatch.FieldsInfo | GCRCatalogs/dc2_object.py:119-127 | three `_`-free fields with a digit tract parse into that tract and the patch digits joined by `,` |
| TractPatch.GroupKeyInfo | GCRCatalogs/dc2_object.py:119-122 | every key the group pattern accepts parses without error into its tract and patch |
| TractPatch.ExampleKey | GCRCatalogs/dc2_object.py:119-127 | `object_4850_42` is tract 4850, patch `4,2` |
| TractPatch.TwoFieldsNonInteger | GCRCatalogs/dc2_object.py:119-121 | a key of two `_`-free fields whose second is not an integer raises `ValueError` before the missing third field is reached |
| TractPatch.TwoFieldsInteger | GCRCatalogs/dc2_object.py:119-121 | a key of two `_`-free fields whose second is digits raises `IndexError` at the missing third field |
| TractPatch.ExampleNonIntegerKey | GCRCatalogs/dc2_object.py:119-121 | `object_x` raises `ValueError` |
| TractPatch.ObjectGroup | GCRCatalogs/dc2_object.py:18 | the object reader's default group pattern accepts only keys starting `coadd_` or `object_` |
| TractPatch.CoaddGroup | GCRCatalogs/dc2_static_coadd_reader.py:12 | the coadd readers' default group pattern accepts only keys starting `coadd_` |
| TractPatch.ObjectFile | GCRCatalogs/dc2_object.py:17 | the object reader's default file pattern accepts only names starting `merged_tract_` or `object_tract_` |
| TractPatch.CoaddFile | GCRCatalogs/dc2_static_coadd_reader.py:11 | the coadd readers' default file pattern accepts only names starting `merged_tract_` |
| TractPatch.TractFileOf | GCRCatalogs/dc2_object.py:17 | a tract file name matches; with `$`, only the end or one newline may follow |
| TractPatch.DataFirst | GCRCatalogs/dc2_object.py:428-434 | the object getter prefers a stored column; otherwise it repeats the tract or patch, or gives NaNs |
| TractPatch.FilterFirst | GCRCatalogs/dc2_coadd.py:339-344 | the coadd getter repeats the tract or patch first; otherwise the stored column, or NaNs |
| TractPatch.GettersAgree | GCRCatalogs/dc2_object.py:428-434 | the two getters agree except on a stored `tract` or `patch` column |
| TractPatch.GettersRows | GCRCatalogs/dc2_object.py:428-434 | when every stored column has the table's length, so does every getter result |
| TractPatch.Union | GCRCatalogs/dc2_object.py:348-362 | the columns are exactly those some dataset has |
| TractPatch.NativeQuantities | GCRCatalogs/dc2_object.py:417-420 | the native quantities are the datasets' columns together with `tract` and `patch` |
| TractPatch.Tracts | GCRCatalogs/dc2_object.py:365-373 | the tracts of the datasets, in dataset order |
| TractPatch.AvailableTracts | GCRCatalogs/dc2_object.py:376-383 | the tracts, strictly increasing, each the tract of some dataset and every dataset's tract among them |
| TractPatch.CheckedDatasets | GCRCatalogs/dc2_object.py:422-426 | a dataset is visited iff there is no filter or its `check_scalar` accepts it |
| TractPatch.CheckedAll | GCRCatalogs/dc2_object.py:422-426 | without a filter every dataset is visited, in order |
| TractPatch.Args | GCRCatalogs/dc2_static_coadd_reader.py:153-154 | the filter arguments are the info's tract and patch, and any other name is a `KeyError` |
| TractPatch.AllHold | GCRCatalogs/dc2_static_coadd_reader.py:152-156 | `all` is true iff every filter holds; an unknown column is a `KeyError` |
| TractPatch.AllHoldClean | GCRCatalogs/dc2_static_coadd_reader.py:152-156 | filters naming only `tract` and `patch` never raise |
| TractPatch.StaticRunSpec | GCRCatalogs/dc2_static_coadd_reader.py:149-178 | the static iteration raises nothing and yields exactly the datasets whose filters hold and whose table can be read |
| TractPatch.StaticRun | GCRCatalogs/dc2_static_coadd_reader.py:149-178 | the iteration yields only datasets of the input, and ends early only with `KeyError` (a filter on another column) or `NoSuchNodeError` (a missing table, never when missing tables are skipped) |
| Tables.InfoName | GCRCatalogs/cosmodc2.py:293-297 | a modifier computed by a function names no native quantity; otherwise the name looked up is the aliased native name, or the quantity itself when unmodified |
| Tables.QuantityInfo | GCRCatalogs/cosmodc2.py:292-297 | a computed quantity gets the default; otherwise the information recorded for the name the modifier points at (`q_mod or quantity`) is returned when there is some, and the default when there is none |
| Tables.InfoOfAlias | GCRCatalogs/cosmodc2.py:297 | an alias reports the information of the native quantity it names |
| StrictVersions.Parse | GCRCatalogs/cosmodc2.py:210-211 | `StrictVersion(s)` accepts only `M.m[.p][{a,b}N]`, with a `ValueError` otherwise, and gives a well-formed version |
| StrictVersions.ParseFormat | GCRCatalogs/cosmodc2.py:210 | printing a version and parsing the text gives it back |
| StrictVersions.CompareZero | GCRCatalogs/cosmodc2.py:210-213 | two versions compare equal exactly when they are the same |
| StrictVersions.CompareFlip | GCRCatalogs/cosmodc2.py:210-213 | swapping the operands flips the comparison |
| StrictVersions.CompareTransitive | GCRCatalogs/cosmodc2.py:210-213 | `<` on versions is transitive |
| CosmoFiles.MinZ | GCRCatalogs/cosmodc2.py:177-178 | the default `zlo` is the lower redshift of some kept file and no kept file's is smaller |
| CosmoFiles.MaxZ | GCRCatalogs/cosmodc2.py:179-180 | the default `zhi` is one above the lower redshift of some kept file, and no kept file's is larger |
| CosmoFiles.PixelsOf | GCRCatalogs/cosmodc2.py:181 | the default pixels are the pixels of the kept files |
| CosmoFiles.Datasets | GCRCatalogs/cosmodc2.py:282-286 | the iteration reads only kept files |
| UmHpx.ScanListing | GCRCatalogs/um_hpx.py:95-106 | scanning the sorted listing fails iff some matching name has a non-number; otherwise the redshifts and pixels are exactly those of the matching names |
| UmHpx.Grid | GCRCatalogs/um_hpx.py:110 | the expected files are one per redshift block and pixel |
| UmHpx.GridAt | GCRCatalogs/um_hpx.py:110 | block `z` with pixel `j` names the file `template.format(z, z+1, pixels[j])`, at its position in the nested loop |
| FocalPlane.PlaneQuantities | GCRCatalogs/focal_plane.py:104-111 | `visit` and every raft name are native quantities |

## Left out

- Database I/O: the connection, the cursor and the execution of queries
  are not modelled; the rows of `information_schema.columns` are inputs.
- File I/O: directory listings, HDF5 keys and groups, parquet schemas, YAML
  configuration and metadata files, FITS images and dataframes are inputs.
  Opening a file that fails is modelled only where the reader catches it.
- `print` calls, `warnings.warn` and logging are not modelled.
- `\d` in Python 3 patterns also matches non-ASCII decimal digits; the model
  accepts ASCII digits only.
- The ra/dec patterns of the PostgreSQL reader are compiled but never
  applied, so they are not modelled.
- Floating point: the lambdas of the modifiers (magnitudes, flux
  conversions, `psf_fwhm` with its `pixel_scale`, shear and size formulas)
  are kept as named functions of their native quantities; their arithmetic
  is not modelled.
- Python set iteration order is arbitrary. Where a reader iterates a set,
  the model takes the order as an input sequence, except in two places
  that fix one order: `UmHpx.InfoOf` lists the pixel set of
  `_get_healpix_info` (`list(healpix_pixels)`) in increasing order, which
  then orders the candidate files and the data sets; and
  `PhotoZ.NativeQuantities` lists `{'tract', 'patch'}` as `tract, patch`.
  The lemmas about the candidates (`UmHpx.CandidatesSpec`) hold for any
  pixel order.
- Strings.PyInt: does not accept what CPython's `int()` accepts beyond
  ASCII text: single `_` between digits (`int("1_0") == 10`), non-ASCII
  Unicode decimal digits, and non-ASCII whitespace around the number are
  `ValueError` in the model. The tract field of a group key is split on
  `_` first and cannot hold one; the index pieces of an AlphaQ element
  name (`AlphaQ.ParseInts`) can, so a name such as `field/1_0` is an error
  in the model where CPython reads index 10.
- NaN columns are modelled as `Missing(n)`, a column of `n` missing values.
- `dc2_forced_source.py` is not modelled: its modifiers call
  `convert_flux_to_nanoJansky` and `create_basic_flag_mask` without
  importing them, so building its table raises `NameError`, and its base
  class is not part of this model.
- `dc2_dia_object.py` is not modelled: it uses the undefined names `FLUX`
  and `ERR`, and its base class is not part of this model.
- Thin wrappers over libraries are not modelled: `butler_interface.py`,
  `composite.py`, `agncombined.py`, `cosmosdc2_addon.py`, `agn.py`,
  `dc2_matched_table.py`, `photoz_magerr.py`, `photoz_calib.py` and
  `utils.py`.
- The GCR framework (`BaseGenericCatalog`, `check_scalar`, quantity
  assembly) is not part of this model; native filters are given as
  predicates.
- SQLite access in `dc2_truth.py`: the rows of `PRAGMA table_info` and of
  the queries are inputs.
- The `BaseDC2` and shear modifier subclasses of `cosmodc2.py` (lines
  454-513) are not modelled.
- The cosmology checks, the md5 and file-size checks, and the sky-area
  computation of `_process_metadata` in the healpix readers are not
  modelled; the native quantity list it returns is an input.
- The focal plane reader's `get_data` and the rescaling of FITS images are
  not modelled; the pixel data are opaque values.
- Errors numpy or pandas raise inside a field lookup (a missing field of a
  structured array) are modelled as the reader's own error only where the
  reader names it.
- SingleVisit.AppendDict: when the keys differ the source prints a message
  and then raises `KeyError` part way through, leaving `dict1` partly
  extended; the model returns the error and does not model the partial
  mutation.
- SingleVisit.AppendDict: columns are modelled as one-dimensional
  sequences of values. The source's `.ravel()` flattens an array-valued
  (multi-dimensional) column after `np.concatenate`, so a third visit's
  `concatenate` of a flattened column with a two-dimensional one fails;
  the model keeps one value per row and neither flattens nor fails.
- PgObject.QueryDtypes: every type name `_translate_dtype` passes through
  is taken to be one numpy does not understand (true of `real`,
  `integer`, `smallint` and `text`). Duplicate requested columns, which
  numpy would reject with `ValueError`, are not modelled; the framework
  asks for a set of quantities.
- SingleVisit.AsDict: the catalog metadata and the units that `asDict`
  reads are not modelled; only the columns are.
- SingleVisit.Init: the detector is modelled as an integer; the source's
  `detector not in np.arange(0,189)` would also accept a float equal to an
  integer in range.
- Bands are single characters (`u g r i z y`) throughout, as the band
  lists read from column names are; a configured band of several characters
  is not modelled.
- Tables.KeyInjective: the word-list form of a key is faithful only for
  words without `_`; a band name holding `_` would collide, and no band
  does.
- DmObject.DmKeys: requires the bands to be distinct, which holds for the
  bands read off a set of columns (`BandsDistinct`).
- DmObject.DmReaderMag: requires the first schema's columns to be
  distinct, as the column list of a parquet schema is.
- Metacal.MetacalCount: requires distinct bands; with a repeated band the
  source writes the same keys twice and the count is smaller.
- Metacal.MetacalMag: the magnitude entries name `mcal_flux_{b}{v}`, which
  is itself a homogenized quantity; the model records the name as the
  source writes it and does not model how the framework resolves it.

## Findings

| source | as written | input that shows it | evidently intended | confidence | as-written member | corrected member |
|---|---|---|---|---|---|---|
| GCRCatalogs/single_visit_catalog.py:50 | the string branch of `asDict` calls `numpy.zeros` and `numpy.dtype`, but the module imports numpy only as `np`, so reading any string field raises `NameError` | a catalog with one String field read with the defaults (`copy=False`, `unviewable="copy"`), as `_read_visit` does | `np.zeros(len(cat), dtype=np.dtype((str, key.getSize())))`, filling the column from the records | not executed | SingleVisit.AsDictAsWritten | SingleVisit.AsDict |
