/** The DC2 source catalog reader (`dc2_source.py`): its quantity
    modifiers for DM schema versions 1 to 3, the schema it falls back to
    reading from the data files, and the defaults `generate_schema_yaml`
    writes. Parquet files and the YAML schema file are inputs. */
module Dc2Source {
  import opened Wrappers
  import opened Strings
  import opened Tables
  import opened DmSchemas
  import opened Sorting
  import opened Partitions

  /** The entries that do not depend on the schema version. */
  const SourceCommon: Table := map[
    ["sourceId"] := Alias("id"),
    ["visit"] := Alias("visit"),
    ["detector"] := Alias("detector"),
    ["filter"] := Alias("filter"),
    ["objectId"] := Alias("objectId"),
    ["parentObjectId"] := Alias("parent"),
    ["ra"] := Derived(RadToDeg, ["coord_ra"]),
    ["dec"] := Derived(RadToDeg, ["coord_dec"]),
    ["x"] := Alias("slot_Centroid_x"),
    ["y"] := Alias("slot_Centroid_y"),
    ["xy", "flag"] := Alias("slot_Centroid_flag"),
    ["sky", "flag"] := Alias("base_LocalBackground_flag"),
    ["I", "flag"] := Alias("slot_Shape_flag"),
    ["Ixx"] := Alias("slot_Shape_xx"),
    ["IxxPSF"] := Alias("slot_PsfShape_xx"),
    ["Iyy"] := Alias("slot_Shape_yy"),
    ["IyyPSF"] := Alias("slot_PsfShape_yy"),
    ["Ixy"] := Alias("slot_Shape_xy"),
    ["IxyPSF"] := Alias("slot_PsfShape_xy"),
    ["mag"] := Alias("mag"),
    ["magerr"] := Alias("mag_err"),
    ["fluxmag0"] := Alias("fluxmag0"),
    ["apFlux", "flag"] := Alias("slot_ApFlux_flag"),
    ["psFlux", "flag"] := Alias("slot_PsfFlux_flag"),
    ["psNdata"] := Alias("slot_PsfFlux_area"),
    ["psf", "fwhm", "pixels"] := Derived("2.355 * (xx * yy - xy * xy) ** 0.25",
      ["slot_PsfShape_xx", "slot_PsfShape_yy", "slot_PsfShape_xy"]),
    ["extendedness"] := Alias("base_ClassificationExtendedness_value")
  ]

  /** A flux column `{prefix}_{flux}` of the version. */
  function FluxColumn(prefix: string, v: int): string { prefix + "_" + FluxName(v) }

  /** Its error column `{prefix}_{flux}{err}`. */
  function FluxErrColumn(prefix: string, v: int): string { prefix + "_" + FluxName(v) + ErrName(v) }

  /** The entries whose native names depend on the version. */
  function SourceVersioned(v: int): Table {
    map[
      ["xErr"] := Alias("slot_Centroid_x" + ErrName(v)),
      ["yErr"] := Alias("slot_Centroid_y" + ErrName(v)),
      ["sky"] := Derived(NanoJansky, [FluxColumn("base_LocalBackground", v)]),
      ["skyErr"] := Derived(NanoJansky, [FluxErrColumn("base_LocalBackground", v)]),
      ["apFlux"] := Derived(NanoJansky, [FluxColumn("slot_ApFlux", v)]),
      ["apFluxErr"] := Derived(NanoJansky, [FluxErrColumn("slot_ApFlux", v)]),
      ["psFlux"] := Derived(NanoJansky, [FluxColumn("slot_PsfFlux", v)]),
      ["psFluxErr"] := Derived(NanoJansky, [FluxErrColumn("slot_PsfFlux", v)]),
      ["blendedness"] := Alias(FluxColumn("base_Blendedness_abs", v))
    ]
  }

  /** `good` and `clean`, assigned after the display. */
  const SourceFlags: Table := map[
    ["good"] := Derived(FlagMaskFn, PixelFlags),
    ["clean"] := Derived(FlagMaskFn, ["deblend_skipped"] + PixelFlags)
  ]

  /** `_generate_modifiers(dm_schema_version)`: versions other than 1, 2
      and 3 raise `ValueError`. The display's keys and the two flag keys
      are distinct, so the table is the union of the three parts. */
  function SourceModifiers(v: int): (r: Result<Table>)
    ensures r.Err? <==> !(1 <= v <= 3)
    ensures r.Err? ==> r.error == ValueError
  {
    if !(1 <= v <= 3) then Err(ValueError)
    else Ok(SourceCommon + SourceVersioned(v) + SourceFlags)
  }

  /** A key of the middle part of a union that the last part does not
      override keeps its value. */
  lemma MiddleLookup(a: Table, b: Table, c: Table, k: seq<string>)
    requires k in b && k !in c
    ensures k in a + b + c && (a + b + c)[k] == b[k]
  {
  }

  lemma VersionedValues(v: int)
    ensures var t := SourceVersioned(v);
      && ["xErr"] in t && t[["xErr"]] == Alias("slot_Centroid_x" + ErrName(v))
      && ["yErr"] in t && t[["yErr"]] == Alias("slot_Centroid_y" + ErrName(v))
      && ["psFlux"] in t && t[["psFlux"]] == Derived(NanoJansky, [FluxColumn("slot_PsfFlux", v)])
      && ["psFluxErr"] in t && t[["psFluxErr"]] == Derived(NanoJansky, [FluxErrColumn("slot_PsfFlux", v)])
      && ["blendedness"] in t && t[["blendedness"]] == Alias(FluxColumn("base_Blendedness_abs", v))
  {
  }

  /** The version-dependent entries: the centroid errors end with the
      error word, and the PSF fluxes and blendedness read the version's
      flux column (and error column), in nanojansky. */
  lemma SourceVersionedNames(v: int)
    requires 1 <= v <= 3
    ensures var t := SourceModifiers(v).value;
      && ["xErr"] in t && t[["xErr"]] == Alias("slot_Centroid_x" + ErrName(v))
      && ["yErr"] in t && t[["yErr"]] == Alias("slot_Centroid_y" + ErrName(v))
      && ["psFlux"] in t && t[["psFlux"]] == Derived(NanoJansky, [FluxColumn("slot_PsfFlux", v)])
      && ["psFluxErr"] in t && t[["psFluxErr"]] == Derived(NanoJansky, [FluxErrColumn("slot_PsfFlux", v)])
      && ["blendedness"] in t && t[["blendedness"]] == Alias(FluxColumn("base_Blendedness_abs", v))
  {
    VersionedValues(v);
    var b := SourceVersioned(v);
    MiddleLookup(SourceCommon, b, SourceFlags, ["xErr"]);
    MiddleLookup(SourceCommon, b, SourceFlags, ["yErr"]);
    MiddleLookup(SourceCommon, b, SourceFlags, ["psFlux"]);
    MiddleLookup(SourceCommon, b, SourceFlags, ["psFluxErr"]);
    MiddleLookup(SourceCommon, b, SourceFlags, ["blendedness"]);
  }

  /** Every version has the same quantities; only native names change. */
  lemma SourceKeysStable(v: int, w: int)
    requires 1 <= v <= 3 && 1 <= w <= 3
    ensures SourceModifiers(v).value.Keys == SourceModifiers(w).value.Keys
  {
    assert SourceVersioned(v).Keys == SourceVersioned(w).Keys;
  }

  /** `good` masks the six pixel flags, and `clean` is `good` with
      `deblend_skipped` as one more flag in front. */
  lemma SourceCleanIsGood(v: int)
    requires 1 <= v <= 3
    ensures var t := SourceModifiers(v).value;
      && ["good"] in t && ["clean"] in t
      && t[["good"]] == Derived(FlagMaskFn, PixelFlags)
      && t[["clean"]] == Derived(t[["good"]].fn, ["deblend_skipped"] + t[["good"]].natives)
  {
  }

  /** The modifiers a reader installs: a DPDD catalog maps column names
      (which may hold `_`) to themselves; otherwise a table of word keys. */
  datatype Installed = Flat(columns: map<string, Modifier>) | Keyed(table: Table)

  /** The modifiers the reader installs: the identity on every schema
      column for a DPDD catalog, otherwise the table of the version read
      off the schema. */
  function QuantityModifiers(cols: seq<string>, isDpdd: bool): (r: Result<Installed>)
  {
    if isDpdd then Ok(Flat(DpddModifiers(cols)))
    else match SourceModifiers(SchemaVersion(cols))
      case Ok(t) => Ok(Keyed(t))
      case Err(e) => Err(e)
  }

  /** The version the reader detects is one `_generate_modifiers` accepts,
      so installing the modifiers never raises; a DPDD catalog reads every
      column as itself. */
  lemma QuantityModifiersOk(cols: seq<string>, isDpdd: bool)
    ensures QuantityModifiers(cols, isDpdd).Ok?
    ensures isDpdd ==> (QuantityModifiers(cols, isDpdd).value.Flat?
      && (forall c :: c in QuantityModifiers(cols, isDpdd).value.columns <==> c in cols))
    ensures !isDpdd ==> QuantityModifiers(cols, isDpdd).value.Keyed?
  {
  }

  // ---------------------------------------------------------------------
  // Data sets

  /** A string no greater than any element of a sorted list can go in
      front of it. */
  lemma SortedCons(x: string, rest: seq<string>)
    requires SortedStrings(rest)
    requires forall j :: 0 <= j < |rest| ==> StrLessEq(x, rest[j])
    ensures SortedStrings([x] + rest)
  {
    forall i, j | 0 <= i < j < |rest| + 1
      ensures StrLessEq(([x] + rest)[i], ([x] + rest)[j])
    {
      if i > 0 {
        assert ([x] + rest)[i] == rest[i - 1];
      }
    }
  }

  /** Keeping some of a sorted list keeps it sorted. */
  lemma {:induction false} FilterSorted(xs: seq<string>, p: string -> bool)
    requires SortedStrings(xs)
    ensures SortedStrings(Filter(xs, p))
    decreases |xs|
  {
    if |xs| > 0 {
      var rest := Filter(xs[1..], p);
      FilterSorted(xs[1..], p);
      assert Filter(xs, p) == (if p(xs[0]) then [xs[0]] else []) + rest;
      if p(xs[0]) {
        forall j | 0 <= j < |rest|
          ensures StrLessEq(xs[0], rest[j])
        {
          var q :| 0 <= q < |xs[1..]| && xs[1..][q] == rest[j];
          assert xs[q + 1] == rest[j];
        }
        SortedCons(xs[0], rest);
      } else {
        assert Filter(xs, p) == rest;
      }
    }
  }

  /** `_generate_datasets`: the listed file names in sorted order, keeping
      those the file pattern matches and that open as Parquet files
      (`opens` stands for the open succeeding). */
  function Datasets(listing: seq<string>, matches: string -> bool, opens: string -> bool): seq<string> {
    Filter(Sort(listing), f => matches(f) && opens(f))
  }

  /** The data sets are in sorted order, and a file is one of them exactly
      when it is listed, matches and opens. */
  lemma DatasetsSpec(listing: seq<string>, matches: string -> bool, opens: string -> bool)
    ensures SortedStrings(Datasets(listing, matches, opens))
    ensures forall f :: f in Datasets(listing, matches, opens) <==> f in listing && matches(f) && opens(f)
  {
    var sorted := Sort(listing);
    FilterSorted(sorted, f => matches(f) && opens(f));
    forall f
      ensures f in Datasets(listing, matches, opens) <==> f in listing && matches(f) && opens(f)
    {
      assert f in listing <==> f in multiset(listing);
      assert f in sorted <==> f in multiset(sorted);
      if f in sorted && matches(f) && opens(f) {
        var i :| 0 <= i < |sorted| && sorted[i] == f;
      }
      if f in Datasets(listing, matches, opens) {
        var i :| 0 <= i < |Datasets(listing, matches, opens)| && Datasets(listing, matches, opens)[i] == f;
      }
    }
  }

  // ---------------------------------------------------------------------
  // Schemas

  /** One column of a schema: its dtype and the default value, if any. */
  datatype ColumnSchema = ColumnSchema(dtype: string, default: Option<bool>)

  type Schema = map<string, ColumnSchema>

  /** `{k: {'dtype': v} for k, v in df.dtypes.to_dict().items()}`. */
  function FromDtypes(dtypes: map<string, string>): (r: Schema)
    ensures r.Keys == dtypes.Keys
    ensures forall c :: c in r ==> r[c] == ColumnSchema(dtypes[c], None)
  {
    map c | c in dtypes :: ColumnSchema(dtypes[c], None)
  }

  /** `_generate_schema_from_datafiles`: `schema.update(native_schema)`
      for each data set in turn, stopping after the first non-empty one. */
  function SchemaFromDatafiles(acc: Schema, files: seq<map<string, string>>): Schema
    decreases |files|
  {
    if |files| == 0 then acc
    else
      var native := FromDtypes(files[0]);
      var next := acc + native;
      if |native| > 0 then next else SchemaFromDatafiles(next, files[1..])
  }

  /** The first data set with any column, or none. */
  function FirstNonEmpty(files: seq<map<string, string>>): (r: Option<nat>)
    ensures r.Some? ==> r.value < |files| && |files[r.value]| > 0
    ensures r.Some? ==> forall j :: 0 <= j < r.value ==> |files[j]| == 0
    ensures r.None? ==> forall j :: 0 <= j < |files| ==> |files[j]| == 0
    decreases |files|
  {
    if |files| == 0 then None
    else if |files[0]| > 0 then Some(0)
    else match FirstNonEmpty(files[1..])
      case None => None
      case Some(i) => Some(i + 1)
  }

  /** The schema read from the data files is the schema of the first data
      set that has columns; empty ones before it add nothing. With no such
      data set it is empty. */
  lemma {:induction false} SchemaFromDatafilesFirst(files: seq<map<string, string>>)
    ensures FirstNonEmpty(files).Some? ==>
      SchemaFromDatafiles(map[], files) == FromDtypes(files[FirstNonEmpty(files).value])
    ensures FirstNonEmpty(files).None? ==> SchemaFromDatafiles(map[], files) == map[]
    decreases |files|
  {
    if |files| > 0 {
      var native := FromDtypes(files[0]);
      assert |native| == |files[0]| by {
        assert native.Keys == files[0].Keys;
      }
      if |files[0]| == 0 {
        assert native == map[];
        assert map[] + native == map[];
        SchemaFromDatafilesFirst(files[1..]);
      } else {
        assert map[] + native == native;
      }
    }
  }

  /** The schema the reader uses: the YAML schema when it is non-empty,
      otherwise the one read from the data files. Finding no data set
      raises `RuntimeError` first. */
  function ReaderSchema(yaml: Option<Schema>, files: seq<map<string, string>>): (r: Result<Schema>)
    ensures r.Err? <==> |files| == 0
    ensures r.Err? ==> r.error == RuntimeError
    ensures r.Ok? && yaml.Some? && |yaml.value| > 0 ==> r.value == yaml.value
  {
    if |files| == 0 then Err(RuntimeError)
    else if yaml.Some? && |yaml.value| > 0 then Ok(yaml.value)
    else Ok(SchemaFromDatafiles(map[], files))
  }

  /** A column whose missing values default to `True`: a boolean
      `_flag_bad` or `_flag_noGoodPixels` flag. */
  predicate DefaultsTrue(c: string, s: ColumnSchema) {
    s.dtype == "bool" && (EndsWith(c, "_flag_bad") || EndsWith(c, "_flag_noGoodPixels"))
  }

  function WithDefaults(schema: Schema): Schema {
    map c | c in schema :: if DefaultsTrue(c, schema[c]) then schema[c].(default := Some(true)) else schema[c]
  }

  /** `generate_schema_yaml(overwrite)`: an existing schema file is kept
      unless `overwrite` is set; otherwise the schema read from the data
      files, with the flag defaults, is written. */
  function GenerateSchemaYaml(fileExists: bool, overwrite: bool, files: seq<map<string, string>>): (r: Result<Schema>)
    ensures r.Err? <==> fileExists && !overwrite
    ensures r.Err? ==> r.error == RuntimeError
  {
    if fileExists && !overwrite then Err(RuntimeError)
    else Ok(WithDefaults(SchemaFromDatafiles(map[], files)))
  }

  /** The written schema has the same columns and dtypes; exactly the
      boolean bad-pixel flags get the default `True`, and every other
      column is left as it was. */
  lemma WithDefaultsSpec(schema: Schema)
    ensures WithDefaults(schema).Keys == schema.Keys
    ensures forall c :: c in schema ==> WithDefaults(schema)[c].dtype == schema[c].dtype
    ensures forall c :: c in schema && DefaultsTrue(c, schema[c]) ==> WithDefaults(schema)[c].default == Some(true)
    ensures forall c :: c in schema && !DefaultsTrue(c, schema[c]) ==> WithDefaults(schema)[c] == schema[c]
  {
  }

  /** Applying the defaults twice is applying them once. */
  lemma WithDefaultsIdempotent(schema: Schema)
    ensures WithDefaults(WithDefaults(schema)) == WithDefaults(schema)
  {
  }

  /** The native quantities are the schema's columns. */
  function NativeQuantities(schema: Schema): (r: set<string>)
    ensures forall c :: c in r <==> c in schema
  {
    schema.Keys
  }
}
