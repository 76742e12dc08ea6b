/** The DC2 object catalog reader for DM pipeline outputs in Parquet
    (`dc2_dm_object.py`): the DM schema version (1 to 4) and the band list
    read off the first data set's columns, and the quantity-modifier table
    built from them. */
module DmObject {
  import opened Wrappers
  import opened Strings
  import opened Tables
  import opened DmSchemas
  import opened ObjectInfo
  import CoaddTables
  import Dc2Source

  /** The DM object reader's schema version: the source reader's tests,
      then version 3 when the catalog has the `base_Blendedness_abs_instFlux`
      column, version 4 otherwise. */
  function DmSchemaVersion(cols: seq<string>): (v: int)
    ensures 1 <= v <= 4
    ensures v <= 2 <==> SchemaVersion(cols) <= 2
    ensures v <= 2 ==> v == SchemaVersion(cols)
    ensures v == 3 <==> SchemaVersion(cols) == 3 && "base_Blendedness_abs_instFlux" in cols
  {
    if AnyEndsWith(cols, "_fluxSigma") then 1
    else if AnyEndsWith(cols, "_fluxErr") then 2
    else if "base_Blendedness_abs_instFlux" in cols then 3
    else 4
  }

  /** `BLENDEDNESS_SUFFIX`: `_` and the flux word up to version 3, nothing
      from version 4 on. */
  function BlendSuffix(v: int): (r: string)
    ensures v <= 3 <==> r != ""
  {
    if v <= 3 then "_" + FluxName(v) else ""
  }

  /** The identifiers, positions and whole-object columns of the display. */
  function DmPosition(v: int): Table {
    map[
      ["objectId"] := Alias("id"),
      ["parentObjectId"] := Alias("parent"),
      ["ra"] := Derived(RadToDeg, ["coord_ra"]),
      ["dec"] := Derived(RadToDeg, ["coord_dec"]),
      ["x"] := Alias("base_SdssCentroid_x"),
      ["y"] := Alias("base_SdssCentroid_y"),
      ["xErr"] := Alias("base_SdssCentroid_x" + ErrName(v)),
      ["yErr"] := Alias("base_SdssCentroid_y" + ErrName(v)),
      ["xy", "flag"] := Alias("base_SdssCentroid_flag"),
      ["psNdata"] := Alias("base_PsfFlux_area"),
      ["extendedness"] := Alias("base_ClassificationExtendedness_value"),
      ["blendedness"] := Alias("base_Blendedness_abs" + BlendSuffix(v))
    ]
  }

  /** `good`, `clean` (over the seven flags of the coadd object readers)
      and the cross-band second moments, assigned after the display. */
  const DmMoments: Table := map[
    ["good"] := Derived(FlagMaskFn, CoaddTables.NotGoodFlags),
    ["clean"] := Derived(FlagMaskFn, ["deblend_skipped"] + CoaddTables.NotGoodFlags),
    ["I", "flag"] := Alias("ext_shapeHSM_HsmSourceMoments_flag"),
    ["Ixx"] := Alias("ext_shapeHSM_HsmSourceMoments_xx"),
    ["IxxPSF"] := Alias("base_SdssShape_psf_xx"),
    ["Iyy"] := Alias("ext_shapeHSM_HsmSourceMoments_yy"),
    ["IyyPSF"] := Alias("base_SdssShape_psf_yy"),
    ["Ixy"] := Alias("ext_shapeHSM_HsmSourceMoments_xy"),
    ["IxyPSF"] := Alias("base_SdssShape_psf_xy")
  ]

  /** The keys before the band loop. */
  function DmFixed(v: int): Table { DmPosition(v) + DmMoments }

  function Native(b: char, rest: string): string { CoaddTables.BandNative(b, rest) }

  /** The band's cModel flux column, or its error column. */
  function CModelNative(v: int, b: char, err: bool): string {
    Native(b, "modelfit_CModel_" + FluxName(v) + (if err then ErrName(v) else ""))
  }

  /** The band's PSF flux column, or its error column. */
  function PsfNative(v: int, b: char, err: bool): string {
    Native(b, "base_PsfFlux_" + FluxName(v) + (if err then ErrName(v) else ""))
  }

  /** The magnitude entry that opens a band's block. */
  function DmMagEntry(b: char): Entry {
    Entry(CoaddTables.ObjectMagKey(b), Alias(Native(b, "mag")))
  }

  /** The band's magnitude error, PSF and cModel fluxes and flags. */
  function DmFluxes(v: int, b: char): seq<Entry> {
    [Entry(["magerr", [b]], Alias(Native(b, "mag_err"))),
     Entry(["psFlux", [b]], Derived(NanoJansky, [PsfNative(v, b, false)])),
     Entry(["psFlux", "flag", [b]], Alias(Native(b, "base_PsfFlux_flag"))),
     Entry(["psFluxErr", [b]], Derived(NanoJansky, [PsfNative(v, b, true)])),
     Entry(["I", "flag", [b]], Alias(Native(b, "base_SdssShape_flag"))),
     Entry(["cModelFlux", [b]], Derived(NanoJansky, [CModelNative(v, b, false)])),
     Entry(["cModelFluxErr", [b]], Derived(NanoJansky, [CModelNative(v, b, true)])),
     Entry(["cModelFlux", "flag", [b]], Alias(Native(b, "modelfit_CModel_flag")))]
  }

  /** The PSF width in arcseconds, from the band's PSF moments. */
  function DmFwhm(b: char): seq<Entry> {
    [Entry(["psf", "fwhm", [b]], Derived("pixel_scale * 2.355 * (xx * yy - xy * xy) ** 0.25",
       [Native(b, "base_SdssShape_psf_xx"), Native(b, "base_SdssShape_psf_yy"), Native(b, "base_SdssShape_psf_xy")]))]
  }

  /** The cModel magnitude key `mag_{b}_cModel`. */
  function CModelMagKey(b: char): seq<string> { ["mag", [b], "cModel"] }

  /** The precomputed cModel magnitude, its error and signal-to-noise. */
  function DmCModelColumns(b: char): seq<Entry> {
    [Entry(CModelMagKey(b), Alias(Native(b, "modelfit_mag"))),
     Entry(["magerr", [b], "cModel"], Alias(Native(b, "modelfit_mag_err"))),
     Entry(["snr", [b], "cModel"], Alias(Native(b, "modelfit_SNR")))]
  }

  /** The same three quantities computed from the cModel flux (zero
      point 27), reassigned when the catalog has no `_modelfit_mag`. */
  function DmCModelComputed(v: int, b: char): seq<Entry> {
    [Entry(CModelMagKey(b), Derived("-2.5 log10(x) + 27", [CModelNative(v, b, false)])),
     Entry(["magerr", [b], "cModel"], Derived("2.5 err / (flux ln 10)", [CModelNative(v, b, false), CModelNative(v, b, true)])),
     Entry(["snr", [b], "cModel"], Derived("np.divide", [CModelNative(v, b, false), CModelNative(v, b, true)]))]
  }

  function DmCModel(v: int, has: bool, b: char): seq<Entry> {
    DmCModelColumns(b) + (if has then [] else DmCModelComputed(v, b))
  }

  /** The band's entries after the magnitude. */
  function DmTail(v: int, has: bool, b: char): seq<Entry> {
    CoaddTables.ObjectAxes(b) + DmFwhm(b) + DmCModel(v, has, b)
  }

  /** One pass of the band loop. */
  function DmBlock(v: int, has: bool, b: char): seq<Entry> {
    [DmMagEntry(b)] + DmFluxes(v, b) + DmTail(v, has, b)
  }

  function DmBlocks(v: int, has: bool): char -> seq<Entry> {
    b => DmBlock(v, has, b)
  }

  /** The table `_generate_modifiers` builds for an accepted version. */
  function DmTable(v: int, has: bool, bands: seq<char>): Table {
    Build(DmFixed(v), Loop(bands, DmBlocks(v, has)))
  }

  /** `_generate_modifiers(pixel_scale, bands, has_modelfit_mag,
      dm_schema_version)`: versions other than 1 to 4 raise `ValueError`. */
  function DmModifiers(v: int, has: bool, bands: seq<char>): (r: Result<Table>)
    ensures r.Err? <==> !(1 <= v <= 4)
    ensures r.Err? ==> r.error == ValueError
    ensures r.Ok? ==> r.value == DmTable(v, has, bands)
  {
    if 1 <= v <= 4 then Ok(DmTable(v, has, bands)) else Err(ValueError)
  }

  // ---------------------------------------------------------------------
  // Every key a band's block writes names the band

  lemma DmFluxesOf(v: int, b: char)
    ensures KeysSatisfy(DmFluxes(v, b), CoaddTables.ObjectOf(b))
    ensures KeysSatisfy(DmFluxes(v, b), CoaddTables.Besides(CoaddTables.ObjectMagKey(b)))
  {
  }

  lemma DmCModelOf(v: int, has: bool, b: char)
    ensures KeysSatisfy(DmCModel(v, has, b), CoaddTables.ObjectOf(b))
    ensures KeysSatisfy(DmCModel(v, has, b), CoaddTables.Besides(CoaddTables.ObjectMagKey(b)))
  {
    var cols := DmCModelColumns(b);
    var more: seq<Entry> := if has then [] else DmCModelComputed(v, b);
    assert KeysSatisfy(cols, CoaddTables.ObjectOf(b));
    assert KeysSatisfy(more, CoaddTables.ObjectOf(b));
    KeysSatisfyAppend(cols, more, CoaddTables.ObjectOf(b));
    KeysSatisfyAppend(cols, more, CoaddTables.Besides(CoaddTables.ObjectMagKey(b)));
  }

  lemma DmTailOf(v: int, has: bool, b: char)
    ensures KeysSatisfy(DmTail(v, has, b), CoaddTables.ObjectOf(b))
    ensures KeysSatisfy(DmTail(v, has, b), CoaddTables.Besides(CoaddTables.ObjectMagKey(b)))
  {
    var ax, fw, cm := CoaddTables.ObjectAxes(b), DmFwhm(b), DmCModel(v, has, b);
    CoaddTables.ObjectAxesOf(b);
    DmCModelOf(v, has, b);
    assert KeysSatisfy(fw, CoaddTables.ObjectOf(b));
    KeysSatisfyAppend(ax, fw, CoaddTables.ObjectOf(b));
    KeysSatisfyAppend(ax + fw, cm, CoaddTables.ObjectOf(b));
    KeysSatisfyAppend(ax, fw, CoaddTables.Besides(CoaddTables.ObjectMagKey(b)));
    KeysSatisfyAppend(ax + fw, cm, CoaddTables.Besides(CoaddTables.ObjectMagKey(b)));
  }

  /** The entries after the magnitude do not write the magnitude key. */
  lemma DmRestOf(v: int, has: bool, b: char)
    ensures KeysSatisfy(DmFluxes(v, b) + DmTail(v, has, b), CoaddTables.ObjectOf(b))
    ensures KeysSatisfy(DmFluxes(v, b) + DmTail(v, has, b), CoaddTables.Besides(CoaddTables.ObjectMagKey(b)))
  {
    DmFluxesOf(v, b);
    DmTailOf(v, has, b);
    KeysSatisfyAppend(DmFluxes(v, b), DmTail(v, has, b), CoaddTables.ObjectOf(b));
    KeysSatisfyAppend(DmFluxes(v, b), DmTail(v, has, b), CoaddTables.Besides(CoaddTables.ObjectMagKey(b)));
  }

  lemma DmBlockOf(v: int, has: bool, b: char)
    ensures KeysSatisfy(DmBlock(v, has, b), CoaddTables.ObjectOf(b))
  {
    DmRestOf(v, has, b);
    var head, rest := [DmMagEntry(b)], DmFluxes(v, b) + DmTail(v, has, b);
    assert CoaddTables.ObjectOf(b)(head[0].words);
    KeysSatisfyAppend(head, rest, CoaddTables.ObjectOf(b));
    Assoc(head, DmFluxes(v, b), DmTail(v, has, b));
  }

  /** The band loop's facts `ShapedLoop` needs. */
  lemma DmLoopShaped(v: int, has: bool)
    ensures forall x, w :: CoaddTables.ObjectOf(x)(w) ==> CoaddTables.ObjectBandShaped(w) && CoaddTables.ObjectTag(w) == x
    ensures forall x :: KeysSatisfy(DmBlocks(v, has)(x), CoaddTables.ObjectOf(x))
  {
    forall x ensures KeysSatisfy(DmBlocks(v, has)(x), CoaddTables.ObjectOf(x)) {
      DmBlockOf(v, has, x);
    }
  }

  lemma DmPositionUnshaped(v: int, k: seq<string>)
    requires CoaddTables.ObjectBandShaped(k)
    ensures k !in DmPosition(v)
  {
  }

  lemma DmMomentsUnshaped(k: seq<string>)
    requires CoaddTables.ObjectBandShaped(k)
    ensures k !in DmMoments
  {
  }

  /** No key before the band loop has the band loop's shape. */
  lemma DmFixedUnshaped(v: int, k: seq<string>)
    requires CoaddTables.ObjectBandShaped(k)
    ensures k !in DmFixed(v)
  {
    DmPositionUnshaped(v, k);
    DmMomentsUnshaped(k);
  }

  // ---------------------------------------------------------------------
  // What the table holds

  /** Every key of the table: one of the band loop's shape is present
      exactly when its band is one of the bands and that band's block
      writes it, with the block's value; any other key is the fixed
      part's, whatever the bands. */
  lemma DmKeys(v: int, has: bool, bands: seq<char>, k: seq<string>)
    requires forall p, q :: 0 <= p < q < |bands| ==> bands[p] != bands[q]
    ensures !CoaddTables.ObjectBandShaped(k) ==> (k in DmTable(v, has, bands) <==> k in DmFixed(v))
    ensures !CoaddTables.ObjectBandShaped(k) && k in DmFixed(v) ==> DmTable(v, has, bands)[k] == DmFixed(v)[k]
    ensures CoaddTables.ObjectBandShaped(k) ==>
      (k in DmTable(v, has, bands) <==> CoaddTables.ObjectTag(k) in bands && Writes(DmBlock(v, has, CoaddTables.ObjectTag(k)), k))
    ensures CoaddTables.ObjectBandShaped(k) && k in DmTable(v, has, bands) ==>
      k in Build(map[], DmBlock(v, has, CoaddTables.ObjectTag(k)))
      && DmTable(v, has, bands)[k] == Build(map[], DmBlock(v, has, CoaddTables.ObjectTag(k)))[k]
  {
    DmLoopShaped(v, has);
    if CoaddTables.ObjectBandShaped(k) {
      DmFixedUnshaped(v, k);
    }
    ShapedLoop(DmFixed(v), bands, DmBlocks(v, has), CoaddTables.ObjectTag, CoaddTables.ObjectBandShaped, CoaddTables.ObjectOf, k);
  }

  /** A key a band's block gives value `val` is in the table exactly for
      the bands looped over, with that value. */
  lemma DmBandKey(v: int, has: bool, bands: seq<char>, b: char, k: seq<string>, val: Modifier)
    requires forall p, q :: 0 <= p < q < |bands| ==> bands[p] != bands[q]
    requires CoaddTables.ObjectOf(b)(k)
    requires k in Build(map[], DmBlock(v, has, b)) && Build(map[], DmBlock(v, has, b))[k] == val
    ensures k in DmTable(v, has, bands) <==> b in bands
    ensures b in bands ==> DmTable(v, has, bands)[k] == val
  {
    DmLoopShaped(v, has);
    DmFixedUnshaped(v, k);
    BuildDomain(map[], DmBlock(v, has, b), k);
    ShapedKey(DmFixed(v), bands, DmBlocks(v, has), CoaddTables.ObjectTag, CoaddTables.ObjectBandShaped,
              CoaddTables.ObjectOf, b, k, val);
  }

  /** The magnitude of a band is its `{b}_mag` column, for exactly the
      bands looped over. */
  lemma DmMag(v: int, has: bool, bands: seq<char>, b: char)
    requires forall p, q :: 0 <= p < q < |bands| ==> bands[p] != bands[q]
    ensures CoaddTables.ObjectMagKey(b) in DmTable(v, has, bands) <==> b in bands
    ensures b in bands ==> DmTable(v, has, bands)[CoaddTables.ObjectMagKey(b)] == Alias(Native(b, "mag"))
  {
    var rest := DmFluxes(v, b) + DmTail(v, has, b);
    DmRestOf(v, has, b);
    FirstOfBlock(DmMagEntry(b), rest, CoaddTables.Besides(CoaddTables.ObjectMagKey(b)));
    assert DmBlock(v, has, b) == [DmMagEntry(b)] + rest;
    DmBandKey(v, has, bands, b, CoaddTables.ObjectMagKey(b), Alias(Native(b, "mag")));
  }

  /** No second-moment entry of a band writes its PSF flux key. */
  lemma AxesAvoidPsFlux(b: char)
    ensures KeysSatisfy(CoaddTables.ObjectAxes(b), CoaddTables.Besides(["psFlux", [b]]))
  {
    var ax := CoaddTables.ObjectAxes(b);
    CoaddTables.ObjectAxesOf(b);
    assert ("I" + "xx")[0] == 'I' && ("I" + "yy")[0] == 'I' && ("I" + "xy")[0] == 'I';
    assert ("I" + "xx" + "PSF")[0] == 'I' && ("I" + "yy" + "PSF")[0] == 'I' && ("I" + "xy" + "PSF")[0] == 'I';
    forall j | 0 <= j < |ax| ensures ax[j].words != ["psFlux", [b]] {
      assert ax[j].words[0][0] == 'I';
    }
  }

  /** No entry after a band's fluxes writes its PSF flux key. */
  lemma DmTailAvoidsPsFlux(v: int, has: bool, b: char)
    ensures KeysSatisfy(DmTail(v, has, b), CoaddTables.Besides(["psFlux", [b]]))
  {
    var k := ["psFlux", [b]];
    var ax, fw, cm := CoaddTables.ObjectAxes(b), DmFwhm(b), DmCModel(v, has, b);
    AxesAvoidPsFlux(b);
    DmCModelOf(v, has, b);
    forall j | 0 <= j < |cm| ensures cm[j].words != k {
      assert CoaddTables.ObjectOf(b)(cm[j].words);
    }
    KeysSatisfyAppend(ax, fw, CoaddTables.Besides(k));
    KeysSatisfyAppend(ax + fw, cm, CoaddTables.Besides(k));
  }

  /** The value a band's block leaves at its PSF flux key. */
  lemma DmPsFluxValue(v: int, has: bool, b: char)
    ensures ["psFlux", [b]] in Build(map[], DmBlock(v, has, b))
    ensures Build(map[], DmBlock(v, has, b))[["psFlux", [b]]] == Derived(NanoJansky, [PsfNative(v, b, false)])
  {
    var k := ["psFlux", [b]];
    var m0 := Build(map[], [DmMagEntry(b)]);
    var fl := DmFluxes(v, b);
    BuildLast(m0, fl, 1);
    var tail := DmTail(v, has, b);
    DmTailAvoidsPsFlux(v, has, b);
    KeysSatisfyAvoid(tail, CoaddTables.Besides(k), k);
    BuildAvoid(Build(m0, fl), tail, k);
    BuildAppend(map[], [DmMagEntry(b)], fl);
    BuildAppend(map[], [DmMagEntry(b)] + fl, tail);
  }

  /** The PSF flux of a band reads the version's flux column, converted to
      nanojansky. */
  lemma DmPsFlux(v: int, has: bool, bands: seq<char>, b: char)
    requires forall p, q :: 0 <= p < q < |bands| ==> bands[p] != bands[q]
    ensures ["psFlux", [b]] in DmTable(v, has, bands) <==> b in bands
    ensures b in bands ==> DmTable(v, has, bands)[["psFlux", [b]]] == Derived(NanoJansky, [PsfNative(v, b, false)])
  {
    DmPsFluxValue(v, has, b);
    DmBandKey(v, has, bands, b, ["psFlux", [b]], Derived(NanoJansky, [PsfNative(v, b, false)]));
  }

  /** The value a band's block leaves at its cModel magnitude key. */
  lemma DmCModelValue(v: int, has: bool, b: char)
    ensures CModelMagKey(b) in Build(map[], DmBlock(v, has, b))
    ensures Build(map[], DmBlock(v, has, b))[CModelMagKey(b)] ==
      if has then Alias(Native(b, "modelfit_mag"))
      else Derived("-2.5 log10(x) + 27", [CModelNative(v, b, false)])
  {
    var front := [DmMagEntry(b)] + DmFluxes(v, b) + CoaddTables.ObjectAxes(b) + DmFwhm(b);
    var cm := DmCModel(v, has, b);
    assert DmBlock(v, has, b) == front + cm;
    BuildAppend(map[], front, cm);
    var i := if has then 0 else 3;
    BuildLast(Build(map[], front), cm, i);
  }

  /** The cModel magnitude is the precomputed `{b}_modelfit_mag` column
      when the catalog has one, and otherwise computed from the cModel
      flux: the later assignment wins. */
  lemma DmCModelMag(v: int, has: bool, bands: seq<char>, b: char)
    requires forall p, q :: 0 <= p < q < |bands| ==> bands[p] != bands[q]
    ensures CModelMagKey(b) in DmTable(v, has, bands) <==> b in bands
    ensures b in bands && has ==> DmTable(v, has, bands)[CModelMagKey(b)] == Alias(Native(b, "modelfit_mag"))
    ensures b in bands && !has ==>
      DmTable(v, has, bands)[CModelMagKey(b)] == Derived("-2.5 log10(x) + 27", [CModelNative(v, b, false)])
  {
    DmCModelValue(v, has, b);
    DmBandKey(v, has, bands, b, CModelMagKey(b), Build(map[], DmBlock(v, has, b))[CModelMagKey(b)]);
  }

  /** A key before the band loop keeps its value, whatever the bands. */
  lemma DmFixedKey(v: int, has: bool, bands: seq<char>, k: seq<string>)
    requires forall p, q :: 0 <= p < q < |bands| ==> bands[p] != bands[q]
    requires k in DmFixed(v) && !CoaddTables.ObjectBandShaped(k)
    ensures k in DmTable(v, has, bands) && DmTable(v, has, bands)[k] == DmFixed(v)[k]
  {
    DmLoopShaped(v, has);
    ShapedLoop(DmFixed(v), bands, DmBlocks(v, has), CoaddTables.ObjectTag, CoaddTables.ObjectBandShaped, CoaddTables.ObjectOf, k);
  }

  /** The first part of a union keeps the keys the second lacks. */
  lemma LeftLookup(a: Table, b: Table, k: seq<string>)
    requires k in a && k !in b
    ensures k in a + b && (a + b)[k] == a[k]
  {
  }

  lemma FixedXErr(v: int)
    ensures ["xErr"] in DmFixed(v) && DmFixed(v)[["xErr"]] == Alias("base_SdssCentroid_x" + ErrName(v))
  {
    LeftLookup(DmPosition(v), DmMoments, ["xErr"]);
  }

  lemma FixedBlendedness(v: int)
    ensures ["blendedness"] in DmFixed(v) && DmFixed(v)[["blendedness"]] == Alias("base_Blendedness_abs" + BlendSuffix(v))
  {
    LeftLookup(DmPosition(v), DmMoments, ["blendedness"]);
  }

  /** The centroid error reads `Sigma` columns in version 1 and `Err`
      columns after. */
  lemma DmXErr(v: int, has: bool, bands: seq<char>)
    requires forall p, q :: 0 <= p < q < |bands| ==> bands[p] != bands[q]
    ensures var t := DmTable(v, has, bands);
      ["xErr"] in t && t[["xErr"]] == Alias("base_SdssCentroid_x" + ErrName(v))
  {
    FixedXErr(v);
    DmFixedKey(v, has, bands, ["xErr"]);
  }

  /** The blendedness column carries the flux word up to version 3 and
      loses it from version 4 on. */
  lemma DmBlendedness(v: int, has: bool, bands: seq<char>)
    requires forall p, q :: 0 <= p < q < |bands| ==> bands[p] != bands[q]
    ensures var t := DmTable(v, has, bands);
      ["blendedness"] in t && t[["blendedness"]] == Alias("base_Blendedness_abs" + BlendSuffix(v))
  {
    FixedBlendedness(v);
    DmFixedKey(v, has, bands, ["blendedness"]);
  }

  lemma FixedFlags(v: int)
    ensures ["good"] in DmFixed(v) && DmFixed(v)[["good"]] == Derived(FlagMaskFn, CoaddTables.NotGoodFlags)
    ensures ["clean"] in DmFixed(v) && DmFixed(v)[["clean"]] == Derived(FlagMaskFn, ["deblend_skipped"] + CoaddTables.NotGoodFlags)
  {
    var p, m := DmPosition(v), DmMoments;
    assert ["good"] in m && m[["good"]] == Derived(FlagMaskFn, CoaddTables.NotGoodFlags);
    assert ["clean"] in m && m[["clean"]] == Derived(FlagMaskFn, ["deblend_skipped"] + CoaddTables.NotGoodFlags);
    assert DmFixed(v) == p + m;
  }

  /** `good` masks the seven flags of the coadd object readers. */
  lemma DmGood(v: int, has: bool, bands: seq<char>)
    requires forall p, q :: 0 <= p < q < |bands| ==> bands[p] != bands[q]
    ensures var t := DmTable(v, has, bands);
      ["good"] in t && t[["good"]] == Derived(FlagMaskFn, CoaddTables.NotGoodFlags)
  {
    FixedFlags(v);
    DmFixedKey(v, has, bands, ["good"]);
  }

  /** `clean` is `good` with `deblend_skipped` also required unset. */
  lemma DmCleanIsGood(v: int, has: bool, bands: seq<char>)
    requires forall p, q :: 0 <= p < q < |bands| ==> bands[p] != bands[q]
    ensures var t := DmTable(v, has, bands);
      && ["good"] in t && ["clean"] in t && t[["good"]].Derived?
      && t[["clean"]] == Derived(t[["good"]].fn, ["deblend_skipped"] + t[["good"]].natives)
  {
    DmGood(v, has, bands);
    FixedFlags(v);
    DmFixedKey(v, has, bands, ["clean"]);
  }

  /** In version 3 the blendedness column the table reads is the column
      the version was detected by. */
  lemma DmBlendednessDetected(cols: seq<string>)
    requires DmSchemaVersion(cols) == 3
    ensures "base_Blendedness_abs" + BlendSuffix(DmSchemaVersion(cols)) in cols
  {
    assert "base_Blendedness_abs" + ("_" + "instFlux") == "base_Blendedness_abs_instFlux";
  }

  // ---------------------------------------------------------------------
  // The reader

  /** `_subclass_init`: no data set raises `RuntimeError`; otherwise the
      first data set's columns give the modifiers, the identity on them for
      a DPDD catalog, else the table of the detected version, bands and
      presence of `_modelfit_mag` columns. */
  function DmReader(datasets: seq<seq<string>>, isDpdd: bool): (r: Result<Dc2Source.Installed>)
    ensures r.Err? <==> |datasets| == 0
    ensures r.Err? ==> r.error == RuntimeError
    ensures r.Ok? ==> (isDpdd <==> r.value.Flat?)
    ensures r.Ok? && isDpdd ==> forall c :: c in r.value.columns <==> c in datasets[0]
  {
    if |datasets| == 0 then Err(RuntimeError)
    else
      var cols := datasets[0];
      if isDpdd then Ok(Dc2Source.Flat(DpddModifiers(cols)))
      else
        var v := DmSchemaVersion(cols);
        Ok(Dc2Source.Keyed(DmModifiers(v, AnyEndsWith(cols, "_modelfit_mag"), Bands(cols)).value))
  }

  /** The magnitude of a band is a key of the reader's table exactly when
      the first data set has the band's `{b}_mag` column. */
  lemma DmReaderMag(datasets: seq<seq<string>>, b: char)
    requires |datasets| > 0
    requires forall i, j :: 0 <= i < j < |datasets[0]| ==> datasets[0][i] != datasets[0][j]
    ensures var t := DmReader(datasets, false).value.table;
      CoaddTables.ObjectMagKey(b) in t <==> [b] + "_mag" in datasets[0]
  {
    var cols := datasets[0];
    BandsDistinct(cols);
    DmMag(DmSchemaVersion(cols), AnyEndsWith(cols, "_modelfit_mag"), Bands(cols), b);
  }

  /** The native filter quantities: only `tract`. */
  const NativeFilterQuantities: set<string> := {"tract"}
}
