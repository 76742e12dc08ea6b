/** The quantity-modifier tables of the object, coadd, static coadd and
    static merged coadd readers: a fixed part, then a loop over the bands
    writing one block of keys per band. The functions named in the derived
    entries (flux-to-magnitude and PSF-width formulas) are labels; their
    floating-point arithmetic is not modelled. */
module CoaddTables {
  import opened Wrappers
  import opened Strings
  import opened Tables
  import opened ObjectInfo

  /** The flags whose every one must be off for a `good` object. */
  const NotGoodFlags: seq<string> := [
    "base_PixelFlags_flag_edge",
    "base_PixelFlags_flag_interpolatedCenter",
    "base_PixelFlags_flag_saturatedCenter",
    "base_PixelFlags_flag_crCenter",
    "base_PixelFlags_flag_bad",
    "base_PixelFlags_flag_suspectCenter",
    "base_PixelFlags_flag_clipped"
  ]

  const FlagMaskFn: string := "create_basic_flag_mask"

  /** The object and coadd readers' keys before the band loop: the
      dictionary display, then `good`, `clean`, `I_flag` and the
      cross-band second moments, which assign keys the display does not
      have, in one map. */
  const ObjectFixed: Table := map[
    ["objectId"] := Alias("id"),
    ["parentObjectId"] := Alias("parent"),
    ["ra"] := Derived("np.rad2deg", ["coord_ra"]),
    ["dec"] := Derived("np.rad2deg", ["coord_dec"]),
    ["x"] := Alias("base_SdssCentroid_x"),
    ["y"] := Alias("base_SdssCentroid_y"),
    ["xErr"] := Alias("base_SdssCentroid_xSigma"),
    ["yErr"] := Alias("base_SdssCentroid_ySigma"),
    ["xy", "flag"] := Alias("base_SdssCentroid_flag"),
    ["psNdata"] := Alias("base_PsfFlux_area"),
    ["extendedness"] := Alias("base_ClassificationExtendedness_value"),
    ["blendedness"] := Alias("base_Blendedness_abs_flux"),
    ["good"] := Derived(FlagMaskFn, NotGoodFlags),
    ["clean"] := Derived(FlagMaskFn, ["deblend_skipped"] + NotGoodFlags),
    ["I", "flag"] := Alias("ext_shapeHSM_HsmSourceMoments_flag"),
    ["Ixx"] := Alias("ext_shapeHSM_HsmSourceMoments_xx"),
    ["IxxPSF"] := Alias("base_SdssShape_psf_xx"),
    ["Iyy"] := Alias("ext_shapeHSM_HsmSourceMoments_yy"),
    ["IyyPSF"] := Alias("base_SdssShape_psf_yy"),
    ["Ixy"] := Alias("ext_shapeHSM_HsmSourceMoments_xy"),
    ["IxyPSF"] := Alias("base_SdssShape_psf_xy")
  ]

  /** The native name `{b}_{rest}`. */
  function BandNative(b: char, rest: string): string { [b] + "_" + rest }

  /** The magnitude column of a band. */
  lemma MagNative(b: char)
    ensures BandNative(b, "mag") == [b] + "_mag"
  {
  }

  /** The band-specific second moments for one axis. */
  function ObjectAxis(b: char, ax: string): seq<Entry> {
    [Entry(["I" + ax, [b]], Alias(BandNative(b, "base_SdssShape_" + ax))),
     Entry(["I" + ax + "PSF", [b]], Alias(BandNative(b, "base_SdssShape_psf_" + ax)))]
  }

  const CModelFlux: string := "modelfit_CModel_flux"
  const CModelFluxErr: string := "modelfit_CModel_fluxSigma"

  /** The basic band entries after the magnitude. */
  function ObjectBasic(b: char): seq<Entry> {
    [Entry(["magerr", [b]], Alias(BandNative(b, "mag_err"))),
     Entry(["psFlux", [b]], Alias(BandNative(b, "base_PsfFlux_flux"))),
     Entry(["psFlux", "flag", [b]], Alias(BandNative(b, "base_PsfFlux_flag"))),
     Entry(["psFluxErr", [b]], Alias(BandNative(b, "base_PsfFlux_fluxSigma"))),
     Entry(["I", "flag", [b]], Alias(BandNative(b, "base_SdssShape_flag")))]
  }

  function ObjectAxes(b: char): seq<Entry> {
    ObjectAxis(b, "xx") + ObjectAxis(b, "yy") + ObjectAxis(b, "xy")
  }

  /** The cModel magnitude, its error, the signal-to-noise ratio and the
      PSF width, each a function of native fluxes or moments. */
  function ObjectModel(b: char): seq<Entry> {
    [Entry(["mag", [b], "cModel"], Derived("-2.5 log10(x) + 27", [BandNative(b, CModelFlux)])),
     Entry(["magerr", [b], "cModel"], Derived("2.5 err / (flux ln 10)", [BandNative(b, CModelFlux), BandNative(b, CModelFluxErr)])),
     Entry(["snr", [b], "cModel"], Derived("np.divide", [BandNative(b, CModelFlux), BandNative(b, CModelFluxErr)])),
     Entry(["psf", "fwhm", [b]], Derived("pixel_scale * 2.355 * (xx * yy - xy * xy) ** 0.25",
       [BandNative(b, "base_SdssShape_psf_xx"), BandNative(b, "base_SdssShape_psf_yy"), BandNative(b, "base_SdssShape_psf_xy")]))]
  }

  function ObjectRest(b: char): seq<Entry> {
    ObjectBasic(b) + ObjectAxes(b) + ObjectModel(b)
  }

  /** The band magnitude key `mag_{b}`. */
  function ObjectMagKey(b: char): seq<string> { ["mag", [b]] }

  /** One pass of the band loop of the object and coadd readers. */
  function ObjectBlock(b: char): seq<Entry> {
    [Entry(ObjectMagKey(b), Alias(BandNative(b, "mag")))] + ObjectRest(b)
  }

  /** The shape of the keys the band loop writes: the band is a
      one-character word, last or before `cModel`. */
  predicate ObjectBandShaped(k: seq<string>) {
    (|k| == 2 && |k[1]| == 1) || (|k| == 3 && (|k[2]| == 1 || k[2] == "cModel"))
  }

  /** The band a key of the band loop was written for. */
  function ObjectTag(k: seq<string>): char {
    if |k| == 3 && k[2] == "cModel" && |k[1]| == 1 then k[1][0]
    else if |k| >= 1 && |k[|k| - 1]| == 1 then k[|k| - 1][0]
    else ' '
  }

  /** The keys written for band `b`. */
  function ObjectOf(b: char): seq<string> -> bool {
    k => ObjectBandShaped(k) && ObjectTag(k) == b
  }

  /** Keys other than `k0`. */
  function Besides(k0: seq<string>): seq<string> -> bool {
    k => k != k0
  }

  /** `_generate_modifiers(pixel_scale, bands)` of the object and coadd
      readers (the two are the same table). */
  function ObjectTable(bands: seq<char>): (r: Table)
    ensures forall k :: k in r <==> k in ObjectFixed || Writes(Loop(bands, ObjectBlock), k)
  {
    var r := Build(ObjectFixed, Loop(bands, ObjectBlock));
    assert forall k :: k in r <==> k in ObjectFixed || Writes(Loop(bands, ObjectBlock), k) by {
      forall k ensures k in r <==> k in ObjectFixed || Writes(Loop(bands, ObjectBlock), k) {
        BuildDomain(ObjectFixed, Loop(bands, ObjectBlock), k);
      }
    }
    r
  }

  lemma ObjectAxisOf(b: char, ax: string)
    requires |ax| == 2
    ensures KeysSatisfy(ObjectAxis(b, ax), ObjectOf(b))
    ensures KeysSatisfy(ObjectAxis(b, ax), Besides(ObjectMagKey(b)))
  {
    assert ("I" + ax)[0] == 'I';
  }

  lemma ObjectAxesOf(b: char)
    ensures KeysSatisfy(ObjectAxes(b), ObjectOf(b))
    ensures KeysSatisfy(ObjectAxes(b), Besides(ObjectMagKey(b)))
  {
    ObjectAxisOf(b, "xx");
    ObjectAxisOf(b, "yy");
    ObjectAxisOf(b, "xy");
    KeysSatisfyAppend(ObjectAxis(b, "xx"), ObjectAxis(b, "yy"), ObjectOf(b));
    KeysSatisfyAppend(ObjectAxis(b, "xx") + ObjectAxis(b, "yy"), ObjectAxis(b, "xy"), ObjectOf(b));
    KeysSatisfyAppend(ObjectAxis(b, "xx"), ObjectAxis(b, "yy"), Besides(ObjectMagKey(b)));
    KeysSatisfyAppend(ObjectAxis(b, "xx") + ObjectAxis(b, "yy"), ObjectAxis(b, "xy"), Besides(ObjectMagKey(b)));
  }

  lemma ObjectBasicOf(b: char)
    ensures KeysSatisfy(ObjectBasic(b), ObjectOf(b))
    ensures KeysSatisfy(ObjectBasic(b), Besides(ObjectMagKey(b)))
  {
  }

  lemma ObjectModelOf(b: char)
    ensures KeysSatisfy(ObjectModel(b), ObjectOf(b))
    ensures KeysSatisfy(ObjectModel(b), Besides(ObjectMagKey(b)))
  {
  }

  lemma ObjectRestOf(b: char)
    ensures KeysSatisfy(ObjectRest(b), ObjectOf(b))
    ensures KeysSatisfy(ObjectRest(b), Besides(ObjectMagKey(b)))
  {
    var ba, ax, mo := ObjectBasic(b), ObjectAxes(b), ObjectModel(b);
    ObjectBasicOf(b);
    ObjectAxesOf(b);
    ObjectModelOf(b);
    KeysSatisfyAppend(ba, ax, ObjectOf(b));
    KeysSatisfyAppend(ba + ax, mo, ObjectOf(b));
    KeysSatisfyAppend(ba, ax, Besides(ObjectMagKey(b)));
    KeysSatisfyAppend(ba + ax, mo, Besides(ObjectMagKey(b)));
  }

  lemma ObjectBlockOf(b: char)
    ensures KeysSatisfy(ObjectBlock(b), ObjectOf(b))
  {
    ObjectRestOf(b);
    var head := [Entry(ObjectMagKey(b), Alias(BandNative(b, "mag")))];
    assert KeysSatisfy(head, ObjectOf(b));
    KeysSatisfyAppend(head, ObjectRest(b), ObjectOf(b));
  }

  /** The band loop's facts `ShapedLoop` needs. */
  lemma ObjectLoopShaped()
    ensures forall x, w :: ObjectOf(x)(w) ==> ObjectBandShaped(w) && ObjectTag(w) == x
    ensures forall x :: KeysSatisfy(ObjectBlock(x), ObjectOf(x))
  {
    forall x ensures KeysSatisfy(ObjectBlock(x), ObjectOf(x)) {
      ObjectBlockOf(x);
    }
  }

  /** The magnitude entry is the block's first and only entry for its key. */
  lemma ObjectMagValue(b: char)
    ensures Writes(ObjectBlock(b), ObjectMagKey(b))
    ensures ObjectMagKey(b) in Build(map[], ObjectBlock(b))
    ensures Build(map[], ObjectBlock(b))[ObjectMagKey(b)] == Alias(BandNative(b, "mag"))
  {
    ObjectRestOf(b);
    var e := Entry(ObjectMagKey(b), Alias(BandNative(b, "mag")));
    FirstOfBlock(e, ObjectRest(b), Besides(ObjectMagKey(b)));
    assert ObjectBlock(b)[0] == e;
  }

  /** No key of the fixed part has the band loop's shape. */
  lemma ObjectFixedUnshaped(k: seq<string>)
    requires ObjectBandShaped(k)
    ensures k !in ObjectFixed
  {
  }

  /** Every key of the object and coadd tables: one of the band loop's
      shape is present exactly when its band is one of the bands and that
      band's block writes it, with the block's value; any other key is the
      fixed part's, whatever the bands. */
  lemma ObjectKeys(bands: seq<char>, k: seq<string>)
    requires forall p, q :: 0 <= p < q < |bands| ==> bands[p] != bands[q]
    ensures !ObjectBandShaped(k) ==> (k in ObjectTable(bands) <==> k in ObjectFixed)
    ensures !ObjectBandShaped(k) && k in ObjectFixed ==> ObjectTable(bands)[k] == ObjectFixed[k]
    ensures ObjectBandShaped(k) ==> (k in ObjectTable(bands) <==> ObjectTag(k) in bands && Writes(ObjectBlock(ObjectTag(k)), k))
    ensures ObjectBandShaped(k) && k in ObjectTable(bands) ==>
      k in Build(map[], ObjectBlock(ObjectTag(k)))
      && ObjectTable(bands)[k] == Build(map[], ObjectBlock(ObjectTag(k)))[k]
  {
    ObjectLoopShaped();
    if ObjectBandShaped(k) {
      ObjectFixedUnshaped(k);
    }
    ShapedLoop(ObjectFixed, bands, ObjectBlock, ObjectTag, ObjectBandShaped, ObjectOf, k);
  }

  /** The magnitude key of a band is present exactly for the bands looped
      over, and names the band's `{b}_mag` column. */
  lemma ObjectMag(bands: seq<char>, b: char)
    requires forall p, q :: 0 <= p < q < |bands| ==> bands[p] != bands[q]
    ensures ObjectMagKey(b) in ObjectTable(bands) <==> b in bands
    ensures b in bands ==> ObjectTable(bands)[ObjectMagKey(b)] == Alias(BandNative(b, "mag"))
  {
    ObjectLoopShaped();
    var k := ObjectMagKey(b);
    ObjectFixedUnshaped(k);
    ObjectMagValue(b);
    ShapedKey(ObjectFixed, bands, ObjectBlock, ObjectTag, ObjectBandShaped, ObjectOf, b, k, Alias(BandNative(b, "mag")));
  }

  /** The magnitude of a band is read from the `{b}_mag` column, and it is
      a key exactly when the catalog has that column: the band list is read
      off the columns. */
  lemma ObjectMagColumns(cols: seq<string>, b: char)
    requires forall i, j :: 0 <= i < j < |cols| ==> cols[i] != cols[j]
    ensures ObjectMagKey(b) in ObjectTable(Bands(cols)) <==> [b] + "_mag" in cols
    ensures ObjectMagKey(b) in ObjectTable(Bands(cols)) ==> ObjectTable(Bands(cols))[ObjectMagKey(b)] == Alias([b] + "_mag")
  {
    BandsDistinct(cols);
    ObjectMag(Bands(cols), b);
    MagNative(b);
  }

  /** `good` masks the seven pixel flags. */
  lemma ObjectGood(bands: seq<char>)
    requires forall p, q :: 0 <= p < q < |bands| ==> bands[p] != bands[q]
    ensures ["good"] in ObjectTable(bands)
    ensures ObjectTable(bands)[["good"]] == Derived(FlagMaskFn, NotGoodFlags)
  {
    ObjectKeys(bands, ["good"]);
  }

  /** `clean` is `good` with `deblend_skipped` also required unset. */
  lemma ObjectCleanIsGood(bands: seq<char>)
    requires forall p, q :: 0 <= p < q < |bands| ==> bands[p] != bands[q]
    ensures ["good"] in ObjectTable(bands) && ["clean"] in ObjectTable(bands)
    ensures var g := ObjectTable(bands)[["good"]];
      g.Derived? && ObjectTable(bands)[["clean"]] == Derived(g.fn, ["deblend_skipped"] + g.natives)
  {
    ObjectGood(bands);
    ObjectKeys(bands, ["clean"]);
  }

  /** The static coadd reader's keys before the band loop. */
  const StaticFixed: Table := map[
    ["objectId"] := Alias("id"),
    ["parentObjectId"] := Alias("parent"),
    ["ra"] := Alias("coord_ra"),
    ["dec"] := Alias("coord_dec"),
    ["centroidX"] := Alias("slot_Centroid_x"),
    ["centroidY"] := Alias("slot_Centroid_y"),
    ["centroidX", "err"] := Alias("slot_Centroid_xSigma"),
    ["centroidY", "err"] := Alias("slot_Centroid_ySigma"),
    ["centroid", "flag"] := Alias("slot_Centroid_flag"),
    ["psNdata"] := Alias("base_PsfFlux_area"),
    ["extendedness"] := Alias("base_ClassificationExtendedness_value")
  ]

  const StaticBands: string := "ugrizy"

  function StaticAxis(b: char, ax: string): seq<Entry> {
    [Entry([[b], "I" + ax], Alias(BandNative(b, "slot_Shape_" + ax))),
     Entry([[b], "I" + ax + "PSF"], Alias(BandNative(b, "slot_PsfShape_" + ax)))]
  }

  /** The static coadd magnitude key `{b}_magLSST`. */
  function StaticMagKey(b: char): seq<string> { [[b], "magLSST"] }

  function StaticRest(b: char): seq<Entry> {
    [Entry([[b], "magLSST", "err"], Alias(BandNative(b, "mag_err"))),
     Entry([[b], "psFlux"], Alias(BandNative(b, "slot_ModelFlux_flux"))),
     Entry([[b], "psFlux", "flag"], Alias(BandNative(b, "slot_ModelFlux_flag"))),
     Entry([[b], "psFlux", "err"], Alias(BandNative(b, "slot_ModelFlux_fluxSigma"))),
     Entry([[b], "I", "flag"], Alias(BandNative(b, "slot_Shape_flag")))]
    + StaticAxis(b, "xx") + StaticAxis(b, "xy") + StaticAxis(b, "yy")
  }

  /** One pass of the static coadd reader's band loop: every key starts
      with the band. */
  function StaticBlock(b: char): seq<Entry> {
    [Entry(StaticMagKey(b), Alias(BandNative(b, "mag")))] + StaticRest(b)
  }

  /** A key of the band loop: its first word is one character. */
  predicate StaticBandShaped(k: seq<string>) { |k| >= 1 && |k[0]| == 1 }

  function StaticTag(k: seq<string>): char {
    if StaticBandShaped(k) then k[0][0] else ' '
  }

  function StaticOf(b: char): seq<string> -> bool {
    k => StaticBandShaped(k) && StaticTag(k) == b
  }

  /** `_generate_modifiers()` of the static coadd reader, whose band loop
      runs over `StaticBands`; the lemmas hold for any list of distinct
      bands. */
  function StaticTable(bands: seq<char>): (r: Table)
    ensures forall k :: k in r <==> k in StaticFixed || Writes(Loop(bands, StaticBlock), k)
  {
    var r := Build(StaticFixed, Loop(bands, StaticBlock));
    assert forall k :: k in r <==> k in StaticFixed || Writes(Loop(bands, StaticBlock), k) by {
      forall k ensures k in r <==> k in StaticFixed || Writes(Loop(bands, StaticBlock), k) {
        BuildDomain(StaticFixed, Loop(bands, StaticBlock), k);
      }
    }
    r
  }

  lemma StaticRestOf(b: char)
    ensures KeysSatisfy(StaticRest(b), StaticOf(b))
    ensures KeysSatisfy(StaticRest(b), Besides(StaticMagKey(b)))
  {
  }

  lemma StaticBlockOf(b: char)
    ensures KeysSatisfy(StaticBlock(b), StaticOf(b))
  {
    StaticRestOf(b);
    var head := [Entry(StaticMagKey(b), Alias(BandNative(b, "mag")))];
    assert KeysSatisfy(head, StaticOf(b));
    KeysSatisfyAppend(head, StaticRest(b), StaticOf(b));
  }

  lemma StaticLoopShaped()
    ensures forall x, w :: StaticOf(x)(w) ==> StaticBandShaped(w) && StaticTag(w) == x
    ensures forall x :: KeysSatisfy(StaticBlock(x), StaticOf(x))
  {
    forall x ensures KeysSatisfy(StaticBlock(x), StaticOf(x)) {
      StaticBlockOf(x);
    }
  }

  lemma StaticMagValue(b: char)
    ensures Writes(StaticBlock(b), StaticMagKey(b))
    ensures StaticMagKey(b) in Build(map[], StaticBlock(b))
    ensures Build(map[], StaticBlock(b))[StaticMagKey(b)] == Alias(BandNative(b, "mag"))
  {
    StaticRestOf(b);
    var e := Entry(StaticMagKey(b), Alias(BandNative(b, "mag")));
    FirstOfBlock(e, StaticRest(b), Besides(StaticMagKey(b)));
    assert StaticBlock(b)[0] == e;
  }

  /** Every key of the static coadd table: one starting with a
      one-character word is present exactly when that character is one of
      the bands and its block writes the key, with the block's value; any
      other key is the fixed part's. */
  lemma StaticKeys(bands: seq<char>, k: seq<string>)
    requires forall p, q :: 0 <= p < q < |bands| ==> bands[p] != bands[q]
    ensures !StaticBandShaped(k) ==> (k in StaticTable(bands) <==> k in StaticFixed)
    ensures !StaticBandShaped(k) && k in StaticFixed ==> StaticTable(bands)[k] == StaticFixed[k]
    ensures StaticBandShaped(k) ==> (k in StaticTable(bands) <==> StaticTag(k) in bands && Writes(StaticBlock(StaticTag(k)), k))
    ensures StaticBandShaped(k) && k in StaticTable(bands) ==>
      k in Build(map[], StaticBlock(StaticTag(k)))
      && StaticTable(bands)[k] == Build(map[], StaticBlock(StaticTag(k)))[k]
  {
    StaticLoopShaped();
    ShapedLoop(StaticFixed, bands, StaticBlock, StaticTag, StaticBandShaped, StaticOf, k);
  }

  /** The static coadd magnitude of band `b` is the `{b}_mag` column, for
      exactly the bands looped over. */
  lemma StaticMag(bands: seq<char>, b: char)
    requires forall p, q :: 0 <= p < q < |bands| ==> bands[p] != bands[q]
    ensures StaticMagKey(b) in StaticTable(bands) <==> b in bands
    ensures b in bands ==> StaticTable(bands)[StaticMagKey(b)] == Alias(BandNative(b, "mag"))
  {
    StaticLoopShaped();
    var k := StaticMagKey(b);
    StaticMagValue(b);
    ShapedKey(StaticFixed, bands, StaticBlock, StaticTag, StaticBandShaped, StaticOf, b, k, Alias(BandNative(b, "mag")));
  }

  /** The static merged coadd reader's keys before the band loop. */
  const MergedFixed: Table := map[["ra"] := Alias("coord_ra"), ["dec"] := Alias("coord_dec")]

  /** The LSST magnitude key `mag_{b}_lsst`, or `magerr_{b}_lsst`. */
  function MergedKey(b: char, err: bool): seq<string> {
    [if err then "magerr" else "mag", [b], "lsst"]
  }

  /** The native magnitude of the lower-cased band, or its error. */
  function MergedNative(b: char, err: bool): string {
    BandNative(Lower(b), if err then "mag_err" else "mag")
  }

  /** One pass of the merged reader's band loop. */
  function MergedBlock(b: char): seq<Entry> {
    [Entry(MergedKey(b, false), Alias(MergedNative(b, false))),
     Entry(MergedKey(b, true), Alias(MergedNative(b, true)))]
  }

  predicate MergedShaped(k: seq<string>) { |k| == 3 && |k[1]| == 1 }

  function MergedTag(k: seq<string>): char {
    if MergedShaped(k) then k[1][0] else ' '
  }

  /** The quantity modifiers of the static merged coadd reader, whose band
      loop runs over `StaticBands`. */
  function MergedTable(bands: seq<char>): (r: Table)
    ensures forall k :: k in r <==> k in MergedFixed || Writes(Loop(bands, MergedBlock), k)
  {
    var r := Build(MergedFixed, Loop(bands, MergedBlock));
    assert forall k :: k in r <==> k in MergedFixed || Writes(Loop(bands, MergedBlock), k) by {
      forall k ensures k in r <==> k in MergedFixed || Writes(Loop(bands, MergedBlock), k) {
        BuildDomain(MergedFixed, Loop(bands, MergedBlock), k);
      }
    }
    r
  }

  function MergedOf(b: char): seq<string> -> bool {
    k => MergedShaped(k) && MergedTag(k) == b
  }

  lemma MergedBlockValues(b: char, k: seq<string>)
    ensures KeysSatisfy(MergedBlock(b), MergedOf(b))
    ensures Writes(MergedBlock(b), k) <==> k == MergedKey(b, false) || k == MergedKey(b, true)
    ensures k in Build(map[], MergedBlock(b)) ==>
      (k == MergedKey(b, false) ==> Build(map[], MergedBlock(b))[k] == Alias(MergedNative(b, false)))
      && (k == MergedKey(b, true) ==> Build(map[], MergedBlock(b))[k] == Alias(MergedNative(b, true)))
  {
    var es := MergedBlock(b);
    var m1 := map[MergedKey(b, false) := Alias(MergedNative(b, false))];
    assert Build(map[], es) == Build(m1, es[1..]);
    assert Build(m1, es[1..]) == Build(m1[MergedKey(b, true) := Alias(MergedNative(b, true))], es[1..][1..]);
    assert es[1..][1..] == [];
    assert MergedKey(b, false) != MergedKey(b, true);
  }

  /** Every key of the merged table: `ra` and `dec`, and for each band
      the magnitude and its error, read from the lower-cased band's
      `{b}_mag` and `{b}_mag_err`; nothing else. */
  lemma MergedKeys(bands: seq<char>, k: seq<string>)
    requires forall p, q :: 0 <= p < q < |bands| ==> bands[p] != bands[q]
    ensures k in MergedTable(bands) <==>
      k in MergedFixed || exists b, err :: b in bands && k == MergedKey(b, err)
    ensures k in MergedFixed ==> MergedTable(bands)[k] == MergedFixed[k]
    ensures forall b, err :: b in bands && k == MergedKey(b, err) ==>
      MergedTable(bands)[k] == Alias(MergedNative(b, err))
  {
    forall x ensures KeysSatisfy(MergedBlock(x), MergedOf(x)) {
      MergedBlockValues(x, []);
    }
    ShapedLoop(MergedFixed, bands, MergedBlock, MergedTag, MergedShaped, MergedOf, k);
    if MergedShaped(k) {
      var b := MergedTag(k);
      MergedBlockValues(b, k);
      if exists c, err :: c in bands && k == MergedKey(c, err) {
        var c, err :| c in bands && k == MergedKey(c, err);
        assert b == c;
      }
    }
  }

  /** The bands of the static readers are the lower-case `ugrizy`, so the
      merged reader's natives are `{b}_mag` and `{b}_mag_err` of the band
      itself. */
  lemma MergedStaticBands(b: char, err: bool)
    requires b in StaticBands
    ensures MergedNative(b, err) == [b] + (if err then "_mag_err" else "_mag")
  {
  }
}
