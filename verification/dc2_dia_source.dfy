/** The DC2 DIA (difference image) source catalog reader
    (`dc2_dia_source.py`). It reads its schema and data sets as the source
    reader does; its modifiers differ: no version check, centroid errors
    that ignore the version, fluxes converted with `fluxmag0`, and `clean`
    the same as `good`. */
module DiaSource {
  import opened Wrappers
  import opened Tables
  import opened DmSchemas
  import Dc2Source

  /** The identifiers and positions, which do not depend on the schema
      version. */
  const DiaPosition: Table := map[
    ["diaSourceId"] := Alias("id"),
    ["visit"] := Alias("visit"),
    ["filter"] := Alias("filter"),
    ["detector"] := Alias("detector"),
    ["parentDiaSourceId"] := Alias("parent"),
    ["ra"] := Derived(RadToDeg, ["coord_ra"]),
    ["dec"] := Derived(RadToDeg, ["coord_dec"]),
    ["x"] := Alias("slot_Centroid_x"),
    ["y"] := Alias("slot_Centroid_y"),
    ["xErr"] := Alias("slot_Centroid_xErr"),
    ["yErr"] := Alias("slot_Centroid_yErr")
  ]

  /** The other entries that do not depend on the schema version (the
      display names `apFlux_flag` twice, with the same value). */
  const DiaRest: Table := map[
    ["apFlux", "flag"] := Alias("slot_ApFlux_flag"),
    ["dipAngle"] := Alias("ip_diffim_DipoleFit_orientation"),
    ["dipChi2"] := Alias("ip_diffim_DipoleFit_chi2dof"),
    ["totFlux"] := Alias("ip_diffim_forced_PsfFlux_instFlux"),
    ["totFluxErr"] := Alias("ip_diffim_forced_PsfFlux_instFluxErr"),
    ["isDipole"] := Alias("ip_diffim_DipoleFit_flag_classification"),
    ["ixyPSF"] := Alias("slot_PsfShape_xy"),
    ["xy", "flag"] := Alias("slot_Centroid_flag"),
    ["I", "flag"] := Alias("slot_Shape_flag"),
    ["Ixx"] := Alias("slot_Shape_xx"),
    ["IxxPSF"] := Alias("slot_PsfShape_xx"),
    ["Iyy"] := Alias("slot_Shape_yy"),
    ["IyyPSF"] := Alias("slot_PsfShape_yy"),
    ["Ixy"] := Alias("slot_Shape_xy"),
    ["IxyPSF"] := Alias("slot_PsfShape_xy"),
    ["mag"] := Alias("mag"),
    ["magerr"] := Alias("mag_err"),
    ["fluxmag0"] := Alias("fluxmag0"),
    ["psFlux", "flag"] := Alias("slot_PsfFlux_flag"),
    ["psNdata"] := Alias("slot_PsfFlux_area")
  ]

  /** A flux entry: the version's column converted to nanojansky with the
      calibration `fluxmag0`. */
  function Calibrated(column: string): Modifier {
    Derived(NanoJansky, [column, "fluxmag0"])
  }

  function DiaVersioned(v: int): Table {
    map[
      ["apFlux"] := Calibrated(Dc2Source.FluxColumn("slot_ApFlux", v)),
      ["apFluxErr"] := Calibrated(Dc2Source.FluxErrColumn("slot_ApFlux", v)),
      ["psFlux"] := Calibrated(Dc2Source.FluxColumn("slot_PsfFlux", v)),
      ["psFluxErr"] := Calibrated(Dc2Source.FluxErrColumn("slot_PsfFlux", v))
    ]
  }

  /** `good` masks the six pixel flags; `clean` is the same tuple. */
  const DiaFlags: Table := map[
    ["good"] := Derived(FlagMaskFn, PixelFlags),
    ["clean"] := Derived(FlagMaskFn, PixelFlags)
  ]

  /** `_generate_modifiers(dm_schema_version)`: every version is accepted;
      versions up to 2 read `flux` columns and versions from 3 on
      `instFlux` columns. */
  function DiaModifiers(v: int): Table {
    DiaPosition + DiaRest + DiaVersioned(v) + DiaFlags
  }

  lemma VersionedAp(v: int)
    ensures ["apFlux"] in DiaVersioned(v) && DiaVersioned(v)[["apFlux"]] == Calibrated(Dc2Source.FluxColumn("slot_ApFlux", v))
    ensures ["apFluxErr"] in DiaVersioned(v) && DiaVersioned(v)[["apFluxErr"]] == Calibrated(Dc2Source.FluxErrColumn("slot_ApFlux", v))
    ensures ["apFlux"] !in DiaFlags && ["apFluxErr"] !in DiaFlags
  {
  }

  /** The aperture flux entries follow the version. */
  lemma DiaApFluxNames(v: int)
    ensures var t := DiaModifiers(v);
      && ["apFlux"] in t && t[["apFlux"]] == Calibrated(Dc2Source.FluxColumn("slot_ApFlux", v))
      && ["apFluxErr"] in t && t[["apFluxErr"]] == Calibrated(Dc2Source.FluxErrColumn("slot_ApFlux", v))
  {
    var b := DiaVersioned(v);
    VersionedAp(v);
    Dc2Source.MiddleLookup(DiaPosition + DiaRest, b, DiaFlags, ["apFlux"]);
    Dc2Source.MiddleLookup(DiaPosition + DiaRest, b, DiaFlags, ["apFluxErr"]);
  }

  /** The PSF flux entries follow the version. */
  lemma DiaPsFluxNames(v: int)
    ensures var t := DiaModifiers(v);
      && ["psFlux"] in t && t[["psFlux"]] == Calibrated(Dc2Source.FluxColumn("slot_PsfFlux", v))
      && ["psFluxErr"] in t && t[["psFluxErr"]] == Calibrated(Dc2Source.FluxErrColumn("slot_PsfFlux", v))
  {
    var b := DiaVersioned(v);
    Dc2Source.MiddleLookup(DiaPosition + DiaRest, b, DiaFlags, ["psFlux"]);
    Dc2Source.MiddleLookup(DiaPosition + DiaRest, b, DiaFlags, ["psFluxErr"]);
  }

  /** A key of the first part of a union that no later part overrides
      keeps its value. */
  lemma FirstLookup(a: Table, b: Table, c: Table, d: Table, k: seq<string>)
    requires k in a && k !in b && k !in c && k !in d
    ensures k in a + b + c + d && (a + b + c + d)[k] == a[k]
  {
  }

  /** The centroid errors are the same columns in every version. */
  lemma DiaCentroidFixed(v: int)
    ensures var t := DiaModifiers(v);
      && ["xErr"] in t && t[["xErr"]] == Alias("slot_Centroid_xErr")
      && ["yErr"] in t && t[["yErr"]] == Alias("slot_Centroid_yErr")
  {
    PositionErrors();
    FirstLookup(DiaPosition, DiaRest, DiaVersioned(v), DiaFlags, ["xErr"]);
    FirstLookup(DiaPosition, DiaRest, DiaVersioned(v), DiaFlags, ["yErr"]);
  }

  lemma PositionErrors()
    ensures ["xErr"] in DiaPosition && DiaPosition[["xErr"]] == Alias("slot_Centroid_xErr")
    ensures ["yErr"] in DiaPosition && DiaPosition[["yErr"]] == Alias("slot_Centroid_yErr")
    ensures ["xErr"] !in DiaRest && ["yErr"] !in DiaRest
  {
    RestErrorsFree();
  }

  /** No entry of the rest names a centroid error. */
  lemma RestErrorsFree()
    ensures ["xErr"] !in DiaRest && ["yErr"] !in DiaRest
  {
    forall k | k in DiaRest
      ensures k != ["xErr"] && k != ["yErr"]
    {
      assert |k| == 2 || k[0][0] in "dtiIfmp";
    }
  }

  /** The DIA reader's fixed `xErr` column is the one the source reader
      reads exactly when the version names errors `Err`, that is from
      version 2 on; in version 1 the source reader reads
      `slot_Centroid_xSigma`. */
  lemma XErrAgreesWithSource(v: int)
    requires 1 <= v <= 3
    ensures Dc2Source.SourceVersioned(v)[["xErr"]] == Alias("slot_Centroid_xErr") <==> v >= 2
  {
    if v >= 2 {
      assert "slot_Centroid_x" + "Err" == "slot_Centroid_xErr";
    } else {
      assert |"slot_Centroid_x" + "Sigma"| != |"slot_Centroid_xErr"|;
    }
  }

  /** `clean` and `good` are the same mask. */
  lemma DiaCleanIsGood(v: int)
    ensures var t := DiaModifiers(v);
      && ["good"] in t && ["clean"] in t
      && t[["clean"]] == t[["good"]] == Derived(FlagMaskFn, PixelFlags)
  {
  }

  /** Every version has the same quantities. */
  lemma DiaKeysStable(v: int, w: int)
    ensures DiaModifiers(v).Keys == DiaModifiers(w).Keys
  {
    assert DiaVersioned(v).Keys == DiaVersioned(w).Keys;
  }

  /** The modifiers the reader installs: the identity on the schema's
      columns for a DPDD catalog, otherwise the table of the version read
      off the schema. */
  function DiaQuantityModifiers(cols: seq<string>, isDpdd: bool): (r: Dc2Source.Installed)
    ensures isDpdd <==> r.Flat?
    ensures isDpdd ==> forall c :: c in r.columns <==> c in cols
    ensures !isDpdd ==> r.table.Keys == DiaModifiers(3).Keys
  {
    DiaKeysStable(SchemaVersion(cols), 3);
    if isDpdd then Dc2Source.Flat(DpddModifiers(cols))
    else Dc2Source.Keyed(DiaModifiers(SchemaVersion(cols)))
  }
}
