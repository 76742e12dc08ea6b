/** What the readers of LSST DM pipeline outputs (source, DIA source and DM
    object catalogs) share: the DM schema version read off the column
    names, the native names that change with it, and the identity table of
    files already in DPDD form. */
module DmSchemas {
  import opened Strings
  import opened Tables

  /** Some column name ends with `suffix`: `any(col.endswith(suffix) ...)`. */
  predicate AnyEndsWith(cols: seq<string>, suffix: string) {
    exists i :: 0 <= i < |cols| && EndsWith(cols[i], suffix)
  }

  /** The schema version of the source and DIA-source readers: 1 when
      errors are `Sigma` columns, 2 when they are `Err` columns of `flux`,
      3 otherwise. */
  function SchemaVersion(cols: seq<string>): (v: int)
    ensures 1 <= v <= 3
  {
    if AnyEndsWith(cols, "_fluxSigma") then 1
    else if AnyEndsWith(cols, "_fluxErr") then 2
    else 3
  }

  /** The flux word: `flux` up to version 2, `instFlux` after. */
  function FluxName(v: int): (r: string)
    ensures r == "flux" <==> v <= 2
  {
    if v <= 2 then "flux" else "instFlux"
  }

  /** The error word: `Sigma` in version 1 (and below), `Err` after. */
  function ErrName(v: int): (r: string)
    ensures r == "Sigma" <==> v <= 1
  {
    if v <= 1 then "Sigma" else "Err"
  }

  /** The names the detected version uses agree with the columns it was
      detected from: in versions 1 and 2 some column ends with `_` and the
      flux word followed by the error word, version 2 only when no column
      ends with `_fluxSigma`, and in version 3 none ends with either
      `_fluxSigma` or `_fluxErr`. */
  lemma VersionNames(cols: seq<string>)
    ensures SchemaVersion(cols) <= 2 ==>
      AnyEndsWith(cols, "_" + FluxName(SchemaVersion(cols)) + ErrName(SchemaVersion(cols)))
    ensures SchemaVersion(cols) == 2 ==> !AnyEndsWith(cols, "_fluxSigma")
    ensures SchemaVersion(cols) == 3 ==>
      !AnyEndsWith(cols, "_fluxSigma") && !AnyEndsWith(cols, "_fluxErr")
  {
    assert "_" + "flux" + "Sigma" == "_fluxSigma";
    assert "_" + "flux" + "Err" == "_fluxErr";
  }

  /** `{col: None for col in columns}`: every column is read as itself. */
  function DpddModifiers(cols: seq<string>): (r: map<string, Modifier>)
    ensures forall c :: c in r <==> c in cols
    ensures forall c :: c in r ==> r[c] == Identity
  {
    map c | c in cols :: Identity
  }

  const NanoJansky: string := "convert_flux_to_nanoJansky"
  const RadToDeg: string := "np.rad2deg"
  const FlagMaskFn: string := "create_basic_flag_mask"

  /** The six pixel flags that must all be off for a `good` source. */
  const PixelFlags: seq<string> := [
    "base_PixelFlags_flag_edge",
    "base_PixelFlags_flag_interpolatedCenter",
    "base_PixelFlags_flag_saturatedCenter",
    "base_PixelFlags_flag_crCenter",
    "base_PixelFlags_flag_bad",
    "base_PixelFlags_flag_suspectCenter"
  ]
}
