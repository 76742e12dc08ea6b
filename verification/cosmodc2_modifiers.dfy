/** The quantity modifiers of the cosmoDC2 galaxy reader
    (`CosmoDC2GalaxyCatalog._generate_quantity_modifiers`): a fixed table,
    then a loop over the bands `ugrizyY`, then one entry per SED native
    quantity, then the `halo_id` overrides for old catalog versions. */
module CosmoModifiers {
  import opened Wrappers
  import opened Strings
  import opened Tables
  import opened StrictVersions
  import opened CosmoSeds

  /** The function applying lensing magnification to a magnitude. */
  const Lensed := "_calc_lensed_magnitude"

  /** The first word of a key of the fixed table. */
  datatype Head =
    | Galaxy | Ra | Dec | Redshift | Shear | Convergence | Magnification | Halo | Is
    | Stellar | Size | Position | Sersic | Ellipticity | Bulge | A | R | Velocity

  function HeadWord(h: Head): string {
    match h
    case Galaxy => "galaxy"
    case Ra => "ra"
    case Dec => "dec"
    case Redshift => "redshift"
    case Shear => "shear"
    case Convergence => "convergence"
    case Magnification => "magnification"
    case Halo => "halo"
    case Is => "is"
    case Stellar => "stellar"
    case Size => "size"
    case Position => "position"
    case Sersic => "sersic"
    case Ellipticity => "ellipticity"
    case Bulge => "bulge"
    case A => "A"
    case R => "R"
    case Velocity => "velocity"
  }

  /** One entry of the fixed table: the key's first word, its other words
      and the value. */
  datatype Fixed = Fixed(head: Head, rest: seq<string>, value: Modifier)

  function FixedEntries(fs: seq<Fixed>): (es: seq<Entry>)
    ensures |es| == |fs|
    ensures forall j :: 0 <= j < |fs| ==>
      es[j] == Entry([HeadWord(fs[j].head)] + fs[j].rest, fs[j].value)
  {
    if |fs| == 0 then [] else [Entry([HeadWord(fs[0].head)] + fs[0].rest, fs[0].value)] + FixedEntries(fs[1..])
  }

  /** The `halo_id` entry the version overrides replace. */
  const HaloId: seq<string> := ["halo", "id"]

  /** The fixed part of the table, as written before the band loop. The
      dictionary display has no repeated key, so its entries may be applied
      in any order; `halo_id` is applied last here. */
  function Base(fs: seq<Fixed>): seq<Entry> {
    FixedEntries(fs) + [Entry(HaloId, Alias("uniqueHaloID"))]
  }

  function BaseSpec(): seq<Fixed> {
    BaseIdentity() + BaseShape() + BaseDust() + BasePhase()
  }

  function BaseIdentity(): (fs: seq<Fixed>) {
    [ Fixed(Galaxy, ["id"], Alias("galaxyID")),
      Fixed(Ra, [], Alias("ra")),
      Fixed(Dec, [], Alias("dec")),
      Fixed(Ra, ["true"], Alias("ra_true")),
      Fixed(Dec, ["true"], Alias("dec_true")),
      Fixed(Redshift, [], Alias("redshift")),
      Fixed(Redshift, ["true"], Alias("redshiftHubble")),
      Fixed(Shear, ["1"], Alias("shear1")),
      Fixed(Shear, ["2"], Derived("np.negative", ["shear2"])),
      Fixed(Shear, ["2", "treecorr"], Derived("np.negative", ["shear2"])),
      Fixed(Shear, ["2", "phosim"], Alias("shear2")),
      Fixed(Convergence, [], Alias("convergence")),
      Fixed(Magnification, [], Derived("floor_magnification", ["magnification"])),
      Fixed(Halo, ["mass"], Alias("hostHaloMass")),
      Fixed(Is, ["central"], Derived("astype_bool", ["isCentral"])),
      Fixed(Stellar, ["mass"], Alias("totalMassStellar")),
      Fixed(Stellar, ["mass", "disk"], Alias("diskMassStellar")),
      Fixed(Stellar, ["mass", "bulge"], Alias("spheroidMassStellar")) ]
  }

  function BaseShape(): (fs: seq<Fixed>) {
    [ Fixed(Size, ["disk", "true"], Alias("morphology/diskMajorAxisArcsec")),
      Fixed(Size, ["bulge", "true"], Alias("morphology/spheroidMajorAxisArcsec")),
      Fixed(Size, ["minor", "disk", "true"], Alias("morphology/diskMinorAxisArcsec")),
      Fixed(Size, ["minor", "bulge", "true"], Alias("morphology/spheroidMinorAxisArcsec")),
      Fixed(Position, ["angle", "true"], Derived("_gen_position_angle", ["morphology/positionAngle"])),
      Fixed(Sersic, ["disk"], Alias("morphology/diskSersicIndex")),
      Fixed(Sersic, ["bulge"], Alias("morphology/spheroidSersicIndex")),
      Fixed(Ellipticity, ["true"], Alias("morphology/totalEllipticity")),
      Fixed(Ellipticity, ["1", "true"], Derived("_calc_ellipticity_1", ["morphology/totalEllipticity"])),
      Fixed(Ellipticity, ["2", "true"], Derived("_calc_ellipticity_2", ["morphology/totalEllipticity"])),
      Fixed(Ellipticity, ["disk", "true"], Alias("morphology/diskEllipticity")),
      Fixed(Ellipticity, ["1", "disk", "true"], Derived("_calc_ellipticity_1", ["morphology/diskEllipticity"])),
      Fixed(Ellipticity, ["2", "disk", "true"], Derived("_calc_ellipticity_2", ["morphology/diskEllipticity"])),
      Fixed(Ellipticity, ["bulge", "true"], Alias("morphology/spheroidEllipticity")),
      Fixed(Ellipticity, ["1", "bulge", "true"], Derived("_calc_ellipticity_1", ["morphology/spheroidEllipticity"])),
      Fixed(Ellipticity, ["2", "bulge", "true"], Derived("_calc_ellipticity_2", ["morphology/spheroidEllipticity"])),
      Fixed(Size, ["true"], Derived("_calc_weighted_size",
        ["morphology/diskMajorAxisArcsec", "morphology/spheroidMajorAxisArcsec",
         "LSST_filters/diskLuminositiesStellar:LSST_r:rest",
         "LSST_filters/spheroidLuminositiesStellar:LSST_r:rest"])),
      Fixed(Size, ["minor", "true"], Derived("_calc_weighted_size_minor",
        ["morphology/diskMajorAxisArcsec", "morphology/spheroidMajorAxisArcsec",
         "LSST_filters/diskLuminositiesStellar:LSST_r:rest",
         "LSST_filters/spheroidLuminositiesStellar:LSST_r:rest",
         "morphology/totalEllipticity"])),
      Fixed(Bulge, ["to", "total", "ratio", "i"], Derived("bulge_fraction",
        ["SDSS_filters/spheroidLuminositiesStellar:SDSS_i:observed",
         "SDSS_filters/diskLuminositiesStellar:SDSS_i:observed"])) ]
  }

  /** `otherLuminosities/{c}LuminositiesStellar:{f}:rest`, with dust when
      asked. */
  function OtherLum(c: string, f: string, dust: bool): string {
    "otherLuminosities/" + c + "LuminositiesStellar:" + f + ":rest" + (if dust then ":dustAtlas" else "")
  }

  function BaseDust(): (fs: seq<Fixed>) {
    [ Fixed(A, ["v"], Derived("_calc_Av", [OtherLum("total", "V", false), OtherLum("total", "V", true)])),
      Fixed(A, ["v", "disk"], Derived("_calc_Av", [OtherLum("disk", "V", false), OtherLum("disk", "V", true)])),
      Fixed(A, ["v", "bulge"], Derived("_calc_Av", [OtherLum("spheroid", "V", false), OtherLum("spheroid", "V", true)])),
      Fixed(R, ["v"], Derived("_calc_Rv",
        [OtherLum("total", "V", false), OtherLum("total", "V", true),
         OtherLum("total", "B", false), OtherLum("total", "B", true)])),
      Fixed(R, ["v", "disk"], Derived("_calc_Rv",
        [OtherLum("disk", "V", false), OtherLum("disk", "V", true),
         OtherLum("disk", "B", false), OtherLum("disk", "B", true)])),
      Fixed(R, ["v", "bulge"], Derived("_calc_Rv",
        [OtherLum("spheroid", "V", false), OtherLum("spheroid", "V", true),
         OtherLum("spheroid", "B", false), OtherLum("spheroid", "B", true)])) ]
  }

  function BasePhase(): (fs: seq<Fixed>) {
    [ Fixed(Position, ["x"], Alias("x")),
      Fixed(Position, ["y"], Alias("y")),
      Fixed(Position, ["z"], Alias("z")),
      Fixed(Velocity, ["x"], Alias("vx")),
      Fixed(Velocity, ["y"], Alias("vy")),
      Fixed(Velocity, ["z"], Alias("vz")) ]
  }

  /** The bands of the magnitude loop, in loop order. */
  const Bands := "ugrizyY"

  /** A magnitude key: its first word is `mag` or `Mag`. */
  predicate MagKey(ws: seq<string>) { |ws| >= 1 && (ws[0] == "mag" || ws[0] == "Mag") }

  /** The band a magnitude key is written for: its one-letter word right
      after the first word, or after `true`; no band for other keys. */
  function BandTag(ws: seq<string>): char {
    if !MagKey(ws) then ' '
    else if |ws| >= 2 && |ws[1]| == 1 then ws[1][0]
    else if |ws| >= 3 && |ws[2]| == 1 then ws[2][0]
    else ' '
  }

  predicate IsBand(c: char) { c in Bands }

  lemma HeadNotMag(h: Head)
    ensures HeadWord(h) != "mag" && HeadWord(h) != "Mag" && HeadWord(h) != "sed"
  {
  }

  /** No key of the fixed table is a magnitude key, and none starts with
      `sed`. */
  lemma BaseNoMag(fs: seq<Fixed>)
    ensures forall j :: 0 <= j < |Base(fs)| ==> !MagKey(Base(fs)[j].words) && Base(fs)[j].words[0] != "sed"
  {
    var es := FixedEntries(fs);
    forall j | 0 <= j < |es|
      ensures !MagKey(es[j].words) && es[j].words[0] != "sed"
    {
      HeadNotMag(fs[j].head);
    }
  }

  /** The fixed table maps `halo_id` to `uniqueHaloID`. */
  lemma BaseHalo(fs: seq<Fixed>)
    ensures HaloId in Build(map[], Base(fs))
    ensures Build(map[], Base(fs))[HaloId] == Alias("uniqueHaloID")
  {
    var last := [Entry(HaloId, Alias("uniqueHaloID"))];
    BuildAppend(map[], FixedEntries(fs), last);
  }

  /** `(_calc_lensed_magnitude, native, 'magnification')`. */
  function LensedMag(native: string): Modifier {
    Derived(Lensed, [native, "magnification"])
  }

  /** `SDSS_filters/magnitude:SDSS_{b}`: the SDSS natives use the band as
      written. */
  function SdssPrefix(b: char): string { "SDSS_filters/magnitude:SDSS_" + [b] }

  /** `LSST_filters/magnitude:LSST_{b.lower()}`. */
  function LsstPrefix(b: char): string { "LSST_filters/magnitude:LSST_" + [Lower(b)] }

  /** The six keys one survey adds for band `b`, with the natives under
      `prefix`: observed and lensed, observed, and rest-frame, each with and
      without dust. */
  function SurveyEntries(b: char, survey: string, prefix: string): (es: seq<Entry>)
    ensures |es| == 6
  {
    [ Entry(["mag", [b], survey], LensedMag(prefix + ":observed:dustAtlas")),
      Entry(["mag", [b], survey] + NoDust, LensedMag(prefix + ":observed")),
      Entry(["mag", "true", [b], survey], Alias(prefix + ":observed:dustAtlas")),
      Entry(["mag", "true", [b], survey] + NoDust, Alias(prefix + ":observed")),
      Entry(["Mag", "true", [b], survey, "z0"], Alias(prefix + ":rest:dustAtlas")),
      Entry(["Mag", "true", [b], survey, "z0"] + NoDust, Alias(prefix + ":rest")) ]
  }

  function SdssEntries(b: char): seq<Entry> { SurveyEntries(b, "sdss", SdssPrefix(b)) }

  function LsstEntries(b: char): seq<Entry> { SurveyEntries(b, "lsst", LsstPrefix(b)) }

  /** `mag_{b}` and `mag_true_{b}`, copied from the LSST entries just
      written. */
  function AliasEntries(b: char): (es: seq<Entry>)
    ensures |es| == 2
  {
    [ Entry(["mag", [b]], LsstEntries(b)[0].value),
      Entry(["mag", "true", [b]], LsstEntries(b)[2].value) ]
  }

  /** One pass of the band loop: SDSS keys except for `y` and `Y`, LSST
      keys, and the short aliases except for `Y`. */
  function BandBlock(b: char): seq<Entry> {
    (if b != 'y' && b != 'Y' then SdssEntries(b) else [])
    + LsstEntries(b)
    + (if b != 'Y' then AliasEntries(b) else [])
  }

  lemma SurveyTagged(b: char, survey: string, prefix: string)
    ensures forall j :: 0 <= j < 6 ==>
      MagKey(SurveyEntries(b, survey, prefix)[j].words) && BandTag(SurveyEntries(b, survey, prefix)[j].words) == b
  {
  }

  lemma BlockTagged(b: char)
    ensures forall j :: 0 <= j < |BandBlock(b)| ==>
      MagKey(BandBlock(b)[j].words) && BandTag(BandBlock(b)[j].words) == b
  {
    SurveyTagged(b, "sdss", SdssPrefix(b));
    SurveyTagged(b, "lsst", LsstPrefix(b));
  }

  lemma SurveyDistinct(b: char, survey: string, prefix: string)
    ensures Distinct(SurveyEntries(b, survey, prefix))
  {
  }

  lemma BandsDistinct()
    ensures forall p, q :: 0 <= p < q < |Bands| ==> Bands[p] != Bands[q]
  {
  }
  /** Where the survey word sits in the `i`-th survey key. */
  function SurveyIndex(i: nat): nat { if i < 2 then 2 else 3 }

  lemma SurveyShape(b: char, s: string, p: string)
    ensures forall i :: 0 <= i < 6 ==>
      |SurveyEntries(b, s, p)[i].words| == [3, 6, 4, 7, 5, 8][i]
      && SurveyEntries(b, s, p)[i].words[SurveyIndex(i)] == s
  {
  }

  lemma SurveyCross(b: char, s1: string, p1: string, s2: string, p2: string)
    requires s1 != s2
    ensures forall i, j :: 0 <= i < 6 && 0 <= j < 6 ==>
      SurveyEntries(b, s1, p1)[i].words != SurveyEntries(b, s2, p2)[j].words
  {
    SurveyShape(b, s1, p1);
    SurveyShape(b, s2, p2);
  }

  lemma AliasCross(b: char, s: string, p: string)
    ensures forall i, j :: 0 <= i < 6 && 0 <= j < 2 ==>
      SurveyEntries(b, s, p)[i].words != AliasEntries(b)[j].words
  {
  }

  /** One pass of the band loop writes no key twice. */
  lemma BlockDistinct(b: char)
    ensures Distinct(BandBlock(b))
  {
    var sd := if b != 'y' && b != 'Y' then SdssEntries(b) else [];
    var ls := LsstEntries(b);
    var al := if b != 'Y' then AliasEntries(b) else [];
    SurveyDistinct(b, "sdss", SdssPrefix(b));
    SurveyDistinct(b, "lsst", LsstPrefix(b));
    SurveyCross(b, "sdss", SdssPrefix(b), "lsst", LsstPrefix(b));
    DistinctAppend(sd, ls);
    AliasCross(b, "sdss", SdssPrefix(b));
    AliasCross(b, "lsst", LsstPrefix(b));
    assert Distinct(al);
    forall i, j | 0 <= i < |sd + ls| && 0 <= j < |al|
      ensures (sd + ls)[i].words != al[j].words
    {
      if i < |sd| {
        assert (sd + ls)[i] == sd[i];
      } else {
        assert (sd + ls)[i] == ls[i - |sd|];
      }
    }
    DistinctAppend(sd + ls, al);
  }

  /** The table after the fixed part and the band loop. */
  function BeforeSeds(fs: seq<Fixed>): Table {
    Build(Build(map[], Base(fs)), Loop(Bands, BandBlock))
  }

  /** `StrictVersion('0.4.6')` and `StrictVersion('0.2')`. */
  const UMachineVersion := Version(0, 4, 6, None)
  const HostHaloVersion := Version(0, 2, 0, None)

  /** The `halo_id` overrides, applied in order, so the second wins. */
  function HaloOverrides(t: Table, v: Version): Table {
    var t1 := if Less(v, UMachineVersion) then t[HaloId := Alias("UMachineNative/halo_id")] else t;
    if LessEq(v, HostHaloVersion) then t1[HaloId := Alias("hostHaloTag")] else t1
  }

  /** The whole table for the fixed entries `fs`, the native quantities in
      iteration order, and the configured version; `KeyError` when an SED
      name has an unknown component. */
  function ModifiersOver(fs: seq<Fixed>, natives: seq<string>, v: Version): (r: Result<Table>)
    ensures r.Err? ==> r.error == KeyError
  {
    match SedEntries(natives)
    case Err(e) => Err(e)
    case Ok(sed) => Ok(HaloOverrides(Build(BeforeSeds(fs), sed), v))
  }

  /** `CosmoDC2GalaxyCatalog._generate_quantity_modifiers`. */
  function QuantityModifiers(natives: seq<string>, v: Version): Result<Table> {
    ModifiersOver(BaseSpec(), natives, v)
  }

  /** Building the table fails exactly when some SED name has a component
      other than `total`, `disk` and `spheroid`. */
  lemma ModifiersErr(fs: seq<Fixed>, natives: seq<string>, v: Version)
    ensures ModifiersOver(fs, natives, v).Err? <==>
      exists i :: 0 <= i < |natives| && ParseSed(natives[i]).Some?
                  && ComponentWords(ParseSed(natives[i]).value.component).Err?
  {
    CollectErr(natives, SedEntry);
  }

  /** The SED loop writes only keys that start with `sed`. */
  lemma SedOnlySed(natives: seq<string>, k: seq<string>)
    requires SedEntries(natives).Ok? && Writes(SedEntries(natives).value, k)
    ensures |k| >= 3 && k[0] == "sed"
  {
    var es := SedEntries(natives).value;
    var j := WritesIndex(es, k);
    var i := CollectFrom(natives, SedEntry, j);
  }

  /** The band loop writes only magnitude keys, each for its own band. */
  lemma LoopOnlyMag(k: seq<string>)
    requires Writes(Loop(Bands, BandBlock), k)
    ensures MagKey(k) && IsBand(BandTag(k)) && Writes(BandBlock(BandTag(k)), k)
  {
    var p := LoopWriter(Bands, BandBlock, k);
    var j := WritesIndex(BandBlock(Bands[p]), k);
    BlockTagged(Bands[p]);
  }

  /** The band loop leaves every key but the magnitude keys alone. */
  lemma LoopAvoid(fs: seq<Fixed>, k: seq<string>)
    requires !MagKey(k)
    ensures k in BeforeSeds(fs) <==> k in Build(map[], Base(fs))
    ensures k in Build(map[], Base(fs)) ==> BeforeSeds(fs)[k] == Build(map[], Base(fs))[k]
  {
    if Writes(Loop(Bands, BandBlock), k) {
      LoopOnlyMag(k);
    }
    BuildAvoid(Build(map[], Base(fs)), Loop(Bands, BandBlock), k);
  }

  /** The SED loop leaves every key but the SED keys alone. */
  lemma SedAvoid(b: Table, natives: seq<string>, k: seq<string>)
    requires SedEntries(natives).Ok?
    requires |k| == 0 || k[0] != "sed"
    ensures k in Build(b, SedEntries(natives).value) <==> k in b
    ensures k in b ==> Build(b, SedEntries(natives).value)[k] == b[k]
  {
    if Writes(SedEntries(natives).value, k) {
      SedOnlySed(natives, k);
    }
    BuildAvoid(b, SedEntries(natives).value, k);
  }

  /** Every key outside the magnitude keys, the SED keys and `halo_id` is
      in the table exactly when the fixed table has it, with its value. */
  lemma OtherKeys(fs: seq<Fixed>, natives: seq<string>, v: Version, k: seq<string>)
    requires ModifiersOver(fs, natives, v).Ok?
    requires !MagKey(k) && (|k| == 0 || k[0] != "sed") && k != HaloId
    ensures k in ModifiersOver(fs, natives, v).value <==> k in Build(map[], Base(fs))
    ensures k in Build(map[], Base(fs)) ==>
      ModifiersOver(fs, natives, v).value[k] == Build(map[], Base(fs))[k]
  {
    var t := Final(fs, natives);
    OverridesOther(t, v, k);
    SedAvoid(BeforeSeds(fs), natives, k);
    LoopAvoid(fs, k);
  }

  /** The table before the `halo_id` overrides. */
  function Final(fs: seq<Fixed>, natives: seq<string>): (t: Table)
    requires SedEntries(natives).Ok?
    ensures forall v :: ModifiersOver(fs, natives, v) == Ok(HaloOverrides(t, v))
  {
    Build(BeforeSeds(fs), SedEntries(natives).value)
  }

  /** The overrides touch `halo_id` only. */
  lemma OverridesOther(t: Table, v: Version, k: seq<string>)
    requires k != HaloId
    ensures k in HaloOverrides(t, v) <==> k in t
    ensures k in t ==> HaloOverrides(t, v)[k] == t[k]
  {
  }

  /** `halo_id` is `hostHaloTag` up to version 0.2, `UMachineNative/halo_id`
      below 0.4.6, and `uniqueHaloID` from 0.4.6 on. */
  lemma HaloFinal(fs: seq<Fixed>, natives: seq<string>, v: Version)
    requires ModifiersOver(fs, natives, v).Ok?
    ensures HaloId in ModifiersOver(fs, natives, v).value
    ensures ModifiersOver(fs, natives, v).value[HaloId] ==
      if LessEq(v, HostHaloVersion) then Alias("hostHaloTag")
      else if Less(v, UMachineVersion) then Alias("UMachineNative/halo_id")
      else Alias("uniqueHaloID")
  {
    FinalHalo(fs, natives);
    OverridesHalo(Final(fs, natives), v);
  }

  /** Before the overrides, `halo_id` is still `uniqueHaloID`. */
  lemma FinalHalo(fs: seq<Fixed>, natives: seq<string>)
    requires SedEntries(natives).Ok?
    ensures HaloId in Final(fs, natives) && Final(fs, natives)[HaloId] == Alias("uniqueHaloID")
  {
    BaseHalo(fs);
    LoopAvoid(fs, HaloId);
    SedAvoid(BeforeSeds(fs), natives, HaloId);
  }

  /** The overrides decide `halo_id` by the version alone, over a table
      that maps it to `uniqueHaloID`. */
  lemma OverridesHalo(t: Table, v: Version)
    requires HaloId in t && t[HaloId] == Alias("uniqueHaloID")
    ensures HaloId in HaloOverrides(t, v)
    ensures HaloOverrides(t, v)[HaloId] ==
      if LessEq(v, HostHaloVersion) then Alias("hostHaloTag")
      else if Less(v, UMachineVersion) then Alias("UMachineNative/halo_id")
      else Alias("uniqueHaloID")
  {
  }

  /** Each pass of the band loop tags its keys with its band. */
  lemma AllBlocksTagged()
    ensures forall x, j :: 0 <= j < |BandBlock(x)| ==> BandTag(BandBlock(x)[j].words) == x
  {
    forall x, j | 0 <= j < |BandBlock(x)|
      ensures BandTag(BandBlock(x)[j].words) == x
    {
      BlockTagged(x);
    }
  }

  /** Before the SED loop, a magnitude key is present exactly when the pass
      of its band writes it, with the value that pass gives it. */
  lemma BandLoopKeys(fs: seq<Fixed>, k: seq<string>)
    requires MagKey(k)
    ensures k in BeforeSeds(fs) <==> IsBand(BandTag(k)) && Writes(BandBlock(BandTag(k)), k)
    ensures k in BeforeSeds(fs) ==>
      k in Build(map[], BandBlock(BandTag(k)))
      && BeforeSeds(fs)[k] == Build(map[], BandBlock(BandTag(k)))[k]
  {
    assert !Writes(Base(fs), k) by {
      if Writes(Base(fs), k) {
        var j := WritesIndex(Base(fs), k);
        BaseNoMag(fs);
      }
    }
    BuildAvoid(map[], Base(fs), k);
    BandsDistinct();
    AllBlocksTagged();
    LoopKeys(Build(map[], Base(fs)), Bands, BandBlock, BandTag, k);
  }

  /** A magnitude key is in the table exactly when the pass of its band
      writes it, and it holds the value that pass gives it. */
  lemma BandKeys(fs: seq<Fixed>, natives: seq<string>, v: Version, k: seq<string>)
    requires ModifiersOver(fs, natives, v).Ok?
    requires MagKey(k)
    ensures k in ModifiersOver(fs, natives, v).value <==>
      IsBand(BandTag(k)) && Writes(BandBlock(BandTag(k)), k)
    ensures k in ModifiersOver(fs, natives, v).value ==>
      k in Build(map[], BandBlock(BandTag(k)))
      && ModifiersOver(fs, natives, v).value[k] == Build(map[], BandBlock(BandTag(k)))[k]
  {
    var t := Final(fs, natives);
    OverridesOther(t, v, k);
    SedAvoid(BeforeSeds(fs), natives, k);
    BandLoopKeys(fs, k);
  }

  /** Which SDSS keys one pass writes: all six, except for `y` and `Y`. */
  lemma BlockSdss(b: char, i: nat)
    requires i < 6
    ensures Writes(BandBlock(b), SdssEntries(b)[i].words) <==> b != 'y' && b != 'Y'
    ensures b != 'y' && b != 'Y' ==>
      SdssEntries(b)[i].words in Build(map[], BandBlock(b))
      && Build(map[], BandBlock(b))[SdssEntries(b)[i].words] == SdssEntries(b)[i].value
  {
    var k := SdssEntries(b)[i].words;
    if b != 'y' && b != 'Y' {
      BlockDistinct(b);
      assert BandBlock(b)[i] == SdssEntries(b)[i];
      DistinctValue(map[], BandBlock(b), i);
    } else {
      var ls, al := LsstEntries(b), if b != 'Y' then AliasEntries(b) else [];
      SurveyCross(b, "sdss", SdssPrefix(b), "lsst", LsstPrefix(b));
      AliasCross(b, "sdss", SdssPrefix(b));
      WritesAppend(ls, al, k);
    }
  }

  /** Every pass writes its six LSST keys. */
  lemma BlockLsst(b: char, i: nat)
    requires i < 6
    ensures Writes(BandBlock(b), LsstEntries(b)[i].words)
    ensures LsstEntries(b)[i].words in Build(map[], BandBlock(b))
    ensures Build(map[], BandBlock(b))[LsstEntries(b)[i].words] == LsstEntries(b)[i].value
  {
    var sd := if b != 'y' && b != 'Y' then SdssEntries(b) else [];
    BlockDistinct(b);
    assert BandBlock(b)[|sd| + i] == LsstEntries(b)[i];
    DistinctValue(map[], BandBlock(b), |sd| + i);
  }

  /** Which short aliases one pass writes: both, except for `Y`. */
  lemma BlockAlias(b: char, i: nat)
    requires i < 2
    ensures Writes(BandBlock(b), AliasEntries(b)[i].words) <==> b != 'Y'
    ensures b != 'Y' ==>
      AliasEntries(b)[i].words in Build(map[], BandBlock(b))
      && Build(map[], BandBlock(b))[AliasEntries(b)[i].words] == AliasEntries(b)[i].value
  {
    var k := AliasEntries(b)[i].words;
    var sd := if b != 'y' && b != 'Y' then SdssEntries(b) else [];
    AliasCross(b, "sdss", SdssPrefix(b));
    AliasCross(b, "lsst", LsstPrefix(b));
    WritesAppend(sd, LsstEntries(b), k);
    if b != 'Y' {
      BlockDistinct(b);
      assert BandBlock(b)[|sd| + 6 + i] == AliasEntries(b)[i];
      DistinctValue(map[], BandBlock(b), |sd| + 6 + i);
    } else {
      WritesAppend(sd + LsstEntries(b), [], k);
    }
  }

  /** For each band, the SDSS keys are in the table exactly when the band
      is not `y` or `Y`, with their lensed, observed and rest-frame values. */
  lemma SdssKeys(fs: seq<Fixed>, natives: seq<string>, v: Version, b: char, i: nat)
    requires ModifiersOver(fs, natives, v).Ok?
    requires IsBand(b) && i < 6
    ensures SdssEntries(b)[i].words in ModifiersOver(fs, natives, v).value <==> b != 'y' && b != 'Y'
    ensures b != 'y' && b != 'Y' ==>
      ModifiersOver(fs, natives, v).value[SdssEntries(b)[i].words] == SdssEntries(b)[i].value
  {
    SurveyTagged(b, "sdss", SdssPrefix(b));
    BandKeys(fs, natives, v, SdssEntries(b)[i].words);
    BlockSdss(b, i);
  }

  /** For each band, the six LSST keys are in the table with their values. */
  lemma LsstKeys(fs: seq<Fixed>, natives: seq<string>, v: Version, b: char, i: nat)
    requires ModifiersOver(fs, natives, v).Ok?
    requires IsBand(b) && i < 6
    ensures LsstEntries(b)[i].words in ModifiersOver(fs, natives, v).value
    ensures ModifiersOver(fs, natives, v).value[LsstEntries(b)[i].words] == LsstEntries(b)[i].value
  {
    SurveyTagged(b, "lsst", LsstPrefix(b));
    BandKeys(fs, natives, v, LsstEntries(b)[i].words);
    BlockLsst(b, i);
  }

  /** `mag_{b}` and `mag_true_{b}` exist for every band but `Y`: the
      lensed and the unlensed observed LSST magnitude with dust. */
  lemma ShortAliases(fs: seq<Fixed>, natives: seq<string>, v: Version, b: char)
    requires ModifiersOver(fs, natives, v).Ok?
    requires IsBand(b)
    ensures ["mag", [b]] in ModifiersOver(fs, natives, v).value <==> b != 'Y'
    ensures ["mag", "true", [b]] in ModifiersOver(fs, natives, v).value <==> b != 'Y'
    ensures b != 'Y' ==>
      ModifiersOver(fs, natives, v).value[["mag", [b]]]
        == LensedMag(LsstPrefix(b) + ":observed:dustAtlas")
      && ModifiersOver(fs, natives, v).value[["mag", "true", [b]]]
        == Alias(LsstPrefix(b) + ":observed:dustAtlas")
  {
    AliasShape(b);
    BandKeys(fs, natives, v, ["mag", [b]]);
    BandKeys(fs, natives, v, ["mag", "true", [b]]);
    BlockAlias(b, 0);
    BlockAlias(b, 1);
  }

  lemma AliasShape(b: char)
    ensures AliasEntries(b)[0] == Entry(["mag", [b]], LensedMag(LsstPrefix(b) + ":observed:dustAtlas"))
    ensures AliasEntries(b)[1] == Entry(["mag", "true", [b]], Alias(LsstPrefix(b) + ":observed:dustAtlas"))
    ensures MagKey(["mag", [b]]) && BandTag(["mag", [b]]) == b
    ensures MagKey(["mag", "true", [b]]) && BandTag(["mag", "true", [b]]) == b
  {
  }

  /** The short aliases read the same quantity as `mag_{b}_lsst` and
      `mag_true_{b}_lsst`. */
  lemma ShortAliasesLsst(fs: seq<Fixed>, natives: seq<string>, v: Version, b: char)
    requires ModifiersOver(fs, natives, v).Ok?
    requires IsBand(b) && b != 'Y'
    ensures ["mag", [b]] in ModifiersOver(fs, natives, v).value
    ensures ["mag", [b], "lsst"] in ModifiersOver(fs, natives, v).value
    ensures ModifiersOver(fs, natives, v).value[["mag", [b]]]
         == ModifiersOver(fs, natives, v).value[["mag", [b], "lsst"]]
    ensures ["mag", "true", [b]] in ModifiersOver(fs, natives, v).value
    ensures ["mag", "true", [b], "lsst"] in ModifiersOver(fs, natives, v).value
    ensures ModifiersOver(fs, natives, v).value[["mag", "true", [b]]]
         == ModifiersOver(fs, natives, v).value[["mag", "true", [b], "lsst"]]
  {
    ShortAliases(fs, natives, v, b);
    LsstKeys(fs, natives, v, b, 0);
    LsstKeys(fs, natives, v, b, 2);
  }

  /** Bands that differ only in case (`Y` and `y`) read the same LSST
      native quantities. */
  lemma SameLower(fs: seq<Fixed>, natives: seq<string>, v: Version, b: char, c: char, i: nat)
    requires ModifiersOver(fs, natives, v).Ok?
    requires IsBand(b) && IsBand(c) && Lower(b) == Lower(c) && i < 6
    ensures LsstEntries(b)[i].words in ModifiersOver(fs, natives, v).value
    ensures LsstEntries(c)[i].words in ModifiersOver(fs, natives, v).value
    ensures ModifiersOver(fs, natives, v).value[LsstEntries(b)[i].words]
         == ModifiersOver(fs, natives, v).value[LsstEntries(c)[i].words]
  {
    LsstKeys(fs, natives, v, b, i);
    LsstKeys(fs, natives, v, c, i);
    assert LsstPrefix(b) == LsstPrefix(c);
    SurveyValue(b, c, "lsst", LsstPrefix(b), i);
  }

  /** The values of a survey's keys depend on the native prefix only. */
  lemma SurveyValue(b: char, c: char, s: string, p: string, i: nat)
    requires i < 6
    ensures SurveyEntries(b, s, p)[i].value == SurveyEntries(c, s, p)[i].value
  {
  }

  /** Before the SED loop no key starts with `sed`. */
  lemma BeforeSedsNoSed(fs: seq<Fixed>, k: seq<string>)
    requires |k| >= 1 && k[0] == "sed"
    ensures k !in BeforeSeds(fs)
  {
    BaseNoMag(fs);
    BuildAvoid(map[], Base(fs), k);
    LoopAvoid(fs, k);
  }

  /** Over a table without the key, the SED loop adds an SED key exactly
      when some native quantity is named for it, aliasing one such native. */
  lemma SedLayer(t: Table, natives: seq<string>, k: seq<string>)
    requires SedEntries(natives).Ok? && k !in t
    ensures k in Build(t, SedEntries(natives).value) <==>
      exists i :: 0 <= i < |natives| && SedEntry(natives[i]) == Ok(Some(Entry(k, Alias(natives[i]))))
    ensures k in Build(t, SedEntries(natives).value) ==>
      exists i :: 0 <= i < |natives| && SedEntry(natives[i]) == Ok(Some(Entry(k, Alias(natives[i]))))
                  && Build(t, SedEntries(natives).value)[k] == Alias(natives[i])
  {
    var es := SedEntries(natives).value;
    BuildDomain(t, es, k);
    if Writes(es, k) {
      var j := BuildWriter(t, es, k);
      var i := CollectFrom(natives, SedEntry, j);
    }
    if exists i :: 0 <= i < |natives| && SedEntry(natives[i]) == Ok(Some(Entry(k, Alias(natives[i])))) {
      var i :| 0 <= i < |natives| && SedEntry(natives[i]) == Ok(Some(Entry(k, Alias(natives[i]))));
      var j := CollectHas(natives, SedEntry, i);
    }
  }

  /** An SED key is in the table exactly when some native quantity is named
      for it, and it aliases one such native. */
  lemma SedKeys(fs: seq<Fixed>, natives: seq<string>, v: Version, k: seq<string>)
    requires ModifiersOver(fs, natives, v).Ok?
    requires |k| >= 1 && k[0] == "sed"
    ensures k in ModifiersOver(fs, natives, v).value <==>
      exists i :: 0 <= i < |natives| && SedEntry(natives[i]) == Ok(Some(Entry(k, Alias(natives[i]))))
    ensures k in ModifiersOver(fs, natives, v).value ==>
      exists i :: 0 <= i < |natives| && SedEntry(natives[i]) == Ok(Some(Entry(k, Alias(natives[i]))))
                  && ModifiersOver(fs, natives, v).value[k] == Alias(natives[i])
  {
    OverridesOther(Final(fs, natives), v, k);
    BeforeSedsNoSed(fs, k);
    SedLayer(BeforeSeds(fs), natives, k);
  }
}
