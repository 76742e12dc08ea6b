/** The DC2 metacalibration catalog reader (`dc2_metacal.py`): its
    modifier table. Five fixed entries, then for each of the five
    metacalibration variants (the unsheared measurement and the four
    sheared ones) the shape entries and, for each band, a flux, a flux
    error, a magnitude and a magnitude error. */
module Metacal {
  import opened Strings
  import opened Tables

  /** The variants `'', '_1p', '_1m', '_2p', '_2m'`: no shear, and a
      positive or negative shear along the first or second component. */
  datatype Variant = Plain | Plus1 | Minus1 | Plus2 | Minus2

  const Variants: seq<Variant> := [Plain, Plus1, Minus1, Plus2, Minus2]

  /** The place of a variant in `Variants`. */
  function Ordinal(x: Variant): nat {
    match x
    case Plain => 0
    case Plus1 => 1
    case Minus1 => 2
    case Plus2 => 3
    case Minus2 => 4
  }

  /** The loop visits each variant once. */
  lemma VariantsDistinct()
    ensures forall x :: x in Variants
    ensures forall p, q :: 0 <= p < q < |Variants| ==> Variants[p] != Variants[q]
  {
    forall x
      ensures x in Variants
    {
      assert Variants[Ordinal(x)] == x;
    }
    forall i | 0 <= i < |Variants|
      ensures Ordinal(Variants[i]) == i
    {
      if i == 0 {
      } else if i == 1 {
      } else if i == 2 {
      } else if i == 3 {
      } else {
      }
    }
  }

  /** The word a sheared variant appends to a key. */
  function VariantWord(x: Variant): string {
    match x
    case Plain => ""
    case Plus1 => "1p"
    case Minus1 => "1m"
    case Plus2 => "2p"
    case Minus2 => "2m"
  }

  /** The variant as the words it adds to a key: none for the plain one. */
  function VariantWords(x: Variant): seq<string> {
    if x == Plain then [] else [VariantWord(x)]
  }

  /** The variant as the Python string appended to names. */
  function Suffix(x: Variant): string {
    if x == Plain then "" else "_" + VariantWord(x)
  }

  /** The variant a key was written for, read off its last word. */
  function VariantTag(k: seq<string>): Variant {
    if |k| == 0 then Plain
    else if k[|k| - 1] == "1p" then Plus1
    else if k[|k| - 1] == "1m" then Minus1
    else if k[|k| - 1] == "2p" then Plus2
    else if k[|k| - 1] == "2m" then Minus2
    else Plain
  }

  /** The PSF shape, the flags and the identifier. */
  const MetacalBase: Table := map[
    ["objectId"] := Alias("id"),
    ["mcal", "psf", "g1"] := Alias("mcal_psf_g1_mean"),
    ["mcal", "psf", "g2"] := Alias("mcal_psf_g2_mean"),
    ["mcal", "T", "psf"] := Alias("mcal_psf_T_mean"),
    ["mcal", "flags"] := Alias("mcal_flags")
  ]

  /** `mcal_<q><variant>` reads `mcal_gauss_<q><variant>`. */
  function ShapeEntry(q: string, x: Variant): Entry {
    Entry(["mcal", q] + VariantWords(x), Alias("mcal_gauss_" + q + Suffix(x)))
  }

  /** The two shear components, the size and the signal-to-noise. */
  function ShapeEntries(x: Variant): seq<Entry> {
    [ShapeEntry("g1", x), ShapeEntry("g2", x), ShapeEntry("T", x), ShapeEntry("s2n", x)]
  }

  /** `mcal_flux_<b><variant>` or `mcal_flux_err_<b><variant>`. */
  function FluxKey(b: char, x: Variant, err: bool): seq<string> {
    (if err then ["mcal", "flux", "err", [b]] else ["mcal", "flux", [b]]) + VariantWords(x)
  }

  /** `mcal_mag_<b><variant>` or `mcal_mag_err_<b><variant>`. */
  function MagKey(b: char, x: Variant, err: bool): seq<string> {
    (if err then ["mcal", "mag", "err", [b]] else ["mcal", "mag", [b]]) + VariantWords(x)
  }

  /** The lambdas of the band entries, named and not modelled. */
  const PixelRescale: string := "x / 0.2**2"
  const FluxToMag: string := "-2.5 * log10(x) + 27.0"
  const FluxErrToMagErr: string := "2.5 * err / (flux * ln(10))"

  /** The four entries of band `b`: fluxes rescaled from the Gaussian fit,
      and magnitudes computed from the fluxes of the same band and
      variant. */
  function BandEntries(x: Variant, b: char): seq<Entry> {
    [
      Entry(FluxKey(b, x, false), Derived(PixelRescale, ["mcal_gauss_flux_" + [b] + Suffix(x)])),
      Entry(FluxKey(b, x, true), Derived(PixelRescale, ["mcal_gauss_flux_err_" + [b] + Suffix(x)])),
      Entry(MagKey(b, x, false), Derived(FluxToMag, [Key(FluxKey(b, x, false))])),
      Entry(MagKey(b, x, true), Derived(FluxErrToMagErr, [Key(FluxKey(b, x, false)), Key(FluxKey(b, x, true))]))
    ]
  }

  function BandBlocks(x: Variant): char -> seq<Entry> {
    b => BandEntries(x, b)
  }

  /** The band a band entry's key was written for: the word after `flux`
      or `mag`, or after `err` when there is one. */
  function BandTag(k: seq<string>): char {
    if |k| >= 4 && k[2] == "err" && |k[3]| > 0 then k[3][0]
    else if |k| >= 3 && |k[2]| > 0 then k[2][0]
    else ' '
  }

  /** One pass of the variant loop: the shape entries, then the band loop. */
  function VariantBlock(bands: seq<char>, x: Variant): seq<Entry> {
    ShapeEntries(x) + Loop(bands, BandBlocks(x))
  }

  function VariantBlocks(bands: seq<char>): Variant -> seq<Entry> {
    x => VariantBlock(bands, x)
  }

  /** `_generate_modifiers(bands)`: the fixed entries, then the variant
      loop with the band loop inside it. */
  function MetacalModifiers(bands: seq<char>): Table {
    Build(MetacalBase, Loop(Variants, VariantBlocks(bands)))
  }

  predicate DistinctBands(bands: seq<char>) {
    forall p, q :: 0 <= p < q < |bands| ==> bands[p] != bands[q]
  }

  /** A key ending in the variant's words, after a last word that is no
      variant word when the variant is plain, is tagged with the variant. */
  lemma TagOf(ws: seq<string>, x: Variant)
    requires |ws| >= 1
    requires ws[|ws| - 1] != "1p" && ws[|ws| - 1] != "1m" && ws[|ws| - 1] != "2p" && ws[|ws| - 1] != "2m"
    ensures VariantTag(ws + VariantWords(x)) == x
  {
  }

  /** What every key of band `b` in variant `x` looks like. */
  predicate BandKeyOf(x: Variant, b: char, k: seq<string>) {
    |k| >= 3 && k[0] == "mcal" && (k[1] == "flux" || k[1] == "mag")
    && BandTag(k) == b && VariantTag(k) == x
  }

  lemma BandEntriesOf(x: Variant, b: char)
    ensures KeysSatisfy(BandEntries(x, b), k => BandKeyOf(x, b, k))
    ensures Distinct(BandEntries(x, b))
    ensures |BandEntries(x, b)| == 4
  {
    var es := BandEntries(x, b);
    forall j | 0 <= j < |es|
      ensures BandKeyOf(x, b, es[j].words)
    {
      if j == 0 {
        BandKeyShape(x, b, "flux", false);
      } else if j == 1 {
        BandKeyShape(x, b, "flux", true);
      } else if j == 2 {
        BandKeyShape(x, b, "mag", false);
      } else {
        BandKeyShape(x, b, "mag", true);
      }
    }
    BandEntriesDistinct(x, b);
  }

  lemma BandKeyShape(x: Variant, b: char, q: string, err: bool)
    requires q == "flux" || q == "mag"
    ensures BandKeyOf(x, b, (if err then ["mcal", q, "err", [b]] else ["mcal", q, [b]]) + VariantWords(x))
  {
    assert [b] != "err";
    if err {
      TagOf(["mcal", q, "err", [b]], x);
    } else {
      TagOf(["mcal", q, [b]], x);
    }
  }

  lemma BandEntriesDistinct(x: Variant, b: char)
    ensures Distinct(BandEntries(x, b))
  {
    var es := BandEntries(x, b);
    assert [b] != "err";
    assert es[0].words[1] != es[2].words[1] && es[0].words[1] != es[3].words[1];
    assert es[1].words[1] != es[2].words[1] && es[1].words[1] != es[3].words[1];
    assert es[0].words[2] != es[1].words[2] && es[2].words[2] != es[3].words[2];
  }

  predicate ShapeWord(w: string) { w == "g1" || w == "g2" || w == "T" || w == "s2n" }
  predicate BandWord(w: string) { w == "flux" || w == "mag" }

  /** What every key of variant `x` looks like: `mcal`, a quantity word,
      and the variant's tag (and no `T` key ends in `psf`). */
  predicate VariantKeyOf(x: Variant, k: seq<string>) {
    |k| >= 2 && k[0] == "mcal" && (ShapeWord(k[1]) || BandWord(k[1]))
    && VariantTag(k) == x
    && (k[1] == "T" ==> |k| <= 3 && (|k| == 3 ==> k[2] != "psf"))
  }

  predicate ShapeKeyOf(x: Variant, k: seq<string>) {
    VariantKeyOf(x, k) && ShapeWord(k[1])
  }

  predicate BandLoopKeyOf(x: Variant, k: seq<string>) {
    VariantKeyOf(x, k) && BandWord(k[1])
  }

  lemma ShapeEntryOf(q: string, x: Variant)
    requires ShapeWord(q)
    ensures ShapeKeyOf(x, ShapeEntry(q, x).words) && ShapeEntry(q, x).words[1] == q
  {
    TagOf(["mcal", q], x);
  }

  lemma ShapeEntriesOf(x: Variant)
    ensures KeysSatisfy(ShapeEntries(x), k => ShapeKeyOf(x, k))
    ensures Distinct(ShapeEntries(x))
  {
    ShapeEntryOf("g1", x);
    ShapeEntryOf("g2", x);
    ShapeEntryOf("T", x);
    ShapeEntryOf("s2n", x);
  }

  lemma BandLoopOf(bands: seq<char>, x: Variant)
    ensures KeysSatisfy(Loop(bands, BandBlocks(x)), k => BandLoopKeyOf(x, k))
    ensures DistinctBands(bands) ==> Distinct(Loop(bands, BandBlocks(x)))
    ensures |Loop(bands, BandBlocks(x))| == 4 * |bands|
  {
    forall b ensures KeysSatisfy(BandBlocks(x)(b), k => BandLoopKeyOf(x, k)) {
      BandEntriesOf(x, b);
    }
    LoopKeysSatisfy(bands, BandBlocks(x), k => BandLoopKeyOf(x, k));
    forall b ensures Distinct(BandBlocks(x)(b)) && |BandBlocks(x)(b)| == 4 {
      BandEntriesOf(x, b);
    }
    forall b, i | 0 <= i < |BandBlocks(x)(b)| ensures BandTag(BandBlocks(x)(b)[i].words) == b {
      BandEntriesOf(x, b);
      assert BandKeyOf(x, b, BandBlocks(x)(b)[i].words);
    }
    if DistinctBands(bands) {
      LoopDistinct(bands, BandBlocks(x), BandTag);
    }
    LoopLength(bands, BandBlocks(x), 4);
  }

  lemma VariantBlockOf(bands: seq<char>, x: Variant)
    ensures KeysSatisfy(VariantBlock(bands, x), k => VariantKeyOf(x, k))
    ensures DistinctBands(bands) ==> Distinct(VariantBlock(bands, x))
    ensures |VariantBlock(bands, x)| == 4 + 4 * |bands|
  {
    var shape, loop := ShapeEntries(x), Loop(bands, BandBlocks(x));
    ShapeEntriesOf(x);
    BandLoopOf(bands, x);
    KeysSatisfyAppend(shape, loop, k => VariantKeyOf(x, k));
    if DistinctBands(bands) {
      forall i, j | 0 <= i < |shape| && 0 <= j < |loop| ensures shape[i].words != loop[j].words {
        assert ShapeKeyOf(x, shape[i].words);
        assert BandLoopKeyOf(x, loop[j].words);
      }
      DistinctAppend(shape, loop);
    }
  }

  lemma VariantKeyOutsideBase(x: Variant, k: seq<string>)
    requires VariantKeyOf(x, k)
    ensures k !in MetacalBase
  {
  }

  /** The variant loop writes keys tagged with their variant, none of them
      a fixed key. */
  lemma VariantLoopOf(bands: seq<char>)
    ensures forall x, i :: 0 <= i < |VariantBlocks(bands)(x)| ==> VariantTag(VariantBlocks(bands)(x)[i].words) == x
    ensures KeysSatisfy(Loop(Variants, VariantBlocks(bands)), k => k !in MetacalBase)
  {
    forall x, i | 0 <= i < |VariantBlocks(bands)(x)|
      ensures VariantTag(VariantBlocks(bands)(x)[i].words) == x
    {
      VariantBlockOf(bands, x);
      assert VariantKeyOf(x, VariantBlock(bands, x)[i].words);
    }
    forall x ensures KeysSatisfy(VariantBlocks(bands)(x), k => k !in MetacalBase) {
      VariantBlockOf(bands, x);
      forall i | 0 <= i < |VariantBlock(bands, x)| ensures VariantBlock(bands, x)[i].words !in MetacalBase {
        VariantKeyOutsideBase(x, VariantBlock(bands, x)[i].words);
      }
    }
    LoopKeysSatisfy(Variants, VariantBlocks(bands), k => k !in MetacalBase);
  }

  lemma BaseSize()
    ensures |MetacalBase.Keys| == 5
  {
    assert MetacalBase.Keys == {["objectId"], ["mcal", "psf", "g1"], ["mcal", "psf", "g2"], ["mcal", "T", "psf"], ["mcal", "flags"]};
  }

  /** With distinct bands no assignment overwrites another: the table has
      the five fixed quantities and, for each of the five variants, four
      shape quantities and four per band. */
  lemma {:induction false} MetacalCount(bands: seq<char>)
    requires DistinctBands(bands)
    ensures |MetacalModifiers(bands).Keys| == 5 + 20 * (1 + |bands|)
  {
    var es := Loop(Variants, VariantBlocks(bands));
    VariantLoopOf(bands);
    forall x ensures Distinct(VariantBlocks(bands)(x)) && |VariantBlocks(bands)(x)| == 4 + 4 * |bands| {
      VariantBlockOf(bands, x);
    }
    VariantsDistinct();
    LoopDistinct(Variants, VariantBlocks(bands), VariantTag);
    LoopLength(Variants, VariantBlocks(bands), 4 + 4 * |bands|);
    BaseSize();
    BuildCount(MetacalBase, es);
  }

  /** The fixed quantities survive the loops unchanged. */
  lemma MetacalBaseKept(bands: seq<char>, k: seq<string>)
    requires k in MetacalBase
    ensures k in MetacalModifiers(bands) && MetacalModifiers(bands)[k] == MetacalBase[k]
  {
    VariantLoopOf(bands);
    KeysSatisfyAvoid(Loop(Variants, VariantBlocks(bands)), k => k !in MetacalBase, k);
    BuildAvoid(MetacalBase, Loop(Variants, VariantBlocks(bands)), k);
  }

  /** A key of variant `x` that the fixed part lacks ends up as the
      variant's own block assigns it. */
  lemma VariantValue(bands: seq<char>, x: Variant, k: seq<string>)
    requires VariantKeyOf(x, k)
    requires Writes(VariantBlock(bands, x), k)
    ensures k in MetacalModifiers(bands)
    ensures k in Build(map[], VariantBlock(bands, x))
    ensures MetacalModifiers(bands)[k] == Build(map[], VariantBlock(bands, x))[k]
  {
    VariantLoopOf(bands);
    VariantKeyOutsideBase(x, k);
    VariantsDistinct();
    LoopKeys(MetacalBase, Variants, VariantBlocks(bands), VariantTag, k);
  }

  /** Inside one variant's block, a band key ends up as its band's entries
      assign it. */
  lemma BandValue(bands: seq<char>, x: Variant, b: char, k: seq<string>)
    requires DistinctBands(bands) && b in bands
    requires BandKeyOf(x, b, k) && Writes(BandEntries(x, b), k)
    ensures Writes(VariantBlock(bands, x), k)
    ensures k in Build(map[], VariantBlock(bands, x))
    ensures k in Build(map[], BandEntries(x, b))
    ensures Build(map[], VariantBlock(bands, x))[k] == Build(map[], BandEntries(x, b))[k]
  {
    BuildDomain(map[], BandEntries(x, b), k);
    var shape := ShapeEntries(x);
    ShapeEntriesOf(x);
    KeysSatisfyAvoid(shape, k => ShapeKeyOf(x, k), k);
    BuildAvoid(map[], shape, k);
    BuildAppend(map[], shape, Loop(bands, BandBlocks(x)));
    forall c, i | 0 <= i < |BandBlocks(x)(c)| ensures BandTag(BandBlocks(x)(c)[i].words) == c {
      BandEntriesOf(x, c);
      assert BandKeyOf(x, c, BandBlocks(x)(c)[i].words);
    }
    LoopKeys(Build(map[], shape), bands, BandBlocks(x), BandTag, k);
    BuildDomain(map[], VariantBlock(bands, x), k);
  }

  /** A band key of the table: present, with its band's value. */
  lemma BandKey(bands: seq<char>, x: Variant, b: char, i: nat)
    requires DistinctBands(bands) && b in bands && i < 4
    ensures BandEntries(x, b)[i].words in MetacalModifiers(bands)
    ensures MetacalModifiers(bands)[BandEntries(x, b)[i].words] == BandEntries(x, b)[i].value
  {
    var es := BandEntries(x, b);
    var k := es[i].words;
    BandEntriesOf(x, b);
    assert BandKeyOf(x, b, k);
    DistinctValue(map[], es, i);
    BandValue(bands, x, b, k);
    VariantValue(bands, x, k);
  }

  /** The Python names of the flux quantities. */
  lemma FluxKeyName(b: char, x: Variant)
    ensures Key(FluxKey(b, x, false)) == "mcal_flux_" + [b] + Suffix(x)
  {
    var plain := ["mcal", "flux", [b]];
    JoinTriple("mcal", "flux", [b], "_");
    assert Key(plain) == "mcal_flux_" + [b];
    if x == Plain {
      assert FluxKey(b, x, false) == plain;
    } else {
      KeyAppend(plain, VariantWord(x));
    }
  }

  lemma FluxErrKeyName(b: char, x: Variant)
    ensures Key(FluxKey(b, x, true)) == "mcal_flux_err_" + [b] + Suffix(x)
  {
    var err := ["mcal", "flux", "err", [b]];
    KeyAppend(["mcal", "flux", "err"], [b]);
    JoinTriple("mcal", "flux", "err", "_");
    assert ["mcal", "flux", "err"] + [[b]] == err;
    assert Key(err) == "mcal_flux_err_" + [b];
    if x == Plain {
      assert FluxKey(b, x, true) == err;
    } else {
      KeyAppend(err, VariantWord(x));
    }
  }

  /** Each flux of band `b` and variant `x` rescales the Gaussian-fit flux
      of the same band and variant. */
  lemma MetacalFlux(bands: seq<char>, x: Variant, b: char)
    requires DistinctBands(bands) && b in bands
    ensures var t := MetacalModifiers(bands);
      && FluxKey(b, x, false) in t
      && t[FluxKey(b, x, false)] == Derived(PixelRescale, ["mcal_gauss_flux_" + [b] + Suffix(x)])
      && FluxKey(b, x, true) in t
      && t[FluxKey(b, x, true)] == Derived(PixelRescale, ["mcal_gauss_flux_err_" + [b] + Suffix(x)])
  {
    BandKey(bands, x, b, 0);
    BandKey(bands, x, b, 1);
  }

  /** The magnitude of band `b` and variant `x` is computed from the
      quantity `mcal_flux_<b><variant>`, which the table itself defines:
      the magnitude reads a homogenized name, not a native one. */
  lemma MetacalMag(bands: seq<char>, x: Variant, b: char)
    requires DistinctBands(bands) && b in bands
    ensures var t := MetacalModifiers(bands);
      && MagKey(b, x, false) in t
      && t[MagKey(b, x, false)] == Derived(FluxToMag, ["mcal_flux_" + [b] + Suffix(x)])
      && FluxKey(b, x, false) in t
  {
    FluxKeyName(b, x);
    BandKey(bands, x, b, 0);
    BandKey(bands, x, b, 2);
  }

  /** The magnitude error reads the flux and the flux error of the same
      band and variant, both quantities of the table. */
  lemma MetacalMagErr(bands: seq<char>, x: Variant, b: char)
    requires DistinctBands(bands) && b in bands
    ensures var t := MetacalModifiers(bands);
      && MagKey(b, x, true) in t
      && t[MagKey(b, x, true)] == Derived(FluxErrToMagErr, ["mcal_flux_" + [b] + Suffix(x), "mcal_flux_err_" + [b] + Suffix(x)])
      && FluxKey(b, x, false) in t && FluxKey(b, x, true) in t
  {
    FluxKeyName(b, x);
    FluxErrKeyName(b, x);
    BandKey(bands, x, b, 0);
    BandKey(bands, x, b, 1);
    BandKey(bands, x, b, 3);
  }

  /** Inside one variant's block, a shape key ends up as its shape entry
      assigns it: the band loop after it never writes it. */
  lemma ShapeAt(bands: seq<char>, x: Variant, i: nat)
    requires i < 4
    ensures var e := ShapeEntries(x)[i];
      && Writes(VariantBlock(bands, x), e.words)
      && e.words in Build(map[], VariantBlock(bands, x))
      && Build(map[], VariantBlock(bands, x))[e.words] == e.value
  {
    var shape, loop := ShapeEntries(x), Loop(bands, BandBlocks(x));
    var k := shape[i].words;
    ShapeEntriesOf(x);
    DistinctValue(map[], shape, i);
    BuildAppend(map[], shape, loop);
    ShapeAvoidsBandLoop(bands, x, i);
    BuildAvoid(Build(map[], shape), loop, k);
    assert VariantBlock(bands, x)[i] == shape[i];
  }

  /** The band loop never writes a shape key. */
  lemma ShapeAvoidsBandLoop(bands: seq<char>, x: Variant, i: nat)
    requires i < 4
    ensures !Writes(Loop(bands, BandBlocks(x)), ShapeEntries(x)[i].words)
  {
    var k := ShapeEntries(x)[i].words;
    ShapeEntriesOf(x);
    assert ShapeKeyOf(x, k);
    BandLoopOf(bands, x);
    KeysSatisfyAvoid(Loop(bands, BandBlocks(x)), k => BandLoopKeyOf(x, k), k);
  }

  lemma ShapeValue(bands: seq<char>, x: Variant, q: string)
    requires ShapeWord(q)
    ensures var k := ["mcal", q] + VariantWords(x);
      && ShapeKeyOf(x, k) && Writes(VariantBlock(bands, x), k)
      && k in Build(map[], VariantBlock(bands, x))
      && Build(map[], VariantBlock(bands, x))[k] == Alias("mcal_gauss_" + q + Suffix(x))
  {
    var i := if q == "g1" then 0 else if q == "g2" then 1 else if q == "T" then 2 else 3;
    assert ShapeEntries(x)[i] == ShapeEntry(q, x);
    ShapeEntryOf(q, x);
    ShapeAt(bands, x, i);
  }

  /** The shape quantities of every variant read the Gaussian fit of that
      variant, whatever the bands. */
  lemma MetacalShape(bands: seq<char>, x: Variant, q: string)
    requires ShapeWord(q)
    ensures var t := MetacalModifiers(bands);
      && ["mcal", q] + VariantWords(x) in t
      && t[["mcal", q] + VariantWords(x)] == Alias("mcal_gauss_" + q + Suffix(x))
  {
    ShapeValue(bands, x, q);
    VariantValue(bands, x, ["mcal", q] + VariantWords(x));
  }
}
