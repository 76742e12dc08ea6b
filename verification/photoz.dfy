/** The photo-z catalog reader (`photoz.py`): the metadata it derives from
    the per-tract files, its quantity modifiers, and the iteration that
    hands out one patch at a time.

    A tract file is a data frame whose rows are sorted by patch. The
    reader cuts the patch column into runs of equal patches and records
    each run as a slice `(i, j)`; iteration reads a file once for all its
    patches and returns the slice of each column. Files, data frames and
    the host framework's filter check are inputs. */
module PhotoZ {
  import opened Wrappers
  import opened Strings
  import opened Sorting
  import opened Partitions
  import opened OrderedMaps
  import opened Tables

  // ---------------------------------------------------------------------
  // File names

  const PzTag := "_PZ_tract_"

  /** A name built as the default `FILE_PATTERN` describes it: `run`, a
      digit, `.`, digits, lower-case letters, `_PZ_tract_`, digits, `.h5`,
      and then what `$` lets through. */
  function PzName(d: char, ds: string, ls: string, ts: string, t: string): string {
    "run" + ([d] + ("." + Release(ds, ls, ts, t)))
  }

  /** The part after `run\d\.`. */
  function Release(ds: string, ls: string, ts: string, t: string): string {
    ds + (ls + TractTail(ts, t))
  }

  /** The part from `_PZ_tract_` on. */
  function TractTail(ts: string, t: string): string {
    PzTag + (ts + (".h5" + t))
  }

  /** `re.match(r'run\d\.\d+[a-z]+_PZ_tract_\d+\.h5$', name)`. The digits
      and the letters are disjoint, so the greedy runs are maximal. */
  predicate DefaultName(s: string) {
    |s| >= 5 && s[..3] == "run" && IsDigit(s[3]) && s[4] == '.' && AfterRelease(s[5..])
  }

  /** The text after `run\d\.`: `\d+[a-z]+`, then the tract part. */
  predicate AfterRelease(s: string) {
    var n := LeadingDigits(s);
    n > 0 && AfterDigits(s[n..])
  }

  predicate AfterDigits(s: string) {
    var m := LeadingLower(s);
    m > 0 && AfterVersion(s[m..])
  }

  /** `_PZ_tract_\d+\.h5$`. */
  predicate AfterVersion(s: string) {
    StartsWith(s, PzTag) && TractDigits(s[|PzTag|..])
  }

  predicate TractDigits(s: string) {
    var n := LeadingDigits(s);
    n > 0 && AtEnd(H5Rest(s[n..]))
  }

  /** What follows `.h5`, or a mark that is never at the end when the text
      does not start `.h5`. */
  function H5Rest(s: string): (r: string)
    ensures StartsWith(s, ".h5") ==> r == s[3..]
  {
    if StartsWith(s, ".h5") then s[3..] else "x"
  }

  lemma H5RestOf(t: string)
    ensures H5Rest(".h5" + t) == t
  {
    PrefixOf(".h5", t);
  }

  /** Every name of the pattern's shape matches. */
  lemma DefaultNameComplete(d: char, ds: string, ls: string, ts: string, t: string)
    requires IsDigit(d)
    requires |ds| > 0 && AllDigits(ds)
    requires |ls| > 0 && AllLower(ls)
    requires |ts| > 0 && AllDigits(ts)
    requires AtEnd(t)
    ensures DefaultName(PzName(d, ds, ls, ts, t))
  {
    var tail := TractTail(ts, t);
    var afterDigits := ls + tail;
    var release := Release(ds, ls, ts, t);
    var s := PzName(d, ds, ls, ts, t);
    assert s == "run" + ([d] + ("." + release));
    assert s[..3] == "run" && s[3] == d && s[4] == '.';
    assert s[5..] == release;
    LeadingDigitsOver(ds, afterDigits);
    assert release[|ds|..] == afterDigits;
    LowerRunOver(ls, tail);
    assert afterDigits[|ls|..] == tail;
    PrefixOf(PzTag, ts + (".h5" + t));
    LeadingDigitsOver(ts, ".h5" + t);
    assert (ts + (".h5" + t))[|ts|..] == ".h5" + t;
    H5RestOf(t);
  }

  lemma TractDigitsSound(u: string) returns (ts: string, t: string)
    requires TractDigits(u)
    ensures |ts| > 0 && AllDigits(ts) && AtEnd(t) && u == ts + (".h5" + t)
  {
    var k := LeadingDigits(u);
    ts := u[..k];
    t := u[k..][3..];
    assert u[k..] == ".h5" + t;
  }

  lemma AfterDigitsSound(s: string) returns (ls: string, ts: string, t: string)
    requires AfterDigits(s)
    ensures |ls| > 0 && AllLower(ls) && |ts| > 0 && AllDigits(ts) && AtEnd(t)
    ensures s == ls + TractTail(ts, t)
  {
    var m := LeadingLower(s);
    ls := s[..m];
    var tail := s[m..];
    assert AfterVersion(tail);
    ts, t := TractDigitsSound(tail[|PzTag|..]);
    SplitAt(tail, |PzTag|);
    SplitAt(s, m);
  }

  lemma AfterReleaseSound(s: string) returns (ds: string, ls: string, ts: string, t: string)
    requires AfterRelease(s)
    ensures |ds| > 0 && AllDigits(ds) && |ls| > 0 && AllLower(ls) && |ts| > 0 && AllDigits(ts) && AtEnd(t)
    ensures s == Release(ds, ls, ts, t)
  {
    var n := LeadingDigits(s);
    ds := s[..n];
    var rest := s[n..];
    ls, ts, t := AfterDigitsSound(rest);
    SplitAt(s, n);
  }

  lemma RunPrefix(s: string)
    requires |s| >= 5 && s[..3] == "run" && s[4] == '.'
    ensures s == "run" + ([s[3]] + ("." + s[5..]))
  {
    SplitAt(s, 3);
    assert s[3..] == [s[3]] + s[4..];
    assert s[4..] == "." + s[5..];
  }

  /** Every matching name has the pattern's shape. */
  lemma DefaultNameSound(s: string) returns (d: char, ds: string, ls: string, ts: string, t: string)
    requires DefaultName(s)
    ensures IsDigit(d) && |ds| > 0 && AllDigits(ds) && |ls| > 0 && AllLower(ls)
    ensures |ts| > 0 && AllDigits(ts) && AtEnd(t)
    ensures s == PzName(d, ds, ls, ts, t)
  {
    d := s[3];
    ds, ls, ts, t := AfterReleaseSound(s[5..]);
    RunPrefix(s);
  }

  // ---------------------------------------------------------------------
  // Patch runs

  /** Whether a slice boundary falls at row `i` of the patch column: the
      first row, one past the last, and every row whose patch differs
      from the row before (the positions `np.flatnonzero` reports). */
  predicate Cut(p: seq<string>, i: nat) {
    i == 0 || i == |p| || (i < |p| && p[i] != p[i - 1])
  }

  predicate StrictlyIncreasing(b: seq<nat>) {
    forall k, l :: 0 <= k < l < |b| ==> b[k] < b[l]
  }

  /** The rows from `i` on whose patch differs from the row before. */
  function Changes(p: seq<string>, i: nat): (r: seq<nat>)
    requires 1 <= i <= |p|
    ensures StrictlyIncreasing(r)
    ensures forall k :: 0 <= k < |r| ==> i <= r[k] < |p|
    ensures forall t :: i <= t < |p| ==> (t in r <==> p[t] != p[t - 1])
    decreases |p| - i
  {
    if i == |p| then []
    else (if p[i] != p[i - 1] then [i] else []) + Changes(p, i + 1)
  }

  /** The boundaries of the runs of a non-empty patch column. (An empty
      frame never gets here: reading the tract of its first row raises
      first.) */
  function Boundaries(p: seq<string>): (b: seq<nat>)
    requires |p| >= 1
    ensures |b| >= 2 && b[0] == 0 && b[|b| - 1] == |p|
    ensures StrictlyIncreasing(b)
    ensures forall t :: 0 <= t <= |p| ==> (t in b <==> Cut(p, t))
    ensures forall k :: 0 <= k < |b| ==> b[k] <= |p|
  {
    [0] + Changes(p, 1) + [|p|]
  }

  /** One entry of `meta_tract['patches']`: the patch and its slice. */
  datatype PatchMeta = PatchMeta(patch: string, lo: nat, hi: nat)

  /** The runs of the patch column, one per pair of neighbouring
      boundaries. */
  function Runs(p: seq<string>): (r: seq<PatchMeta>)
    requires |p| >= 1
    ensures |r| >= 1 && r[0].lo == 0 && r[|r| - 1].hi == |p|
  {
    var b := Boundaries(p);
    seq(|b| - 1, k requires 0 <= k < |b| - 1 => PatchMeta(p[b[k]], b[k], b[k + 1]))
  }

  /** The slices are non-empty, in range and back to back, and each is
      labelled with the patch of its first row. */
  lemma RunsSlices(p: seq<string>)
    requires |p| >= 1
    ensures var r := Runs(p);
      && (forall k :: 0 <= k < |r| ==> r[k].lo < r[k].hi <= |p|)
      && (forall k :: 0 <= k < |r| - 1 ==> r[k].hi == r[k + 1].lo)
      && (forall k :: 0 <= k < |r| ==> r[k].patch == p[r[k].lo])
  {
    var r, b := Runs(p), Boundaries(p);
    forall k | 0 <= k < |r|
      ensures r[k].lo == b[k] && r[k].hi == b[k + 1] && r[k].patch == p[b[k]]
    {
    }
  }

  /** Rows strictly between two neighbouring boundaries are not
      boundaries, so a run holds one patch throughout. */
  lemma {:induction false} RunConstant(p: seq<string>, k: nat, t: nat)
    requires |p| >= 1 && k < |Runs(p)|
    requires Runs(p)[k].lo <= t < Runs(p)[k].hi
    ensures p[t] == Runs(p)[k].patch
    decreases t
  {
    var b := Boundaries(p);
    assert Runs(p)[k].lo == b[k] && Runs(p)[k].hi == b[k + 1];
    if t > b[k] {
      RunConstant(p, k, t - 1);
      assert !Cut(p, t);
    }
  }

  /** Each slice is constant, and neighbouring slices hold different
      patches: the runs are maximal. */
  lemma RunsMaximal(p: seq<string>)
    requires |p| >= 1
    ensures forall k, t :: 0 <= k < |Runs(p)| && Runs(p)[k].lo <= t < Runs(p)[k].hi ==> p[t] == Runs(p)[k].patch
    ensures forall k :: 0 <= k < |Runs(p)| - 1 ==> Runs(p)[k].patch != Runs(p)[k + 1].patch
  {
    var r, b := Runs(p), Boundaries(p);
    forall k, t | 0 <= k < |r| && r[k].lo <= t < r[k].hi
      ensures p[t] == r[k].patch
    {
      RunConstant(p, k, t);
    }
    forall k | 0 <= k < |r| - 1
      ensures r[k].patch != r[k + 1].patch
    {
      var c := b[k + 1];
      assert r[k].lo == b[k] < c == r[k].hi == r[k + 1].lo < |p|;
      assert c in b;
      assert p[c] != p[c - 1];
      RunConstant(p, k, c - 1);
    }
  }

  /** Every row lies in exactly one slice. */
  lemma RunContaining(p: seq<string>, t: nat) returns (k: nat)
    requires t < |p|
    ensures k < |Runs(p)| && Runs(p)[k].lo <= t < Runs(p)[k].hi
    ensures forall j :: 0 <= j < |Runs(p)| && Runs(p)[j].lo <= t < Runs(p)[j].hi ==> j == k
  {
    var b := Boundaries(p);
    k := Bracket(b, t);
  }

  /** The neighbouring boundaries around `t`. */
  lemma {:induction false} Bracket(b: seq<nat>, t: nat) returns (k: nat)
    requires |b| >= 2 && StrictlyIncreasing(b)
    requires b[0] <= t < b[|b| - 1]
    ensures k < |b| - 1 && b[k] <= t < b[k + 1]
    decreases |b|
  {
    var n := |b| - 1;
    if t >= b[n - 1] {
      k := n - 1;
    } else {
      k := Bracket(b[..n], t);
    }
  }

  // ---------------------------------------------------------------------
  // Metadata

  /** One row of a tract file: its tract and its patch. */
  datatype Row = Row(tract: int, patch: string)

  type Frame = seq<Row>

  function PatchColumn(f: Frame): (p: seq<string>)
    ensures |p| == |f| && forall i :: 0 <= i < |f| ==> p[i] == f[i].patch
  {
    seq(|f|, i requires 0 <= i < |f| => f[i].patch)
  }

  /** One entry of `metadata['datasets']`. */
  datatype TractMeta = TractMeta(tract: int, filename: string, patches: seq<PatchMeta>)

  /** The entry for one file; an empty frame raises `IndexError` at
      `iloc[0]`. */
  function TractEntry(fname: string, f: Frame): (r: Result<TractMeta>)
    ensures r.Err? <==> |f| == 0
    ensures r.Err? ==> r.error == IndexError
    ensures r.Ok? ==> r.value.tract == f[0].tract && r.value.filename == fname
    ensures r.Ok? ==> |r.value.patches| >= 1 && r.value.patches[0].lo == 0
                      && r.value.patches[|r.value.patches| - 1].hi == |f|
  {
    if |f| == 0 then Err(IndexError)
    else Ok(TractMeta(f[0].tract, fname, Runs(PatchColumn(f))))
  }

  /** Whether the loop reads the file: its name matches and it can be
      opened (`frames` holds the files that can). */
  predicate Used(matches: string -> bool, frames: map<string, Frame>, name: string) {
    matches(name) && name in frames
  }

  /** The loop of `generate_metadata` over names already in order. */
  function Datasets(names: seq<string>, matches: string -> bool, frames: map<string, Frame>): (r: Result<seq<TractMeta>>)
    ensures r.Err? ==> r.error == IndexError
    decreases |names|
  {
    if |names| == 0 then Ok([])
    else
      var n := names[0];
      if !Used(matches, frames, n) then Datasets(names[1..], matches, frames)
      else match TractEntry(n, frames[n])
        case Err(e) => Err(e)
        case Ok(t) =>
          match Datasets(names[1..], matches, frames)
          case Err(e) => Err(e)
          case Ok(ts) => Ok([t] + ts)
  }

  function Filenames(ts: seq<TractMeta>): (r: seq<string>)
    ensures |r| == |ts| && forall i :: 0 <= i < |ts| ==> r[i] == ts[i].filename
  {
    seq(|ts|, i requires 0 <= i < |ts| => ts[i].filename)
  }

  /** The loop fails exactly when a file it reads is empty. */
  lemma {:induction false} DatasetsErr(names: seq<string>, matches: string -> bool, frames: map<string, Frame>)
    ensures Datasets(names, matches, frames).Err? <==>
      exists i :: 0 <= i < |names| && Used(matches, frames, names[i]) && |frames[names[i]]| == 0
    decreases |names|
  {
    if |names| > 0 {
      DatasetsErr(names[1..], matches, frames);
      assert forall i :: 1 <= i < |names| ==> names[1..][i - 1] == names[i];
    }
  }

  /** Otherwise it records the files it reads, in order. */
  lemma {:induction false} DatasetsNames(names: seq<string>, matches: string -> bool, frames: map<string, Frame>)
    ensures Datasets(names, matches, frames).Ok? ==>
      Filenames(Datasets(names, matches, frames).value) == Filter(names, n => Used(matches, frames, n))
    decreases |names|
  {
    if |names| > 0 {
      DatasetsNames(names[1..], matches, frames);
      var p := n => Used(matches, frames, n);
      assert Filter(names, p) == (if p(names[0]) then [names[0]] else []) + Filter(names[1..], p);
      DatasetsStep(names, matches, frames);
    }
  }

  /** One step of the loop, on the file names it records. */
  lemma DatasetsStep(names: seq<string>, matches: string -> bool, frames: map<string, Frame>)
    requires |names| > 0
    ensures Datasets(names, matches, frames).Ok? ==> Datasets(names[1..], matches, frames).Ok?
    ensures Datasets(names, matches, frames).Ok? ==>
      Filenames(Datasets(names, matches, frames).value) ==
        (if Used(matches, frames, names[0]) then [names[0]] else []) + Filenames(Datasets(names[1..], matches, frames).value)
  {
    var r := Datasets(names, matches, frames);
    var rest := Datasets(names[1..], matches, frames);
    if r.Ok? && Used(matches, frames, names[0]) {
      var t := TractEntry(names[0], frames[names[0]]).value;
      assert r.value == [t] + rest.value;
      FilenamesCons(t, rest.value);
    }
  }

  lemma FilenamesCons(t: TractMeta, ts: seq<TractMeta>)
    ensures Filenames([t] + ts) == [t.filename] + Filenames(ts)
  {
    assert forall k :: 1 <= k < |ts| + 1 ==> ([t] + ts)[k] == ts[k - 1];
  }

  /** Each recorded entry is the entry of its own file. */
  lemma {:induction false} DatasetsEntries(names: seq<string>, matches: string -> bool, frames: map<string, Frame>)
    ensures Datasets(names, matches, frames).Ok? ==>
      forall i :: 0 <= i < |Datasets(names, matches, frames).value| ==>
        var t := Datasets(names, matches, frames).value[i];
        t.filename in frames && TractEntry(t.filename, frames[t.filename]) == Ok(t)
    decreases |names|
  {
    if |names| > 0 {
      DatasetsEntries(names[1..], matches, frames);
      var r := Datasets(names, matches, frames);
      var rest := Datasets(names[1..], matches, frames);
      if r.Ok? && Used(matches, frames, names[0]) {
        assert r.value == [TractEntry(names[0], frames[names[0]]).value] + rest.value;
      }
    }
  }

  /** `generate_metadata()['datasets']`: the listing in sorted order. */
  function GenerateDatasets(listing: seq<string>, matches: string -> bool, frames: map<string, Frame>): Result<seq<TractMeta>> {
    Datasets(Sort(listing), matches, frames)
  }

  /** With the default pattern, exactly the readable names of the
      pattern's shape are recorded, in sorted order. */
  lemma DefaultDatasets(listing: seq<string>, frames: map<string, Frame>)
    requires GenerateDatasets(listing, DefaultName, frames).Ok?
    ensures Filenames(GenerateDatasets(listing, DefaultName, frames).value) ==
      Filter(Sort(listing), n => Used(DefaultName, frames, n))
    ensures forall n :: n in Filenames(GenerateDatasets(listing, DefaultName, frames).value) <==>
      n in listing && DefaultName(n) && n in frames
  {
    DatasetsNames(Sort(listing), DefaultName, frames);
    var s := Sort(listing);
    forall n
      ensures n in s <==> n in listing
    {
      assert n in s <==> n in multiset(s);
    }
  }

  // ---------------------------------------------------------------------
  // Quantity modifiers

  /** The key of one redshift bin of the PDF, from its centre formatted
      with three decimals: `'pz_pdf_z' + z_str.replace('.', '_')`. */
  function PdfKey(z: string): string { "pz_pdf_z" + Replace(z, ".", "_") }

  /** The assignments in order: the two names, then one key per bin,
      whose value is the bin's index. */
  function ModifierPairs(centers: seq<string>): (r: seq<(string, Modifier)>)
    ensures |r| == 2 + |centers|
    ensures r[0] == ("id", Alias("ID")) && r[1] == ("pz_z_peak", Alias("z_peak"))
    ensures forall i :: 0 <= i < |centers| ==> r[2 + i] == (PdfKey(centers[i]), Column(i))
  {
    [("id", Alias("ID")), ("pz_z_peak", Alias("z_peak"))]
      + seq(|centers|, i requires 0 <= i < |centers| => (PdfKey(centers[i]), Column(i)))
  }

  function QuantityModifiers(centers: seq<string>): ODict<string, Modifier> {
    PutAll(ModifierPairs(centers), First, Second)
  }

  /** `list(self._quantity_modifiers.values()) + list({'tract', 'patch'})`,
      with the set listed as `tract`, `patch`. */
  function NativeQuantities(centers: seq<string>): (r: seq<Modifier>)
    ensures |r| == |QuantityModifiers(centers).keys| + 2
  {
    Values(QuantityModifiers(centers)) + [Alias("tract"), Alias("patch")]
  }

  /** `list(d.values())`. */
  function Values<K, V>(d: ODict<K, V>): (r: seq<V>)
    requires Valid(d)
    ensures |r| == |d.keys| && forall i :: 0 <= i < |d.keys| ==> r[i] == d.m[d.keys[i]]
  {
    seq(|d.keys|, i requires 0 <= i < |d.keys| => d.m[d.keys[i]])
  }

  /** A bin key never collides with the two fixed names. */
  lemma PdfKeyNotFixed(z: string)
    ensures PdfKey(z) != "id" && PdfKey(z) != "pz_z_peak"
  {
    var k := PdfKey(z);
    assert k[3] == 'p';
    assert "pz_z_peak"[3] == 'z';
  }

  /** The bin keys in order. */
  function PdfKeys(centers: seq<string>): (r: seq<string>)
    ensures |r| == |centers| && forall i :: 0 <= i < |centers| ==> r[i] == PdfKey(centers[i])
  {
    seq(|centers|, i requires 0 <= i < |centers| => PdfKey(centers[i]))
  }

  /** The bin indices `0 .. n - 1` as modifiers. */
  function Columns(n: nat): (r: seq<Modifier>)
    ensures |r| == n && forall i :: 0 <= i < n ==> r[i] == Column(i)
  {
    seq(n, i requires 0 <= i < n => Column(i))
  }

  predicate DistinctBins(centers: seq<string>) {
    forall i, j :: 0 <= i < j < |centers| ==> PdfKey(centers[i]) != PdfKey(centers[j])
  }

  lemma PairsDistinct(centers: seq<string>)
    requires DistinctBins(centers)
    ensures forall i, j :: 0 <= i < j < |ModifierPairs(centers)| ==>
      First(ModifierPairs(centers)[i]) != First(ModifierPairs(centers)[j])
  {
    var xs := ModifierPairs(centers);
    forall i | 0 <= i < |centers| ensures PdfKey(centers[i]) != "id" && PdfKey(centers[i]) != "pz_z_peak" {
      PdfKeyNotFixed(centers[i]);
    }
    forall i, j | 0 <= i < j < |xs| ensures First(xs[i]) != First(xs[j]) {
      if i >= 2 {
        assert xs[i].0 == PdfKey(centers[i - 2]) && xs[j].0 == PdfKey(centers[j - 2]);
      }
    }
  }

  /** With bin keys that differ from each other, the dictionary lists
      `id`, `pz_z_peak` and the bins in order. */
  lemma ModifierKeys(centers: seq<string>)
    requires DistinctBins(centers)
    ensures QuantityModifiers(centers).keys == ["id", "pz_z_peak"] + PdfKeys(centers)
  {
    var xs := ModifierPairs(centers);
    PairsDistinct(centers);
    PutAllDistinct(xs, First, Second);
  }

  /** `id` and `pz_z_peak` are renamed, and bin `i` is column `i` of the
      PDF array. */
  lemma ModifierValues(centers: seq<string>)
    requires DistinctBins(centers)
    ensures "id" in QuantityModifiers(centers).m && QuantityModifiers(centers).m["id"] == Alias("ID")
    ensures "pz_z_peak" in QuantityModifiers(centers).m && QuantityModifiers(centers).m["pz_z_peak"] == Alias("z_peak")
    ensures forall i :: 0 <= i < |centers| ==>
      PdfKey(centers[i]) in QuantityModifiers(centers).m && QuantityModifiers(centers).m[PdfKey(centers[i])] == Column(i)
  {
    var xs := ModifierPairs(centers);
    PairsDistinct(centers);
    PutAllLast(xs, First, Second, 0, "id");
    PutAllLast(xs, First, Second, 1, "pz_z_peak");
    forall i | 0 <= i < |centers|
      ensures PdfKey(centers[i]) in QuantityModifiers(centers).m && QuantityModifiers(centers).m[PdfKey(centers[i])] == Column(i)
    {
      PutAllLast(xs, First, Second, 2 + i, PdfKey(centers[i]));
    }
  }

  /** The native quantities are the two names, the bin indices in order,
      and the two filter quantities. */
  lemma NativeQuantitiesSpec(centers: seq<string>)
    requires DistinctBins(centers)
    ensures NativeQuantities(centers) ==
      [Alias("ID"), Alias("z_peak")] + Columns(|centers|) + [Alias("tract"), Alias("patch")]
  {
    ModifierKeys(centers);
    ModifierValues(centers);
    ValuesInOrder(QuantityModifiers(centers), centers);
  }

  lemma ValuesInOrder(d: ODict<string, Modifier>, centers: seq<string>)
    requires Valid(d)
    requires d.keys == ["id", "pz_z_peak"] + PdfKeys(centers)
    requires d.m["id"] == Alias("ID") && d.m["pz_z_peak"] == Alias("z_peak")
    requires forall i :: 0 <= i < |centers| ==> d.m[PdfKey(centers[i])] == Column(i)
    ensures Values(d) == [Alias("ID"), Alias("z_peak")] + Columns(|centers|)
  {
    var vs := Values(d);
    var want := [Alias("ID"), Alias("z_peak")] + Columns(|centers|);
    forall i | 0 <= i < |vs|
      ensures vs[i] == want[i]
    {
      if i >= 2 {
        assert d.keys[i] == PdfKey(centers[i - 2]);
      }
    }
  }

  // ---------------------------------------------------------------------
  // Iteration

  /** One patch the iteration visits, flattened out of the two loops. */
  datatype Unit = Unit(tract: int, patch: string, filename: string, lo: nat, hi: nat)

  function TractUnits(t: TractMeta): (r: seq<Unit>)
    ensures |r| == |t.patches|
    ensures forall k :: 0 <= k < |r| ==>
      r[k] == Unit(t.tract, t.patches[k].patch, t.filename, t.patches[k].lo, t.patches[k].hi)
  {
    seq(|t.patches|, k requires 0 <= k < |t.patches| =>
      Unit(t.tract, t.patches[k].patch, t.filename, t.patches[k].lo, t.patches[k].hi))
  }

  /** The patches of all tracts, in loop order. */
  function Units(ts: seq<TractMeta>): seq<Unit>
    decreases |ts|
  {
    if |ts| == 0 then [] else TractUnits(ts[0]) + Units(ts[1..])
  }

  /** One yield: the patch, and whether the file was read for it. */
  datatype Chunk = Chunk(unit: Unit, reread: bool)

  /** `native_filters and not native_filters.check_scalar(tract_patch)`:
      `None` stands for no (or falsy) filters. */
  predicate Skipped(check: Option<(int, string) -> bool>, u: Unit) {
    check.Some? && !check.value(u.tract, u.patch)
  }

  /** The patches the filters let through. */
  function Passes(check: Option<(int, string) -> bool>): Unit -> bool {
    u => !Skipped(check, u)
  }

  /** The iteration, given the name of the file read last (`current_fname`). */
  function Scan(us: seq<Unit>, check: Option<(int, string) -> bool>, current: Option<string>): (r: seq<Chunk>)
    decreases |us|
  {
    if |us| == 0 then []
    else if Skipped(check, us[0]) then Scan(us[1..], check, current)
    else [Chunk(us[0], current != Some(us[0].filename))] + Scan(us[1..], check, Some(us[0].filename))
  }

  function ChunkUnits(cs: seq<Chunk>): (r: seq<Unit>)
    ensures |r| == |cs| && forall k :: 0 <= k < |cs| ==> r[k] == cs[k].unit
  {
    seq(|cs|, k requires 0 <= k < |cs| => cs[k].unit)
  }

  lemma ChunkUnitsCons(c: Chunk, cs: seq<Chunk>)
    ensures ChunkUnits([c] + cs) == [c.unit] + ChunkUnits(cs)
  {
    assert forall k :: 1 <= k < |cs| + 1 ==> ([c] + cs)[k] == cs[k - 1];
  }

  /** The yielded patches are the patches that pass the filters, in
      order. */
  lemma {:induction false} ScanUnits(us: seq<Unit>, check: Option<(int, string) -> bool>, current: Option<string>)
    ensures ChunkUnits(Scan(us, check, current)) == Filter(us, Passes(check))
    decreases |us|
  {
    if |us| > 0 {
      var u := us[0];
      var p := Passes(check);
      var next := if Skipped(check, u) then current else Some(u.filename);
      ScanUnits(us[1..], check, next);
      var rest := Scan(us[1..], check, next);
      assert Filter(us, p) == (if p(u) then [u] else []) + Filter(us[1..], p);
      if !Skipped(check, u) {
        assert Scan(us, check, current) == [Chunk(u, current != next)] + rest;
        ChunkUnitsCons(Chunk(u, current != next), rest);
      } else {
        assert Scan(us, check, current) == rest;
      }
    }
  }

  /** A file is read for the first patch yielded when it is not the file
      read last, and for any later one exactly when its file differs from
      the file of the patch yielded before it. */
  lemma {:induction false} ScanRereads(us: seq<Unit>, check: Option<(int, string) -> bool>, current: Option<string>)
    ensures |Scan(us, check, current)| > 0 ==>
      (Scan(us, check, current)[0].reread <==> current != Some(Scan(us, check, current)[0].unit.filename))
    ensures forall k :: 1 <= k < |Scan(us, check, current)| ==>
      (Scan(us, check, current)[k].reread <==>
        Scan(us, check, current)[k - 1].unit.filename != Scan(us, check, current)[k].unit.filename)
    decreases |us|
  {
    if |us| > 0 {
      var u := us[0];
      if Skipped(check, u) {
        ScanRereads(us[1..], check, current);
      } else {
        var next := Some(u.filename);
        ScanRereads(us[1..], check, next);
        var rest := Scan(us[1..], check, next);
        var r := Scan(us, check, current);
        assert r == [Chunk(u, current != next)] + rest;
        forall k | 1 <= k < |r|
          ensures r[k].reread <==> r[k - 1].unit.filename != r[k].unit.filename
        {
          assert r[k] == rest[k - 1];
          if k >= 2 {
            assert r[k - 1] == rest[k - 2];
          }
        }
      }
    }
  }

  /** `_iter_native_dataset(native_filters)`. */
  function Iterate(ts: seq<TractMeta>, check: Option<(int, string) -> bool>): seq<Chunk> {
    Scan(Units(ts), check, None)
  }

  /** Without filters every patch of every tract is yielded, and each
      file is read once for a run of patches from it. */
  lemma IterateUnfiltered(ts: seq<TractMeta>)
    ensures ChunkUnits(Iterate(ts, None)) == Units(ts)
    ensures |Iterate(ts, None)| > 0 ==> Iterate(ts, None)[0].reread
  {
    ScanUnits(Units(ts), None, None);
    ScanRereads(Units(ts), None, None);
    FilterAll(Units(ts), Passes(None));
  }

  /** A filter that keeps everything drops nothing. */
  lemma {:induction false} FilterAll<T>(xs: seq<T>, p: T -> bool)
    requires forall i :: 0 <= i < |xs| ==> p(xs[i])
    ensures Filter(xs, p) == xs
    decreases |xs|
  {
    if |xs| > 0 {
      FilterAll(xs[1..], p);
      assert xs == [xs[0]] + xs[1..];
    }
  }

  /** `df[native_quantity].values[slice(i, j)]`, with Python's clamping
      of slice bounds past the end. */
  function SliceOf<V>(col: seq<V>, lo: nat, hi: nat): (r: seq<V>)
    ensures hi <= |col| && lo <= hi ==> r == col[lo..hi]
    ensures |r| <= |col|
  {
    var b := if hi <= |col| then hi else |col|;
    var a := if lo <= b then lo else b;
    col[a..b]
  }

  /** The getter of a patch from a file's own metadata returns, for the
      patch column, that patch once per row of the slice and nothing
      else. */
  lemma PatchGetter(fname: string, f: Frame, k: nat)
    requires TractEntry(fname, f).Ok?
    requires k < |TractEntry(fname, f).value.patches|
    ensures var m := TractEntry(fname, f).value.patches[k];
      SliceOf(PatchColumn(f), m.lo, m.hi) == seq(m.hi - m.lo, _ => m.patch)
  {
    var p := PatchColumn(f);
    RunsMaximal(p);
  }
}
