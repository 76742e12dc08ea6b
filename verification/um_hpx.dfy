/** The UniverseMachine HEALPix galaxy reader (`UMGalaxyCatalog`): catalog
    files named by a template with the lower and upper redshift block and
    the HEALPix pixel. The reader derives default redshift bounds and pixels
    from the names in the directory, lists the files the bounds and pixels
    ask for, checks that they exist, and gates each file on the native
    filters before reading it.

    The template is the one the cosmoDC2 reader uses (`CosmoFiles.Template`):
    here its fields are filled with `\d`, `\d` and `\d+`, without groups, and
    the numbers are read back from the matched text with `re.findall`. */
module UmHpx {
  import opened Wrappers
  import opened Strings
  import opened Sorting
  import opened Tables
  import opened CosmoFiles
  import opened Partitions

  /** The matched text of a directory entry without its extension
      (`os.path.splitext(m.group())[0]`), or `None` when the name does not
      match. */
  function Stem(t: Template, f: string): (r: Option<string>)
    ensures r.None? <==> MatchName(t, f).None?
  {
    if MatchName(t, f).None? then None else Some(StripExt(f[..MatchLength(t, f)]))
  }

  /** `zlo, zhi, hpx = pattern.findall(stem)`: `ValueError` unless the stem
      holds exactly three runs of digits. */
  function StemNumbers(stem: string): (r: Result<Groups>)
    ensures r.Err? ==> r.error == ValueError
    ensures r.Ok? <==> |DigitRuns(stem)| == 3
  {
    var runs := DigitRuns(stem);
    if |runs| != 3 then Err(ValueError)
    else Ok(Groups(DigitsValue(runs[0]), DigitsValue(runs[1]), DigitsValue(runs[2])))
  }

  /** The numbers of a directory entry: `Ok(None)` when the name does not
      match, `Ok(Some(g))` when it is a catalog file, `ValueError` when its
      numbers cannot be unpacked. */
  function Numbers(t: Template, f: string): (r: Result<Option<Groups>>)
    ensures r.Err? ==> r.error == ValueError
    ensures r == Ok(None) <==> MatchName(t, f).None?
  {
    match Stem(t, f)
    case None => Ok(None)
    case Some(stem) =>
      match StemNumbers(stem)
      case Err(e) => Err(e)
      case Ok(g) => Ok(Some(g))
  }

  /** A template whose numbers can be read back: no digits outside the
      fields, something between the fields, and a tail that is a dot-free
      extension. */
  predicate Readable(t: Template) {
    && NoDigits(t.head) && NoDigits(t.sep1) && NoDigits(t.sep2)
    && |t.sep1| > 0 && |t.sep2| > 0
    && |t.tail| > 0 && t.tail[0] == '.'
    && forall i :: 1 <= i < |t.tail| ==> t.tail[i] != '.'
  }

  /** Reading the numbers of a name the template formats gives back the
      numbers it was formatted from, whatever follows the name. */
  lemma NumbersOfName(t: Template, g: Groups, r: string)
    requires Readable(t)
    requires g.zlo < 10 && g.zhi < 10
    ensures Numbers(t, FileName(t, g) + r) == Ok(Some(g))
  {
    var x := StemOfName(t, g, r);
    RunsOfStem(t, g, x);
  }

  /** The stem of a formatted name is the name without the tail. */
  lemma StemOfName(t: Template, g: Groups, r: string) returns (x: string)
    requires Readable(t)
    requires g.zlo < 10 && g.zhi < 10
    ensures x == t.head + (NatToString(g.zlo) + (t.sep1 + (NatToString(g.zhi) + t.sep2)))
    ensures Stem(t, FileName(t, g) + r) == Some(x + NatToString(g.hpx))
  {
    var f := FileName(t, g) + r;
    MatchLengthOf(t, g, r);
    assert f[..MatchLength(t, f)] == FileName(t, g);
    x := NameStem(t, g);
  }

  /** A formatted name without its extension. */
  lemma NameStem(t: Template, g: Groups) returns (x: string)
    requires Readable(t)
    requires g.zlo < 10 && g.zhi < 10
    ensures x == t.head + (NatToString(g.zlo) + (t.sep1 + (NatToString(g.zhi) + t.sep2)))
    ensures StripExt(FileName(t, g)) == x + NatToString(g.hpx)
  {
    var h := NatToString(g.hpx);
    x := FileNameSplit(t, g, "");
    assert FileName(t, g) == (x + h) + ("." + t.tail[1..]) by {
      assert FileName(t, g) + "" == FileName(t, g);
      assert t.tail == "." + t.tail[1..];
    }
    OneDigit(g.zlo);
    assert (x + h)[|t.head|] == NatToString(g.zlo)[0];
    StripExtOf(x + h, t.tail[1..]);
  }

  /** The stem of a formatted name holds its three numbers. */
  lemma RunsOfStem(t: Template, g: Groups, x: string)
    requires Readable(t)
    requires g.zlo < 10 && g.zhi < 10
    requires x == t.head + (NatToString(g.zlo) + (t.sep1 + (NatToString(g.zhi) + t.sep2)))
    ensures StemNumbers(x + NatToString(g.hpx)) == Ok(g)
  {
    var d1, d2, h := NatToString(g.zlo), NatToString(g.zhi), NatToString(g.hpx);
    Assoc(d2, t.sep2, h);
    Assoc(t.sep1, d2 + t.sep2, h);
    Assoc(d1, t.sep1 + (d2 + t.sep2), h);
    Assoc(t.head, d1 + (t.sep1 + (d2 + t.sep2)), h);
    assert x + h == t.head + (d1 + (t.sep1 + (d2 + (t.sep2 + h))));
    DigitRunsSkip(t.head, d1 + (t.sep1 + (d2 + (t.sep2 + h))));
    DigitRunsRun(d1, t.sep1 + (d2 + (t.sep2 + h)));
    DigitRunsSkip(t.sep1, d2 + (t.sep2 + h));
    DigitRunsRun(d2, t.sep2 + h);
    DigitRunsSkip(t.sep2, h);
    DigitRunsRun(h, "");
    assert h + "" == h;
    NatToStringValue(g.zlo);
    NatToStringValue(g.zhi);
    NatToStringValue(g.hpx);
  }

  /** A catalog file whose redshift block starts or ends at `z`. */
  predicate HasBound(n: Result<Option<Groups>>, z: int) {
    n.Ok? && n.value.Some? && (n.value.value.zlo == z || n.value.value.zhi == z)
  }

  /** A catalog file of pixel `p`. */
  predicate HasPixel(n: Result<Option<Groups>>, p: int) {
    n.Ok? && n.value.Some? && n.value.value.hpx == p
  }

  /** The loop of `_get_healpix_info` over the names' numbers: every
      redshift bound and every pixel of the catalog files, or `ValueError`
      when some matching name does not hold three numbers. */
  function Scan(ns: seq<Result<Option<Groups>>>): (r: Result<(seq<int>, seq<int>)>)
    requires forall i :: 0 <= i < |ns| && ns[i].Err? ==> ns[i].error == ValueError
    ensures r.Err? ==> r.error == ValueError
    ensures r.Err? <==> exists i :: 0 <= i < |ns| && ns[i].Err?
    ensures r.Ok? ==> forall z :: z in r.value.0 <==> exists i :: 0 <= i < |ns| && HasBound(ns[i], z)
    ensures r.Ok? ==> forall p :: p in r.value.1 <==> exists i :: 0 <= i < |ns| && HasPixel(ns[i], p)
  {
    if |ns| == 0 then Ok(([], []))
    else
      assert forall i :: 1 <= i < |ns| ==> ns[1..][i - 1] == ns[i];
      var rest := Scan(ns[1..]);
      match ns[0]
      case Err(e) => Err(e)
      case Ok(None) => rest
      case Ok(Some(g)) =>
        match rest
        case Err(e) => Err(e)
        case Ok((zs, ps)) => Ok(([g.zlo, g.zhi] + zs, [g.hpx] + ps))
  }

  /** The numbers of each name in turn. */
  function AllNumbers(num: string -> Result<Option<Groups>>, names: seq<string>): (ns: seq<Result<Option<Groups>>>)
    ensures |ns| == |names| && forall i :: 0 <= i < |names| ==> ns[i] == num(names[i])
  {
    seq(|names|, i requires 0 <= i < |names| => num(names[i]))
  }

  /** The defaults: the smallest and largest redshift bound, and the
      distinct pixels (the list of a set, modelled in increasing order). */
  datatype Defaults = Defaults(zlo: int, zhi: int, pixels: seq<int>)

  /** The defaults from the names in the order scanned. */
  function InfoOf(num: string -> Result<Option<Groups>>, names: seq<string>): (r: Result<Defaults>)
    requires forall f :: num(f).Err? ==> num(f).error == ValueError
    ensures r.Err? ==> r.error == ValueError
  {
    match Scan(AllNumbers(num, names))
    case Err(e) => Err(e)
    case Ok((zs, ps)) =>
      if |zs| == 0 then Err(ValueError) else Ok(Defaults(Min(zs), Max(zs), SortUnique(ps)))
  }

  /** `_get_healpix_info` over the directory listing, scanned in sorted
      order; `num` reads the numbers of a name (`TemplateDefaults` below
      passes `Numbers` for the catalog's template). */
  function HealpixInfo(num: string -> Result<Option<Groups>>, listing: seq<string>): (r: Result<Defaults>)
    requires forall f :: num(f).Err? ==> num(f).error == ValueError
    ensures r.Err? ==> r.error == ValueError
  {
    if |listing| == 0 then Err(ValueError) else InfoOf(num, Sort(listing))
  }

  /** The defaults for the catalog's template. */
  function TemplateDefaults(t: Template, listing: seq<string>): (r: Result<Defaults>)
    ensures r.Err? ==> r.error == ValueError
  {
    HealpixInfo(f => Numbers(t, f), listing)
  }

  /** Some name of a reordering of the listing has numbers with property
      `P` exactly when some name of the listing has. */
  lemma SameNames(num: string -> Result<Option<Groups>>, names: seq<string>, listing: seq<string>,
                  P: Result<Option<Groups>> -> bool)
    requires multiset(names) == multiset(listing)
    ensures var ns := AllNumbers(num, names);
      (exists i :: 0 <= i < |ns| && P(ns[i])) <==> exists f :: f in listing && P(num(f))
  {
    var ns := AllNumbers(num, names);
    if exists i :: 0 <= i < |ns| && P(ns[i]) {
      var i :| 0 <= i < |ns| && P(ns[i]);
      assert names[i] in multiset(listing);
      assert names[i] in listing && P(num(names[i]));
    }
    if exists f :: f in listing && P(num(f)) {
      var f :| f in listing && P(num(f));
      assert f in multiset(names);
      var i :| 0 <= i < |names| && names[i] == f;
      assert ns[i] == num(f);
    }
  }

  /** The scan of a reordering of the listing, stated over the listing. */
  lemma ScanListing(num: string -> Result<Option<Groups>>, names: seq<string>, listing: seq<string>)
    requires forall f :: num(f).Err? ==> num(f).error == ValueError
    requires multiset(names) == multiset(listing)
    ensures var r := Scan(AllNumbers(num, names));
      && (r.Err? <==> exists f :: f in listing && num(f).Err?)
      && (r.Ok? ==> forall z :: z in r.value.0 <==> exists f :: f in listing && HasBound(num(f), z))
      && (r.Ok? ==> forall p :: p in r.value.1 <==> exists f :: f in listing && HasPixel(num(f), p))
      && (r.Ok? ==> (|r.value.0| == 0 <==> forall f :: f in listing ==> num(f) == Ok(None)))
  {
    var ns := AllNumbers(num, names);
    SameNames(num, names, listing, (n: Result<Option<Groups>>) => n.Err?);
    SameNames(num, names, listing, (n: Result<Option<Groups>>) => n.Ok? && n.value.Some?);
    if Scan(ns).Ok? {
      var zs := Scan(ns).value.0;
      forall z ensures z in zs <==> exists f :: f in listing && HasBound(num(f), z) {
        SameNames(num, names, listing, n => HasBound(n, z));
      }
      forall p ensures p in Scan(ns).value.1 <==> exists f :: f in listing && HasPixel(num(f), p) {
        SameNames(num, names, listing, n => HasPixel(n, p));
      }
      forall i | 0 <= i < |ns| && ns[i].Ok? && ns[i].value.Some?
        ensures ns[i].value.value.zlo in zs
      {
        assert HasBound(ns[i], ns[i].value.value.zlo);
      }
      if |zs| > 0 {
        assert zs[0] in zs;
        var i :| 0 <= i < |ns| && HasBound(ns[i], zs[0]);
      }
      assert (forall f :: f in listing ==> num(f) == Ok(None)) <==>
        !exists f :: f in listing && (num(f).Ok? && num(f).value.Some?);
    }
  }

  /** The defaults fail exactly for an empty directory, for a name that
      does not hold three numbers, and for a directory without catalog files
      (the `min` of no values). */
  lemma HealpixInfoErr(num: string -> Result<Option<Groups>>, listing: seq<string>)
    requires forall f :: num(f).Err? ==> num(f).error == ValueError
    ensures HealpixInfo(num, listing).Err? <==>
      || |listing| == 0
      || (exists f :: f in listing && num(f).Err?)
      || (forall f :: f in listing ==> num(f) == Ok(None))
  {
    if |listing| > 0 {
      ScanListing(num, Sort(listing), listing);
    }
  }

  /** Otherwise the defaults bound every catalog file's redshift block,
      each bound is attained, and the pixels are exactly the catalog files'
      pixels. */
  lemma HealpixInfoOk(num: string -> Result<Option<Groups>>, listing: seq<string>)
    requires forall f :: num(f).Err? ==> num(f).error == ValueError
    requires HealpixInfo(num, listing).Ok?
    ensures var d := HealpixInfo(num, listing).value;
      && (forall f, z :: f in listing && HasBound(num(f), z) ==> d.zlo <= z <= d.zhi)
      && (exists f :: f in listing && HasBound(num(f), d.zlo))
      && (exists f :: f in listing && HasBound(num(f), d.zhi))
      && (forall p :: p in d.pixels <==> exists f :: f in listing && HasPixel(num(f), p))
  {
    InfoOfOk(num, Sort(listing), listing);
  }

  lemma InfoOfOk(num: string -> Result<Option<Groups>>, names: seq<string>, listing: seq<string>)
    requires forall f :: num(f).Err? ==> num(f).error == ValueError
    requires multiset(names) == multiset(listing)
    requires InfoOf(num, names).Ok?
    ensures var d := InfoOf(num, names).value;
      && (forall f, z :: f in listing && HasBound(num(f), z) ==> d.zlo <= z <= d.zhi)
      && (exists f :: f in listing && HasBound(num(f), d.zlo))
      && (exists f :: f in listing && HasBound(num(f), d.zhi))
      && (forall p :: p in d.pixels <==> exists f :: f in listing && HasPixel(num(f), p))
  {
    ScanListing(num, names, listing);
    var zs := Scan(AllNumbers(num, names)).value.0;
    var d := InfoOf(num, names).value;
    assert d.zlo in zs && d.zhi in zs;
    forall f, z | f in listing && HasBound(num(f), z)
      ensures d.zlo <= z <= d.zhi
    {
      assert z in zs;
      var i :| 0 <= i < |zs| && zs[i] == z;
    }
  }

  /** `template.format(z, z + 1, h)`. */
  function Format(t: Template, z: int, h: int): string {
    t.head + (IntToString(z) + (t.sep1 + (IntToString(z + 1) + (t.sep2 + (IntToString(h) + t.tail)))))
  }

  /** The path of the file of redshift block `z` and pixel `h` in the
      catalog directory. */
  function Candidate(dir: string, t: Template, z: int, h: int): string {
    PathJoin(dir, Format(t, z, h))
  }

  /** The number of blocks in `range(lo, hi)`. */
  function Span(lo: int, hi: int): nat {
    if lo < hi then hi - lo else 0
  }

  /** The position of block `z`, pixel number `j` in the candidate list. */
  function Cell(lo: int, z: int, n: nat, j: nat): int {
    (z - lo) * n + j
  }

  /** The candidates of one redshift block, one per pixel. */
  function Row(name: (int, int) -> string, z: int, pixels: seq<int>): (r: seq<string>)
    ensures |r| == |pixels|
    ensures forall j :: 0 <= j < |pixels| ==> r[j] == name(z, pixels[j])
  {
    seq(|pixels|, j requires 0 <= j < |pixels| => name(z, pixels[j]))
  }

  lemma CellStep(lo: int, z: int, n: nat, j: nat)
    requires lo < z && j < n
    ensures Cell(lo, z, n, j) == n + Cell(lo + 1, z, n, j)
  {
    assert (z - lo) * n == n + (z - (lo + 1)) * n;
  }

  lemma CellBelow(lo: int, z: int, hi: int, n: nat, j: nat)
    requires lo <= z < hi && j < n
    ensures 0 <= Cell(lo, z, n, j) < (hi - lo) * n
  {
    assert (z - lo) * n + n == (z - lo + 1) * n;
    assert (z - lo + 1) * n <= (hi - lo) * n by {
      assert (hi - lo) * n - (z - lo + 1) * n == (hi - z - 1) * n;
    }
  }

  /** The names of the blocks of `range(lo, hi)` in turn, each followed by
      the pixels in turn. */
  function Grid(name: (int, int) -> string, lo: int, hi: int, pixels: seq<int>): (r: seq<string>)
    ensures |r| == Span(lo, hi) * |pixels|
    decreases hi - lo
  {
    if lo >= hi then []
    else
      assert Span(lo, hi) * |pixels| == |pixels| + Span(lo + 1, hi) * |pixels|;
      Row(name, lo, pixels) + Grid(name, lo + 1, hi, pixels)
  }

  /** The name of block `z` and pixel number `j` sits at `Cell`. */
  lemma {:induction false} GridAt(name: (int, int) -> string, lo: int, hi: int, pixels: seq<int>, z: int, j: nat)
    requires lo <= z < hi && j < |pixels|
    ensures 0 <= Cell(lo, z, |pixels|, j) < |Grid(name, lo, hi, pixels)|
    ensures Grid(name, lo, hi, pixels)[Cell(lo, z, |pixels|, j)] == name(z, pixels[j])
    decreases hi - lo
  {
    var row, rest := Row(name, lo, pixels), Grid(name, lo + 1, hi, pixels);
    assert Grid(name, lo, hi, pixels) == row + rest;
    CellBelow(lo, z, hi, |pixels|, j);
    if z == lo {
      assert Cell(lo, z, |pixels|, j) == j;
      assert (row + rest)[j] == row[j];
    } else {
      CellStep(lo, z, |pixels|, j);
      GridAt(name, lo + 1, hi, pixels, z, j);
      var c := Cell(lo + 1, z, |pixels|, j);
      assert (row + rest)[|row| + c] == rest[c];
    }
  }

  /** Every entry is the name of some block in range and some pixel. */
  lemma {:induction false} GridOf(name: (int, int) -> string, lo: int, hi: int, pixels: seq<int>, i: nat)
    requires i < |Grid(name, lo, hi, pixels)|
    ensures exists z, j :: (lo <= z < hi && 0 <= j < |pixels|
      && Grid(name, lo, hi, pixels)[i] == name(z, pixels[j]))
    decreases hi - lo
  {
    var row, rest := Row(name, lo, pixels), Grid(name, lo + 1, hi, pixels);
    assert Grid(name, lo, hi, pixels) == row + rest;
    if i < |row| {
      assert (row + rest)[i] == name(lo, pixels[i]);
    } else {
      assert (row + rest)[i] == rest[i - |row|];
      GridOf(name, lo + 1, hi, pixels, i - |row|);
    }
  }

  /** `check_healpix_file_list`'s candidates: for each redshift block of
      `range(lo, hi)` in turn, the file of each pixel in turn. */
  function Candidates(dir: string, t: Template, lo: int, hi: int, pixels: seq<int>): seq<string> {
    Grid(Naming(dir, t), lo, hi, pixels)
  }

  function Naming(dir: string, t: Template): (int, int) -> string {
    (z, h) => Candidate(dir, t, z, h)
  }

  /** `f` is the file of some block of `range(lo, hi)` and some pixel. */
  predicate IsCandidate(dir: string, t: Template, lo: int, hi: int, pixels: seq<int>, f: string) {
    exists z, j :: lo <= z < hi && 0 <= j < |pixels| && f == Candidate(dir, t, z, pixels[j])
  }

  /** The candidate list holds the file of every block and pixel at its
      place, and nothing else. */
  lemma CandidatesSpec(dir: string, t: Template, lo: int, hi: int, pixels: seq<int>)
    ensures |Candidates(dir, t, lo, hi, pixels)| == Span(lo, hi) * |pixels|
    ensures forall z, j :: lo <= z < hi && 0 <= j < |pixels| ==>
      0 <= Cell(lo, z, |pixels|, j) < |Candidates(dir, t, lo, hi, pixels)|
      && Candidates(dir, t, lo, hi, pixels)[Cell(lo, z, |pixels|, j)] == Candidate(dir, t, z, pixels[j])
    ensures forall i :: 0 <= i < |Candidates(dir, t, lo, hi, pixels)| ==>
      IsCandidate(dir, t, lo, hi, pixels, Candidates(dir, t, lo, hi, pixels)[i])
  {
    var name := Naming(dir, t);
    var c := Candidates(dir, t, lo, hi, pixels);
    assert c == Grid(name, lo, hi, pixels);
    forall z, j | lo <= z < hi && 0 <= j < |pixels|
      ensures 0 <= Cell(lo, z, |pixels|, j) < |c|
      ensures c[Cell(lo, z, |pixels|, j)] == Candidate(dir, t, z, pixels[j])
    {
      GridAt(name, lo, hi, pixels, z, j);
      assert name(z, pixels[j]) == Candidate(dir, t, z, pixels[j]);
    }
    forall i | 0 <= i < |c|
      ensures IsCandidate(dir, t, lo, hi, pixels, c[i])
    {
      GridOf(name, lo, hi, pixels, i);
      var z, j :| lo <= z < hi && 0 <= j < |pixels| && Grid(name, lo, hi, pixels)[i] == name(z, pixels[j]);
      assert name(z, pixels[j]) == Candidate(dir, t, z, pixels[j]);
      assert c[i] == Candidate(dir, t, z, pixels[j]);
    }
  }

  /** `check_healpix_file_list`: the candidates that exist, in candidate
      order; an `AssertionError` when completeness is asserted and some
      candidate is not among them, or when one of them is not a regular
      file. `existing` and `files` stand for `os.path.exists` and
      `os.path.isfile`. */
  function CheckFileList(cands: seq<string>, existing: set<string>, files: set<string>,
                         assertComplete: bool): (r: Result<seq<string>>)
    ensures r.Ok? ==> r.value == Filter(cands, f => f in existing)
    ensures r.Err? ==> r.error == AssertionError
  {
    var kept := Filter(cands, f => f in existing);
    if assertComplete && !(forall i :: 0 <= i < |cands| ==> cands[i] in kept) then Err(AssertionError)
    else if !(forall i :: 0 <= i < |kept| ==> kept[i] in files) then Err(AssertionError)
    else Ok(kept)
  }

  /** The check fails exactly when completeness is asserted and a candidate
      does not exist, or when an existing candidate is not a regular file. */
  lemma CheckFileListErr(cands: seq<string>, existing: set<string>, files: set<string>, assertComplete: bool)
    ensures CheckFileList(cands, existing, files, assertComplete).Err? <==>
      || (assertComplete && exists i :: 0 <= i < |cands| && cands[i] !in existing)
      || (exists i :: 0 <= i < |cands| && cands[i] in existing && cands[i] !in files)
  {
    var kept := Filter(cands, f => f in existing);
    if exists i :: 0 <= i < |cands| && cands[i] in existing && cands[i] !in files {
      var i :| 0 <= i < |cands| && cands[i] in existing && cands[i] !in files;
      assert cands[i] in kept;
    }
  }

  /** The arguments a native filter names. */
  datatype Arg = HealpixPixel | RedshiftBlockLower

  /** A native filter `(f, arg1, ...)`: a test on the values of its
      arguments. */
  datatype NativeFilter = NativeFilter(test: seq<int> -> bool, args: seq<Arg>)

  function ArgValue(a: Arg, h: int, z: int): int {
    match a
    case HealpixPixel => h
    case RedshiftBlockLower => z
  }

  /** The filter accepts pixel `h`, redshift block `z`. */
  predicate Holds(f: NativeFilter, h: int, z: int) {
    f.test(seq(|f.args|, i requires 0 <= i < |f.args| => ArgValue(f.args[i], h, z)))
  }

  /** `set(f[1:]) == {'healpix_pixel'}`. */
  predicate PixelOnly(f: NativeFilter) {
    |f.args| > 0 && forall i :: 0 <= i < |f.args| ==> f.args[i] == HealpixPixel
  }

  /** A pixel-only filter applied to the pixel alone. */
  predicate HoldsOnPixel(f: NativeFilter, h: int) {
    f.test(seq(|f.args|, _ => h))
  }

  /** The pixel pass: every pixel-only filter accepts the pixel. */
  predicate PixelPasses(fs: seq<NativeFilter>, h: int) {
    forall i :: 0 <= i < |fs| && PixelOnly(fs[i]) ==> HoldsOnPixel(fs[i], h)
  }

  /** The block pass: every filter accepts the pixel and block. */
  predicate CellPasses(fs: seq<NativeFilter>, h: int, z: int) {
    forall i :: 0 <= i < |fs| ==> Holds(fs[i], h, z)
  }

  /** A pixel-only filter does not look at the block. */
  lemma PixelOnlyHolds(f: NativeFilter, h: int, z: int)
    requires PixelOnly(f)
    ensures Holds(f, h, z) <==> HoldsOnPixel(f, h)
  {
    assert seq(|f.args|, i requires 0 <= i < |f.args| => ArgValue(f.args[i], h, z)) == seq(|f.args|, _ => h);
  }

  /** The inner loop of `_iter_native_dataset` for pixel `h`: the blocks
      from `z` on that `ok` accepts. The reader passes `ReadsAt`: the
      block passes the filters and its file opens (`opens` stands for a
      successful `h5py.File`; an `IOError` is reported and the file
      skipped). */
  function Blocks(h: int, z: int, hi: int, ok: int -> bool): seq<(int, int)>
    decreases hi - z
  {
    if z >= hi then []
    else (if ok(z) then [(h, z)] else []) + Blocks(h, z + 1, hi, ok)
  }

  /** Every filter accepts block `z` of pixel `h`, and its file opens. */
  predicate Reads(dir: string, t: Template, filters: Option<seq<NativeFilter>>, opens: set<string>, h: int, z: int) {
    (filters.None? || CellPasses(filters.value, h, z)) && Candidate(dir, t, z, h) in opens
  }

  function ReadsAt(dir: string, t: Template, filters: Option<seq<NativeFilter>>, opens: set<string>, h: int): int -> bool {
    z => Reads(dir, t, filters, opens, h, z)
  }

  /** The inner loop reads a block of pixel `h` exactly when it is in
      range and accepted. */
  lemma {:induction false} BlocksRead(h: int, z: int, hi: int, ok: int -> bool, c: (int, int))
    ensures c in Blocks(h, z, hi, ok) <==> c.0 == h && z <= c.1 < hi && ok(c.1)
    decreases hi - z
  {
    if z < hi {
      var head, rest := if ok(z) then [(h, z)] else [], Blocks(h, z + 1, hi, ok);
      BlocksRead(h, z + 1, hi, ok, c);
      assert Blocks(h, z, hi, ok) == head + rest;
      assert c in head + rest <==> c in head || c in rest;
    }
  }

  /** `_iter_native_dataset`: the (pixel, block) pairs whose file is read,
      pixel by pixel; a pixel some pixel-only filter rejects is skipped
      whole. */
  function Datasets(dir: string, t: Template, pixels: seq<int>, lo: int, hi: int,
                    filters: Option<seq<NativeFilter>>, opens: set<string>): seq<(int, int)>
    decreases |pixels|
  {
    if |pixels| == 0 then []
    else
      var h := pixels[0];
      (if filters.Some? && !PixelPasses(filters.value, h) then [] else Blocks(h, lo, hi, ReadsAt(dir, t, filters, opens, h)))
      + Datasets(dir, t, pixels[1..], lo, hi, filters, opens)
  }

  /** The pixel pass only saves work: a file is read exactly when its
      pixel is asked for, its block is in range, every filter accepts the
      pair, and the file opens. */
  lemma {:induction false} DatasetsRead(dir: string, t: Template, pixels: seq<int>, lo: int, hi: int,
                                        filters: Option<seq<NativeFilter>>, opens: set<string>, c: (int, int))
    ensures c in Datasets(dir, t, pixels, lo, hi, filters, opens) <==>
      c.0 in pixels && lo <= c.1 < hi && (filters.None? || CellPasses(filters.value, c.0, c.1))
      && Candidate(dir, t, c.1, c.0) in opens
    decreases |pixels|
  {
    if |pixels| > 0 {
      DatasetsRead(dir, t, pixels[1..], lo, hi, filters, opens, c);
      BlocksRead(pixels[0], lo, hi, ReadsAt(dir, t, filters, opens, pixels[0]), c);
      assert c.0 in pixels <==> c.0 == pixels[0] || c.0 in pixels[1..];
      if filters.Some? && c.0 == pixels[0] && lo <= c.1 < hi && CellPasses(filters.value, c.0, c.1) {
        forall i | 0 <= i < |filters.value| && PixelOnly(filters.value[i])
          ensures HoldsOnPixel(filters.value[i], c.0)
        {
          PixelOnlyHolds(filters.value[i], c.0, c.1);
        }
      }
    }
  }

  /** The magnitude key `Mag_true_{b}_{survey}_z0`. */
  function MagKey(b: char, survey: string): seq<string> {
    ["Mag", "true", [b], survey, "z0"]
  }

  /** The native rest-frame magnitude of band `b`. */
  function AbsMag(b: char): string {
    "restframe_extincted_sdss_abs_mag" + [b]
  }

  /** The table as the dictionary display writes it. */
  const FixedTable: Table := map[
    ["galaxy", "id"] := Alias("galaxy_id"),
    ["ra", "true"] := Alias("ra"),
    ["dec", "true"] := Alias("dec"),
    ["redshift", "true"] := Alias("redshift"),
    ["halo", "id"] := Alias("target_halo_id"),
    ["halo", "mass"] := Alias("target_halo_mass"),
    ["stellar", "mass"] := Alias("obs_sm"),
    ["position", "x"] := Alias("x"),
    ["position", "y"] := Alias("y"),
    ["position", "z"] := Alias("z"),
    ["velocity", "x"] := Alias("vx"),
    ["velocity", "y"] := Alias("vy"),
    ["velocity", "z"] := Alias("vz"),
    ["is", "central"] := Derived("x == -1", ["upid"])
  ]

  /** One pass of the magnitude loop. */
  function MagBlock(b: char): seq<Entry> {
    [Entry(MagKey(b, "sdss"), Alias(AbsMag(b))), Entry(MagKey(b, "lsst"), Alias(AbsMag(b)))]
  }

  /** The band a magnitude key belongs to. */
  function MagTag(k: seq<string>): char {
    if |k| >= 3 && |k[2]| == 1 then k[2][0] else ' '
  }

  /** The quantity modifiers of the UniverseMachine reader, which the
      BaseDC2 galaxy reader shares: the fixed table, then the rest-frame
      magnitudes of the bands `gri`, each under an SDSS and an LSST name. */
  function UmTable(): Table {
    Build(FixedTable, Loop("gri", MagBlock))
  }

  /** A key outside the magnitude loop is the fixed table's. */
  lemma UmFixedKeys(k: seq<string>)
    requires |k| > 0 && k[0] != "Mag"
    ensures k in UmTable() <==> k in FixedTable
    ensures k in FixedTable ==> UmTable()[k] == FixedTable[k]
  {
    if Writes(Loop("gri", MagBlock), k) {
      var p := LoopWriter("gri", MagBlock, k);
      assert false;
    }
    BuildAvoid(FixedTable, Loop("gri", MagBlock), k);
  }

  lemma MagBlockWrites(b: char, k: seq<string>)
    ensures Writes(MagBlock(b), k) <==> k == MagKey(b, "sdss") || k == MagKey(b, "lsst")
    ensures k in Build(map[], MagBlock(b)) ==> Build(map[], MagBlock(b))[k] == Alias(AbsMag(b))
  {
    var es := MagBlock(b);
    assert es[0].words == MagKey(b, "sdss") && es[1].words == MagKey(b, "lsst");
    var m1 := map[MagKey(b, "sdss") := Alias(AbsMag(b))];
    assert Build(map[], es) == Build(m1, es[1..]);
    assert Build(m1, es[1..]) == Build(m1[MagKey(b, "lsst") := Alias(AbsMag(b))], es[1..][1..]);
    assert es[1..][1..] == [];
  }

  /** A magnitude key is present exactly for the bands `gri` and the SDSS
      and LSST names, and both names of a band are the band's rest-frame
      magnitude. */
  lemma UmMagKeys(k: seq<string>)
    requires |k| > 0 && k[0] == "Mag"
    ensures k in UmTable() <==>
      exists b :: b in "gri" && (k == MagKey(b, "sdss") || k == MagKey(b, "lsst"))
    ensures k in UmTable() ==> UmTable()[k] == Alias(AbsMag(MagTag(k)))
  {
    assert k !in FixedTable;
    forall b, j | 0 <= j < |MagBlock(b)|
      ensures MagTag(MagBlock(b)[j].words) == b
    {
      MagTagOf(b, "sdss");
      MagTagOf(b, "lsst");
    }
    LoopKeys(FixedTable, "gri", MagBlock, MagTag, k);
    MagBlockWrites(MagTag(k), k);
    if exists b :: b in "gri" && (k == MagKey(b, "sdss") || k == MagKey(b, "lsst")) {
      var b :| b in "gri" && (k == MagKey(b, "sdss") || k == MagKey(b, "lsst"));
      MagTagOf(b, "sdss");
      MagTagOf(b, "lsst");
    }
  }

  lemma MagTagOf(b: char, survey: string)
    ensures MagTag(MagKey(b, survey)) == b
  {
    assert MagKey(b, survey)[2] == [b];
  }
}
