/** The cosmoDC2 file list: catalog files are named by a template with
    three fields, the lower and upper redshift block and the HEALPix pixel;
    the reader keeps the files a selection asks for, keyed by
    (lower redshift, pixel), and checks that the selected grid is complete.

    The template is a `str.format` text with three `{}` fields; the reader
    fills them with the regex groups `(\d)`, `(\d)` and `(\d+)` and applies
    the result with `re.match`. The literal text of the template is regex
    text: in the templates used, `.` is the only character with a special
    meaning, and it matches any character but a newline. */
module CosmoFiles {
  import opened Wrappers
  import opened Strings
  import opened OrderedMaps
  import opened Sorting

  /** `head{}sep1{}sep2{}tail`. */
  datatype Template = Template(head: string, sep1: string, sep2: string, tail: string)

  /** The numbers a matching file name carries. */
  datatype Groups = Groups(zlo: nat, zhi: nat, hpx: nat)

  /** The regex text `p` matches the start of `s`. */
  predicate PieceAt(p: string, s: string) {
    && |p| <= |s|
    && forall i :: 0 <= i < |p| ==> if p[i] == '.' then s[i] != '\n' else s[i] == p[i]
  }

  /** The regex text matches itself, whatever follows. */
  lemma PieceSelf(p: string, r: string)
    ensures PieceAt(p, p + r) && (p + r)[|p|..] == r
  {
  }

  /** The backtracking of the greedy `(\d+)`: the longest run of the first
      `k` digits after which the tail matches. */
  function Greedy(tail: string, s: string, k: nat): (r: Option<nat>)
    requires k <= |s|
    ensures r.Some? ==> 1 <= r.value <= k && PieceAt(tail, s[r.value..])
    ensures forall j :: (if r.Some? then r.value else 0) < j <= k ==> !PieceAt(tail, s[j..])
  {
    if k == 0 then None
    else if PieceAt(tail, s[k..]) then Some(k)
    else Greedy(tail, s, k - 1)
  }

  /** `re.match` of the filled-in template against a file name. */
  function MatchName(t: Template, f: string): (r: Option<Groups>)
    ensures r.Some? ==> r.value.zlo < 10 && r.value.zhi < 10
  {
    if !PieceAt(t.head, f) then None else AfterHead(t, f[|t.head|..])
  }

  function AfterHead(t: Template, s: string): (r: Option<Groups>)
    ensures r.Some? ==> r.value.zlo < 10 && r.value.zhi < 10
  {
    if |s| == 0 || !IsDigit(s[0]) then None else AfterLow(t, DigitValue(s[0]), s[1..])
  }

  function AfterLow(t: Template, zlo: nat, s: string): (r: Option<Groups>)
    requires zlo < 10
    ensures r.Some? ==> r.value.zlo == zlo && r.value.zhi < 10
  {
    if !PieceAt(t.sep1, s) then None
    else
      var u := s[|t.sep1|..];
      if |u| == 0 || !IsDigit(u[0]) then None else AfterHigh(t, zlo, DigitValue(u[0]), u[1..])
  }

  function AfterHigh(t: Template, zlo: nat, zhi: nat, s: string): (r: Option<Groups>)
    ensures r.Some? ==> r.value.zlo == zlo && r.value.zhi == zhi
  {
    if !PieceAt(t.sep2, s) then None else Pixel(t, zlo, zhi, s[|t.sep2|..])
  }

  function Pixel(t: Template, zlo: nat, zhi: nat, s: string): (r: Option<Groups>)
    ensures r.Some? ==> r.value.zlo == zlo && r.value.zhi == zhi
  {
    match Greedy(t.tail, s, LeadingDigits(s))
    case None => None
    case Some(k) => Some(Groups(zlo, zhi, DigitsValue(s[..k])))
  }

  /** `template.format(zlo, zhi, hpx)`. */
  function FileName(t: Template, g: Groups): string {
    t.head + (NatToString(g.zlo) + (t.sep1 + (NatToString(g.zhi) + (t.sep2 + (NatToString(g.hpx) + t.tail)))))
  }

  lemma OneDigit(d: nat)
    requires d < 10
    ensures NatToString(d) == [DigitChar(d)]
    ensures IsDigit(DigitChar(d)) && DigitValue(DigitChar(d)) == d
  {
    DigitRoundTrip(d);
  }

  lemma PixelText(t: Template, zlo: nat, zhi: nat, h: nat, r: string)
    requires |t.tail + r| > 0 ==> !IsDigit((t.tail + r)[0])
    ensures Pixel(t, zlo, zhi, NatToString(h) + (t.tail + r)) == Some(Groups(zlo, zhi, h))
  {
    var ds := NatToString(h);
    var s := ds + (t.tail + r);
    LeadingDigitsOver(ds, t.tail + r);
    PieceSelf(t.tail, r);
    PrefixOf(ds, t.tail + r);
    assert s[..|ds|] == ds;
    NatToStringValue(h);
  }

  lemma HighText(t: Template, zlo: nat, zhi: nat, x: string)
    ensures AfterHigh(t, zlo, zhi, t.sep2 + x) == Pixel(t, zlo, zhi, x)
  {
    PieceSelf(t.sep2, x);
  }

  lemma LowText(t: Template, zlo: nat, zhi: nat, x: string)
    requires zlo < 10 && zhi < 10
    ensures AfterLow(t, zlo, t.sep1 + (NatToString(zhi) + x)) == AfterHigh(t, zlo, zhi, x)
  {
    OneDigit(zhi);
    PieceSelf(t.sep1, NatToString(zhi) + x);
    assert (NatToString(zhi) + x)[1..] == x;
  }

  lemma HeadText(t: Template, zlo: nat, x: string)
    requires zlo < 10
    ensures MatchName(t, t.head + (NatToString(zlo) + x)) == AfterLow(t, zlo, x)
  {
    OneDigit(zlo);
    PieceSelf(t.head, NatToString(zlo) + x);
    assert (NatToString(zlo) + x)[1..] == x;
  }

  /** A name the template formats from single-digit redshift blocks matches
      with the numbers it was formatted from, whatever follows it, as long as
      the pixel's digits are not followed by more digits. */
  lemma MatchFileName(t: Template, g: Groups, r: string)
    requires g.zlo < 10 && g.zhi < 10
    requires |t.tail + r| > 0 ==> !IsDigit((t.tail + r)[0])
    ensures MatchName(t, FileName(t, g) + r) == Some(g)
  {
    var d1, d2, h := NatToString(g.zlo), NatToString(g.zhi), NatToString(g.hpx);
    Assoc(h, t.tail, r);
    Assoc(t.sep2, h + t.tail, r);
    Assoc(d2, t.sep2 + (h + t.tail), r);
    Assoc(t.sep1, d2 + (t.sep2 + (h + t.tail)), r);
    Assoc(d1, t.sep1 + (d2 + (t.sep2 + (h + t.tail))), r);
    Assoc(t.head, d1 + (t.sep1 + (d2 + (t.sep2 + (h + t.tail)))), r);
    PixelText(t, g.zlo, g.zhi, g.hpx, r);
    HighText(t, g.zlo, g.zhi, h + (t.tail + r));
    LowText(t, g.zlo, g.zhi, t.sep2 + (h + (t.tail + r)));
    HeadText(t, g.zlo, t.sep1 + (d2 + (t.sep2 + (h + (t.tail + r)))));
  }

  /** Where the pixel's digits start in a name the template matches. */
  function PixelStart(t: Template): nat {
    |t.head| + |t.sep1| + |t.sep2| + 2
  }

  lemma MatchShape(t: Template, f: string)
    requires MatchName(t, f).Some?
    ensures PixelStart(t) <= |f|
    ensures var s := f[PixelStart(t)..]; Greedy(t.tail, s, LeadingDigits(s)).Some?
  {
    var s1 := f[|t.head|..];
    var s2 := s1[1..];
    var s3 := s2[|t.sep1|..];
    var s4 := s3[1..];
    var s5 := s4[|t.sep2|..];
    assert s5 == f[PixelStart(t)..];
  }

  /** The length of the text the match covers (`len(m.group())`). */
  function MatchLength(t: Template, f: string): (n: nat)
    requires MatchName(t, f).Some?
    ensures PixelStart(t) + |t.tail| < n <= |f|
  {
    MatchShape(t, f);
    var s := f[PixelStart(t)..];
    PixelStart(t) + Greedy(t.tail, s, LeadingDigits(s)).value + |t.tail|
  }

  /** On a name the template formats, the match covers exactly that name. */
  lemma MatchLengthOf(t: Template, g: Groups, r: string)
    requires g.zlo < 10 && g.zhi < 10
    requires |t.tail + r| > 0 ==> !IsDigit((t.tail + r)[0])
    ensures MatchName(t, FileName(t, g) + r).Some?
    ensures MatchLength(t, FileName(t, g) + r) == |FileName(t, g)|
  {
    MatchFileName(t, g, r);
    var h := NatToString(g.hpx);
    var x := FileNameSplit(t, g, r);
    PrefixOf(x, h + (t.tail + r));
    GreedyOn(t.tail, h, r);
  }

  /** A formatted name is the text before the pixel, then the pixel's
      digits, then the tail. */
  lemma FileNameSplit(t: Template, g: Groups, r: string) returns (x: string)
    requires g.zlo < 10 && g.zhi < 10
    ensures x == t.head + (NatToString(g.zlo) + (t.sep1 + (NatToString(g.zhi) + t.sep2)))
    ensures |x| == PixelStart(t)
    ensures FileName(t, g) + r == x + (NatToString(g.hpx) + (t.tail + r))
    ensures |FileName(t, g)| == PixelStart(t) + |NatToString(g.hpx)| + |t.tail|
  {
    var h := NatToString(g.hpx);
    var d1, d2 := NatToString(g.zlo), NatToString(g.zhi);
    OneDigit(g.zlo);
    OneDigit(g.zhi);
    Assoc(h, t.tail, r);
    Assoc(t.sep2, h + t.tail, r);
    Assoc(d2, t.sep2 + (h + t.tail), r);
    Assoc(t.sep1, d2 + (t.sep2 + (h + t.tail)), r);
    Assoc(d1, t.sep1 + (d2 + (t.sep2 + (h + t.tail))), r);
    Assoc(t.head, d1 + (t.sep1 + (d2 + (t.sep2 + (h + t.tail)))), r);
    x := t.head + (d1 + (t.sep1 + (d2 + t.sep2)));
    assert FileName(t, g) + r == x + (h + (t.tail + r));
  }

  /** The greedy pixel group takes all of a run of digits the tail follows. */
  lemma GreedyOn(tail: string, h: string, r: string)
    requires |h| > 0 && AllDigits(h)
    requires |tail + r| > 0 ==> !IsDigit((tail + r)[0])
    ensures var s := h + (tail + r); Greedy(tail, s, LeadingDigits(s)) == Some(|h|)
  {
    var s := h + (tail + r);
    LeadingDigitsOver(h, tail + r);
    PieceSelf(tail, r);
    assert s[|h|..] == tail + r;
  }

  /** The `zlo`, `zhi` and `healpix_pixels` arguments. */
  datatype Selection = Selection(zlo: Option<int>, zhi: Option<int>, pixels: Option<seq<int>>)

  /** A file is skipped when its redshift block ends at or below `zlo`,
      starts at or above `zhi`, or its pixel is not among the pixels
      asked for. */
  predicate Skipped(sel: Selection, g: Groups) {
    || (sel.zlo.Some? && g.zhi <= sel.zlo.value)
    || (sel.zhi.Some? && g.zlo >= sel.zhi.value)
    || (sel.pixels.Some? && g.hpx !in sel.pixels.value)
  }

  type Key = (int, int)

  /** The key a file is kept under, if it is kept. */
  function Pick(t: Template, sel: Selection, f: string): Option<Key> {
    match MatchName(t, f)
    case None => None
    case Some(g) => if Skipped(sel, g) then None else Some((g.zlo, g.hpx))
  }

  /** The loop over the names in the order given, inserting each kept
      file's path under (lower redshift, pixel). */
  function Scan(root: string, t: Template, sel: Selection, names: seq<string>): (d: ODict<Key, string>)
    ensures Valid(d)
  {
    PutAll(names, f => Pick(t, sel, f), f => PathJoin(root, f))
  }

  /** `_get_healpix_file_list` before the completeness check: the names are
      scanned in sorted order. */
  function HealpixFiles(root: string, t: Template, sel: Selection, listing: seq<string>): ODict<Key, string> {
    Scan(root, t, sel, Sort(listing))
  }

  /** A key is in the dictionary exactly when some name supplies it. */
  lemma ScanKeys(root: string, t: Template, sel: Selection, names: seq<string>, k: Key)
    ensures k in Scan(root, t, sel, names).m <==>
      exists i :: 0 <= i < |names| && Pick(t, sel, names[i]) == Some(k)
  {
    PutAllKeys(names, f => Pick(t, sel, f), f => PathJoin(root, f), k);
  }

  /** A key holds the path of the last name that supplies it: a later file
      with the same key overwrites an earlier one. */
  lemma ScanLast(root: string, t: Template, sel: Selection, names: seq<string>, i: nat, k: Key)
    requires i < |names| && Pick(t, sel, names[i]) == Some(k)
    requires forall j :: i < j < |names| ==> Pick(t, sel, names[j]) != Some(k)
    ensures k in Scan(root, t, sel, names).m
    ensures Scan(root, t, sel, names).m[k] == PathJoin(root, names[i])
  {
    PutAllLast(names, f => Pick(t, sel, f), f => PathJoin(root, f), i, k);
  }

  /** Keys keep the position of their first insertion: the keys after a
      prefix of the names start the keys after all of them. */
  lemma ScanOrder(root: string, t: Template, sel: Selection, names: seq<string>, m: nat)
    requires m <= |names|
    ensures Scan(root, t, sel, names[..m]).keys <= Scan(root, t, sel, names).keys
  {
    PutAllOrder(names, f => Pick(t, sel, f), f => PathJoin(root, f), m);
  }

  /** The smallest lower redshift among the keys. */
  function MinZ(keys: seq<Key>): (r: int)
    requires |keys| > 0
    ensures exists i :: 0 <= i < |keys| && keys[i].0 == r
    ensures forall i :: 0 <= i < |keys| ==> r <= keys[i].0
  {
    if |keys| == 1 then keys[0].0
    else
      var m := MinZ(keys[1..]);
      assert forall i :: 1 <= i < |keys| ==> keys[i] == keys[1..][i - 1];
      if keys[0].0 <= m then keys[0].0 else m
  }

  /** The largest lower redshift among the keys. */
  function MaxZ(keys: seq<Key>): (r: int)
    requires |keys| > 0
    ensures exists i :: 0 <= i < |keys| && keys[i].0 == r
    ensures forall i :: 0 <= i < |keys| ==> keys[i].0 <= r
  {
    if |keys| == 1 then keys[0].0
    else
      var m := MaxZ(keys[1..]);
      assert forall i :: 1 <= i < |keys| ==> keys[i] == keys[1..][i - 1];
      if keys[0].0 >= m then keys[0].0 else m
  }

  /** The pixels of the keys (`set(hpx for _, hpx in healpix_files)`; the
      order does not matter to the check). */
  function PixelsOf(keys: seq<Key>): (r: seq<int>)
    ensures |r| == |keys|
    ensures forall i :: 0 <= i < |keys| ==> r[i] == keys[i].1
  {
    seq(|keys|, i requires 0 <= i < |keys| => keys[i].1)
  }

  /** The grid the check walks: `range(zlo, zhi)` times the pixels, with
      the defaults filled in from the keys; `None` where a default is the
      `min` or `max` of no keys. */
  function Grid(d: ODict<Key, string>, sel: Selection): (r: Option<(int, int, seq<int>)>)
    ensures r.None? <==> |d.keys| == 0 && (sel.zlo.None? || sel.zhi.None?)
  {
    if |d.keys| == 0 && (sel.zlo.None? || sel.zhi.None?) then None
    else
      var lo := if sel.zlo.Some? then sel.zlo.value else MinZ(d.keys);
      var hi := if sel.zhi.Some? then sel.zhi.value else MaxZ(d.keys) + 1;
      var px := if sel.pixels.Some? then sel.pixels.value else PixelsOf(d.keys);
      Some((lo, hi, px))
  }

  /** Every cell of the grid has a file. */
  predicate Covers(d: ODict<Key, string>, lo: int, hi: int, px: seq<int>) {
    forall z, p :: lo <= z < hi && p in px ==> (z, p) in d.m
  }

  /** The completeness check: `ValueError` from `min`/`max` of no keys, or
      because some catalog files are missing. */
  function CheckComplete(d: ODict<Key, string>, sel: Selection): (r: Result<()>)
    ensures r.Err? ==> r.error == ValueError
  {
    match Grid(d, sel)
    case None => Err(ValueError)
    case Some((lo, hi, px)) => if Covers(d, lo, hi, px) then Ok(()) else Err(ValueError)
  }

  /** `_get_healpix_file_list`. */
  function HealpixFileList(root: string, t: Template, sel: Selection, listing: seq<string>,
                           checkComplete: bool): (r: Result<ODict<Key, string>>)
    ensures r.Ok? ==> r.value == HealpixFiles(root, t, sel, listing)
    ensures r.Err? ==> checkComplete && r.error == ValueError
  {
    var d := HealpixFiles(root, t, sel, listing);
    if !checkComplete then Ok(d)
    else
      match CheckComplete(d, sel)
      case Err(e) => Err(e)
      case Ok(_) => Ok(d)
  }

  /** Some kept key has pixel `p`. */
  predicate HasPixel(keys: seq<Key>, p: int) {
    exists i :: 0 <= i < |keys| && keys[i].1 == p
  }

  lemma PixelsOfMembers(keys: seq<Key>, p: int)
    ensures p in PixelsOf(keys) <==> HasPixel(keys, p)
  {
    var px := PixelsOf(keys);
    if p in px {
      var i :| 0 <= i < |px| && px[i] == p;
      assert keys[i].1 == p;
    }
    if HasPixel(keys, p) {
      var i :| 0 <= i < |keys| && keys[i].1 == p;
      assert px[i] == p;
    }
  }

  /** With no selection, the check passes exactly when every lower redshift
      from the smallest to the largest kept one has a file for every kept
      pixel. */
  lemma CompleteDefaults(d: ODict<Key, string>)
    requires Valid(d) && |d.keys| > 0
    ensures CheckComplete(d, Selection(None, None, None)).Ok? <==>
      forall z, p :: MinZ(d.keys) <= z <= MaxZ(d.keys) && HasPixel(d.keys, p) ==> (z, p) in d.m
  {
    var lo, hi, px := MinZ(d.keys), MaxZ(d.keys) + 1, PixelsOf(d.keys);
    assert Grid(d, Selection(None, None, None)) == Some((lo, hi, px));
    assert CheckComplete(d, Selection(None, None, None)).Ok? <==> Covers(d, lo, hi, px);
    forall p
      ensures p in px <==> HasPixel(d.keys, p)
    {
      PixelsOfMembers(d.keys, p);
    }
  }

  /** With no files kept, the check fails unless both redshift bounds are
      given. */
  lemma CompleteEmpty(d: ODict<Key, string>, sel: Selection)
    requires Valid(d) && |d.keys| == 0
    ensures CheckComplete(d, sel).Err? <==>
      || sel.zlo.None?
      || sel.zhi.None?
      || (sel.pixels.Some? && sel.zlo.value < sel.zhi.value && |sel.pixels.value| > 0)
  {
    assert d.m.Keys == {};
    if sel.zlo.Some? && sel.zhi.Some? && sel.pixels.Some? && sel.zlo.value < sel.zhi.value
       && |sel.pixels.value| > 0 {
      var p := sel.pixels.value[0];
      assert p in sel.pixels.value && (sel.zlo.value, p) !in d.m;
    }
  }

  /** A list that passes the check has, for every cell of the grid, a file
      in the listing whose name supplies it. */
  lemma CompleteHasFiles(root: string, t: Template, sel: Selection, listing: seq<string>, z: int, p: int)
    requires HealpixFileList(root, t, sel, listing, true).Ok?
    requires var g := Grid(HealpixFiles(root, t, sel, listing), sel);
             g.Some? && g.value.0 <= z < g.value.1 && p in g.value.2
    ensures exists f :: f in listing && Pick(t, sel, f) == Some((z, p))
  {
    var names := Sort(listing);
    ScanKeys(root, t, sel, names, (z, p));
    var i :| 0 <= i < |names| && Pick(t, sel, names[i]) == Some((z, p));
    assert names[i] in multiset(listing);
  }

  /** `_iter_native_dataset`: the files in key order, skipping those whose
      (lower redshift, pixel) the native filters reject. */
  function Datasets(d: ODict<Key, string>, keep: Option<Key -> bool>): (r: seq<Key>)
    ensures forall i :: 0 <= i < |r| ==> r[i] in d.keys
    decreases |d.keys|
  {
    if |d.keys| == 0 then []
    else
      var rest := Datasets(ODict(d.keys[1..], d.m), keep);
      assert forall i :: 0 <= i < |rest| ==> rest[i] in d.keys;
      if keep.None? || keep.value(d.keys[0]) then [d.keys[0]] + rest else rest
  }

  /** A file is read exactly when the filters accept its key. */
  lemma {:induction false} DatasetsKeep(d: ODict<Key, string>, keep: Option<Key -> bool>, k: Key)
    ensures k in Datasets(d, keep) <==> k in d.keys && (keep.None? || keep.value(k))
    decreases |d.keys|
  {
    if |d.keys| > 0 {
      DatasetsKeep(ODict(d.keys[1..], d.m), keep, k);
      assert d.keys == [d.keys[0]] + d.keys[1..];
    }
  }
}
