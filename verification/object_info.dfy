/** The object and coadd readers' band list, read off the column names,
    and the object reader's quantity-information dictionary, expanded per
    band from the metadata file (`dc2_object.py`). The metadata file's
    content is an input: its entries in file order. */
module ObjectInfo {
  import opened Wrappers
  import opened Strings
  import opened OrderedMaps

  /** A magnitude column: five characters ending in `_mag`. */
  predicate MagColumn(c: string) {
    |c| == 5 && EndsWith(c, "_mag")
  }

  lemma MagColumnOf(c: string)
    ensures MagColumn(c) <==> |c| > 0 && c == [c[0]] + "_mag"
  {
    if |c| > 0 && c == [c[0]] + "_mag" {
      assert c[|c| - 4..] == "_mag";
    }
    if MagColumn(c) {
      assert c == [c[0]] + c[1..];
    }
  }

  /** `[col[0] for col in columns if len(col) == 5 and col.endswith('_mag')]`,
      the columns taken in the order the set yields them. */
  function Bands(cols: seq<string>): (r: seq<char>)
    ensures |r| <= |cols|
    ensures forall b :: b in r <==> [b] + "_mag" in cols
    decreases |cols|
  {
    if |cols| == 0 then []
    else
      var rest := Bands(cols[1..]);
      MagColumnOf(cols[0]);
      forall b ensures [b] + "_mag" in cols <==> [b] + "_mag" == cols[0] || [b] + "_mag" in cols[1..] {
        assert cols == [cols[0]] + cols[1..];
      }
      forall b ensures [b] + "_mag" == cols[0] <==> MagColumn(cols[0]) && b == cols[0][0] {
        if [b] + "_mag" == cols[0] {
          assert cols[0][0] == b;
        }
      }
      (if MagColumn(cols[0]) then [cols[0][0]] else []) + rest
  }

  /** The columns are a set, so no band appears twice. */
  lemma {:induction false} BandsDistinct(cols: seq<string>)
    requires forall i, j :: 0 <= i < j < |cols| ==> cols[i] != cols[j]
    ensures forall i, j :: 0 <= i < j < |Bands(cols)| ==> Bands(cols)[i] != Bands(cols)[j]
    decreases |cols|
  {
    if |cols| > 0 {
      BandsDistinct(cols[1..]);
      var rest := Bands(cols[1..]);
      MagColumnOf(cols[0]);
      if MagColumn(cols[0]) {
        var b := cols[0][0];
        assert Bands(cols) == [b] + rest;
      }
    }
  }

  /** What the metadata file records for a quantity. */
  datatype Meta = Meta(description: string, unit: string, inGCRbase: bool, inDPDD: bool)

  /** The placeholder in a quantity name, and in a description. */
  const BandMark: string := "<band>"
  const QuotedMark: string := "`<band>`"

  /** The copy of `info` made for band `b`: the quoted placeholder in the
      description becomes `{b} band`. */
  function BandMeta(info: Meta, b: char): (r: Meta)
    ensures r.unit == info.unit && r.inGCRbase == info.inGCRbase && r.inDPDD == info.inDPDD
    ensures !Contains(info.description, QuotedMark) ==> r == info
  {
    var r := info.(description := Replace(info.description, QuotedMark, [b] + " band"));
    if Contains(info.description, QuotedMark) then r
    else ReplaceAbsent(info.description, QuotedMark, [b] + " band"); r
  }

  /** The assignments one metadata entry makes: one per band when its name
      holds the placeholder, otherwise the entry itself. */
  function Expand(q: string, info: Meta, bands: seq<char>): (r: seq<(string, Meta)>)
    ensures Contains(q, BandMark) ==> (|r| == |bands| &&
      forall j :: 0 <= j < |bands| ==> r[j] == (Replace(q, BandMark, [bands[j]]), BandMeta(info, bands[j])))
    ensures !Contains(q, BandMark) ==> r == [(q, info)]
  {
    if Contains(q, BandMark) then
      seq(|bands|, j requires 0 <= j < |bands| => (Replace(q, BandMark, [bands[j]]), BandMeta(info, bands[j])))
    else [(q, info)]
  }

  /** All the assignments, entry by entry. */
  function Expanded(base: seq<(string, Meta)>, bands: seq<char>): seq<(string, Meta)>
    decreases |base|
  {
    if |base| == 0 then [] else Expand(base[0].0, base[0].1, bands) + Expanded(base[1..], bands)
  }

  /** `_generate_info_dict`: a later assignment to the same name wins. */
  function InfoDict(base: seq<(string, Meta)>, bands: seq<char>): map<string, Meta> {
    PutAll(Expanded(base, bands), First, Second).m
  }

  /** The entry `e` of the metadata file assigns `v` to the name `k`. */
  predicate FromEntry(e: (string, Meta), bands: seq<char>, k: string, v: Meta) {
    if Contains(e.0, BandMark) then
      exists j :: 0 <= j < |bands| && k == Replace(e.0, BandMark, [bands[j]]) && v == BandMeta(e.1, bands[j])
    else k == e.0 && v == e.1
  }

  /** Some entry of the metadata file assigns `v` to `k`. */
  predicate Yields(base: seq<(string, Meta)>, bands: seq<char>, k: string, v: Meta) {
    exists i :: 0 <= i < |base| && FromEntry(base[i], bands, k, v)
  }

  lemma ExpandSpec(e: (string, Meta), bands: seq<char>, k: string, v: Meta)
    ensures (k, v) in Expand(e.0, e.1, bands) <==> FromEntry(e, bands, k, v)
  {
    var r := Expand(e.0, e.1, bands);
    if Contains(e.0, BandMark) && (k, v) in r {
      var j :| 0 <= j < |r| && r[j] == (k, v);
      assert 0 <= j < |bands| && k == Replace(e.0, BandMark, [bands[j]]) && v == BandMeta(e.1, bands[j]);
    }
  }

  lemma {:induction false} ExpandedSpec(base: seq<(string, Meta)>, bands: seq<char>, k: string, v: Meta)
    ensures (k, v) in Expanded(base, bands) <==> Yields(base, bands, k, v)
    decreases |base|
  {
    if |base| > 0 {
      ExpandedSpec(base[1..], bands, k, v);
      ExpandSpec(base[0], bands, k, v);
      if Yields(base[1..], bands, k, v) {
        var i :| 0 <= i < |base[1..]| && FromEntry(base[1..][i], bands, k, v);
        assert base[i + 1] == base[1..][i];
      }
      if Yields(base, bands, k, v) && !FromEntry(base[0], bands, k, v) {
        var i :| 0 <= i < |base| && FromEntry(base[i], bands, k, v);
        assert base[1..][i - 1] == base[i];
      }
    }
  }

  /** A name is in the dictionary exactly when an entry assigns it, and its
      information is what one of the entries assigning it gives: the entry
      itself for a plain name, the band's copy for a name with the
      placeholder. */
  lemma InfoDictSpec(base: seq<(string, Meta)>, bands: seq<char>, k: string)
    ensures k in InfoDict(base, bands) <==> exists v :: Yields(base, bands, k, v)
    ensures k in InfoDict(base, bands) ==> Yields(base, bands, k, InfoDict(base, bands)[k])
  {
    var xs := Expanded(base, bands);
    PutAllKeys(xs, First, Second, k);
    if k in InfoDict(base, bands) {
      var i := PutAllFrom(xs, First, Second, k);
      assert xs[i] == (k, InfoDict(base, bands)[k]);
      ExpandedSpec(base, bands, k, InfoDict(base, bands)[k]);
    }
    if exists v :: Yields(base, bands, k, v) {
      var v :| Yields(base, bands, k, v);
      ExpandedSpec(base, bands, k, v);
      var i :| 0 <= i < |xs| && xs[i] == (k, v);
      assert First(xs[i]) == Some(k);
    }
  }

  /** The placeholder after a text that cannot start it. */
  lemma MarkAtEnd(pre: string, mark: string, rep: string)
    requires |mark| > 0 && forall i :: 0 <= i < |pre| ==> pre[i] != mark[0]
    ensures Replace(pre + mark, mark, rep) == pre + rep
  {
    ReplaceSkipsPrefix(pre, mark, mark, rep);
    ReplaceAtStart("", mark, rep);
    assert mark + "" == mark;
    assert Replace("", mark, rep) == "";
  }

  /** No other entry of the metadata file assigns the name `k`. */
  ghost predicate OnlyFrom(base: seq<(string, Meta)>, bands: seq<char>, i: nat, k: string) {
    forall p, w :: 0 <= p < |base| && p != i ==> !FromEntry(base[p], bands, k, w)
  }

  /** An entry `<prefix><band>` whose prefix holds no `<` gives, for each
      band `b`, the name `<prefix>b` with the band's copy of its
      information, when no other entry assigns that name. */
  lemma InfoBandEntry(base: seq<(string, Meta)>, bands: seq<char>, i: nat, pre: string, j: nat)
    requires i < |base| && base[i].0 == pre + BandMark
    requires forall c :: 0 <= c < |pre| ==> pre[c] != '<'
    requires j < |bands| && OnlyFrom(base, bands, i, pre + [bands[j]])
    ensures pre + [bands[j]] in InfoDict(base, bands)
    ensures InfoDict(base, bands)[pre + [bands[j]]] == BandMeta(base[i].1, bands[j])
  {
    var k := pre + [bands[j]];
    assert OccursAt(base[i].0, BandMark, |pre|);
    MarkAtEnd(pre, BandMark, [bands[j]]);
    assert FromEntry(base[i], bands, k, BandMeta(base[i].1, bands[j]));
    assert Yields(base, bands, k, BandMeta(base[i].1, bands[j]));
    InfoDictSpec(base, bands, k);
    var w := InfoDict(base, bands)[k];
    var p :| 0 <= p < |base| && FromEntry(base[p], bands, k, w);
    assert p == i;
    var j2 :| 0 <= j2 < |bands| && k == Replace(base[i].0, BandMark, [bands[j2]]) && w == BandMeta(base[i].1, bands[j2]);
    MarkAtEnd(pre, BandMark, [bands[j2]]);
    assert k[|pre|] == bands[j2];
  }

  /** An entry without the placeholder is kept under its own name with its
      own information, when no other entry assigns that name. */
  lemma InfoPlainEntry(base: seq<(string, Meta)>, bands: seq<char>, i: nat)
    requires i < |base| && !Contains(base[i].0, BandMark)
    requires OnlyFrom(base, bands, i, base[i].0)
    ensures base[i].0 in InfoDict(base, bands) && InfoDict(base, bands)[base[i].0] == base[i].1
  {
    var k := base[i].0;
    assert FromEntry(base[i], bands, k, base[i].1);
    assert Yields(base, bands, k, base[i].1);
    InfoDictSpec(base, bands, k);
    var w := InfoDict(base, bands)[k];
    var p :| 0 <= p < |base| && FromEntry(base[p], bands, k, w);
    assert p == i;
  }
}
