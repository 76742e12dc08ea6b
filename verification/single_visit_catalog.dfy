/** The single-visit source catalog reader (`single_visit_catalog.py`).

    The reader validates its band and detector, selects the visit
    identifiers of the repository that match them, reads each selected
    visit's catalog into a dictionary of columns and concatenates the
    dictionaries column by column. The repository listing and the visit
    catalogs themselves are inputs. */
module SingleVisit {
  import opened Wrappers
  import opened Partitions

  /** The LSST filters a band may name. */
  predicate AvailableFilter(band: string) {
    band == "u" || band == "g" || band == "r" || band == "i" || band == "z" || band == "y"
  }

  /** A visit identifier of the repository's `src` data sets. */
  datatype VisitId = VisitId(filter: string, visit: int, detector: int)

  /** What the reader keeps from its arguments. */
  datatype Config = Config(band: string, visit: Option<int>, detector: Option<int>)

  /** The detectors of the camera: `np.arange(0, 189)`. */
  predicate ValidDetector(detector: Option<int>) {
    detector.None? || 0 <= detector.value < 189
  }

  /** `_subclass_init`'s checks: a band outside the LSST filters, then a
      detector outside `[0, 189)`, raise a plain `Exception`. */
  function Init(band: string, visit: Option<int>, detector: Option<int>): (r: Result<Config>)
    ensures r.Ok? <==> AvailableFilter(band) && ValidDetector(detector)
    ensures r.Err? ==> r.error == GenericException
    ensures r.Ok? ==> r.value == Config(band, visit, detector)
  {
    if !AvailableFilter(band) then Err(GenericException)
    else if !ValidDetector(detector) then Err(GenericException)
    else Ok(Config(band, visit, detector))
  }

  /** A visit identifier the reader queries: its band, and the visit and
      detector when those were given. */
  predicate Selects(c: Config, v: VisitId) {
    v.filter == c.band
    && (c.visit.None? || v.visit == c.visit.value)
    && (c.detector.None? || v.detector == c.detector.value)
  }

  /** `visit_list`: the repository's visit identifiers that the reader
      queries, in the repository's order. */
  function VisitList(c: Config, all: seq<VisitId>): (r: seq<VisitId>)
    ensures |r| <= |all|
    ensures forall i :: 0 <= i < |r| ==> r[i] in all && Selects(c, r[i])
  {
    Filter(all, v => Selects(c, v))
  }

  /** The visit list holds exactly the selected identifiers of the
      repository. */
  lemma VisitListMembers(c: Config, all: seq<VisitId>, v: VisitId)
    ensures v in VisitList(c, all) <==> v in all && Selects(c, v)
  {
    var r := VisitList(c, all);
    if v in r {
      var i :| 0 <= i < |r| && r[i] == v;
    }
    if v in all && Selects(c, v) {
      var i :| 0 <= i < |all| && all[i] == v;
    }
  }

  /** The visit list keeps the repository's order: each selected
      identifier is followed by the list of the rest of the repository. */
  lemma VisitListOrder(c: Config, v: VisitId, rest: seq<VisitId>)
    ensures VisitList(c, [v] + rest) == (if Selects(c, v) then [v] else []) + VisitList(c, rest)
  {
    assert ([v] + rest)[1..] == rest;
  }

  /** Selecting from the visits in two parts is selecting from each part. */
  lemma {:induction false} VisitListAppend(c: Config, a: seq<VisitId>, b: seq<VisitId>)
    ensures VisitList(c, a + b) == VisitList(c, a) + VisitList(c, b)
    decreases |a|
  {
    if |a| > 0 {
      assert (a + b)[1..] == a[1..] + b;
      VisitListAppend(c, a[1..], b);
    } else {
      assert a + b == b;
    }
  }

  /** With neither visit nor detector given, the list is every identifier
      of the band. */
  lemma {:induction false} VisitListBand(c: Config, all: seq<VisitId>)
    requires c.visit.None? && c.detector.None?
    requires forall i :: 0 <= i < |all| ==> all[i].filter == c.band
    ensures VisitList(c, all) == all
    decreases |all|
  {
    if |all| > 0 {
      VisitListBand(c, all[1..]);
    }
  }

  /** A catalog as a dictionary of columns. */
  type Columns<T> = map<string, seq<T>>

  /** `append_dict(dict1, dict2)`: every column of `dict1` followed by the
      same column of `dict2`. Differing key sets only print a message; a
      key of `dict1` missing from `dict2` then raises `KeyError`, and keys
      only `dict2` has are dropped. */
  function AppendDict<T>(d1: Columns<T>, d2: Columns<T>): (r: Result<Columns<T>>)
    ensures r.Ok? <==> d1.Keys <= d2.Keys
    ensures r.Err? ==> r.error == KeyError
    ensures r.Ok? ==> r.value.Keys == d1.Keys
  {
    if d1.Keys <= d2.Keys then Ok(map k | k in d1 :: d1[k] + d2[k]) else Err(KeyError)
  }

  /** Each appended column starts with the first dictionary's column and
      ends with the second's. */
  lemma AppendDictColumns<T>(d1: Columns<T>, d2: Columns<T>, k: string)
    requires d1.Keys <= d2.Keys && k in d1
    ensures var r := AppendDict(d1, d2).value;
      |r[k]| == |d1[k]| + |d2[k]| && r[k][..|d1[k]|] == d1[k] && r[k][|d1[k]|..] == d2[k]
  {
  }

  /** Appending is associative when the key sets agree. */
  lemma AppendDictAssoc<T>(a: Columns<T>, b: Columns<T>, c: Columns<T>)
    requires a.Keys == b.Keys == c.Keys
    ensures AppendDict(a, b).Ok? && AppendDict(b, c).Ok?
    ensures AppendDict(AppendDict(a, b).value, c) == AppendDict(a, AppendDict(b, c).value)
  {
    var ab := AppendDict(a, b).value;
    var bc := AppendDict(b, c).value;
    var l := AppendDict(ab, c).value;
    var r := AppendDict(a, bc).value;
    forall k | k in a ensures l[k] == r[k] {
      assert (a[k] + b[k]) + c[k] == a[k] + (b[k] + c[k]);
    }
    assert l.Keys == r.Keys;
    assert l == r;
  }

  /** Appending the later dictionaries to `acc` in turn. */
  function AppendAll<T>(acc: Columns<T>, ds: seq<Columns<T>>): (r: Result<Columns<T>>)
    ensures r.Err? ==> r.error == KeyError
    ensures r.Ok? ==> r.value.Keys == acc.Keys
    decreases |ds|
  {
    if |ds| == 0 then Ok(acc)
    else match AppendDict(acc, ds[0])
      case Err(e) => Err(e)
      case Ok(next) => AppendAll(next, ds[1..])
  }

  /** `_load_single_catalog`: the first visit's dictionary, with each later
      one appended in order; with no visit the reader's data are left as
      they were. */
  function LoadVisits<T>(prior: Columns<T>, ds: seq<Columns<T>>): (r: Result<Columns<T>>)
    ensures r.Err? ==> r.error == KeyError
    ensures r.Ok? ==> r.value.Keys == (if |ds| == 0 then prior.Keys else ds[0].Keys)
  {
    if |ds| == 0 then Ok(prior) else AppendAll(ds[0], ds[1..])
  }

  /** Column `k` of every dictionary, concatenated in order. */
  function ColumnOf<T>(ds: seq<Columns<T>>, k: string): seq<T>
    requires forall i :: 0 <= i < |ds| ==> k in ds[i]
    decreases |ds|
  {
    if |ds| == 0 then [] else ds[0][k] + ColumnOf(ds[1..], k)
  }

  /** Every dictionary has at least the keys `ks`. */
  predicate AllCover<T>(ds: seq<Columns<T>>, ks: set<string>) {
    forall i :: 0 <= i < |ds| ==> ks <= ds[i].Keys
  }

  lemma AllCoverTail<T>(ds: seq<Columns<T>>, ks: set<string>)
    requires |ds| > 0
    ensures AllCover(ds, ks) <==> ks <= ds[0].Keys && AllCover(ds[1..], ks)
  {
    assert forall i :: 1 <= i < |ds| ==> ds[i] == ds[1..][i - 1];
  }

  /** Appending succeeds exactly when every later dictionary has the keys
      of the first; otherwise it raises `KeyError`. */
  lemma {:induction false} AppendAllOk<T>(acc: Columns<T>, ds: seq<Columns<T>>)
    ensures AppendAll(acc, ds).Ok? <==> AllCover(ds, acc.Keys)
    ensures AppendAll(acc, ds).Err? ==> AppendAll(acc, ds).error == KeyError
    decreases |ds|
  {
    if |ds| > 0 {
      AllCoverTail(ds, acc.Keys);
      if acc.Keys <= ds[0].Keys {
        AppendAllOk(AppendDict(acc, ds[0]).value, ds[1..]);
      }
    }
  }

  lemma ColumnOfHead<T>(acc: Columns<T>, ds: seq<Columns<T>>, k: string)
    requires |ds| > 0 && AllCover(ds, acc.Keys) && k in acc
    ensures acc.Keys <= ds[0].Keys && AllCover(ds[1..], acc.Keys)
    ensures (acc[k] + ds[0][k]) + ColumnOf(ds[1..], k) == acc[k] + ColumnOf(ds, k)
  {
    AllCoverTail(ds, acc.Keys);
  }

  /** When it succeeds, appending keeps the keys of `acc`, and each column
      is the column of `acc` followed by that column of the dictionaries,
      in order. */
  lemma {:induction false} AppendAllColumns<T>(acc: Columns<T>, ds: seq<Columns<T>>)
    requires AllCover(ds, acc.Keys)
    ensures AppendAll(acc, ds).Ok?
    ensures AppendAll(acc, ds).value.Keys == acc.Keys
    ensures forall k :: k in acc ==> AppendAll(acc, ds).value[k] == acc[k] + ColumnOf(ds, k)
    decreases |ds|
  {
    if |ds| > 0 {
      AllCoverTail(ds, acc.Keys);
      var next := AppendDict(acc, ds[0]).value;
      AppendAllColumns(next, ds[1..]);
      forall k | k in acc
        ensures AppendAll(acc, ds).value[k] == acc[k] + ColumnOf(ds, k)
      {
        ColumnOfHead(acc, ds, k);
      }
    }
  }

  /** Loading visits fails with `KeyError` exactly when a later visit
      lacks one of the first visit's columns. */
  lemma LoadVisitsOk<T>(prior: Columns<T>, ds: seq<Columns<T>>)
    requires |ds| > 0
    ensures LoadVisits(prior, ds).Ok? <==> AllCover(ds, ds[0].Keys)
    ensures LoadVisits(prior, ds).Err? ==> LoadVisits(prior, ds).error == KeyError
  {
    AppendAllOk(ds[0], ds[1..]);
    AllCoverTail(ds, ds[0].Keys);
  }

  /** Loaded visits keep the first visit's columns, each the concatenation
      of that column over the visits in visit order. */
  lemma LoadVisitsColumns<T>(prior: Columns<T>, ds: seq<Columns<T>>)
    requires |ds| > 0 && AllCover(ds, ds[0].Keys)
    ensures LoadVisits(prior, ds).Ok?
    ensures LoadVisits(prior, ds).value.Keys == ds[0].Keys
    ensures forall k :: k in ds[0] ==> LoadVisits(prior, ds).value[k] == ColumnOf(ds, k)
  {
    AllCoverTail(ds, ds[0].Keys);
    AppendAllColumns(ds[0], ds[1..]);
  }

  /** With no visit to load the reader's data are unchanged. */
  lemma LoadNothing<T>(prior: Columns<T>)
    ensures LoadVisits(prior, []) == Ok(prior)
  {
  }

  /** The reader's native quantities: the keys of the loaded data. */
  function NativeQuantities<T>(prior: Columns<T>, ds: seq<Columns<T>>): (r: Result<set<string>>)
    ensures r.Ok? <==> LoadVisits(prior, ds).Ok?
    ensures r.Ok? ==> r.value == LoadVisits(prior, ds).value.Keys
  {
    match LoadVisits(prior, ds)
    case Err(e) => Err(e)
    case Ok(d) => Ok(d.Keys)
  }

  /** `_native_quantity_getter`: a loaded column, `KeyError` otherwise. */
  function Getter<T>(data: Columns<T>, quantity: string): (r: Result<seq<T>>)
    ensures r.Ok? <==> quantity in data
    ensures r.Ok? ==> r.value == data[quantity]
    ensures r.Err? ==> r.error == KeyError
  {
    if quantity in data then Ok(data[quantity]) else Err(KeyError)
  }

  /** `_iter_native_dataset`: native filters are not supported. */
  function IterNativeDataset<F>(nativeFilters: Option<F>): (r: Result<bool>)
    ensures r.Err? <==> nativeFilters.Some?
    ensures r.Err? ==> r.error == ValueError
  {
    if nativeFilters.Some? then Err(ValueError) else Ok(true)
  }

  /** The field types `asDict` tells apart. */
  datatype FieldType = StringField | FlagField | AngleField | OtherField

  /** A schema item of a catalog and the column of values it holds. */
  datatype Item<T> = Item(name: string, kind: FieldType, data: seq<T>)

  /** String and flag fields admit no view of the catalog's memory. */
  predicate Unviewable(kind: FieldType) {
    kind == StringField || kind == FlagField
  }

  predicate ValidOption(unviewable: string) {
    unviewable == "copy" || unviewable == "raise" || unviewable == "skip"
  }

  /** What `asDict` does with one item: its column, `None` when it is
      skipped, or the exception it raises. `asWritten` selects the source's
      string branch, which calls `numpy.zeros` in a module that imports
      numpy only as `np`, and so raises `NameError`. */
  function ItemColumn<T>(it: Item<T>, copy: bool, unviewable: string, asWritten: bool): (r: Result<Option<seq<T>>>)
    ensures r.Err? <==> (Unviewable(it.kind)
      && ((!copy && unviewable == "raise") || (asWritten && it.kind == StringField && (copy || unviewable != "skip"))))
    ensures r.Ok? && r.value.Some? ==> r.value.value == it.data
    ensures r.Ok? && r.value.None? <==> Unviewable(it.kind) && !copy && unviewable == "skip"
    ensures r.Err? && r.error != ValueError ==> r.error == NameError && asWritten && it.kind == StringField
  {
    if Unviewable(it.kind) && !copy && unviewable == "raise" then Err(ValueError)
    else if Unviewable(it.kind) && !copy && unviewable == "skip" then Ok(None)
    else if asWritten && it.kind == StringField then Err(NameError)
    else Ok(Some(it.data))
  }

  /** The items' columns added to `acc` in schema order. */
  function ColumnsFrom<T>(acc: Columns<T>, items: seq<Item<T>>, copy: bool, unviewable: string, asWritten: bool): (r: Result<Columns<T>>)
    ensures r.Err? ==> r.error == ValueError || (asWritten && r.error == NameError)
    ensures r.Ok? ==> acc.Keys <= r.value.Keys
    decreases |items|
  {
    if |items| == 0 then Ok(acc)
    else match ItemColumn(items[0], copy, unviewable, asWritten)
      case Err(e) => Err(e)
      case Ok(None) => ColumnsFrom(acc, items[1..], copy, unviewable, asWritten)
      case Ok(Some(d)) => ColumnsFrom(acc[items[0].name := d], items[1..], copy, unviewable, asWritten)
  }

  /** `asDict(cat, copy=copy, unviewable=unviewable)` as written: an
      unknown `unviewable` raises `ValueError`, and a string field that is
      not skipped raises `NameError`. */
  function AsDictAsWritten<T>(items: seq<Item<T>>, copy: bool, unviewable: string): (r: Result<Columns<T>>)
    ensures !ValidOption(unviewable) ==> r == Err(ValueError)
    ensures r.Err? ==> r.error == ValueError || r.error == NameError
  {
    if !ValidOption(unviewable) then Err(ValueError)
    else ColumnsFrom(map[], items, copy, unviewable, true)
  }

  /** `asDict` with the string branch reading the column as intended. */
  function AsDict<T>(items: seq<Item<T>>, copy: bool, unviewable: string): (r: Result<Columns<T>>)
    ensures !ValidOption(unviewable) ==> r == Err(ValueError)
    ensures r.Err? ==> r.error == ValueError
  {
    if !ValidOption(unviewable) then Err(ValueError)
    else ColumnsFrom(map[], items, copy, unviewable, false)
  }

  /** An item `asDict` keeps. */
  predicate Kept<T>(it: Item<T>, copy: bool, unviewable: string) {
    !(Unviewable(it.kind) && !copy && unviewable == "skip")
  }

  /** The names of the items `asDict` keeps. */
  function KeptNames<T>(items: seq<Item<T>>, copy: bool, unviewable: string): set<string>
    decreases |items|
  {
    if |items| == 0 then {}
    else (if Kept(items[0], copy, unviewable) then {items[0].name} else {}) + KeptNames(items[1..], copy, unviewable)
  }

  lemma {:induction false} KeptNamesMembers<T>(items: seq<Item<T>>, copy: bool, unviewable: string, n: string)
    ensures n in KeptNames(items, copy, unviewable)
      <==> exists i :: 0 <= i < |items| && Kept(items[i], copy, unviewable) && items[i].name == n
    decreases |items|
  {
    if |items| > 0 {
      KeptNamesMembers(items[1..], copy, unviewable, n);
      if exists i :: 0 <= i < |items| && Kept(items[i], copy, unviewable) && items[i].name == n {
        var i :| 0 <= i < |items| && Kept(items[i], copy, unviewable) && items[i].name == n;
        if i > 0 { assert items[1..][i - 1] == items[i]; }
      }
      if exists i :: 0 <= i < |items[1..]| && Kept(items[1..][i], copy, unviewable) && items[1..][i].name == n {
        var i :| 0 <= i < |items[1..]| && Kept(items[1..][i], copy, unviewable) && items[1..][i].name == n;
        assert items[i + 1] == items[1..][i];
      }
    }
  }

  /** Some item raises: an unviewable one under `raise` without copying
      (or, as written, a string that is not skipped). */
  predicate Raises<T>(items: seq<Item<T>>, copy: bool, unviewable: string, asWritten: bool) {
    exists i :: 0 <= i < |items| && ItemColumn(items[i], copy, unviewable, asWritten).Err?
  }

  lemma RaisesTail<T>(items: seq<Item<T>>, copy: bool, unviewable: string, asWritten: bool)
    requires |items| > 0
    ensures Raises(items, copy, unviewable, asWritten)
      <==> ItemColumn(items[0], copy, unviewable, asWritten).Err? || Raises(items[1..], copy, unviewable, asWritten)
  {
    if Raises(items, copy, unviewable, asWritten) {
      var i :| 0 <= i < |items| && ItemColumn(items[i], copy, unviewable, asWritten).Err?;
      if i > 0 { assert items[1..][i - 1] == items[i]; }
    }
    if Raises(items[1..], copy, unviewable, asWritten) {
      var i :| 0 <= i < |items[1..]| && ItemColumn(items[1..][i], copy, unviewable, asWritten).Err?;
      assert items[i + 1] == items[1..][i];
    }
  }

  /** The item names are pairwise distinct, as a schema's are. */
  predicate DistinctNames<T>(items: seq<Item<T>>) {
    forall i, j :: 0 <= i < j < |items| ==> items[i].name != items[j].name
  }

  /** The dictionary after the first item's column is added. */
  function AfterFirst<T>(acc: Columns<T>, it: Item<T>, copy: bool, unviewable: string, asWritten: bool): Columns<T> {
    var c := ItemColumn(it, copy, unviewable, asWritten);
    if c.Ok? && c.value.Some? then acc[it.name := c.value.value] else acc
  }

  lemma ColumnsFromStep<T>(acc: Columns<T>, items: seq<Item<T>>, copy: bool, unviewable: string, asWritten: bool)
    requires |items| > 0 && ItemColumn(items[0], copy, unviewable, asWritten).Ok?
    ensures ColumnsFrom(acc, items, copy, unviewable, asWritten)
      == ColumnsFrom(AfterFirst(acc, items[0], copy, unviewable, asWritten), items[1..], copy, unviewable, asWritten)
  {
  }

  /** Adding the items' columns fails exactly when some item raises, with
      `ValueError`, or as written possibly `NameError`. */
  lemma {:induction false} ColumnsFromOk<T>(acc: Columns<T>, items: seq<Item<T>>, copy: bool, unviewable: string, asWritten: bool)
    ensures ColumnsFrom(acc, items, copy, unviewable, asWritten).Ok? <==> !Raises(items, copy, unviewable, asWritten)
    ensures var r := ColumnsFrom(acc, items, copy, unviewable, asWritten);
      r.Err? ==> r.error == ValueError || (asWritten && r.error == NameError)
    decreases |items|
  {
    if |items| > 0 {
      RaisesTail(items, copy, unviewable, asWritten);
      if ItemColumn(items[0], copy, unviewable, asWritten).Ok? {
        ColumnsFromStep(acc, items, copy, unviewable, asWritten);
        ColumnsFromOk(AfterFirst(acc, items[0], copy, unviewable, asWritten), items[1..], copy, unviewable, asWritten);
      }
    }
  }

  /** The added columns are those of the kept items. */
  lemma {:induction false} ColumnsFromKeys<T>(acc: Columns<T>, items: seq<Item<T>>, copy: bool, unviewable: string, asWritten: bool)
    requires ColumnsFrom(acc, items, copy, unviewable, asWritten).Ok?
    ensures ColumnsFrom(acc, items, copy, unviewable, asWritten).value.Keys == acc.Keys + KeptNames(items, copy, unviewable)
    decreases |items|
  {
    if |items| > 0 {
      ColumnsFromStep(acc, items, copy, unviewable, asWritten);
      ColumnsFromKeys(AfterFirst(acc, items[0], copy, unviewable, asWritten), items[1..], copy, unviewable, asWritten);
    }
  }

  /** A column no item names is left as it was. */
  lemma {:induction false} ColumnsFromUntouched<T>(acc: Columns<T>, items: seq<Item<T>>, copy: bool, unviewable: string, asWritten: bool, k: string)
    requires ColumnsFrom(acc, items, copy, unviewable, asWritten).Ok?
    requires k in acc && forall j :: 0 <= j < |items| ==> items[j].name != k
    ensures k in ColumnsFrom(acc, items, copy, unviewable, asWritten).value
    ensures ColumnsFrom(acc, items, copy, unviewable, asWritten).value[k] == acc[k]
    decreases |items|
  {
    if |items| > 0 {
      ColumnsFromStep(acc, items, copy, unviewable, asWritten);
      assert forall j :: 0 <= j < |items[1..]| ==> items[1..][j] == items[j + 1];
      ColumnsFromUntouched(AfterFirst(acc, items[0], copy, unviewable, asWritten), items[1..], copy, unviewable, asWritten, k);
    }
  }

  /** With distinct names, each kept item's column is its data. */
  lemma {:induction false} ColumnsFromValue<T>(acc: Columns<T>, items: seq<Item<T>>, copy: bool, unviewable: string, asWritten: bool, i: nat)
    requires ColumnsFrom(acc, items, copy, unviewable, asWritten).Ok?
    requires DistinctNames(items) && i < |items| && Kept(items[i], copy, unviewable)
    ensures items[i].name in ColumnsFrom(acc, items, copy, unviewable, asWritten).value
    ensures ColumnsFrom(acc, items, copy, unviewable, asWritten).value[items[i].name] == items[i].data
    decreases |items|
  {
    ColumnsFromOk(acc, items, copy, unviewable, asWritten);
    assert !ItemColumn(items[0], copy, unviewable, asWritten).Err?;
    ColumnsFromStep(acc, items, copy, unviewable, asWritten);
    var next := AfterFirst(acc, items[0], copy, unviewable, asWritten);
    assert forall j :: 0 <= j < |items[1..]| ==> items[1..][j] == items[j + 1];
    if i == 0 {
      ColumnsFromUntouched(next, items[1..], copy, unviewable, asWritten, items[0].name);
    } else {
      ColumnsFromValue(next, items[1..], copy, unviewable, asWritten, i - 1);
    }
  }

  /** The corrected `asDict`: it fails with `ValueError` exactly for an
      unknown `unviewable` option or for an unviewable field under `raise`
      without copying; otherwise it holds the column of every kept field
      under the field's name and nothing else. */
  lemma AsDictSpec<T>(items: seq<Item<T>>, copy: bool, unviewable: string)
    requires DistinctNames(items)
    ensures AsDict(items, copy, unviewable).Ok? <==> (ValidOption(unviewable)
      && !(!copy && unviewable == "raise" && exists i :: 0 <= i < |items| && Unviewable(items[i].kind)))
    ensures AsDict(items, copy, unviewable).Err? ==> AsDict(items, copy, unviewable).error == ValueError
    ensures AsDict(items, copy, unviewable).Ok? ==> AsDict(items, copy, unviewable).value.Keys == KeptNames(items, copy, unviewable)
    ensures AsDict(items, copy, unviewable).Ok? ==> forall i :: (0 <= i < |items| && Kept(items[i], copy, unviewable)) ==>
      (items[i].name in AsDict(items, copy, unviewable).value && AsDict(items, copy, unviewable).value[items[i].name] == items[i].data)
  {
    if ValidOption(unviewable) {
      ColumnsFromOk(map[], items, copy, unviewable, false);
      if Raises(items, copy, unviewable, false) {
        var i :| 0 <= i < |items| && ItemColumn(items[i], copy, unviewable, false).Err?;
      }
      if !copy && unviewable == "raise" && exists i :: 0 <= i < |items| && Unviewable(items[i].kind) {
        var i :| 0 <= i < |items| && Unviewable(items[i].kind);
        assert ItemColumn(items[i], copy, unviewable, false).Err?;
      }
      if AsDict(items, copy, unviewable).Ok? {
        ColumnsFromKeys(map[], items, copy, unviewable, false);
        forall i | 0 <= i < |items| && Kept(items[i], copy, unviewable)
          ensures items[i].name in AsDict(items, copy, unviewable).value
          ensures AsDict(items, copy, unviewable).value[items[i].name] == items[i].data
        {
          ColumnsFromValue(map[], items, copy, unviewable, false, i);
        }
      }
    }
  }

  /** As written, `asDict` succeeds only when every string field is
      skipped: reading a string column always fails. */
  lemma AsWrittenNoStrings<T>(items: seq<Item<T>>, copy: bool, unviewable: string)
    requires AsDictAsWritten(items, copy, unviewable).Ok?
    ensures forall i :: 0 <= i < |items| && items[i].kind == StringField ==> !copy && unviewable == "skip"
  {
    ColumnsFromOk(map[], items, copy, unviewable, true);
    forall i | 0 <= i < |items| && items[i].kind == StringField ensures !copy && unviewable == "skip" {
      assert !ItemColumn(items[i], copy, unviewable, true).Err?;
    }
  }

  /** The reader's `_read_visit` calls `asDict` with its defaults (no copy,
      `unviewable="copy"`): as written, a catalog with one string field
      cannot be read, while the corrected reading returns its column. */
  lemma ReadVisitStringField(name: string, data: seq<int>)
    ensures AsDictAsWritten([Item(name, StringField, data)], false, "copy") == Err(NameError)
    ensures AsDict([Item(name, StringField, data)], false, "copy") == Ok(map[name := data])
  {
    var items := [Item(name, StringField, data)];
    assert items[1..] == [];
    assert ItemColumn(items[0], false, "copy", false) == Ok(Some(data));
    ColumnsFromStep(map[], items, false, "copy", false);
    var m: Columns<int> := map[];
    assert AfterFirst(m, items[0], false, "copy", false) == map[name := data];
  }

  /** Where no string field is read the two readings agree. */
  lemma {:induction false} NoStringsAgree<T>(acc: Columns<T>, items: seq<Item<T>>, copy: bool, unviewable: string)
    requires forall i :: 0 <= i < |items| ==> items[i].kind != StringField
    ensures ColumnsFrom(acc, items, copy, unviewable, true) == ColumnsFrom(acc, items, copy, unviewable, false)
    decreases |items|
  {
    if |items| > 0 {
      var c := ItemColumn(items[0], copy, unviewable, false);
      assert ItemColumn(items[0], copy, unviewable, true) == c;
      if c.Ok? {
        NoStringsAgree(if c.value.Some? then acc[items[0].name := c.value.value] else acc, items[1..], copy, unviewable);
      }
    }
  }
}
