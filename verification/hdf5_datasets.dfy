/** How the object, coadd and static coadd readers find their datasets in
    the HDF5 files of a directory, and how they hold the tables they read.

    The directory listing, the files that open, their group keys and the
    `axis0` column lists are inputs; reading a table is a value passed in.
    Which names the file and group patterns accept is a predicate
    parameter, so the same model serves the default patterns and the ones
    a configuration supplies. */
module Hdf5Datasets {
  import opened Wrappers
  import opened Strings
  import opened Sorting
  import opened Partitions

  /** A dataset: the file path and the group key. */
  type Dataset = (string, string)

  /** The datasets of one open file whose keys, with leading `/`
      stripped, match the group pattern, in key order. */
  function FileGroups(path: string, keys: seq<string>, groupOk: string -> bool): (r: seq<Dataset>)
    ensures forall d :: d in r <==> d.0 == path && d.1 in keys && groupOk(LStrip(d.1, '/'))
    decreases |keys|
  {
    if |keys| == 0 then []
    else
      var rest := FileGroups(path, keys[1..], groupOk);
      assert forall k :: k in keys <==> k == keys[0] || k in keys[1..];
      (if groupOk(LStrip(keys[0], '/')) then [(path, keys[0])] else []) + rest
  }

  /** `_generate_datasets` of the object and coadd readers over file names
      already in listing order: a name the file pattern rejects is skipped,
      a file that does not open (absent from `files`) is skipped with a
      warning, and every matching group of an open file is a dataset. */
  function GroupDatasets(dir: string, names: seq<string>, files: map<string, seq<string>>,
                         fileOk: string -> bool, groupOk: string -> bool): (r: seq<Dataset>)
    ensures forall d :: d in r ==> d.0 in files && d.1 in files[d.0] && groupOk(LStrip(d.1, '/'))
    decreases |names|
  {
    if |names| == 0 then []
    else
      var p := PathJoin(dir, names[0]);
      (if fileOk(names[0]) && p in files then FileGroups(p, files[p], groupOk) else [])
      + GroupDatasets(dir, names[1..], files, fileOk, groupOk)
  }

  /** A name of the listing contributes the dataset `d`. */
  predicate FromName(dir: string, f: string, files: map<string, seq<string>>,
                     fileOk: string -> bool, groupOk: string -> bool, d: Dataset) {
    fileOk(f) && d.0 == PathJoin(dir, f) && d.0 in files && d.1 in files[d.0] && groupOk(LStrip(d.1, '/'))
  }

  /** A dataset is found exactly when some listed name matches the file
      pattern, its file opens, and the file has the key, which matches the
      group pattern. */
  lemma {:induction false} GroupDatasetsSpec(dir: string, names: seq<string>, files: map<string, seq<string>>,
                                             fileOk: string -> bool, groupOk: string -> bool, d: Dataset)
    ensures d in GroupDatasets(dir, names, files, fileOk, groupOk) <==>
      exists i :: 0 <= i < |names| && FromName(dir, names[i], files, fileOk, groupOk, d)
    decreases |names|
  {
    if |names| > 0 {
      GroupDatasetsSpec(dir, names[1..], files, fileOk, groupOk, d);
      if exists i :: 0 <= i < |names| && FromName(dir, names[i], files, fileOk, groupOk, d) {
        var i :| 0 <= i < |names| && FromName(dir, names[i], files, fileOk, groupOk, d);
        if i > 0 {
          assert names[1..][i - 1] == names[i];
        }
      }
      if exists i :: 0 <= i < |names[1..]| && FromName(dir, names[1..][i], files, fileOk, groupOk, d) {
        var i :| 0 <= i < |names[1..]| && FromName(dir, names[1..][i], files, fileOk, groupOk, d);
        assert names[i + 1] == names[1..][i];
      }
    }
  }

  /** The files are visited in `sorted(os.listdir(...))` order. */
  function ListingDatasets(dir: string, listing: seq<string>, files: map<string, seq<string>>,
                           fileOk: string -> bool, groupOk: string -> bool): (r: seq<Dataset>)
    ensures forall d :: d in r ==> d.0 in files && d.1 in files[d.0] && groupOk(LStrip(d.1, '/'))
  {
    GroupDatasets(dir, Sort(listing), files, fileOk, groupOk)
  }

  /** Sorting the listing changes the order of the datasets, never which
      ones are found. */
  lemma ListingDatasetsSpec(dir: string, listing: seq<string>, files: map<string, seq<string>>,
                            fileOk: string -> bool, groupOk: string -> bool, d: Dataset)
    ensures d in ListingDatasets(dir, listing, files, fileOk, groupOk) <==>
      exists f :: f in listing && FromName(dir, f, files, fileOk, groupOk, d)
  {
    var names := Sort(listing);
    GroupDatasetsSpec(dir, names, files, fileOk, groupOk, d);
    if exists i :: 0 <= i < |names| && FromName(dir, names[i], files, fileOk, groupOk, d) {
      var i :| 0 <= i < |names| && FromName(dir, names[i], files, fileOk, groupOk, d);
      assert names[i] in multiset(names);
    }
    if exists f :: f in listing && FromName(dir, f, files, fileOk, groupOk, d) {
      var f :| f in listing && FromName(dir, f, files, fileOk, groupOk, d);
      assert f in multiset(listing);
      assert f in names;
    }
  }

  /** A child group of a static coadd file: its name and, when it holds
      one, its `axis0` column list. */
  datatype Group = Group(key: string, axis0: Option<seq<string>>)

  /** The `for ... else` loop finishes without `break`: every child has a
      matching name and an `axis0`. */
  predicate Accepted(gs: seq<Group>, groupOk: string -> bool) {
    forall j :: 0 <= j < |gs| ==> groupOk(gs[j].key) && gs[j].axis0.Some?
  }

  /** The columns of an accepted file. */
  function GroupColumns(gs: seq<Group>): (r: set<string>)
    requires forall j :: 0 <= j < |gs| ==> gs[j].axis0.Some?
    ensures forall c :: c in r <==> exists j :: 0 <= j < |gs| && c in gs[j].axis0.value
    decreases |gs|
  {
    if |gs| == 0 then {}
    else
      var rest := GroupColumns(gs[1..]);
      assert forall j :: 1 <= j < |gs| ==> gs[j] == gs[1..][j - 1];
      (set c | c in gs[0].axis0.value) + rest
  }

  function GroupKeys(path: string, gs: seq<Group>): (r: seq<Dataset>)
    ensures |r| == |gs| && forall j :: 0 <= j < |gs| ==> r[j] == (path, gs[j].key)
  {
    seq(|gs|, j requires 0 <= j < |gs| => (path, gs[j].key))
  }

  /** `_generate_native_datasets_and_columns` of the static readers over the
      matching file names in sorted order: a file that opens adds all of
      its datasets and columns, or none of them. */
  function StaticDatasets(dir: string, names: seq<string>, files: map<string, seq<Group>>,
                          groupOk: string -> bool): (r: (seq<Dataset>, set<string>))
    ensures forall d :: d in r.0 ==> d.0 in files && Accepted(files[d.0], groupOk) && HasKey(files[d.0], d.1)
    decreases |names|
  {
    if |names| == 0 then ([], {})
    else
      var rest := StaticDatasets(dir, names[1..], files, groupOk);
      var p := PathJoin(dir, names[0]);
      if p in files && Accepted(files[p], groupOk) then
        (GroupKeys(p, files[p]) + rest.0, GroupColumns(files[p]) + rest.1)
      else rest
  }

  /** The file of name `f` opens and is accepted. */
  predicate AcceptedName(dir: string, f: string, files: map<string, seq<Group>>, groupOk: string -> bool) {
    PathJoin(dir, f) in files && Accepted(files[PathJoin(dir, f)], groupOk)
  }

  /** Some group of `gs` has key `k`. */
  predicate HasKey(gs: seq<Group>, k: string) {
    exists j :: 0 <= j < |gs| && gs[j].key == k
  }

  /** The file of name `f` is accepted and holds the group of `d`. */
  predicate Provides(dir: string, f: string, files: map<string, seq<Group>>, groupOk: string -> bool, d: Dataset) {
    AcceptedName(dir, f, files, groupOk) && d.0 == PathJoin(dir, f) && HasKey(files[d.0], d.1)
  }

  /** Datasets and columns come only from accepted files, and an accepted
      file brings every one of its groups and columns. */
  lemma {:induction false} StaticDatasetsSpec(dir: string, names: seq<string>, files: map<string, seq<Group>>,
                                              groupOk: string -> bool, d: Dataset, c: string)
    ensures d in StaticDatasets(dir, names, files, groupOk).0 <==>
      exists i :: 0 <= i < |names| && Provides(dir, names[i], files, groupOk, d)
    ensures c in StaticDatasets(dir, names, files, groupOk).1 <==>
      exists i :: 0 <= i < |names| && AcceptedName(dir, names[i], files, groupOk)
        && c in GroupColumns(files[PathJoin(dir, names[i])])
    decreases |names|
  {
    if |names| > 0 {
      StaticDatasetsSpec(dir, names[1..], files, groupOk, d, c);
      forall i | 1 <= i < |names| ensures names[i] == names[1..][i - 1] { }
      var p := PathJoin(dir, names[0]);
      if Provides(dir, names[0], files, groupOk, d) {
        var j :| 0 <= j < |files[p]| && files[p][j].key == d.1;
        assert GroupKeys(p, files[p])[j] == d;
      }
    }
  }

  /** All or nothing: when one group of a file is a dataset, every group of
      that file is. */
  lemma StaticAllOrNothing(dir: string, names: seq<string>, files: map<string, seq<Group>>,
                           groupOk: string -> bool, path: string, k1: string, k2: string)
    requires (path, k1) in StaticDatasets(dir, names, files, groupOk).0
    requires path in files && HasKey(files[path], k2)
    ensures (path, k2) in StaticDatasets(dir, names, files, groupOk).0
  {
    StaticDatasetsSpec(dir, names, files, groupOk, (path, k1), "");
    StaticDatasetsSpec(dir, names, files, groupOk, (path, k2), "");
  }

  /** A file with a group the pattern rejects, or without `axis0`,
      contributes nothing, whatever its other groups. */
  lemma StaticRejected(dir: string, names: seq<string>, files: map<string, seq<Group>>,
                       groupOk: string -> bool, f: string, k: string)
    requires PathJoin(dir, f) in files && !Accepted(files[PathJoin(dir, f)], groupOk)
    requires forall i :: 0 <= i < |names| && PathJoin(dir, names[i]) == PathJoin(dir, f) ==> names[i] == f
    ensures (PathJoin(dir, f), k) !in StaticDatasets(dir, names, files, groupOk).0
  {
    StaticDatasetsSpec(dir, names, files, groupOk, (PathJoin(dir, f), k), "");
  }

  /** The static readers' constructor: the matching names of the listing,
      sorted, scanned all or nothing; no dataset at all is a
      `RuntimeError`. */
  function StaticCatalog(dir: string, listing: seq<string>, files: map<string, seq<Group>>,
                         fileOk: string -> bool, groupOk: string -> bool): (r: Result<(seq<Dataset>, set<string>)>)
    ensures r.Err? <==> |StaticDatasets(dir, Sort(Filter(listing, fileOk)), files, groupOk).0| == 0
    ensures r.Err? ==> r.error == RuntimeError
  {
    var found := StaticDatasets(dir, Sort(Filter(listing, fileOk)), files, groupOk);
    if |found.0| == 0 then Err(RuntimeError) else Ok(found)
  }

  /** A dataset of the static catalog comes from a listed name that the
      file pattern accepts, whose file opens and is accepted, and which
      has that group; every such group is a dataset. */
  lemma StaticCatalogSpec(dir: string, listing: seq<string>, files: map<string, seq<Group>>,
                          fileOk: string -> bool, groupOk: string -> bool, d: Dataset)
    requires StaticCatalog(dir, listing, files, fileOk, groupOk).Ok?
    ensures d in StaticCatalog(dir, listing, files, fileOk, groupOk).value.0 <==>
      exists f :: f in listing && fileOk(f) && Provides(dir, f, files, groupOk, d)
  {
    var kept := Filter(listing, fileOk);
    var names := Sort(kept);
    StaticDatasetsSpec(dir, names, files, groupOk, d, "");
    if exists i :: 0 <= i < |names| && Provides(dir, names[i], files, groupOk, d) {
      var i :| 0 <= i < |names| && Provides(dir, names[i], files, groupOk, d);
      assert names[i] in multiset(kept);
      var k :| 0 <= k < |kept| && kept[k] == names[i];
    }
    if exists f :: f in listing && fileOk(f) && Provides(dir, f, files, groupOk, d) {
      var f :| f in listing && fileOk(f) && Provides(dir, f, files, groupOk, d);
      assert f in multiset(kept);
      var i :| 0 <= i < |names| && names[i] == f;
    }
  }

  /** The static readers' per-catalog store of loaded tables, and how many
      times the table was read from disk by one call. */
  datatype Loaded<F> = Loaded(frame: Result<F>, cache: map<Dataset, F>, diskReads: nat)

  /** `load_dataset`. Reading the table from disk gives `frame`, except that
      the first `memoryErrors` attempts raise `MemoryError`. Without the
      cache the table is read every time; on a hit the stored table is
      returned; on a miss it is read and stored, and after a `MemoryError`
      the whole cache is emptied and the read tried once more. */
  function LoadDataset<F>(cache: map<Dataset, F>, useCache: bool, ds: Dataset, frame: F, memoryErrors: nat): (r: Loaded<F>)
    ensures r.frame.Err? ==> r.frame.error == MemoryError && memoryErrors > 0
    ensures !useCache ==> r.cache == cache && r.diskReads == 1
    ensures useCache && ds in cache ==> r == Loaded(Ok(cache[ds]), cache, 0)
    ensures useCache && ds !in cache ==> (r.frame.Ok? <==> memoryErrors <= 1)
    ensures useCache && r.frame.Ok? ==> ds in r.cache && r.frame.value == r.cache[ds]
  {
    if !useCache then
      Loaded(if memoryErrors == 0 then Ok(frame) else Err(MemoryError), cache, 1)
    else if ds in cache then Loaded(Ok(cache[ds]), cache, 0)
    else if memoryErrors == 0 then Loaded(Ok(frame), cache[ds := frame], 1)
    else if memoryErrors == 1 then Loaded(Ok(frame), map[ds := frame], 2)
    else Loaded(Err(MemoryError), map[], 2)
  }

  /** `clear_cache`. */
  function ClearCache<F>(cache: map<Dataset, F>): (r: map<Dataset, F>)
    ensures forall ds :: ds !in r
  {
    map[]
  }

  /** After a load, a second load of the same dataset reads nothing and
      returns the same table, whatever the disk would give now. */
  lemma LoadTwice<F>(cache: map<Dataset, F>, ds: Dataset, frame: F, errors: nat, later: F, laterErrors: nat)
    requires LoadDataset(cache, true, ds, frame, errors).frame.Ok?
    ensures var first := LoadDataset(cache, true, ds, frame, errors);
      LoadDataset(first.cache, true, ds, later, laterErrors) == Loaded(first.frame, first.cache, 0)
  {
  }

  /** A load without `MemoryError` keeps every other stored table. */
  lemma LoadKeepsOthers<F>(cache: map<Dataset, F>, ds: Dataset, frame: F, other: Dataset)
    requires other != ds && other in cache
    ensures var r := LoadDataset(cache, true, ds, frame, 0);
      other in r.cache && r.cache[other] == cache[other]
  {
  }

  /** After one `MemoryError` the cache holds exactly the table just read. */
  lemma LoadAfterMemoryError<F>(cache: map<Dataset, F>, ds: Dataset, frame: F, other: Dataset)
    requires ds !in cache && other != ds
    ensures var r := LoadDataset(cache, true, ds, frame, 1);
      r.frame == Ok(frame) && ds in r.cache && other !in r.cache
  {
  }

  /** After `clear_cache` the next load reads the table again. */
  lemma ClearThenLoad<F>(cache: map<Dataset, F>, ds: Dataset, frame: F)
    ensures LoadDataset(ClearCache(cache), true, ds, frame, 0) == Loaded(Ok(frame), map[ds := frame], 1)
  {
  }

  /** The coadd reader's `TableWrapper`: the columns the storer lists,
      whether it is in table format, and the fixed-format data read so far.
      A table is a map from column name to its values. */
  datatype Wrapper<V> = Wrapper(columns: seq<string>, isTable: bool, fixed: Option<map<string, V>>)

  /** `TableWrapper.__getitem__` in the coadd reader, with `stored` what the
      storer reads now: a name outside the columns is a `KeyError`; a
      table-format wrapper reads the column each time; a fixed-format one
      reads the whole table once and answers from it until the cache is
      cleared. A name the table does not hold is a `KeyError` from pandas. */
  function CoaddGet<V>(w: Wrapper<V>, key: string, stored: map<string, V>): (r: (Result<V>, Wrapper<V>))
    ensures key !in w.columns ==> r == (Err(KeyError), w)
    ensures r.1.columns == w.columns && r.1.isTable == w.isTable
    ensures r.0.Err? ==> r.0.error == KeyError
    ensures w.isTable ==> r.1 == w
    ensures !w.isTable && key in w.columns ==> r.1.fixed.Some? && (w.fixed.Some? ==> r.1 == w)
    ensures r.0.Ok? ==> key in w.columns && if w.isTable then key in stored && r.0.value == stored[key]
                                             else key in r.1.fixed.value && r.0.value == r.1.fixed.value[key]
  {
    if key !in w.columns then (Err(KeyError), w)
    else if w.isTable then (if key in stored then Ok(stored[key]) else Err(KeyError), w)
    else
      var data := if w.fixed.Some? then w.fixed.value else stored;
      (if key in data then Ok(data[key]) else Err(KeyError), w.(fixed := Some(data)))
  }

  /** `clear_cache` of a wrapper. */
  function ClearWrapper<V>(w: Wrapper<V>): (r: Wrapper<V>)
    ensures r.fixed.None? && r.columns == w.columns && r.isTable == w.isTable
  {
    w.(fixed := None)
  }

  /** A fixed-format wrapper answers a second read from the data of the
      first, even when the file now holds something else; after
      `clear_cache` it reads the new data. */
  lemma FixedReadOnce<V>(w: Wrapper<V>, k1: string, k2: string, first: map<string, V>, later: map<string, V>)
    requires !w.isTable && w.fixed.None? && k1 in w.columns && k2 in w.columns
    requires k2 in first && k2 in later
    ensures var w1 := CoaddGet(w, k1, first).1;
      CoaddGet(w1, k2, later).0 == Ok(first[k2])
      && CoaddGet(ClearWrapper(w1), k2, later).0 == Ok(later[k2])
  {
  }

  /** The object reader's `TableWrapper.__getitem__`: no column check; the
      whole table is read on first use and kept, in either format, until
      `clear_cache`; a name the table lacks is a `KeyError`. */
  function ObjectGet<V>(cached: Option<map<string, V>>, key: string, stored: map<string, V>): (r: (Result<V>, Option<map<string, V>>))
    ensures r.1.Some? && (cached.Some? ==> r.1 == cached) && (cached.None? ==> r.1 == Some(stored))
    ensures r.0 == (if key in r.1.value then Ok(r.1.value[key]) else Err(KeyError))
  {
    var data := if cached.Some? then cached.value else stored;
    (if key in data then Ok(data[key]) else Err(KeyError), Some(data))
  }
}
