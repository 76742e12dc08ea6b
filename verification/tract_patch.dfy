/** What the object, coadd and static coadd readers share about their
    datasets: the HDF5 group keys `coadd_<tract>_<patch digits>` and
    `object_<tract>_<patch digits>`, the tract and patch parsed from them,
    the default file and group patterns, the native quantity getters, the
    native quantity list, the tract lists and the dataset filters. */
module TractPatch {
  import opened Wrappers
  import opened Strings
  import opened Sorting
  import opened Partitions

  /** `{'tract': t, 'patch': p}` of a dataset. */
  datatype Info = Info(tract: int, patch: string)

  /** `key.split('_')`, then `int(items[1])` and `','.join(items[2])`,
      evaluated in that order: an `IndexError` for a key without a `_`, a
      `ValueError` when the second field is not an integer, and an
      `IndexError` for an integer second field with no third field. */
  function DatasetInfo(key: string): (r: Result<Info>)
    ensures r.Err? ==> r.error == IndexError || r.error == ValueError
    ensures r.Err? && r.error == IndexError <==>
      |Split(key, "_")| < 2 || (|Split(key, "_")| == 2 && PyInt(Split(key, "_")[1]).Ok?)
    ensures r.Err? && r.error == ValueError <==> |Split(key, "_")| >= 2 && PyInt(Split(key, "_")[1]).Err?
    ensures r.Ok? <==> |Split(key, "_")| >= 3 && PyInt(Split(key, "_")[1]).Ok?
    ensures r.Ok? ==> r.value.patch == JoinChars(Split(key, "_")[2], ',')
    ensures r.Ok? ==> PyInt(Split(key, "_")[1]) == Ok(r.value.tract)
  {
    var items := Split(key, "_");
    if |items| < 2 then Err(IndexError)
    else
      match PyInt(items[1])
      case Err(_) => Err(ValueError)
      case Ok(t) => if |items| < 3 then Err(IndexError) else Ok(Info(t, JoinChars(items[2], ',')))
  }

  /** The group pattern `<head>_\d+_\d\d$` applied with `re.match`: the
      tract digits and the text after the second `_` (two digits, then
      possibly the one newline `$` lets through). */
  function GroupParts(s: string, head: string): (r: Option<(string, string)>)
    ensures r.Some? ==> s == head + "_" + r.value.0 + "_" + r.value.1
    ensures r.Some? ==> |r.value.0| > 0 && AllDigits(r.value.0)
    ensures r.Some? ==> |r.value.1| >= 2 && IsDigit(r.value.1[0]) && IsDigit(r.value.1[1]) && AtEnd(r.value.1[2..])
  {
    if !StartsWith(s, head + "_") then None
    else
      var rest := s[|head| + 1..];
      var n := LeadingDigits(rest);
      if n == 0 || n == |rest| || rest[n] != '_' then None
      else
        var q := rest[n + 1..];
        if |q| >= 2 && IsDigit(q[0]) && IsDigit(q[1]) && AtEnd(q[2..]) then
          assert rest == rest[..n] + "_" + q;
          assert s == s[..|head| + 1] + rest;
          Some((rest[..n], q))
        else None
  }

  /** The object reader's default group pattern `(?:coadd|object)_\d+_\d\d$`. */
  predicate ObjectGroup(s: string)
    ensures ObjectGroup(s) ==> StartsWith(s, "coadd_") || StartsWith(s, "object_")
  {
    GroupParts(s, "coadd").Some? || GroupParts(s, "object").Some?
  }

  /** The coadd readers' default group pattern `coadd_\d+_\d\d$`. */
  predicate CoaddGroup(s: string)
    ensures CoaddGroup(s) ==> StartsWith(s, "coadd_") && !StartsWith(s, "object_")
  {
    GroupParts(s, "coadd").Some?
  }

  /** A key made of a head, the tract digits and the patch text matches the
      group pattern exactly when the patch text is two digits, possibly
      followed by a newline. */
  lemma GroupPartsOf(head: string, digits: string, q: string)
    requires |digits| > 0 && AllDigits(digits)
    ensures GroupParts(head + "_" + digits + "_" + q, head) ==
      (if |q| >= 2 && IsDigit(q[0]) && IsDigit(q[1]) && AtEnd(q[2..]) then Some((digits, q)) else None)
  {
    var s := head + "_" + digits + "_" + q;
    assert s[..|head| + 1] == head + "_";
    var rest := s[|head| + 1..];
    assert rest == digits + ("_" + q);
    LeadingDigitsOver(digits, "_" + q);
    assert rest[..|digits|] == digits;
    assert rest[|digits| + 1..] == q;
  }

  /** No `_` in the text. */
  predicate Plain(w: string) { !HasChar(w, '_') }

  /** A key of three `_`-free fields, the second of them digits. */
  lemma FieldsInfo(first: string, d: string, q: string)
    requires Plain(first) && Plain(q) && |d| > 0 && AllDigits(d)
    ensures DatasetInfo(first + "_" + d + "_" + q) == Ok(Info(DigitsValue(d), JoinChars(q, ',')))
  {
    assert Plain(d) by {
      forall i | 0 <= i < |d| ensures d[i] != '_' { assert IsDigit(d[i]); }
    }
    var parts := [first, d, q];
    JoinTriple(first, d, q, "_");
    assert first + "_" + d + "_" + q == Join(parts, "_");
    SplitJoin(parts, '_');
    PyIntDigits(d);
  }

  /** A key of two `_`-free fields whose second is not an integer, such
      as `object_x`, fails at `int(items[1])` with `ValueError`, before
      the missing third field is reached. */
  lemma TwoFieldsNonInteger(first: string, t: string)
    requires Plain(first) && Plain(t) && PyInt(t).Err?
    ensures DatasetInfo(first + "_" + t) == Err(ValueError)
  {
    var parts := [first, t];
    assert first + "_" + t == Join(parts, "_") by {
      assert Join([t], "_") == t;
    }
    SplitJoin(parts, '_');
  }

  /** The same key with an integer second field fails at `items[2]`. */
  lemma TwoFieldsInteger(first: string, d: string)
    requires Plain(first) && |d| > 0 && AllDigits(d)
    ensures DatasetInfo(first + "_" + d) == Err(IndexError)
  {
    assert Plain(d) by {
      forall i | 0 <= i < |d| ensures d[i] != '_' { assert IsDigit(d[i]); }
    }
    var parts := [first, d];
    assert first + "_" + d == Join(parts, "_") by {
      assert Join([d], "_") == d;
    }
    SplitJoin(parts, '_');
    PyIntDigits(d);
  }

  lemma PlainConcat(a: string, b: string)
    requires Plain(a) && Plain(b)
    ensures Plain(a + b)
  {
    forall i | 0 <= i < |a + b| ensures (a + b)[i] != '_' {
      if i < |a| {
        assert (a + b)[i] == a[i];
      } else {
        assert (a + b)[i] == b[i - |a|];
      }
    }
  }

  /** The patch text of a group key has no `_`. */
  lemma PatchPlain(q: string)
    requires |q| >= 2 && IsDigit(q[0]) && IsDigit(q[1]) && AtEnd(q[2..])
    ensures Plain(q)
  {
    forall i | 0 <= i < |q| ensures q[i] != '_' {
      if i >= 2 {
        assert q[2..][i - 2] == q[i];
      }
    }
  }

  /** The slashes `lstrip('/')` drops hold no `_`. */
  lemma SlashesPlain(key: string)
    ensures key == key[..|key| - |LStrip(key, '/')|] + LStrip(key, '/')
    ensures Plain(key[..|key| - |LStrip(key, '/')|])
  {
    var pre := key[..|key| - |LStrip(key, '/')|];
    forall i | 0 <= i < |pre| ensures pre[i] != '_' { assert pre[i] == key[i]; }
  }

  lemma Regroup(pre: string, head: string, d: string, q: string)
    ensures pre + (head + "_" + d + "_" + q) == (pre + head) + "_" + d + "_" + q
  {
    var a := head + "_" + d;
    Assoc(pre, a + "_", q);
    Assoc(pre, a, "_");
    Assoc(pre, head + "_", d);
    Assoc(pre, head, "_");
  }

  /** A key matching a group pattern after `lstrip('/')` is three
      `_`-free fields. */
  lemma GroupKeyFields(key: string, head: string) returns (first: string)
    requires Plain(head) && |head| > 0 && head[0] != '/'
    requires GroupParts(LStrip(key, '/'), head).Some?
    ensures Plain(first)
    ensures key == first + "_" + GroupParts(LStrip(key, '/'), head).value.0 + "_" + GroupParts(LStrip(key, '/'), head).value.1
  {
    var s := LStrip(key, '/');
    var g := GroupParts(s, head).value;
    SlashesPlain(key);
    var pre := key[..|key| - |s|];
    PlainConcat(pre, head);
    first := pre + head;
    Regroup(pre, head, g.0, g.1);
  }

  /** A key matching a group pattern, after `lstrip('/')`, parses into the
      tract its digits spell and the patch digits joined by `,`. */
  lemma GroupKeyInfo(key: string, head: string)
    requires Plain(head) && |head| > 0 && head[0] != '/'
    requires GroupParts(LStrip(key, '/'), head).Some?
    ensures DatasetInfo(key) == Ok(Info(DigitsValue(GroupParts(LStrip(key, '/'), head).value.0),
                                       JoinChars(GroupParts(LStrip(key, '/'), head).value.1, ',')))
  {
    var g := GroupParts(LStrip(key, '/'), head).value;
    var first := GroupKeyFields(key, head);
    PatchPlain(g.1);
    FieldsInfo(first, g.0, g.1);
  }

  /** The key `object_4850_42` is tract 4850, patch `4,2`. */
  lemma ExampleKey()
    ensures DatasetInfo("object_4850_42") == Ok(Info(4850, "4,2"))
  {
    assert Plain("object") by {
      forall i | 0 <= i < 6 ensures "object"[i] != '_' { }
    }
    assert Plain("42") by {
      forall i | 0 <= i < 2 ensures "42"[i] != '_' { }
    }
    assert "object_4850_42" == "object" + "_" + "4850" + "_" + "42";
    FieldsInfo("object", "4850", "42");
    assert DigitsValue("4850") == 4850 by {
      assert "4850"[..3] == "485" && "485"[..2] == "48" && "48"[..1] == "4" && "4"[..0] == "";
    }
  }

  /** The key `object_x` raises `ValueError`, not `IndexError`. */
  lemma ExampleNonIntegerKey()
    ensures DatasetInfo("object_x") == Err(ValueError)
  {
    assert Plain("object") by {
      forall i | 0 <= i < 6 ensures "object"[i] != '_' { }
    }
    assert Plain("x");
    assert "object_x" == "object" + "_" + "x";
    TwoFieldsNonInteger("object", "x");
  }

  /** The file patterns `<head>_tract_\d+\.hdf5`, with a final `$` when
      `anchored`, applied with `re.match`. */
  predicate TractFile(f: string, head: string, anchored: bool) {
    var p := head + "_tract_";
    StartsWith(f, p) &&
    var rest := f[|p|..];
    var n := LeadingDigits(rest);
    n > 0 && StartsWith(rest[n..], ".hdf5") && (anchored ==> AtEnd(rest[n + 5..]))
  }

  /** The object reader's default file pattern `(?:merged|object)_tract_\d+\.hdf5$`. */
  predicate ObjectFile(f: string)
    ensures ObjectFile(f) ==> StartsWith(f, "merged_tract_") || StartsWith(f, "object_tract_")
  {
    TractFile(f, "merged", true) || TractFile(f, "object", true)
  }

  /** The coadd readers' default file pattern `merged_tract_\d+\.hdf5`,
      which has no `$`. */
  predicate CoaddFile(f: string)
    ensures CoaddFile(f) ==> StartsWith(f, "merged_tract_") && !StartsWith(f, "object_tract_")
  {
    TractFile(f, "merged", false)
  }

  /** A tract file name followed by `tail` matches; an anchored pattern
      lets only the end or a newline follow. */
  lemma TractFileOf(head: string, digits: string, tail: string, anchored: bool)
    requires |digits| > 0 && AllDigits(digits)
    ensures TractFile(head + "_tract_" + digits + ".hdf5" + tail, head, anchored) <==> (anchored ==> AtEnd(tail))
  {
    var p := head + "_tract_";
    var f := p + digits + ".hdf5" + tail;
    assert f[..|p|] == p;
    var rest := f[|p|..];
    assert rest == digits + (".hdf5" + tail);
    LeadingDigitsOver(digits, ".hdf5" + tail);
    assert rest[|digits|..] == ".hdf5" + tail;
    assert (".hdf5" + tail)[..5] == ".hdf5";
    assert rest[|digits| + 5..] == tail;
  }

  /** The values a native quantity getter can hand out. */
  datatype Scalar = Int(i: int) | Str(s: string)

  /** A column as the getters return it: the stored values, one scalar
      repeated `len(d)` times (`np.repeat`), or `len(d)` NaNs. */
  datatype Column<V> = Values(values: seq<V>) | Repeat(value: Scalar, count: nat) | Missing(count: nat)

  /** The native filter quantities `{'tract', 'patch'}`. */
  predicate IsFilterQuantity(q: string) { q == "tract" || q == "patch" }

  function InfoValue(info: Info, q: string): Scalar
    requires IsFilterQuantity(q)
  {
    if q == "tract" then Int(info.tract) else Str(info.patch)
  }

  /** The object reader's getter: the stored column when there is one;
      otherwise the tract or patch repeated, or NaNs for anything else. */
  function DataFirst<V>(info: Info, frame: map<string, seq<V>>, len: nat, q: string): (c: Column<V>)
    ensures q in frame ==> c == Values(frame[q])
    ensures q !in frame ==> c.Repeat? == IsFilterQuantity(q)
  {
    if q in frame then Values(frame[q])
    else if IsFilterQuantity(q) then Repeat(InfoValue(info, q), len)
    else Missing(len)
  }

  /** The coadd and static coadd readers' getter: the tract or patch
      repeated first, then NaNs for a column the dataset lacks, then the
      stored column. */
  function FilterFirst<V>(info: Info, frame: map<string, seq<V>>, len: nat, q: string): (c: Column<V>)
    ensures IsFilterQuantity(q) ==> c == Repeat(InfoValue(info, q), len)
    ensures !IsFilterQuantity(q) ==> (c.Values? <==> q in frame)
  {
    if IsFilterQuantity(q) then Repeat(InfoValue(info, q), len)
    else if q !in frame then Missing(len)
    else Values(frame[q])
  }

  /** The two getters agree unless the dataset itself stores a `tract` or
      `patch` column; then the object reader returns the stored column and
      the others the parsed value. */
  lemma GettersAgree<V>(info: Info, frame: map<string, seq<V>>, len: nat, q: string)
    ensures !IsFilterQuantity(q) || q !in frame ==> DataFirst(info, frame, len, q) == FilterFirst(info, frame, len, q)
    ensures IsFilterQuantity(q) && q in frame ==>
      DataFirst(info, frame, len, q) == Values(frame[q]) && FilterFirst(info, frame, len, q).Repeat?
  {
  }

  /** Number of rows of a column. */
  function Rows<V>(c: Column<V>): nat {
    match c
    case Values(vs) => |vs|
    case Repeat(_, n) => n
    case Missing(n) => n
  }

  /** When every stored column has `len` rows, so does whatever a getter
      returns. */
  lemma GettersRows<V>(info: Info, frame: map<string, seq<V>>, len: nat, q: string)
    requires forall k :: k in frame ==> |frame[k]| == len
    ensures Rows(DataFirst(info, frame, len, q)) == len
    ensures Rows(FilterFirst(info, frame, len, q)) == len
  {
  }

  /** The union of the datasets' column sets. */
  function Union(cs: seq<set<string>>): (r: set<string>)
    ensures forall c :: c in r <==> exists i :: 0 <= i < |cs| && c in cs[i]
    decreases |cs|
  {
    if |cs| == 0 then {}
    else
      var rest := Union(cs[1..]);
      assert forall i :: 1 <= i < |cs| ==> cs[i] == cs[1..][i - 1];
      cs[0] + rest
  }

  /** `_generate_native_quantity_list`: every dataset's columns, and `tract`
      and `patch`. */
  function NativeQuantities(cs: seq<set<string>>): (r: set<string>)
    ensures forall c :: c in r <==> IsFilterQuantity(c) || exists i :: 0 <= i < |cs| && c in cs[i]
  {
    Union(cs) + {"tract", "patch"}
  }

  function Tracts(infos: seq<Info>): (r: seq<int>)
    ensures |r| == |infos| && forall i :: 0 <= i < |infos| ==> r[i] == infos[i].tract
  {
    seq(|infos|, i requires 0 <= i < |infos| => infos[i].tract)
  }

  /** `available_tracts`: `sorted(set(...))` of the datasets' tracts. */
  function AvailableTracts(infos: seq<Info>): (r: seq<int>)
    ensures Increasing(r)
    ensures forall t :: t in r <==> exists i :: 0 <= i < |infos| && infos[i].tract == t
  {
    var ts := Tracts(infos);
    assert forall t :: t in ts <==> exists i :: 0 <= i < |infos| && infos[i].tract == t by {
      forall t ensures t in ts <==> exists i :: 0 <= i < |infos| && infos[i].tract == t {
        if t in ts {
          var i :| 0 <= i < |ts| && ts[i] == t;
          assert infos[i].tract == t;
        }
      }
    }
    SortUnique(ts)
  }

  /** The object and coadd readers' dataset loop keeps a dataset unless a
      filter is given and its `check_scalar` rejects the dataset's info. */
  function ScalarCheck(check: Option<Info -> bool>): Info -> bool {
    (info: Info) => check.None? || check.value(info)
  }

  function CheckedDatasets(infos: seq<Info>, check: Option<Info -> bool>): (r: seq<Info>)
    ensures forall i :: 0 <= i < |r| ==> r[i] in infos && (check.None? || check.value(r[i]))
    ensures forall i :: 0 <= i < |infos| && (check.None? || check.value(infos[i])) ==> infos[i] in r
  {
    Filter(infos, ScalarCheck(check))
  }

  /** Without a filter every dataset is visited, in order. */
  lemma {:induction false} CheckedAll(infos: seq<Info>)
    ensures CheckedDatasets(infos, None) == infos
    decreases |infos|
  {
    if |infos| > 0 {
      CheckedAll(infos[1..]);
      assert infos == [infos[0]] + infos[1..];
    }
  }

  /** A static reader's native filter `(f, c1, c2, ...)`: `f` applied to
      the named entries of the dataset info. */
  datatype ColumnFilter = ColumnFilter(test: seq<Scalar> -> bool, args: seq<string>)

  /** `dataset_info[c]` for every argument, or `KeyError` for the first
      one that is neither `tract` nor `patch`. */
  function Args(info: Info, args: seq<string>): (r: Result<seq<Scalar>>)
    ensures r.Err? <==> exists k :: 0 <= k < |args| && !IsFilterQuantity(args[k])
    ensures r.Err? ==> r.error == KeyError
    ensures r.Ok? ==> |r.value| == |args| && forall k :: 0 <= k < |args| ==> r.value[k] == InfoValue(info, args[k])
    decreases |args|
  {
    if |args| == 0 then Ok([])
    else if !IsFilterQuantity(args[0]) then Err(KeyError)
    else
      assert forall k :: 1 <= k < |args| ==> args[k] == args[1..][k - 1];
      match Args(info, args[1..])
      case Err(e) => Err(e)
      case Ok(vs) => Ok([InfoValue(info, args[0])] + vs)
  }

  /** The filter names only `tract` and `patch` and accepts the info. */
  predicate Holds(f: ColumnFilter, info: Info) {
    Args(info, f.args).Ok? && f.test(Args(info, f.args).value)
  }

  /** `all(f[0](*(info[c] for c in f[1:])) for f in filters)`: stops at the
      first filter that rejects, and raises `KeyError` when it reaches a
      filter naming another column. */
  function AllHold(fs: seq<ColumnFilter>, info: Info): (r: Result<bool>)
    ensures r.Err? ==> r.error == KeyError
    ensures r == Ok(true) <==> forall k :: 0 <= k < |fs| ==> Holds(fs[k], info)
    decreases |fs|
  {
    if |fs| == 0 then Ok(true)
    else
      assert forall k :: 1 <= k < |fs| ==> fs[k] == fs[1..][k - 1];
      match Args(info, fs[0].args)
      case Err(e) => Err(e)
      case Ok(vs) => if !fs[0].test(vs) then Ok(false) else AllHold(fs[1..], info)
  }

  /** Iterating a static reader: the datasets yielded, and the error that
      ended the iteration early, if any. */
  datatype Run = Run(yielded: seq<Info>, error: Option<PyError>)

  /** `_iter_native_dataset` of the static readers: no filters (`None` or
      an empty list) keeps every dataset; otherwise a dataset is kept when
      all filters hold. `nodes[i]` says whether the dataset's table can be
      read; a missing node is skipped with a warning by the static coadd
      reader (`skipMissing`) and raises `NoSuchNodeError` in the merged
      reader. */
  function StaticRun(infos: seq<Info>, fs: seq<ColumnFilter>, nodes: seq<bool>, skipMissing: bool): (r: Run)
    requires |nodes| == |infos|
    ensures r.error.Some? ==> r.error.value == KeyError || r.error.value == NoSuchNode
    ensures skipMissing ==> r.error != Some(NoSuchNode)
    ensures forall x :: x in r.yielded ==> x in infos
    decreases |infos|
  {
    if |infos| == 0 then Run([], None)
    else
      var rest := StaticRun(infos[1..], fs, nodes[1..], skipMissing);
      var pass := if |fs| == 0 then Ok(true) else AllHold(fs, infos[0]);
      match pass
      case Err(e) => Run([], Some(e))
      case Ok(keep) =>
        if !keep then rest
        else if nodes[0] then Run([infos[0]] + rest.yielded, rest.error)
        else if skipMissing then rest
        else Run([], Some(NoSuchNode))
  }

  /** The dataset at position `i` is wanted: the filters hold and its table
      can be read. */
  predicate Wanted(infos: seq<Info>, fs: seq<ColumnFilter>, nodes: seq<bool>, i: nat)
    requires i < |infos| == |nodes|
  {
    nodes[i] && forall k :: 0 <= k < |fs| ==> Holds(fs[k], infos[i])
  }

  /** Some dataset equal to `x` is wanted. */
  predicate SomeWanted(infos: seq<Info>, fs: seq<ColumnFilter>, nodes: seq<bool>, x: Info)
    requires |infos| == |nodes|
  {
    exists i :: 0 <= i < |infos| && infos[i] == x && Wanted(infos, fs, nodes, i)
  }

  /** Filters naming only `tract` and `patch` never raise: `all` is true
      exactly when every filter holds. */
  lemma {:induction false} AllHoldClean(fs: seq<ColumnFilter>, info: Info)
    requires forall k, j :: 0 <= k < |fs| && 0 <= j < |fs[k].args| ==> IsFilterQuantity(fs[k].args[j])
    ensures AllHold(fs, info).Ok?
    decreases |fs|
  {
    if |fs| > 0 {
      assert Args(info, fs[0].args).Ok?;
      AllHoldClean(fs[1..], info);
    }
  }

  lemma SomeWantedStep(infos: seq<Info>, fs: seq<ColumnFilter>, nodes: seq<bool>, x: Info)
    requires |infos| == |nodes| && |infos| > 0
    ensures SomeWanted(infos, fs, nodes, x) <==>
      (x == infos[0] && Wanted(infos, fs, nodes, 0)) || SomeWanted(infos[1..], fs, nodes[1..], x)
  {
    if SomeWanted(infos, fs, nodes, x) {
      var i :| 0 <= i < |infos| && infos[i] == x && Wanted(infos, fs, nodes, i);
      if i > 0 {
        assert infos[1..][i - 1] == x && nodes[1..][i - 1] == nodes[i];
      }
    }
    if SomeWanted(infos[1..], fs, nodes[1..], x) {
      var i :| 0 <= i < |infos[1..]| && infos[1..][i] == x && Wanted(infos[1..], fs, nodes[1..], i);
      assert infos[i + 1] == x && nodes[i + 1] == nodes[1..][i];
    }
  }

  /** When every filter names only `tract` and `patch` and no table is
      missing (or missing ones are skipped), the run ends normally and
      yields exactly the wanted datasets. */
  lemma {:induction false} StaticRunSpec(infos: seq<Info>, fs: seq<ColumnFilter>, nodes: seq<bool>, skipMissing: bool)
    requires |nodes| == |infos|
    requires forall k, j :: 0 <= k < |fs| && 0 <= j < |fs[k].args| ==> IsFilterQuantity(fs[k].args[j])
    requires skipMissing || forall i :: 0 <= i < |nodes| ==> nodes[i]
    ensures StaticRun(infos, fs, nodes, skipMissing).error.None?
    ensures forall x :: x in StaticRun(infos, fs, nodes, skipMissing).yielded <==> SomeWanted(infos, fs, nodes, x)
    decreases |infos|
  {
    if |infos| > 0 {
      StaticRunSpec(infos[1..], fs, nodes[1..], skipMissing);
      AllHoldClean(fs, infos[0]);
      forall x
        ensures SomeWanted(infos, fs, nodes, x) <==>
          (x == infos[0] && Wanted(infos, fs, nodes, 0)) || SomeWanted(infos[1..], fs, nodes[1..], x)
      {
        SomeWantedStep(infos, fs, nodes, x);
      }
    }
  }
}
