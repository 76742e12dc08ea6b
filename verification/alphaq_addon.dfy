/** The AlphaQ add-on catalogs (`alphaq_addon.py`).

    The tidal catalog reads one structured HDF5 array. Its native names are
    the array's field names and, for a field with a shape, one name per
    element, `field/i1/.../ik`; the getter reads such a name back into the
    field and the indices. The add-on catalog extends the AlphaQ galaxy
    catalog with the data sets of an extra file and routes each name to the
    file that holds it. */
module AlphaQ {
  import opened Wrappers
  import opened Strings
  import opened Tables

  /** `str(i)` of each index, in order. */
  function IndexStrings(idx: seq<nat>): (r: seq<string>)
    ensures |r| == |idx|
  {
    seq(|idx|, k requires 0 <= k < |idx| => NatToString(idx[k]))
  }

  /** `(name + '/' + '/'.join(map(str, indices))).strip('/')`. */
  function IndexName(name: string, idx: seq<nat>): string {
    Strip(name + "/" + Join(IndexStrings(idx), "/"), '/')
  }

  /** A field of the structured array: its name and the shape of one
      element (empty for a scalar field). */
  datatype FieldSpec = FieldSpec(name: string, shape: seq<nat>)

  /** `[i] + t` for each `i` below `n` and each `t` of `ts`, `i` outer. */
  function Prefixed(n: nat, ts: seq<seq<nat>>): seq<seq<nat>>
    decreases n
  {
    if n == 0 then [] else Prefixed(n - 1, ts) + Prefixes(n - 1, ts)
  }

  /** `[i] + t` for each `t` of `ts`. */
  function Prefixes(i: nat, ts: seq<seq<nat>>): seq<seq<nat>> {
    seq(|ts|, k requires 0 <= k < |ts| => [i] + ts[k])
  }

  lemma PrefixesSpec(i: nat, ts: seq<seq<nat>>, u: seq<nat>)
    ensures u in Prefixes(i, ts) <==> |u| > 0 && u[0] == i && u[1..] in ts
  {
    if |u| > 0 && u[0] == i && u[1..] in ts {
      var k :| 0 <= k < |ts| && ts[k] == u[1..];
      assert Prefixes(i, ts)[k] == [i] + u[1..] == u;
    }
    if u in Prefixes(i, ts) {
      var k :| 0 <= k < |ts| && Prefixes(i, ts)[k] == u;
      assert u[1..] == ts[k];
    }
  }

  /** The prefixed tuples are those whose head is below `n` and whose
      tail is one of `ts`. */
  lemma {:induction false} PrefixedSpec(n: nat, ts: seq<seq<nat>>, u: seq<nat>)
    ensures u in Prefixed(n, ts) <==> |u| > 0 && u[0] < n && u[1..] in ts
    decreases n
  {
    if n > 0 {
      PrefixedSpec(n - 1, ts, u);
      PrefixesSpec(n - 1, ts, u);
    }
  }

  /** Index tuples within a shape: as many indices as dimensions, each
      below its dimension. */
  predicate InShape(idx: seq<nat>, shape: seq<nat>) {
    |idx| == |shape| && forall k :: 0 <= k < |idx| ==> idx[k] < shape[k]
  }

  /** `itertools.product(*map(range, shape))`. */
  function Product(shape: seq<nat>): seq<seq<nat>>
    decreases |shape|
  {
    if |shape| == 0 then [[]] else Prefixed(shape[0], Product(shape[1..]))
  }

  /** The product enumerates exactly the index tuples within the shape. */
  lemma {:induction false} ProductSpec(shape: seq<nat>, idx: seq<nat>)
    ensures idx in Product(shape) <==> InShape(idx, shape)
    decreases |shape|
  {
    if |shape| == 0 {
      assert idx in [[]] <==> idx == [];
    } else if |idx| == 0 {
      PrefixedSpec(shape[0], Product(shape[1..]), idx);
    } else {
      PrefixedSpec(shape[0], Product(shape[1..]), idx);
      ProductSpec(shape[1..], idx[1..]);
      if InShape(idx[1..], shape[1..]) && idx[0] < shape[0] {
        forall k | 0 <= k < |idx| ensures idx[k] < shape[k] {
          if k > 0 { assert idx[k] == idx[1..][k - 1]; }
        }
      }
      if InShape(idx, shape) {
        forall k | 0 <= k < |idx| - 1 ensures idx[1..][k] < shape[1..][k] {
          assert idx[1..][k] == idx[k + 1];
        }
      }
    }
  }

  /** The names one field contributes: its own name, and one per element
      when it has a shape. */
  function FieldNames(f: FieldSpec): set<string> {
    {f.name} + if |f.shape| > 0 then set idx | idx in Product(f.shape) :: IndexName(f.name, idx) else {}
  }

  /** `_generate_native_quantity_list` of the tidal catalog. */
  function TidalNatives(fields: seq<FieldSpec>): set<string> {
    set i, n | 0 <= i < |fields| && n in FieldNames(fields[i]) :: n
  }

  /** What the getter reads: a whole field, or `data[name][:, i1, ..., ik]`. */
  datatype Access = Whole(field: string) | Indexed(field: string, indices: seq<int>)

  /** `int(i)` of each piece; the first failure raises `ValueError`. */
  function ParseInts(ss: seq<string>): (r: Result<seq<int>>)
    ensures r.Err? ==> r.error == ValueError
    ensures r.Ok? ==> |r.value| == |ss|
    decreases |ss|
  {
    if |ss| == 0 then Ok([])
    else if PyInt(ss[0]).Err? then Err(ValueError)
    else
      var rest := ParseInts(ss[1..]);
      if rest.Err? then rest else Ok([PyInt(ss[0]).value] + rest.value)
  }

  /** Every piece is an integer literal. */
  predicate AllInts(ss: seq<string>) {
    forall k :: 0 <= k < |ss| ==> PyInt(ss[k]).Ok?
  }

  lemma AllIntsTail(ss: seq<string>)
    requires |ss| > 0
    ensures AllInts(ss) <==> PyInt(ss[0]).Ok? && AllInts(ss[1..])
  {
    assert forall k :: 1 <= k < |ss| ==> ss[k] == ss[1..][k - 1];
  }

  /** The pieces parse exactly when each is an integer. */
  lemma {:induction false} ParseIntsOk(ss: seq<string>)
    ensures ParseInts(ss).Ok? <==> AllInts(ss)
    decreases |ss|
  {
    if |ss| > 0 {
      AllIntsTail(ss);
      ParseIntsOk(ss[1..]);
    }
  }

  /** Parsed pieces are the integers `int` reads piece by piece. */
  lemma {:induction false} ParseIntsValues(ss: seq<string>, k: nat)
    requires ParseInts(ss).Ok? && k < |ss|
    ensures PyInt(ss[k]).Ok? && ParseInts(ss).value[k] == PyInt(ss[k]).value
    decreases |ss|
  {
    var rest := ParseInts(ss[1..]);
    assert ParseInts(ss).value == [PyInt(ss[0]).value] + rest.value;
    if k > 0 {
      ParseIntsValues(ss[1..], k - 1);
      assert ss[1..][k - 1] == ss[k];
    }
  }

  /** The tidal catalog's `native_quantity_getter`: a name without `/` is
      a whole field; otherwise the first piece is the field and the others
      are integer indices after a full slice over the rows. */
  function ParseQuantity(q: string): (r: Result<Access>)
    ensures !HasChar(q, '/') ==> r == Ok(Whole(q))
    ensures r.Err? ==> r.error == ValueError
  {
    if !HasChar(q, '/') then Ok(Whole(q))
    else
      var items := Split(q, "/");
      match ParseInts(items[1..])
      case Err(e) => Err(e)
      case Ok(vs) => Ok(Indexed(items[0], vs))
  }

  lemma {:induction false} ParseIndexStrings(idx: seq<nat>)
    ensures ParseInts(IndexStrings(idx)) == Ok(idx)
    decreases |idx|
  {
    if |idx| > 0 {
      var ss := IndexStrings(idx);
      PyIntNatToString(idx[0]);
      assert ss[0] == NatToString(idx[0]);
      assert ss[1..] == IndexStrings(idx[1..]);
      ParseIndexStrings(idx[1..]);
      assert ParseInts(ss) == Ok([idx[0] as int] + idx[1..]);
      assert [idx[0] as int] + idx[1..] == idx;
    }
  }

  lemma {:induction false} JoinLast(xs: seq<string>, sep: string)
    requires |xs| > 0 && |xs[|xs| - 1]| > 0
    ensures |Join(xs, sep)| > 0
    ensures Join(xs, sep)[|Join(xs, sep)| - 1] == xs[|xs| - 1][|xs[|xs| - 1]| - 1]
    decreases |xs|
  {
    if |xs| > 1 {
      assert xs[1..][|xs| - 2] == xs[|xs| - 1];
      JoinLast(xs[1..], sep);
    }
  }

  lemma DigitsFree(d: string, c: char)
    requires AllDigits(d) && !IsDigit(c)
    ensures !HasChar(d, c)
  {
    forall i | 0 <= i < |d| ensures d[i] != c {
      assert IsDigit(d[i]);
    }
  }

  /** The element name is the field name and the indices joined by `/`:
      the strip touches nothing when the field name does not hold `/`. */
  lemma IndexNameJoined(name: string, idx: seq<nat>)
    requires |name| > 0 && !HasChar(name, '/') && |idx| > 0
    ensures IndexName(name, idx) == name + "/" + Join(IndexStrings(idx), "/")
  {
    var strs := IndexStrings(idx);
    var j := Join(strs, "/");
    var s := name + "/" + j;
    JoinLast(strs, "/");
    var last := strs[|strs| - 1];
    assert last == NatToString(idx[|idx| - 1]);
    assert IsDigit(last[|last| - 1]);
    assert s[|s| - 1] == j[|j| - 1];
    assert s[0] == name[0];
    StripKeeps(s, '/');
  }

  /** `name/i1/.../ik` splits back into the name and the indices. */
  lemma ParseJoined(name: string, idx: seq<nat>)
    requires |name| > 0 && !HasChar(name, '/') && |idx| > 0
    ensures HasChar(name + "/" + Join(IndexStrings(idx), "/"), '/')
    ensures ParseQuantity(name + "/" + Join(IndexStrings(idx), "/")) == Ok(Indexed(name, idx))
  {
    var strs := IndexStrings(idx);
    var xs := [name] + strs;
    var s := name + "/" + Join(strs, "/");
    assert xs[1..] == strs;
    assert Join(xs, "/") == s;
    assert s[|name|] == '/';
    forall k | 0 <= k < |xs| ensures !HasChar(xs[k], '/') {
      if k > 0 {
        assert xs[k] == NatToString(idx[k - 1]);
        DigitsFree(NatToString(idx[k - 1]), '/');
      }
    }
    SplitJoin(xs, '/');
    assert Split(s, "/") == xs;
    ParseIndexStrings(idx);
  }

  /** The getter inverts the naming: an element name reads back as its
      field and its indices. */
  lemma ParseIndexName(name: string, idx: seq<nat>)
    requires |name| > 0 && !HasChar(name, '/') && |idx| > 0
    ensures HasChar(IndexName(name, idx), '/')
    ensures ParseQuantity(IndexName(name, idx)) == Ok(Indexed(name, idx))
  {
    IndexNameJoined(name, idx);
    ParseJoined(name, idx);
  }

  /** Each index tuple within a field's shape names one of its natives. */
  lemma ElementNameIn(f: FieldSpec, idx: seq<nat>)
    requires |f.shape| > 0 && InShape(idx, f.shape)
    ensures IndexName(f.name, idx) in FieldNames(f)
  {
    ProductSpec(f.shape, idx);
  }

  /** Every native name of a field with a plain name reads back as that
      field: the name itself as the whole field, an element name as its
      indices, which lie within the field's shape. */
  lemma FieldNamesParse(f: FieldSpec, n: string)
    requires |f.name| > 0 && !HasChar(f.name, '/')
    requires n in FieldNames(f)
    ensures ParseQuantity(n) == Ok(Whole(f.name))
      || exists idx: seq<nat> :: InShape(idx, f.shape) && ParseQuantity(n) == Ok(Indexed(f.name, idx))
  {
    if n != f.name {
      var idx :| idx in Product(f.shape) && n == IndexName(f.name, idx);
      ProductSpec(f.shape, idx);
      ParseIndexName(f.name, idx);
    }
  }

  /** The native names of the tidal catalog are the names its fields
      contribute, and each reads back as its own field. */
  lemma TidalNativesParse(fields: seq<FieldSpec>, n: string)
    requires forall i :: 0 <= i < |fields| ==> |fields[i].name| > 0 && !HasChar(fields[i].name, '/')
    requires n in TidalNatives(fields)
    ensures exists i :: 0 <= i < |fields| && n in FieldNames(fields[i]) && ParseQuantity(n).Ok?
  {
    var i :| 0 <= i < |fields| && n in FieldNames(fields[i]);
    FieldNamesParse(fields[i], n);
  }

  /** Python's `d[k] = v` for each pair in turn. */
  function Assign(m: map<string, Modifier>, es: seq<(string, Modifier)>): map<string, Modifier>
    decreases |es|
  {
    if |es| == 0 then m else Assign(m[es[0].0 := es[0].1], es[1..])
  }

  /** Every assignment to `k` in `es` assigns `v`. */
  predicate AssignsOnly(es: seq<(string, Modifier)>, k: string, v: Modifier) {
    forall j :: 0 <= j < |es| && es[j].0 == k ==> es[j].1 == v
  }

  /** After the assignments a key is present when it was before or is
      assigned; when every assignment to it and any earlier value agree, it
      holds that value. */
  lemma {:induction false} AssignLookup(m: map<string, Modifier>, es: seq<(string, Modifier)>, k: string, v: Modifier)
    requires k in m ==> m[k] == v
    requires AssignsOnly(es, k, v)
    ensures k in Assign(m, es) <==> k in m || exists j :: 0 <= j < |es| && es[j].0 == k
    ensures k in Assign(m, es) ==> Assign(m, es)[k] == v
    decreases |es|
  {
    if |es| > 0 {
      AssignLookup(m[es[0].0 := es[0].1], es[1..], k, v);
      assert forall j :: 1 <= j < |es| ==> es[j] == es[1..][j - 1];
      if k !in m && exists j :: 0 <= j < |es| && es[j].0 == k {
        var j :| 0 <= j < |es| && es[j].0 == k;
        if j > 0 { assert es[1..][j - 1].0 == k; }
      }
    }
  }

  /** `'tidal_eigvals[{}]'.format(i)` and `'eigvals/{}'.format(i)`. */
  function EigvalKey(i: nat): string { "tidal_eigvals[" + NatToString(i) + "]" }

  function EigvalNative(i: nat): string { "eigvals/" + NatToString(i) }

  /** `'tidal_eigvects[{}][{}]'.format(i, j)` and
      `'eigvects/{}/{}'.format(i, j)`. */
  function EigvectKey(i: nat, j: nat): string {
    "tidal_eigvects[" + NatToString(i) + "][" + NatToString(j) + "]"
  }

  function EigvectNative(i: nat, j: nat): string {
    "eigvects/" + NatToString(i) + "/" + NatToString(j)
  }

  /** The assignments of the eigenvalue loop and of the eigenvector loop
      over `product(range(3), repeat=2)`, `i` outer. */
  function EigvalEntries(): seq<(string, Modifier)> {
    seq(3, i requires 0 <= i < 3 => (EigvalKey(i), Alias(EigvalNative(i))))
  }

  function EigvectEntries(): seq<(string, Modifier)> {
    seq(9, k requires 0 <= k < 9 => (EigvectKey(k / 3, k % 3), Alias(EigvectNative(k / 3, k % 3))))
  }

  /** `_quantity_modifiers` of the tidal catalog: `galaxy_id` read as
      itself, then the three eigenvalues and the nine eigenvector
      components. */
  function TidalModifiers(): map<string, Modifier> {
    Assign(map["galaxy_id" := Identity], EigvalEntries() + EigvectEntries())
  }

  /** The keys tell their entries apart: the eigenvalue keys by their one
      digit, the eigenvector keys by their two, and the two families by the
      letter after `tidal_eigv`. */
  lemma EigvalKeyChars(i: nat)
    requires i < 10
    ensures |EigvalKey(i)| == 16 && EigvalKey(i)[10] == 'a' && EigvalKey(i)[14] == DigitChar(i)
  {
  }

  lemma EigvectKeyChars(i: nat, j: nat)
    requires i < 10 && j < 10
    ensures |EigvectKey(i, j)| == 20 && EigvectKey(i, j)[10] == 'e'
    ensures EigvectKey(i, j)[15] == DigitChar(i) && EigvectKey(i, j)[18] == DigitChar(j)
  {
  }

  lemma DigitCharInjective(a: nat, b: nat)
    requires a < 10 && b < 10
    ensures DigitChar(a) == DigitChar(b) ==> a == b
  {
  }

  lemma EigvalKeysApart(i: nat)
    requires i < 3
    ensures AssignsOnly(EigvalEntries() + EigvectEntries(), EigvalKey(i), Alias(EigvalNative(i)))
  {
    var es := EigvalEntries() + EigvectEntries();
    EigvalKeyChars(i);
    forall j | 0 <= j < |es| ensures es[j].0 == EigvalKey(i) ==> es[j].1 == Alias(EigvalNative(i)) {
      if j < 3 {
        EigvalKeyChars(j);
      } else {
        EigvectKeyChars((j - 3) / 3, (j - 3) % 3);
        assert es[j].0[10] != EigvalKey(i)[10];
      }
    }
  }

  lemma EigvectKeysApart(i: nat, i2: nat)
    requires i < 3 && i2 < 3
    ensures AssignsOnly(EigvalEntries() + EigvectEntries(), EigvectKey(i, i2), Alias(EigvectNative(i, i2)))
  {
    var es := EigvalEntries() + EigvectEntries();
    EigvectKeyChars(i, i2);
    forall j | 0 <= j < |es| ensures es[j].0 == EigvectKey(i, i2) ==> es[j].1 == Alias(EigvectNative(i, i2)) {
      if j < 3 {
        EigvalKeyChars(j);
        assert es[j].0[10] != EigvectKey(i, i2)[10];
      } else {
        var a, b := (j - 3) / 3, (j - 3) % 3;
        assert es[j] == (EigvectKey(a, b), Alias(EigvectNative(a, b)));
        EigvectKeyChars(a, b);
        DigitCharInjective(a, i);
        DigitCharInjective(b, i2);
      }
    }
  }

  lemma EigvalNativeJoined(i: nat)
    ensures EigvalNative(i) == "eigvals" + "/" + Join(IndexStrings([i]), "/")
  {
    assert IndexStrings([i]) == [NatToString(i)];
  }

  lemma EigvectNativeJoined(i: nat, j: nat)
    ensures EigvectNative(i, j) == "eigvects" + "/" + Join(IndexStrings([i, j]), "/")
  {
    assert IndexStrings([i, j]) == [NatToString(i), NatToString(j)];
    JoinPair(NatToString(i), NatToString(j), "/");
  }

  /** The native of an eigenvalue is the element name of the `eigvals`
      field, and that of an eigenvector component the element name of the
      `eigvects` field. */
  lemma EigvalNativeName(i: nat)
    ensures EigvalNative(i) == IndexName("eigvals", [i])
  {
    EigvalNativeJoined(i);
    IndexNameJoined("eigvals", [i]);
  }

  lemma EigvectNativeName(i: nat, j: nat)
    ensures EigvectNative(i, j) == IndexName("eigvects", [i, j])
  {
    EigvectNativeJoined(i, j);
    IndexNameJoined("eigvects", [i, j]);
  }

  /** Each eigenvalue reads element `i` of the `eigvals` field. */
  lemma TidalEigval(i: nat)
    requires i < 3
    ensures EigvalKey(i) in TidalModifiers()
    ensures TidalModifiers()[EigvalKey(i)] == Alias(IndexName("eigvals", [i]))
  {
    var es := EigvalEntries() + EigvectEntries();
    EigvalKeysApart(i);
    EigvalKeyChars(i);
    assert EigvalKey(i) != "galaxy_id";
    AssignLookup(map["galaxy_id" := Identity], es, EigvalKey(i), Alias(EigvalNative(i)));
    assert es[i].0 == EigvalKey(i);
    EigvalNativeName(i);
  }

  /** Each eigenvector component reads element `(i, j)` of the `eigvects`
      field. */
  lemma TidalEigvect(i: nat, j: nat)
    requires i < 3 && j < 3
    ensures EigvectKey(i, j) in TidalModifiers()
    ensures TidalModifiers()[EigvectKey(i, j)] == Alias(IndexName("eigvects", [i, j]))
  {
    var es := EigvalEntries() + EigvectEntries();
    EigvectKeysApart(i, j);
    EigvectKeyChars(i, j);
    assert EigvectKey(i, j) != "galaxy_id";
    AssignLookup(map["galaxy_id" := Identity], es, EigvectKey(i, j), Alias(EigvectNative(i, j)));
    assert es[3 + 3 * i + j].0 == EigvectKey(i, j);
    EigvectNativeName(i, j);
  }

  /** `galaxy_id` is read under its own name. */
  lemma TidalGalaxyId()
    ensures "galaxy_id" in TidalModifiers() && TidalModifiers()["galaxy_id"] == Identity
  {
    var es := EigvalEntries() + EigvectEntries();
    forall j | 0 <= j < |es| ensures es[j].0 != "galaxy_id" {
      if j < 3 { EigvalKeyChars(j); } else { EigvectKeyChars((j - 3) / 3, (j - 3) % 3); }
    }
    AssignLookup(map["galaxy_id" := Identity], es, "galaxy_id", Identity);
  }

  /** The tidal field names hold no `/`. */
  lemma PlainFieldNames()
    ensures !HasChar("eigvals", '/') && !HasChar("eigvects", '/')
  {
  }

  /** The eigenvalue natives are element names of a three-element
      `eigvals` field, and the getter reads each back as that element. */
  lemma TidalEigvalRead(f: FieldSpec, i: nat)
    requires f.name == "eigvals" && f.shape == [3] && i < 3
    ensures EigvalNative(i) in FieldNames(f)
    ensures ParseQuantity(EigvalNative(i)) == Ok(Indexed("eigvals", [i]))
  {
    PlainFieldNames();
    ParseIndexName("eigvals", [i]);
    EigvalNativeName(i);
    ElementNameIn(f, [i]);
  }

  /** The eigenvector natives are element names of a 3x3 `eigvects`
      field, and the getter reads each back as that element. */
  lemma TidalEigvectRead(f: FieldSpec, i: nat, j: nat)
    requires f.name == "eigvects" && f.shape == [3, 3] && i < 3 && j < 3
    ensures EigvectNative(i, j) in FieldNames(f)
    ensures ParseQuantity(EigvectNative(i, j)) == Ok(Indexed("eigvects", [i, j]))
  {
    PlainFieldNames();
    ParseIndexName("eigvects", [i, j]);
    EigvectNativeName(i, j);
    ElementNameIn(f, [i, j]);
  }

  /** The add-on's native quantities: the parent catalog's, and every data
      set (not group) found walking the add-on group. */
  function AddonDatasets(objects: seq<(string, bool)>): (r: set<string>)
    ensures forall n :: n in r <==> exists k :: 0 <= k < |objects| && objects[k].1 && objects[k].0 == n
  {
    set k | 0 <= k < |objects| && objects[k].1 :: objects[k].0
  }

  function AddonNatives(parent: set<string>, objects: seq<(string, bool)>): (r: set<string>)
    ensures r == parent + AddonDatasets(objects)
  {
    parent + AddonDatasets(objects)
  }

  /** Where the add-on getter reads a name. */
  datatype Route = AddonFile(path: string) | MainFile(path: string)

  /** The add-on getter: add-on data sets are read from the add-on file
      under its group, everything else from `galaxyProperties/` of the main
      file. */
  function AddonRoute(addon: set<string>, group: string, quantity: string): (r: Route)
    ensures r.AddonFile? <==> quantity in addon
    ensures r.AddonFile? ==> r.path == group + "/" + quantity
    ensures r.MainFile? ==> r.path == "galaxyProperties/" + quantity
  {
    if quantity in addon then AddonFile(group + "/" + quantity)
    else MainFile("galaxyProperties/" + quantity)
  }

  /** Every add-on native name is read from the file that provides it: the
      add-on's data sets from the add-on file, the parent's other names
      from the main file. */
  lemma AddonRoutesNatives(parent: set<string>, objects: seq<(string, bool)>, group: string, quantity: string)
    requires quantity in AddonNatives(parent, objects)
    ensures var r := AddonRoute(AddonDatasets(objects), group, quantity);
      (r.AddonFile? <==> quantity in AddonDatasets(objects))
      && (r.MainFile? ==> quantity in parent)
  {
  }

  /** The add-on's `_iter_native_dataset`: any truthy native filters fail
      the assertion. */
  function AddonIter<F>(nativeFilters: Option<seq<F>>): (r: Result<bool>)
    ensures r.Err? <==> nativeFilters.Some? && |nativeFilters.value| > 0
    ensures r.Err? ==> r.error == AssertionError
  {
    if nativeFilters.Some? && |nativeFilters.value| > 0 then Err(AssertionError) else Ok(true)
  }
}
