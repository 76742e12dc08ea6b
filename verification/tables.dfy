/** Quantity-modifier tables: the dictionaries every reader builds from
    homogenized quantity names to what they are computed from.

    A reader builds its table by a sequence of assignments `d[key] = value`,
    usually inside loops over bands or variants. The model writes the
    assignments as a list of entries and folds them into a map, so a key
    assigned twice keeps the value of its last assignment, as in Python.

    A key is held as its `_`-separated words: `mag_r_lsst` is
    `["mag", "r", "lsst"]`, and `Key` joins the words back into the Python
    string. Two word lists whose words have no `_` join to the same string
    only when they are equal (`KeyInjective`), so nothing is lost; the gain
    is that keys built from different templates differ word by word. */
module Tables {
  import opened Wrappers
  import opened Strings

  /** A quantity modifier, in the forms the readers use:
      - `Identity`: `None`, the quantity is read under its own name;
      - `Alias(n)`: a plain string, the native quantity `n`;
      - `Derived(f, ns)`: a tuple `(f, n1, n2, ...)`, the function `f`
        applied to the native quantities `ns` (`f` is named, not modelled);
      - `Column(i)`: an integer, the `i`-th column of a native array. */
  datatype Modifier =
    | Identity
    | Alias(native: string)
    | Derived(fn: string, natives: seq<string>)
    | Column(index: nat)

  type Table = map<seq<string>, Modifier>

  /** One assignment `d[Key(words)] = value`. */
  datatype Entry = Entry(words: seq<string>, value: Modifier)

  /** A word of a key: no `_` in it. */
  predicate Word(w: string) { '_' !in w }

  predicate Words(ws: seq<string>) {
    |ws| >= 1 && forall k :: 0 <= k < |ws| ==> Word(ws[k])
  }

  /** The Python key: `'_'.join(words)`. */
  function Key(ws: seq<string>): string { Join(ws, "_") }

  lemma NoUnderscore(w: string)
    requires Word(w)
    ensures !HasChar(w, '_')
  {
  }

  /** Joining with `_` loses nothing when no word holds a `_`: equal keys
      have equal words. */
  lemma KeyInjective(a: seq<string>, b: seq<string>)
    requires Words(a) && Words(b)
    ensures Key(a) == Key(b) <==> a == b
  {
    forall k | 0 <= k < |a| ensures !HasChar(a[k], '_') { NoUnderscore(a[k]); }
    forall k | 0 <= k < |b| ensures !HasChar(b[k], '_') { NoUnderscore(b[k]); }
    SplitJoin(a, '_');
    SplitJoin(b, '_');
  }

  /** A key with one more word is the Python string with `_` and that word
      appended, as `'{}_{}'.format(k, w)` builds it. */
  lemma {:induction false} KeyAppend(ws: seq<string>, w: string)
    requires |ws| >= 1
    ensures Key(ws + [w]) == Key(ws) + "_" + w
    decreases |ws|
  {
    if |ws| == 1 {
      assert ws + [w] == [ws[0], w];
      assert Join([w], "_") == w;
    } else {
      assert (ws + [w])[1..] == ws[1..] + [w];
      KeyAppend(ws[1..], w);
    }
  }

  /** The assignments applied in order to `m`. */
  function Build(m: Table, es: seq<Entry>): Table
    decreases |es|
  {
    if |es| == 0 then m else Build(m[es[0].words := es[0].value], es[1..])
  }

  /** Some entry assigns the key `k`. */
  predicate Writes(es: seq<Entry>, k: seq<string>) {
    exists j :: 0 <= j < |es| && es[j].words == k
  }

  /** The keys after the assignments are the keys before and the keys
      assigned. */
  lemma {:induction false} BuildDomain(m: Table, es: seq<Entry>, k: seq<string>)
    ensures k in Build(m, es) <==> k in m || Writes(es, k)
    decreases |es|
  {
    if |es| > 0 {
      BuildDomain(m[es[0].words := es[0].value], es[1..], k);
      if Writes(es[1..], k) {
        var j :| 0 <= j < |es[1..]| && es[1..][j].words == k;
        assert es[j + 1].words == k;
      }
      if Writes(es, k) && es[0].words != k {
        var j :| 0 <= j < |es| && es[j].words == k;
        assert es[1..][j - 1].words == k;
      }
    }
  }

  /** A key no entry assigns keeps its value. */
  lemma {:induction false} BuildAvoid(m: Table, es: seq<Entry>, k: seq<string>)
    requires !Writes(es, k)
    ensures k in Build(m, es) <==> k in m
    ensures k in m ==> Build(m, es)[k] == m[k]
    decreases |es|
  {
    if |es| > 0 {
      assert es[0].words != k;
      BuildAvoid(m[es[0].words := es[0].value], es[1..], k);
    }
  }

  /** The last assignment to a key decides its value. */
  lemma {:induction false} BuildLast(m: Table, es: seq<Entry>, i: nat)
    requires i < |es|
    requires forall j :: i < j < |es| ==> es[j].words != es[i].words
    ensures es[i].words in Build(m, es)
    ensures Build(m, es)[es[i].words] == es[i].value
    decreases |es|
  {
    var m' := m[es[0].words := es[0].value];
    if i == 0 {
      BuildAvoid(m', es[1..], es[0].words);
    } else {
      assert es[1..][i - 1] == es[i];
      BuildLast(m', es[1..], i - 1);
    }
  }

  lemma {:induction false} BuildAppend(m: Table, a: seq<Entry>, b: seq<Entry>)
    ensures Build(m, a + b) == Build(Build(m, a), b)
    decreases |a|
  {
    if |a| > 0 {
      assert (a + b)[0] == a[0];
      assert (a + b)[1..] == a[1..] + b;
      BuildAppend(m[a[0].words := a[0].value], a[1..], b);
    } else {
      assert a + b == b;
    }
  }

  /** No two entries assign the same key. */
  predicate Distinct(es: seq<Entry>) {
    forall i, j :: 0 <= i < j < |es| ==> es[i].words != es[j].words
  }

  /** Two lists without repeated keys and without a key in common make a
      list without repeated keys. */
  lemma DistinctAppend(a: seq<Entry>, b: seq<Entry>)
    requires Distinct(a) && Distinct(b)
    requires forall i, j :: 0 <= i < |a| && 0 <= j < |b| ==> a[i].words != b[j].words
    ensures Distinct(a + b)
  {
    forall i, j | 0 <= i < j < |a + b|
      ensures (a + b)[i].words != (a + b)[j].words
    {
      if j < |a| {
      } else if i >= |a| {
        assert (a + b)[i] == b[i - |a|] && (a + b)[j] == b[j - |a|];
      } else {
        assert (a + b)[j] == b[j - |a|];
      }
    }
  }

  /** With no repeated keys, each entry's value is the one that stays. */
  lemma DistinctValue(m: Table, es: seq<Entry>, j: nat)
    requires Distinct(es) && j < |es|
    ensures es[j].words in Build(m, es) && Build(m, es)[es[j].words] == es[j].value
  {
    BuildLast(m, es, j);
  }

  /** A written key holds the value of one of the entries assigning it:
      the last one. */
  lemma {:induction false} BuildWriter(m: Table, es: seq<Entry>, k: seq<string>) returns (j: nat)
    requires Writes(es, k)
    ensures j < |es| && es[j].words == k
    ensures k in Build(m, es) && Build(m, es)[k] == es[j].value
    decreases |es|
  {
    var m' := m[es[0].words := es[0].value];
    if Writes(es[1..], k) {
      var j' := BuildWriter(m', es[1..], k);
      j := j' + 1;
    } else {
      j := 0;
      WritesHead(es, k);
      BuildAvoid(m', es[1..], k);
    }
  }

  /** A written key is the key of one of the entries. */
  lemma WritesIndex(es: seq<Entry>, k: seq<string>) returns (j: nat)
    requires Writes(es, k)
    ensures j < |es| && es[j].words == k
  {
    j :| 0 <= j < |es| && es[j].words == k;
  }

  /** Assigning distinct new keys adds one key per entry. */
  lemma {:induction false} BuildCount(m: Table, es: seq<Entry>)
    requires Distinct(es)
    requires forall j :: 0 <= j < |es| ==> es[j].words !in m
    ensures |Build(m, es).Keys| == |m.Keys| + |es|
    decreases |es|
  {
    if |es| > 0 {
      var m' := m[es[0].words := es[0].value];
      assert m'.Keys == m.Keys + {es[0].words};
      forall j | 0 <= j < |es[1..]|
        ensures es[1..][j].words !in m'
      {
        assert es[1..][j] == es[j + 1];
      }
      BuildCount(m', es[1..]);
    }
  }

  /** The entries a loop writes: `block(x)` for each `x` of `xs` in turn. */
  function Loop<X>(xs: seq<X>, block: X -> seq<Entry>): (es: seq<Entry>)
    decreases |xs|
  {
    if |xs| == 0 then [] else block(xs[0]) + Loop(xs[1..], block)
  }

  lemma WritesAppend(a: seq<Entry>, b: seq<Entry>, k: seq<string>)
    ensures Writes(a + b, k) <==> Writes(a, k) || Writes(b, k)
  {
    if Writes(a + b, k) {
      var j :| 0 <= j < |a + b| && (a + b)[j].words == k;
      if j >= |a| {
        assert b[j - |a|].words == k;
      }
    }
    if Writes(b, k) {
      var j :| 0 <= j < |b| && b[j].words == k;
      assert (a + b)[j + |a|].words == k;
    }
    if Writes(a, k) {
      var j :| 0 <= j < |a| && a[j].words == k;
      assert (a + b)[j].words == k;
    }
  }

  /** A key written by the entries but not by their tail is the first
      entry's key. */
  lemma WritesHead(es: seq<Entry>, k: seq<string>)
    requires Writes(es, k) && !Writes(es[1..], k)
    ensures es[0].words == k
  {
    assert forall i :: 1 <= i < |es| ==> es[1..][i - 1] == es[i];
  }

  /** The value of a key some entry assigns depends only on the entries,
      not on the table they are applied to. */
  lemma {:induction false} BuildWritten(m1: Table, m2: Table, es: seq<Entry>, k: seq<string>)
    requires Writes(es, k)
    ensures k in Build(m1, es) && k in Build(m2, es)
    ensures Build(m1, es)[k] == Build(m2, es)[k]
    decreases |es|
  {
    var e := es[0];
    if Writes(es[1..], k) {
      BuildWritten(m1[e.words := e.value], m2[e.words := e.value], es[1..], k);
    } else {
      WritesHead(es, k);
      BuildAvoid(m1[e.words := e.value], es[1..], k);
      BuildAvoid(m2[e.words := e.value], es[1..], k);
    }
  }

  /** When every key a block writes names the loop value it was written
      for (`tag`), and the loop values are distinct, a key of the value
      `xs[i]` ends up as `block(xs[i])` assigns it, or as it was before the
      loop if that block does not assign it: the other blocks never touch
      it. */
  lemma {:induction false} LoopValue<X>(m: Table, xs: seq<X>, block: X -> seq<Entry>,
                                       tag: seq<string> -> X, i: nat, k: seq<string>)
    requires forall x, j :: 0 <= j < |block(x)| ==> tag(block(x)[j].words) == x
    requires forall p, q :: 0 <= p < q < |xs| ==> xs[p] != xs[q]
    requires i < |xs| && tag(k) == xs[i]
    ensures k in Build(m, Loop(xs, block)) <==> k in m || Writes(block(xs[i]), k)
    ensures Writes(block(xs[i]), k) ==>
      (k in Build(map[], block(xs[i])) && Build(m, Loop(xs, block))[k] == Build(map[], block(xs[i]))[k])
    ensures !Writes(block(xs[i]), k) && k in m ==> Build(m, Loop(xs, block))[k] == m[k]
    decreases |xs|
  {
    var first, rest := block(xs[0]), Loop(xs[1..], block);
    BuildAppend(m, first, rest);
    var m' := Build(m, first);
    if i == 0 {
      if Writes(rest, k) {
        var p := LoopWriter(xs[1..], block, k);
        assert false;
      }
      BuildAvoid(m', rest, k);
      BuildDomain(m, first, k);
      if Writes(first, k) {
        BuildWritten(m, map[], first, k);
      } else {
        BuildAvoid(m, first, k);
      }
    } else {
      BuildAvoid(m, first, k);
      assert xs[1..][i - 1] == xs[i];
      LoopValue(m', xs[1..], block, tag, i - 1, k);
    }
  }

  /** The loop position of the block that writes a key. */
  lemma {:induction false} LoopWriter<X>(xs: seq<X>, block: X -> seq<Entry>, k: seq<string>)
    returns (p: nat)
    requires Writes(Loop(xs, block), k)
    ensures p < |xs| && Writes(block(xs[p]), k)
    decreases |xs|
  {
    WritesAppend(block(xs[0]), Loop(xs[1..], block), k);
    if Writes(block(xs[0]), k) {
      p := 0;
    } else {
      var q := LoopWriter(xs[1..], block, k);
      assert xs[1..][q] == xs[q + 1];
      p := q + 1;
    }
  }

  /** A loop that, for each element in turn, writes at most one entry or
      raises; the first failure ends the loop. */
  function Collect<X>(xs: seq<X>, f: X -> Result<Option<Entry>>): (r: Result<seq<Entry>>)
    decreases |xs|
  {
    if |xs| == 0 then Ok([])
    else
      match f(xs[0])
      case Err(e) => Err(e)
      case Ok(o) =>
        match Collect(xs[1..], f)
        case Err(e) => Err(e)
        case Ok(rest) => Ok((if o.Some? then [o.value] else []) + rest)
  }

  /** A loop whose steps fail only with `e` fails only with `e`. */
  lemma {:induction false} CollectErrorKind<X>(xs: seq<X>, f: X -> Result<Option<Entry>>, e: PyError)
    requires forall x :: f(x).Err? ==> f(x).error == e
    ensures Collect(xs, f).Err? ==> Collect(xs, f).error == e
    decreases |xs|
  {
    if |xs| > 0 {
      CollectErrorKind(xs[1..], f, e);
    }
  }

  /** The loop fails exactly when some step fails. */
  lemma {:induction false} CollectErr<X>(xs: seq<X>, f: X -> Result<Option<Entry>>)
    ensures Collect(xs, f).Err? <==> exists i :: 0 <= i < |xs| && f(xs[i]).Err?
    decreases |xs|
  {
    if |xs| > 0 {
      CollectErr(xs[1..], f);
      if exists i :: 0 <= i < |xs[1..]| && f(xs[1..][i]).Err? {
        var i :| 0 <= i < |xs[1..]| && f(xs[1..][i]).Err?;
        assert f(xs[i + 1]).Err?;
      }
      if exists i :: 0 <= i < |xs| && f(xs[i]).Err? {
        var i :| 0 <= i < |xs| && f(xs[i]).Err?;
        if i > 0 {
          assert f(xs[1..][i - 1]).Err?;
        }
      }
    }
  }

  /** Each entry written is the entry of one of the elements. */
  lemma {:induction false} CollectFrom<X>(xs: seq<X>, f: X -> Result<Option<Entry>>, j: nat) returns (i: nat)
    requires Collect(xs, f).Ok? && j < |Collect(xs, f).value|
    ensures i < |xs| && f(xs[i]) == Ok(Some(Collect(xs, f).value[j]))
    decreases |xs|
  {
    var o := f(xs[0]).value;
    var rest := Collect(xs[1..], f).value;
    if o.Some? && j == 0 {
      i := 0;
    } else {
      var k := if o.Some? then j - 1 else j;
      assert Collect(xs, f).value[j] == rest[k];
      var i' := CollectFrom(xs[1..], f, k);
      i := i' + 1;
    }
  }

  /** Each element that yields an entry has it written. */
  lemma {:induction false} CollectHas<X>(xs: seq<X>, f: X -> Result<Option<Entry>>, i: nat) returns (j: nat)
    requires Collect(xs, f).Ok? && i < |xs| && f(xs[i]).Ok? && f(xs[i]).value.Some?
    ensures j < |Collect(xs, f).value| && Collect(xs, f).value[j] == f(xs[i]).value.value
    decreases |xs|
  {
    var o := f(xs[0]).value;
    if i > 0 {
      assert xs[1..][i - 1] == xs[i];
      var j' := CollectHas(xs[1..], f, i - 1);
      j := if o.Some? then j' + 1 else j';
    } else {
      j := 0;
    }
  }

  /** When every block tags its keys with its own element and no element
      repeats, a key the table did not have is present after the loop
      exactly when the block of its tag writes it, with that block's value. */
  lemma LoopKeys<X>(m: Table, xs: seq<X>, block: X -> seq<Entry>, tag: seq<string> -> X, k: seq<string>)
    requires forall x, j :: 0 <= j < |block(x)| ==> tag(block(x)[j].words) == x
    requires forall p, q :: 0 <= p < q < |xs| ==> xs[p] != xs[q]
    requires k !in m
    ensures k in Build(m, Loop(xs, block)) <==> tag(k) in xs && Writes(block(tag(k)), k)
    ensures k in Build(m, Loop(xs, block)) ==>
      k in Build(map[], block(tag(k)))
      && Build(m, Loop(xs, block))[k] == Build(map[], block(tag(k)))[k]
  {
    if tag(k) in xs {
      var i :| 0 <= i < |xs| && xs[i] == tag(k);
      LoopValue(m, xs, block, tag, i, k);
    } else {
      if Writes(Loop(xs, block), k) {
        var p := LoopWriter(xs, block, k);
      }
      BuildAvoid(m, Loop(xs, block), k);
    }
  }

  /** Every entry of a loop over tagged blocks is tagged with one of the
      loop values. */
  lemma {:induction false} LoopTagged<X>(xs: seq<X>, block: X -> seq<Entry>, tag: seq<string> -> X, j: nat)
    requires forall x, i :: 0 <= i < |block(x)| ==> tag(block(x)[i].words) == x
    requires j < |Loop(xs, block)|
    ensures tag(Loop(xs, block)[j].words) in xs
    decreases |xs|
  {
    var first, rest := block(xs[0]), Loop(xs[1..], block);
    if j >= |first| {
      assert Loop(xs, block)[j] == rest[j - |first|];
      LoopTagged(xs[1..], block, tag, j - |first|);
    }
  }

  /** A loop over distinct values whose blocks repeat no key, and whose
      keys name the value they were written for, repeats no key. */
  lemma {:induction false} LoopDistinct<X>(xs: seq<X>, block: X -> seq<Entry>, tag: seq<string> -> X)
    requires forall x, i :: 0 <= i < |block(x)| ==> tag(block(x)[i].words) == x
    requires forall x :: Distinct(block(x))
    requires forall p, q :: 0 <= p < q < |xs| ==> xs[p] != xs[q]
    ensures Distinct(Loop(xs, block))
    decreases |xs|
  {
    if |xs| > 0 {
      var first, rest := block(xs[0]), Loop(xs[1..], block);
      LoopDistinct(xs[1..], block, tag);
      forall i, j | 0 <= i < |first| && 0 <= j < |rest|
        ensures first[i].words != rest[j].words
      {
        LoopTagged(xs[1..], block, tag, j);
        assert xs[0] !in xs[1..];
      }
      DistinctAppend(first, rest);
    }
  }

  /** A loop over blocks of `n` entries each writes `n` entries per value. */
  lemma {:induction false} LoopLength<X>(xs: seq<X>, block: X -> seq<Entry>, n: nat)
    requires forall x :: |block(x)| == n
    ensures |Loop(xs, block)| == n * |xs|
    decreases |xs|
  {
    if |xs| > 0 {
      LoopLength(xs[1..], block, n);
    }
  }

  /** Every key the entries write satisfies `p`. */
  predicate KeysSatisfy(es: seq<Entry>, p: seq<string> -> bool) {
    forall j :: 0 <= j < |es| ==> p(es[j].words)
  }

  lemma KeysSatisfyAppend(a: seq<Entry>, b: seq<Entry>, p: seq<string> -> bool)
    requires KeysSatisfy(a, p) && KeysSatisfy(b, p)
    ensures KeysSatisfy(a + b, p)
  {
    forall j | 0 <= j < |a + b| ensures p((a + b)[j].words) {
      if j >= |a| {
        assert (a + b)[j] == b[j - |a|];
      }
    }
  }

  /** A loop whose every block writes only keys satisfying `p` writes
      only such keys. */
  lemma {:induction false} LoopKeysSatisfy<X>(xs: seq<X>, block: X -> seq<Entry>, p: seq<string> -> bool)
    requires forall x :: KeysSatisfy(block(x), p)
    ensures KeysSatisfy(Loop(xs, block), p)
    decreases |xs|
  {
    if |xs| > 0 {
      LoopKeysSatisfy(xs[1..], block, p);
      KeysSatisfyAppend(block(xs[0]), Loop(xs[1..], block), p);
    }
  }

  /** A key outside `p` is written by no entry whose keys all satisfy `p`. */
  lemma KeysSatisfyAvoid(es: seq<Entry>, p: seq<string> -> bool, k: seq<string>)
    requires KeysSatisfy(es, p) && !p(k)
    ensures !Writes(es, k)
  {
  }

  /** A band loop whose blocks write only keys of one shape (`shaped`),
      each naming its block's band (`tag`; `of(x)` holds of the keys
      written for `x`), over a fixed part with no key of that shape and
      distinct bands: keys of another shape are the fixed part's, and a key
      of that shape is present exactly when its band's block writes it,
      with that block's value. */
  lemma ShapedLoop<X>(fixed: Table, xs: seq<X>, block: X -> seq<Entry>, tag: seq<string> -> X,
                      shaped: seq<string> -> bool, of: X -> (seq<string> -> bool), k: seq<string>)
    requires forall x, w :: of(x)(w) ==> shaped(w) && tag(w) == x
    requires forall x :: KeysSatisfy(block(x), of(x))
    requires forall p, q :: 0 <= p < q < |xs| ==> xs[p] != xs[q]
    requires shaped(k) ==> k !in fixed
    ensures !shaped(k) ==> (k in Build(fixed, Loop(xs, block)) <==> k in fixed)
    ensures !shaped(k) && k in fixed ==> Build(fixed, Loop(xs, block))[k] == fixed[k]
    ensures shaped(k) ==> (k in Build(fixed, Loop(xs, block)) <==> tag(k) in xs && Writes(block(tag(k)), k))
    ensures shaped(k) && k in Build(fixed, Loop(xs, block)) ==>
      k in Build(map[], block(tag(k))) && Build(fixed, Loop(xs, block))[k] == Build(map[], block(tag(k)))[k]
  {
    forall x, j | 0 <= j < |block(x)|
      ensures shaped(block(x)[j].words) && tag(block(x)[j].words) == x
    {
      assert KeysSatisfy(block(x), of(x));
      assert of(x)(block(x)[j].words);
    }
    if shaped(k) {
      LoopKeys(fixed, xs, block, tag, k);
    } else {
      if Writes(Loop(xs, block), k) {
        var p := LoopWriter(xs, block, k);
      }
      BuildAvoid(fixed, Loop(xs, block), k);
    }
  }

  /** One key of the band loop's shape, written by its band's block with
      value `v`: present exactly when the band is looped over, with `v`. */
  lemma ShapedKey<X>(fixed: Table, xs: seq<X>, block: X -> seq<Entry>, tag: seq<string> -> X,
                     shaped: seq<string> -> bool, of: X -> (seq<string> -> bool), x: X, k: seq<string>, v: Modifier)
    requires forall x, w :: of(x)(w) ==> shaped(w) && tag(w) == x
    requires forall x :: KeysSatisfy(block(x), of(x))
    requires forall p, q :: 0 <= p < q < |xs| ==> xs[p] != xs[q]
    requires shaped(k) ==> k !in fixed
    requires shaped(k) && tag(k) == x
    requires Writes(block(x), k) && k in Build(map[], block(x)) && Build(map[], block(x))[k] == v
    ensures k in Build(fixed, Loop(xs, block)) <==> x in xs
    ensures x in xs ==> Build(fixed, Loop(xs, block))[k] == v
  {
    ShapedLoop(fixed, xs, block, tag, shaped, of, k);
  }

  /** The value a block gives its first key, when no later entry of the
      block writes that key again. */
  lemma FirstOfBlock(e: Entry, rest: seq<Entry>, p: seq<string> -> bool)
    requires KeysSatisfy(rest, p) && !p(e.words)
    ensures e.words in Build(map[], [e] + rest) && Build(map[], [e] + rest)[e.words] == e.value
  {
    BuildAppend(map[], [e], rest);
    assert Build(map[], [e]) == map[e.words := e.value];
    BuildAvoid(map[e.words := e.value], rest, e.words);
  }

  /** Whether the modifier computes its quantity with a function: a tuple
      `(f, n1, ...)` with at least one native quantity. */
  predicate Computed(q: Option<Modifier>) {
    q.Some? && q.value.Derived? && |q.value.natives| > 0
  }

  /** The name `_get_quantity_info_dict` looks a quantity up under
      (`q_mod or quantity`): the native quantity an alias names, or the
      quantity itself when there is no modifier or it is falsy. `None` means
      the lookup cannot find anything and the default is returned: the
      modifier computes its value with a function, or it is not a name. */
  function InfoName(q: Option<Modifier>, quantity: string): (r: Option<string>)
    ensures Computed(q) ==> r.None?
    ensures r.Some? ==> r.value == quantity || q == Some(Alias(r.value))
    ensures q.None? || q == Some(Identity) ==> r == Some(quantity)
  {
    match q
    case None => Some(quantity)
    case Some(Identity) => Some(quantity)
    case Some(Alias(n)) => Some(if n == "" then quantity else n)
    case Some(Derived(_, _)) => None
    case Some(Column(i)) => if i == 0 then Some(quantity) else None
  }

  /** `_get_quantity_info_dict`: the information recorded for the name the
      modifier points at, or the default. */
  function QuantityInfo<I>(q: Option<Modifier>, quantity: string, info: map<string, I>, default: I): (r: I)
    ensures Computed(q) ==> r == default
    ensures r != default ==> exists n :: n in info && r == info[n] && InfoName(q, quantity) == Some(n)
    ensures InfoName(q, quantity).Some? && InfoName(q, quantity).value in info ==>
      r == info[InfoName(q, quantity).value]
    ensures InfoName(q, quantity).None? || InfoName(q, quantity).value !in info ==> r == default
  {
    match InfoName(q, quantity)
    case None => default
    case Some(n) => if n in info then info[n] else default
  }

  /** An alias reports the information of the native quantity it names,
      as if that quantity were asked for directly. */
  lemma InfoOfAlias<I>(n: string, quantity: string, info: map<string, I>, default: I)
    requires n != ""
    ensures QuantityInfo(Some(Alias(n)), quantity, info, default) == QuantityInfo(None, n, info, default)
  {
  }
}
