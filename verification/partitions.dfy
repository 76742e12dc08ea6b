/** A stable partition with a rewrite: the elements a predicate selects,
    each rewritten, in input order, followed by the other elements verbatim
    in input order. This is the shape of the PostgreSQL reader's filter
    optimizer, stated once for any predicate and rewrite so that its
    properties do not depend on what the predicate looks at. */
module Partitions {

  /** The selected elements, rewritten, in input order. */
  function Selected<T>(xs: seq<T>, p: T -> bool, f: T -> T): (r: seq<T>)
    ensures |r| <= |xs|
    decreases |xs|
  {
    if |xs| == 0 then []
    else (if p(xs[0]) then [f(xs[0])] else []) + Selected(xs[1..], p, f)
  }

  /** The other elements, verbatim, in input order. */
  function Unselected<T>(xs: seq<T>, p: T -> bool): (r: seq<T>)
    ensures |r| <= |xs|
    decreases |xs|
  {
    if |xs| == 0 then []
    else (if p(xs[0]) then [] else [xs[0]]) + Unselected(xs[1..], p)
  }

  /** The elements `p` accepts, in input order: a list comprehension with
      a condition. */
  function Filter<T>(xs: seq<T>, p: T -> bool): (r: seq<T>)
    ensures |r| <= |xs|
    ensures forall i :: 0 <= i < |r| ==> r[i] in xs && p(r[i])
    ensures forall i :: 0 <= i < |xs| && p(xs[i]) ==> xs[i] in r
    decreases |xs|
  {
    if |xs| == 0 then []
    else
      assert forall i :: 1 <= i < |xs| ==> xs[i] == xs[1..][i - 1];
      (if p(xs[0]) then [xs[0]] else []) + Filter(xs[1..], p)
  }

  function Partition<T>(xs: seq<T>, p: T -> bool, f: T -> T): seq<T> {
    Selected(xs, p, f) + Unselected(xs, p)
  }

  /** Every element rewritten, in place. */
  function MapAll<T>(xs: seq<T>, f: T -> T): (r: seq<T>)
    ensures |r| == |xs|
    decreases |xs|
  {
    if |xs| == 0 then [] else [f(xs[0])] + MapAll(xs[1..], f)
  }

  /** Both parts keep input order: partitioning a concatenation
      concatenates the parts' selected and unselected elements. */
  lemma PartsAppend<T>(a: seq<T>, b: seq<T>, p: T -> bool, f: T -> T)
    ensures Selected(a + b, p, f) == Selected(a, p, f) + Selected(b, p, f)
    ensures Unselected(a + b, p) == Unselected(a, p) + Unselected(b, p)
  {
    SelectedAppend(a, b, p, f);
    UnselectedAppend(a, b, p);
  }

  lemma {:induction false} SelectedAppend<T>(a: seq<T>, b: seq<T>, p: T -> bool, f: T -> T)
    ensures Selected(a + b, p, f) == Selected(a, p, f) + Selected(b, p, f)
    decreases |a|
  {
    if |a| > 0 {
      assert (a + b)[1..] == a[1..] + b;
      SelectedAppend(a[1..], b, p, f);
    } else {
      assert a + b == b;
    }
  }

  lemma {:induction false} UnselectedAppend<T>(a: seq<T>, b: seq<T>, p: T -> bool)
    ensures Unselected(a + b, p) == Unselected(a, p) + Unselected(b, p)
    decreases |a|
  {
    if |a| > 0 {
      assert (a + b)[1..] == a[1..] + b;
      UnselectedAppend(a[1..], b, p);
    } else {
      assert a + b == b;
    }
  }

  /** A one-element list lands in exactly one part. */
  lemma PartsSingle<T>(x: T, p: T -> bool, f: T -> T)
    ensures Selected([x], p, f) == if p(x) then [f(x)] else []
    ensures Unselected([x], p) == if p(x) then [] else [x]
  {
    assert [x][1..] == [];
  }

  /** Extending the prefix by one element extends exactly one part. */
  lemma PrefixStep<T>(xs: seq<T>, n: nat, p: T -> bool, f: T -> T)
    requires n < |xs|
    ensures p(xs[n]) ==> Selected(xs[..n + 1], p, f) == Selected(xs[..n], p, f) + [f(xs[n])]
    ensures p(xs[n]) ==> Unselected(xs[..n + 1], p) == Unselected(xs[..n], p)
    ensures !p(xs[n]) ==> Selected(xs[..n + 1], p, f) == Selected(xs[..n], p, f)
    ensures !p(xs[n]) ==> Unselected(xs[..n + 1], p) == Unselected(xs[..n], p) + [xs[n]]
  {
    assert xs[..n + 1] == xs[..n] + [xs[n]];
    PartsAppend(xs[..n], [xs[n]], p, f);
    PartsSingle(xs[n], p, f);
  }

  /** One output per input. */
  lemma {:induction false} PartitionLength<T>(xs: seq<T>, p: T -> bool, f: T -> T)
    ensures |Partition(xs, p, f)| == |xs|
    decreases |xs|
  {
    if |xs| > 0 {
      PartitionLength(xs[1..], p, f);
    }
  }

  /** When the rewrite leaves unselected elements alone, the output is a
      reordering of the inputs rewritten one by one. */
  lemma {:induction false} PartitionIsPermutation<T>(xs: seq<T>, p: T -> bool, f: T -> T)
    requires forall x :: !p(x) ==> f(x) == x
    ensures multiset(Partition(xs, p, f)) == multiset(MapAll(xs, f))
    decreases |xs|
  {
    if |xs| > 0 {
      PartitionIsPermutation(xs[1..], p, f);
      assert MapAll(xs, f) == [f(xs[0])] + MapAll(xs[1..], f);
      PartitionHead(xs, p, f);
    }
  }

  /** The first element contributes its rewrite to the multiset of the
      partition, whichever part it lands in. */
  lemma PartitionHead<T>(xs: seq<T>, p: T -> bool, f: T -> T)
    requires |xs| > 0 && (!p(xs[0]) ==> f(xs[0]) == xs[0])
    ensures multiset(Partition(xs, p, f)) == multiset{f(xs[0])} + multiset(Partition(xs[1..], p, f))
  {
    var x := xs[0];
    var s, u := Selected(xs[1..], p, f), Unselected(xs[1..], p);
    if p(x) {
      assert Partition(xs, p, f) == [f(x)] + (s + u);
    } else {
      assert Partition(xs, p, f) == s + ([x] + u);
    }
  }

  /** The unselected part holds no selected element. */
  lemma {:induction false} UnselectedPlain<T>(xs: seq<T>, p: T -> bool)
    ensures forall k :: 0 <= k < |Unselected(xs, p)| ==> !p(Unselected(xs, p)[k])
    decreases |xs|
  {
    if |xs| > 0 {
      UnselectedPlain(xs[1..], p);
    }
  }

  /** When the rewrite of every selected input is no longer selected, the
      selected part holds no selected element either. */
  lemma {:induction false} SelectedPlain<T>(xs: seq<T>, p: T -> bool, f: T -> T)
    requires forall k :: 0 <= k < |xs| && p(xs[k]) ==> !p(f(xs[k]))
    ensures forall k :: 0 <= k < |Selected(xs, p, f)| ==> !p(Selected(xs, p, f)[k])
    decreases |xs|
  {
    if |xs| > 0 {
      assert forall k :: 0 <= k < |xs[1..]| ==> xs[1..][k] == xs[k + 1];
      SelectedPlain(xs[1..], p, f);
    }
  }

  /** A list with nothing to select is its own partition. */
  lemma {:induction false} PartitionNothingSelected<T>(xs: seq<T>, p: T -> bool, f: T -> T)
    requires forall k :: 0 <= k < |xs| ==> !p(xs[k])
    ensures Selected(xs, p, f) == [] && Unselected(xs, p) == xs
    ensures Partition(xs, p, f) == xs
    decreases |xs|
  {
    if |xs| > 0 {
      PartitionNothingSelected(xs[1..], p, f);
      assert [xs[0]] + xs[1..] == xs;
    }
  }

  /** Partitioning twice is partitioning once when the rewrite of every
      selected input is no longer selected. */
  lemma PartitionIdempotent<T>(xs: seq<T>, p: T -> bool, f: T -> T)
    requires forall k :: 0 <= k < |xs| && p(xs[k]) ==> !p(f(xs[k]))
    ensures Partition(Partition(xs, p, f), p, f) == Partition(xs, p, f)
  {
    SelectedPlain(xs, p, f);
    UnselectedPlain(xs, p);
    var s, u := Selected(xs, p, f), Unselected(xs, p);
    var o := s + u;
    forall k | 0 <= k < |o|
      ensures !p(o[k])
    {
      if k >= |s| {
        assert o[k] == u[k - |s|];
      }
    }
    PartitionNothingSelected(o, p, f);
  }
}
