/** `create_basic_flag_mask(*flags)`, which the object, coadd, source and
    DIA-source readers use for their `good` and `clean` quantities: start
    from `np.ones(len(flags[0]), bool)` and, for every flag array in turn,
    `out &= ~flag`.

    NumPy broadcasting decides which flag arrays fit: an array as long as
    the first one is combined element by element, and an array of length
    one is stretched to every element. Any other length makes the in-place
    `&=` raise a `ValueError`, and calling with no flags at all raises an
    `IndexError` at `flags[0]`. */
module FlagMasks {
  import opened Wrappers

  /** The flag array can be combined into a mask of length `n`. */
  predicate Fits(flag: seq<bool>, n: nat) {
    |flag| == n || |flag| == 1
  }

  /** The flag's value at element `i` once broadcast. */
  function At(flag: seq<bool>, i: nat): bool {
    if |flag| == 1 then flag[0] else if i < |flag| then flag[i] else false
  }

  /** Every flag is off at element `i`. */
  predicate AllClear(flags: seq<seq<bool>>, i: nat) {
    forall k :: 0 <= k < |flags| ==> !At(flags[k], i)
  }

  /** The mask of length `n`, or `None` when some flag does not fit. */
  function MaskOf(flags: seq<seq<bool>>, n: nat): (r: Option<seq<bool>>)
    ensures r.Some? <==> forall k :: 0 <= k < |flags| ==> Fits(flags[k], n)
    ensures r.Some? ==> |r.value| == n
    ensures r.Some? ==> forall i :: 0 <= i < n ==> (r.value[i] <==> AllClear(flags, i))
    decreases |flags|
  {
    if |flags| == 0 then Some(seq(n, _ => true))
    else
      var rest := MaskOf(flags[1..], n);
      assert forall k :: 1 <= k < |flags| ==> flags[k] == flags[1..][k - 1];
      if !Fits(flags[0], n) || rest.None? then None
      else
        assert forall i :: 0 <= i < n ==> (AllClear(flags, i) <==> !At(flags[0], i) && AllClear(flags[1..], i));
        Some(seq(n, i requires 0 <= i < n => !At(flags[0], i) && rest.value[i]))
  }

  /** `create_basic_flag_mask(*flags)`. */
  function FlagMask(flags: seq<seq<bool>>): (r: Result<seq<bool>>)
    ensures |flags| == 0 ==> r == Err(IndexError)
    ensures |flags| > 0 ==> (r.Err? <==> exists k :: 0 <= k < |flags| && !Fits(flags[k], |flags[0]|))
    ensures |flags| > 0 && r.Err? ==> r.error == ValueError
    ensures r.Ok? ==> |r.value| == |flags[0]|
    ensures r.Ok? ==> forall i :: 0 <= i < |r.value| ==> (r.value[i] <==> AllClear(flags, i))
  {
    if |flags| == 0 then Err(IndexError)
    else
      match MaskOf(flags, |flags[0]|)
      case None => Err(ValueError)
      case Some(m) => Ok(m)
  }

  /** Adding a flag in front, as `clean` adds `deblend_skipped` to the flags
      of `good`, keeps exactly the elements the old mask kept and the new
      flag does not mark. */
  lemma FlagMaskCons(f: seq<bool>, flags: seq<seq<bool>>)
    requires |flags| > 0 && |f| == |flags[0]|
    ensures FlagMask([f] + flags).Ok? <==> FlagMask(flags).Ok?
    ensures FlagMask(flags).Ok? ==>
      FlagMask([f] + flags).value == seq(|f|, i requires 0 <= i < |f| => !f[i] && FlagMask(flags).value[i])
  {
    var all := [f] + flags;
    assert all[1..] == flags;
    if exists k :: 0 <= k < |flags| && !Fits(flags[k], |f|) {
      var k :| 0 <= k < |flags| && !Fits(flags[k], |f|);
      assert all[k + 1] == flags[k];
    }
    if exists k :: 0 <= k < |all| && !Fits(all[k], |f|) {
      var k :| 0 <= k < |all| && !Fits(all[k], |f|);
      assert k > 0 && flags[k - 1] == all[k];
    }
    if FlagMask(flags).Ok? {
      var m := FlagMask(all).value;
      var m0 := FlagMask(flags).value;
      forall i | 0 <= i < |f|
        ensures m[i] == (!f[i] && m0[i])
      {
        AllClearCons(f, flags, i);
      }
      assert m == seq(|f|, i requires 0 <= i < |f| => !f[i] && m0[i]);
    }
  }

  /** A flag in front clears what it marks and keeps the rest. */
  lemma AllClearCons(f: seq<bool>, flags: seq<seq<bool>>, i: nat)
    requires i < |f|
    ensures AllClear([f] + flags, i) <==> !f[i] && AllClear(flags, i)
  {
    var all := [f] + flags;
    assert all[0] == f && At(f, i) == f[i];
    if AllClear(all, i) {
      forall k | 0 <= k < |flags|
        ensures !At(flags[k], i)
      {
        assert all[k + 1] == flags[k];
      }
    }
    if !f[i] && AllClear(flags, i) {
      forall k | 0 <= k < |all|
        ensures !At(all[k], i)
      {
        if k > 0 {
          assert all[k] == flags[k - 1];
        }
      }
    }
  }

  /** With every flag off everywhere, the mask keeps every element. */
  lemma FlagMaskAllOff(flags: seq<seq<bool>>)
    requires |flags| > 0
    requires forall k :: 0 <= k < |flags| ==> |flags[k]| == |flags[0]|
    requires forall k, i :: 0 <= k < |flags| && 0 <= i < |flags[k]| ==> !flags[k][i]
    ensures FlagMask(flags) == Ok(seq(|flags[0]|, _ => true))
  {
    var n := |flags[0]|;
    forall i | 0 <= i < n
      ensures AllClear(flags, i)
    {
    }
    assert FlagMask(flags).value == seq(n, _ => true);
  }
}
