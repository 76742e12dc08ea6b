/** The four tract/patch filter patterns of the PostgreSQL object reader and
    the rewrite of one filter into user-defined-function calls.

    The patterns are fixed regular expressions applied with `re.match`, so
    each one only has to match a PREFIX of the filter. They are written here
    as scanners over the filter text that follow the pattern token by token.
    Every ` *` and `\d+` in the patterns is followed by a character that
    cannot continue the run, so the greedy choice is the only one that can
    succeed, and the alternation `<=|>=|<|>|=|!=` is followed by a space, a
    digit or a letter, so a one-character operator can only match where the
    two-character one does not. The `...Complete` and `...Sound` lemmas
    state that each scanner accepts exactly the filters that begin with the
    pattern's shape. */
module PgFilters {
  import opened Wrappers
  import opened Strings

  const TractWord := "tract"
  const PatchWord := "patch"
  const TractFuncTail := "_from_object_id(objectid)"
  const PatchFuncTail := "_s_from_object_id(objectid)"
  /** `tract_from_object_id(objectid)`, the tract UDF call. */
  const TractFunc := TractWord + TractFuncTail
  /** `patch_s_from_object_id(objectid)`, the patch UDF call. */
  const PatchFunc := PatchWord + PatchFuncTail

  /** The comparison operators of `_tractop`. */
  predicate IsTractOp(op: string) {
    op == "<=" || op == ">=" || op == "<" || op == ">" || op == "=" || op == "!="
  }

  /** The comparison operators of `_patchop`. */
  predicate IsPatchOp(op: string) {
    op == "=" || op == "!="
  }

  /** The length of the `_tractop` operator at the start of `s` (0: none). */
  function TractOpLen(s: string): (n: nat)
    ensures n <= 2 && n <= |s|
    ensures n > 0 ==> IsTractOp(s[..n])
  {
    if |s| >= 2 && (s[0] == '<' || s[0] == '>' || s[0] == '!') && s[1] == '=' then
      assert s[..2] == [s[0], s[1]];
      2
    else if |s| >= 1 && (s[0] == '<' || s[0] == '>' || s[0] == '=') then
      assert s[..1] == [s[0]];
      1
    else 0
  }

  /** The length of the `_patchop` operator at the start of `s` (0: none). */
  function PatchOpLen(s: string): (n: nat)
    ensures n <= 2 && n <= |s|
    ensures n > 0 ==> IsPatchOp(s[..n])
  {
    if |s| >= 2 && s[0] == '!' && s[1] == '=' then
      assert s[..2] == [s[0], s[1]];
      2
    else if |s| >= 1 && s[0] == '=' then
      assert s[..1] == [s[0]];
      1
    else 0
  }

  /** `s` starts with the patch text `\d,\d`. */
  predicate StartsWithPatch(s: string) {
    |s| >= 3 && IsDigit(s[0]) && s[1] == ',' && IsDigit(s[2])
  }

  predicate IsPatchText(g: string) { |g| == 3 && StartsWithPatch(g) }

  // ---------------------------------------------------------------------
  // The scanners

  /** `_tract_left_pat.match(f)`: ` *tract *`, an operator, ` *\d+`. */
  predicate TractLeft(f: string) {
    var s := SkipSpaces(f);
    StartsWith(s, TractWord) && OpThenNumber(SkipSpaces(s[5..]))
  }

  /** The part of `_tract_left_pat` after the word: an operator, ` *\d+`. */
  predicate OpThenNumber(s: string) {
    var k := TractOpLen(s);
    k > 0 && var u := SkipSpaces(s[k..]); |u| > 0 && IsDigit(u[0])
  }

  /** `_tract_right_pat.match(f)`: ` *\d+ *`, an operator, ` *tract`. */
  predicate TractRight(f: string) {
    var s := SkipSpaces(f);
    var n := LeadingDigits(s);
    n > 0 && OpThenWord(SkipSpaces(s[n..]), TractWord)
  }

  /** The tail of both right-form patterns: an operator, ` *`, the word. */
  predicate OpThenWord(s: string, w: string) {
    var k := if w == TractWord then TractOpLen(s) else PatchOpLen(s);
    k > 0 && StartsWith(SkipSpaces(s[k..]), w)
  }

  /** The `patch_s` group of `_patch_left_pat.match(f)`, if it matches:
      ` *patch *`, an operator, ` *\d,\d`. */
  function PatchLeftGroup(f: string): (g: Option<string>)
    ensures g.Some? ==> IsPatchText(g.value)
  {
    var s := SkipSpaces(f);
    if StartsWith(s, PatchWord) then OpThenPatch(SkipSpaces(s[5..])) else None
  }

  /** The part of `_patch_left_pat` after the word, and its group. */
  function OpThenPatch(s: string): (g: Option<string>)
    ensures g.Some? ==> IsPatchText(g.value)
  {
    var k := PatchOpLen(s);
    if k == 0 then None
    else
      var u := SkipSpaces(s[k..]);
      if StartsWithPatch(u) then Some(u[..3]) else None
  }

  /** The `patch_s` group of `_patch_right_pat.match(f)`, if it matches:
      ` *\d,\d *`, an operator, ` *patch`. */
  function PatchRightGroup(f: string): (g: Option<string>)
    ensures g.Some? ==> IsPatchText(g.value)
  {
    var s := SkipSpaces(f);
    if StartsWithPatch(s) && OpThenWord(SkipSpaces(s[3..]), PatchWord) then Some(s[..3]) else None
  }

  // ---------------------------------------------------------------------
  // Classification and rewriting of one filter

  /** The shape `_optimize_filters` finds in a filter. */
  datatype Shape = TractShape | PatchShape(patch: string) | OtherShape

  /** The tract patterns are tried first (left form, then right form); the
      patch patterns only when neither tract pattern matches, and the left
      patch form before the right one. */
  function Classify(f: string): (s: Shape)
    ensures s == TractShape <==> TractLeft(f) || TractRight(f)
    ensures s.PatchShape? <==>
      !TractLeft(f) && !TractRight(f) && (PatchLeftGroup(f).Some? || PatchRightGroup(f).Some?)
    ensures s.PatchShape? && PatchLeftGroup(f).Some? ==> s.patch == PatchLeftGroup(f).value
    ensures s.PatchShape? && PatchLeftGroup(f).None? ==> s.patch == PatchRightGroup(f).value
  {
    if TractLeft(f) || TractRight(f) then TractShape
    else match PatchLeftGroup(f)
      case Some(g) => PatchShape(g)
      case None =>
        match PatchRightGroup(f)
        case Some(g) => PatchShape(g)
        case None => OtherShape
  }

  /** The quoted patch literal that replaces every `d,d` in a patch filter. */
  function Quote(g: string): string { "'" + g + "'" }

  /** One filter after `_optimize_filters` has looked at it: every `tract`
      becomes the tract UDF call; in a patch filter every `patch` becomes the
      patch UDF call and then every copy of the matched `d,d` is quoted; any
      other filter is kept as it is. */
  function Rewrite(f: string): string {
    match Classify(f)
    case TractShape => Replace(f, TractWord, TractFunc)
    case PatchShape(g) => Replace(Replace(f, PatchWord, PatchFunc), g, Quote(g))
    case OtherShape => f
  }

  predicate IsTractOrPatch(f: string) { !Classify(f).OtherShape? }

  // ---------------------------------------------------------------------
  // The scanners accept exactly the pattern shapes

  lemma TractOpLenOf(op: string, t: string)
    requires IsTractOp(op)
    requires |op| == 1 && |t| > 0 ==> t[0] != '='
    ensures TractOpLen(op + t) == |op| && (op + t)[|op|..] == t
  {
  }

  lemma PatchOpLenOf(op: string, t: string)
    requires IsPatchOp(op)
    ensures PatchOpLen(op + t) == |op| && (op + t)[|op|..] == t
  {
  }

  lemma WordThen(w: string, t: string)
    ensures StartsWith(w + t, w) && (w + t)[|w|..] == t
  {
    assert (w + t)[..|w|] == w;
  }

  /** Every filter that begins `tract OP N` (with optional spaces around each
      token, OP a tract operator, N decimal digits) is a left-form tract
      filter, whatever follows. */
  lemma TractLeftComplete(a: nat, b: nat, op: string, c: nat, ds: string, rest: string)
    requires IsTractOp(op) && |ds| > 0 && AllDigits(ds)
    ensures TractLeft(Spaces(a) + (TractWord + (Spaces(b) + (op + (Spaces(c) + (ds + rest))))))
  {
    var t4 := Spaces(c) + (ds + rest);
    var t2 := Spaces(b) + (op + t4);
    var f := Spaces(a) + (TractWord + t2);
    SkipSpacesOver(a, TractWord + t2);
    WordThen(TractWord, t2);
    assert SkipSpaces(f) == TractWord + t2;
    SkipSpacesOver(b, op + t4);
    assert SkipSpaces(SkipSpaces(f)[5..]) == op + t4;
    OpThenNumberComplete(op, c, ds + rest);
  }

  /** The tail of the left tract pattern: an operator, spaces, a digit. */
  lemma OpThenNumberComplete(op: string, c: nat, t: string)
    requires IsTractOp(op) && |t| > 0 && IsDigit(t[0])
    ensures OpThenNumber(op + (Spaces(c) + t))
  {
    var t4 := Spaces(c) + t;
    assert c > 0 ==> t4[0] == ' ';
    assert c == 0 ==> t4[0] == t[0];
    TractOpLenOf(op, t4);
    SkipSpacesOver(c, t);
  }

  /** The tail of a left-form tract filter: an operator, spaces, a digit. */
  lemma OpThenNumberSound(s: string) returns (op: string, c: nat, rest: string)
    requires OpThenNumber(s)
    ensures s == op + (Spaces(c) + rest)
    ensures IsTractOp(op) && |rest| > 0 && IsDigit(rest[0])
  {
    var k := TractOpLen(s);
    var s3 := s[k..];
    rest := SkipSpaces(s3);
    op, c := s[..k], |s3| - |rest|;
    SkipSpacesSplit(s3);
    assert s3 == Spaces(c) + rest;
    SplitAt(s, k);
  }

  /** What a left-form tract filter looks like: spaces, `tract`, spaces, an
      operator, spaces, then a digit. */
  lemma TractLeftSound(f: string) returns (a: nat, b: nat, op: string, c: nat, rest: string)
    requires TractLeft(f)
    ensures f == Spaces(a) + (TractWord + (Spaces(b) + (op + (Spaces(c) + rest))))
    ensures IsTractOp(op) && |rest| > 0 && IsDigit(rest[0])
  {
    var s := SkipSpaces(f);
    var s1 := s[5..];
    var s2 := SkipSpaces(s1);
    op, c, rest := OpThenNumberSound(s2);
    a, b := |f| - |s|, |s1| - |s2|;
    SkipSpacesSplit(s1);
    var t1 := Spaces(b) + (op + (Spaces(c) + rest));
    assert s1 == t1;
    SplitAt(s, 5);
    assert s == TractWord + t1;
    SkipSpacesSplit(f);
  }

  /** The common tail of the right-form patterns: an operator, spaces and
      the word. */
  lemma OpThenWordComplete(op: string, c: nat, w: string, rest: string)
    requires w == TractWord || w == PatchWord
    requires w == TractWord ==> IsTractOp(op)
    requires w == PatchWord ==> IsPatchOp(op)
    ensures OpThenWord(op + (Spaces(c) + (w + rest)), w)
  {
    var t4 := Spaces(c) + (w + rest);
    assert c > 0 ==> t4[0] == ' ';
    assert c == 0 ==> t4[0] == w[0];
    if w == TractWord {
      TractOpLenOf(op, t4);
    } else {
      PatchOpLenOf(op, t4);
    }
    SkipSpacesOver(c, w + rest);
    WordThen(w, rest);
  }

  /** Every filter that begins `N OP tract` is a right-form tract filter. */
  lemma TractRightComplete(a: nat, ds: string, b: nat, op: string, c: nat, rest: string)
    requires IsTractOp(op) && |ds| > 0 && AllDigits(ds)
    ensures TractRight(Spaces(a) + (ds + (Spaces(b) + (op + (Spaces(c) + (TractWord + rest))))))
  {
    var t3 := op + (Spaces(c) + (TractWord + rest));
    var t2 := Spaces(b) + t3;
    SkipSpacesOver(a, ds + t2);
    assert b > 0 ==> t2[0] == ' ';
    assert b == 0 ==> t2[0] == op[0];
    LeadingDigitsOver(ds, t2);
    assert (ds + t2)[|ds|..] == t2;
    SkipSpacesOver(b, t3);
    OpThenWordComplete(op, c, TractWord, rest);
  }

  /** The tail of a right-form filter: an operator, spaces, the word. */
  lemma OpThenWordSound(s: string, w: string) returns (op: string, c: nat, rest: string)
    requires OpThenWord(s, w)
    ensures s == op + (Spaces(c) + (w + rest))
    ensures w == TractWord ==> IsTractOp(op)
    ensures w != TractWord ==> IsPatchOp(op)
  {
    var k := if w == TractWord then TractOpLen(s) else PatchOpLen(s);
    op := s[..k];
    c, rest := SpacesThenWord(s[k..], w);
    SplitAt(s, k);
  }

  /** Text on which ` *` followed by the word matches. */
  lemma SpacesThenWord(s: string, w: string) returns (c: nat, rest: string)
    requires StartsWith(SkipSpaces(s), w)
    ensures s == Spaces(c) + (w + rest)
  {
    var u := SkipSpaces(s);
    rest := u[|w|..];
    c := |s| - |u|;
    SplitAt(u, |w|);
    assert u == w + rest;
    SkipSpacesSplit(s);
  }

  /** What a right-form tract filter looks like: spaces, digits, spaces, an
      operator, spaces, then `tract`. */
  lemma TractRightSound(f: string) returns (a: nat, ds: string, b: nat, op: string, c: nat, rest: string)
    requires TractRight(f)
    ensures f == Spaces(a) + (ds + (Spaces(b) + (op + (Spaces(c) + (TractWord + rest)))))
    ensures IsTractOp(op) && |ds| > 0 && AllDigits(ds)
  {
    var s := SkipSpaces(f);
    var n := LeadingDigits(s);
    var s1 := s[n..];
    var s2 := SkipSpaces(s1);
    op, c, rest := OpThenWordSound(s2, TractWord);
    a, ds, b := |f| - |s|, s[..n], |s1| - |s2|;
    SkipSpacesSplit(s1);
    var t1 := Spaces(b) + (op + (Spaces(c) + (TractWord + rest)));
    assert s1 == t1;
    SplitAt(s, n);
    assert s == ds + t1;
    SkipSpacesSplit(f);
  }

  /** Every filter that begins `patch OP d,d` is a left-form patch filter
      whose group is that `d,d`. */
  lemma PatchLeftComplete(a: nat, b: nat, op: string, c: nat, g: string, rest: string)
    requires IsPatchOp(op) && IsPatchText(g)
    ensures PatchLeftGroup(Spaces(a) + (PatchWord + (Spaces(b) + (op + (Spaces(c) + (g + rest)))))) == Some(g)
  {
    var t4 := Spaces(c) + (g + rest);
    var t2 := Spaces(b) + (op + t4);
    SkipSpacesOver(a, PatchWord + t2);
    WordThen(PatchWord, t2);
    SkipSpacesOver(b, op + t4);
    PatchOpLenOf(op, t4);
    SkipSpacesOver(c, g + rest);
    assert (g + rest)[..3] == g;
    var f := Spaces(a) + (PatchWord + t2);
    assert SkipSpaces(f) == PatchWord + t2;
    assert StartsWith(PatchWord + t2, PatchWord);
    assert (PatchWord + t2)[5..] == t2;
    assert SkipSpaces(t2) == op + t4;
    assert PatchOpLen(op + t4) == |op|;
    assert SkipSpaces(t4) == g + rest;
    assert StartsWithPatch(g + rest);
    assert OpThenPatch(op + t4) == Some(g);
  }

  /** The tail of a left-form patch filter: an operator, spaces, `d,d`. */
  lemma OpThenPatchSound(s: string) returns (op: string, c: nat, rest: string)
    requires OpThenPatch(s).Some?
    ensures s == op + (Spaces(c) + (OpThenPatch(s).value + rest))
    ensures IsPatchOp(op)
  {
    var k := PatchOpLen(s);
    var s3 := s[k..];
    var u := SkipSpaces(s3);
    rest := u[3..];
    op, c := s[..k], |s3| - |u|;
    SplitAt(u, 3);
    assert u == OpThenPatch(s).value + rest;
    SkipSpacesSplit(s3);
    assert s3 == Spaces(c) + u;
    SplitAt(s, k);
  }

  /** What a left-form patch filter looks like, with its group in place. */
  lemma PatchLeftSound(f: string) returns (a: nat, b: nat, op: string, c: nat, rest: string)
    requires PatchLeftGroup(f).Some?
    ensures f == Spaces(a) + (PatchWord + (Spaces(b) + (op + (Spaces(c) + (PatchLeftGroup(f).value + rest)))))
    ensures IsPatchOp(op)
  {
    var s := SkipSpaces(f);
    var s1 := s[5..];
    var s2 := SkipSpaces(s1);
    var g := OpThenPatch(s2).value;
    op, c, rest := OpThenPatchSound(s2);
    a, b := |f| - |s|, |s1| - |s2|;
    SkipSpacesSplit(s1);
    var t1 := Spaces(b) + (op + (Spaces(c) + (g + rest)));
    assert s1 == t1;
    SplitAt(s, 5);
    assert s == PatchWord + t1;
    SkipSpacesSplit(f);
  }

  /** Every filter that begins `d,d OP patch` is a right-form patch filter
      whose group is that `d,d`. */
  lemma PatchRightComplete(a: nat, g: string, b: nat, op: string, c: nat, rest: string)
    requires IsPatchOp(op) && IsPatchText(g)
    ensures PatchRightGroup(Spaces(a) + (g + (Spaces(b) + (op + (Spaces(c) + (PatchWord + rest)))))) == Some(g)
  {
    var t3 := op + (Spaces(c) + (PatchWord + rest));
    var t2 := Spaces(b) + t3;
    SkipSpacesOver(a, g + t2);
    assert (g + t2)[..3] == g && (g + t2)[3..] == t2;
    SkipSpacesOver(b, t3);
    OpThenWordComplete(op, c, PatchWord, rest);
  }

  /** What a right-form patch filter looks like, with its group in place. */
  lemma PatchRightSound(f: string) returns (a: nat, b: nat, op: string, c: nat, rest: string)
    requires PatchRightGroup(f).Some?
    ensures f == Spaces(a) + (PatchRightGroup(f).value + (Spaces(b) + (op + (Spaces(c) + (PatchWord + rest)))))
    ensures IsPatchOp(op)
  {
    var s := SkipSpaces(f);
    var s1 := s[3..];
    var s2 := SkipSpaces(s1);
    op, c, rest := OpThenWordSound(s2, PatchWord);
    a, b := |f| - |s|, |s1| - |s2|;
    SkipSpacesSplit(s1);
    var t1 := Spaces(b) + (op + (Spaces(c) + (PatchWord + rest)));
    assert s1 == t1;
    SplitAt(s, 3);
    assert s == s[..3] + t1;
    SkipSpacesSplit(f);
  }
}
