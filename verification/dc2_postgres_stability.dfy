/** What a second pass of the filter optimizer does to filters it has
    already rewritten: left-form tract filters and both patch forms come out
    in a form no pattern matches, so they are left alone; a right-form tract
    filter still begins `N OP tract` and would be rewritten once more. */
module PgStability {
  import opened Wrappers
  import opened Strings
  import opened PgFilters

  // ---------------------------------------------------------------------
  // Replace over the shapes the scanners produce

  /** Leading spaces are copied, and a pattern right after them is the first
      occurrence replaced. */
  lemma ReplaceAfterSpaces(a: nat, pat: string, t: string, rep: string)
    requires |pat| > 0 && pat[0] != ' '
    ensures Replace(Spaces(a) + (pat + t), pat, rep) == Spaces(a) + (rep + Replace(t, pat, rep))
  {
    ReplaceSkipsPrefix(Spaces(a), pat + t, pat, rep);
    ReplaceAtStart(t, pat, rep);
  }

  /** Replacing a pattern by a text at least as long never shortens. */
  lemma {:induction false} ReplaceNotShorter(s: string, pat: string, rep: string)
    requires |pat| > 0 && |rep| >= |pat|
    ensures |Replace(s, pat, rep)| >= |s|
    decreases |s|
  {
    if |s| > 0 {
      if StartsWith(s, pat) {
        ReplaceNotShorter(s[|pat|..], pat, rep);
      } else {
        ReplaceNotShorter(s[1..], pat, rep);
      }
    }
  }

  // ---------------------------------------------------------------------
  // Filters that no pattern matches

  lemma NotStartsWithByHead(s: string, p: string)
    requires |p| > 0 && |s| > 0 && s[0] != p[0]
    ensures !StartsWith(s, p)
  {
  }

  /** Text that none of the four patterns can start on: no leading digit,
      and neither word followed by its operator. */
  predicate NoPatternHead(s: string) {
    && (|s| == 0 || !IsDigit(s[0]))
    && (StartsWith(s, TractWord) ==> !OpThenNumber(SkipSpaces(s[5..])))
    && (StartsWith(s, PatchWord) ==> OpThenPatch(SkipSpaces(s[5..])).None?)
  }

  /** A filter whose text after the leading spaces is such a head matches
      no pattern. */
  lemma OtherByHead(f: string)
    requires NoPatternHead(SkipSpaces(f))
    ensures Classify(f) == OtherShape
  {
    var s := SkipSpaces(f);
    assert LeadingDigits(s) == 0;
    assert !TractLeft(f) && !TractRight(f);
    assert PatchLeftGroup(f).None? && PatchRightGroup(f).None?;
  }

  /** A first character that is neither a digit nor the start of `tract` or
      `patch` rules out all four patterns. */
  lemma LeadNoPatternHead(h: char, u: string)
    requires !IsDigit(h) && h != 't' && h != 'p'
    ensures NoPatternHead([h] + u)
  {
    NotStartsWithByHead([h] + u, TractWord);
    NotStartsWithByHead([h] + u, PatchWord);
  }

  /** A word followed by `_` is not followed by an operator. */
  lemma WordUnderscoreNoPatternHead(w: string, t: string)
    requires w == TractWord || w == PatchWord
    requires |t| > 0 && t[0] == '_'
    ensures NoPatternHead(w + t)
  {
    var s := w + t;
    WordThen(w, t);
    assert SkipSpaces(t) == t;
    assert TractOpLen(t) == 0 && PatchOpLen(t) == 0;
    if w == TractWord {
      NotStartsWithByHead(s, PatchWord);
    } else {
      NotStartsWithByHead(s, TractWord);
    }
  }

  /** After the leading spaces, a first character that is neither a digit
      nor the start of `tract` or `patch` rules out all four patterns. */
  lemma OtherWhenLead(a: nat, h: char, u: string)
    requires h != ' ' && !IsDigit(h) && h != 't' && h != 'p'
    ensures Classify(Spaces(a) + ([h] + u)) == OtherShape
  {
    SkipSpacesOver(a, [h] + u);
    LeadNoPatternHead(h, u);
    OtherByHead(Spaces(a) + ([h] + u));
  }

  /** A filter that starts (after spaces) with the tract UDF call matches no
      pattern: `tract` is followed by `_`, which is not an operator. */
  lemma OtherWhenTractFunc(a: nat, u: string)
    ensures Classify(Spaces(a) + (TractFunc + u)) == OtherShape
  {
    var t := TractFuncTail + u;
    assert TractFunc + u == TractWord + t;
    SkipSpacesOver(a, TractWord + t);
    WordUnderscoreNoPatternHead(TractWord, t);
    OtherByHead(Spaces(a) + (TractWord + t));
  }

  /** A filter that starts (after spaces) with the patch UDF call matches no
      pattern: `patch` is followed by `_`, which is not an operator. */
  lemma OtherWhenPatchFunc(a: nat, u: string)
    ensures Classify(Spaces(a) + (PatchFunc + u)) == OtherShape
  {
    var t := PatchFuncTail + u;
    assert PatchFunc + u == PatchWord + t;
    SkipSpacesOver(a, PatchWord + t);
    WordUnderscoreNoPatternHead(PatchWord, t);
    OtherByHead(Spaces(a) + (PatchWord + t));
  }

  // ---------------------------------------------------------------------
  // One filter, rewritten twice

  /** A rewritten left-form tract filter matches no pattern. */
  lemma TractLeftRewriteStable(f: string)
    requires TractLeft(f)
    ensures Classify(Rewrite(f)) == OtherShape
  {
    var a, b, op, c, rest := TractLeftSound(f);
    var t := Spaces(b) + (op + (Spaces(c) + rest));
    ReplaceAfterSpaces(a, TractWord, t, TractFunc);
    OtherWhenTractFunc(a, Replace(t, TractWord, TractFunc));
  }

  /** No character of the patch UDF call is a digit. */
  lemma PatchFuncPrefixNoDigit(a: nat, g: string)
    requires IsPatchText(g)
    ensures forall i :: 0 <= i < |Spaces(a) + PatchFunc| ==> (Spaces(a) + PatchFunc)[i] != g[0]
  {
    var p := Spaces(a) + PatchFunc;
    forall i | 0 <= i < |p|
      ensures p[i] != g[0]
    {
      if i >= a {
        assert p[i] == PatchFunc[i - a];
      }
    }
  }

  /** The text of a rewritten left-form patch filter: the UDF call takes
      the place of the leading `patch`. */
  lemma PatchLeftText(a: nat, t: string, g: string)
    requires IsPatchText(g)
    ensures Replace(Replace(Spaces(a) + (PatchWord + t), PatchWord, PatchFunc), g, Quote(g))
         == Spaces(a) + (PatchFunc + Replace(Replace(t, PatchWord, PatchFunc), g, Quote(g)))
  {
    ReplaceAfterSpaces(a, PatchWord, t, PatchFunc);
    PatchFuncPrefixNoDigit(a, g);
    ReplaceSkipsPair(Spaces(a), PatchFunc, Replace(t, PatchWord, PatchFunc), g, Quote(g));
  }

  /** No character of leading spaces and a `d,d` literal is a `p`. */
  lemma PatchTextPrefixNoP(a: nat, g: string)
    requires IsPatchText(g)
    ensures forall i :: 0 <= i < |Spaces(a) + g| ==> (Spaces(a) + g)[i] != PatchWord[0]
  {
    var p := Spaces(a) + g;
    forall i | 0 <= i < |p|
      ensures p[i] != PatchWord[0]
    {
      if i >= a {
        assert p[i] == g[i - a];
      }
    }
  }

  /** The text of a rewritten right-form patch filter: the quoted literal
      takes the place of the leading `d,d`. */
  lemma PatchRightText(a: nat, g: string, t: string)
    requires IsPatchText(g)
    ensures Replace(Replace(Spaces(a) + (g + t), PatchWord, PatchFunc), g, Quote(g))
         == Spaces(a) + (Quote(g) + Replace(Replace(t, PatchWord, PatchFunc), g, Quote(g)))
  {
    PatchTextPrefixNoP(a, g);
    ReplaceSkipsPair(Spaces(a), g, t, PatchWord, PatchFunc);
    ReplaceAfterSpaces(a, g, Replace(t, PatchWord, PatchFunc), Quote(g));
  }

  /** A quoted literal starts with the quote character. */
  lemma QuoteHead(g: string, v: string)
    ensures Quote(g) + v == ['\''] + (g + ("'" + v))
  {
  }

  /** The rewrite a patch filter receives. */
  lemma RewritePatch(f: string, g: string)
    requires Classify(f) == PatchShape(g)
    ensures Rewrite(f) == Replace(Replace(f, PatchWord, PatchFunc), g, Quote(g))
  {
  }

  /** A rewritten left-form patch filter matches no pattern. */
  lemma PatchLeftRewriteStable(f: string)
    requires Classify(f).PatchShape? && PatchLeftGroup(f).Some?
    ensures Classify(Rewrite(f)) == OtherShape
  {
    var g := PatchLeftGroup(f).value;
    RewritePatch(f, g);
    var a, b, op, c, rest := PatchLeftSound(f);
    var t := Spaces(b) + (op + (Spaces(c) + (g + rest)));
    assert f == Spaces(a) + (PatchWord + t);
    PatchLeftText(a, t, g);
    OtherWhenPatchFunc(a, Replace(Replace(t, PatchWord, PatchFunc), g, Quote(g)));
  }

  /** A rewritten right-form patch filter starts with the quoted literal, so
      it matches no pattern. */
  lemma PatchRightRewriteStable(f: string)
    requires Classify(f).PatchShape? && PatchLeftGroup(f).None?
    ensures Classify(Rewrite(f)) == OtherShape
  {
    var g := PatchRightGroup(f).value;
    RewritePatch(f, g);
    var a, b, op, c, rest := PatchRightSound(f);
    var t := Spaces(b) + (op + (Spaces(c) + (PatchWord + rest)));
    assert f == Spaces(a) + (g + t);
    PatchRightText(a, g, t);
    var v := Replace(Replace(t, PatchWord, PatchFunc), g, Quote(g));
    QuoteHead(g, v);
    OtherWhenLead(a, '\'', g + ("'" + v));
  }

  /** A rewritten tract or patch filter that was not right-form tract
      matches no pattern, so a second pass leaves it unchanged. */
  lemma RewriteStable(f: string)
    requires IsTractOrPatch(f) && !TractRight(f)
    ensures !IsTractOrPatch(Rewrite(f))
    ensures Rewrite(Rewrite(f)) == Rewrite(f)
  {
    match Classify(f)
    case TractShape => TractLeftRewriteStable(f);
    case PatchShape(_) =>
      if PatchLeftGroup(f).Some? {
        PatchLeftRewriteStable(f);
      } else {
        PatchRightRewriteStable(f);
      }
  }

  /** No character of `ds`, an operator or spaces is a `t`. */
  lemma RightPrefixNoT(a: nat, ds: string, b: nat, op: string, c: nat)
    requires IsTractOp(op) && AllDigits(ds)
    ensures var p := Spaces(a) + (ds + (Spaces(b) + (op + Spaces(c))));
      forall i :: 0 <= i < |p| ==> p[i] != 't'
  {
    var p := Spaces(a) + (ds + (Spaces(b) + (op + Spaces(c))));
    forall i | 0 <= i < |p|
      ensures p[i] != 't'
    {
      if i < a {
      } else if i < a + |ds| {
        assert p[i] == ds[i - a];
      } else if i < a + |ds| + b {
      } else if i < a + |ds| + b + |op| {
        assert p[i] == op[i - a - |ds| - b];
      }
    }
  }

  /** Replacing `tract` after a prefix that holds no `t`. */
  lemma TractAfterPrefix(p: string, rest: string)
    requires forall i :: 0 <= i < |p| ==> p[i] != 't'
    ensures Replace(p + (TractWord + rest), TractWord, TractFunc) == p + (TractFunc + Replace(rest, TractWord, TractFunc))
  {
    ReplaceSkipsPrefix(p, TractWord + rest, TractWord, TractFunc);
    ReplaceAtStart(rest, TractWord, TractFunc);
  }

  /** Regrouping the five-part head of a right-form filter. */
  lemma Regroup<T>(s1: seq<T>, s2: seq<T>, s3: seq<T>, s4: seq<T>, s5: seq<T>, t: seq<T>)
    ensures s1 + (s2 + (s3 + (s4 + (s5 + t)))) == (s1 + (s2 + (s3 + (s4 + s5)))) + t
  {
    assert s4 + (s5 + t) == (s4 + s5) + t;
    assert s3 + ((s4 + s5) + t) == (s3 + (s4 + s5)) + t;
    assert s2 + ((s3 + (s4 + s5)) + t) == (s2 + (s3 + (s4 + s5))) + t;
  }

  lemma TractFuncSplit(x: string)
    ensures TractFunc + x == TractWord + (TractFuncTail + x)
  {
  }

  /** The rewrite a tract filter receives. */
  lemma RewriteTract(f: string)
    requires Classify(f) == TractShape
    ensures Rewrite(f) == Replace(f, TractWord, TractFunc)
  {
  }

  /** The text of a rewritten right-form tract filter: `N OP` and the UDF
      call, whose first five characters are `tract`. */
  lemma TractRightText(f: string) returns (a: nat, ds: string, b: nat, op: string, c: nat, x: string)
    requires TractRight(f)
    ensures IsTractOp(op) && |ds| > 0 && AllDigits(ds)
    ensures Rewrite(f) == Spaces(a) + (ds + (Spaces(b) + (op + (Spaces(c) + (TractWord + (TractFuncTail + x))))))
  {
    var rest;
    a, ds, b, op, c, rest := TractRightSound(f);
    RewriteTract(f);
    var p := Spaces(a) + (ds + (Spaces(b) + (op + Spaces(c))));
    Regroup(Spaces(a), ds, Spaces(b), op, Spaces(c), TractWord + rest);
    RightPrefixNoT(a, ds, b, op, c);
    TractAfterPrefix(p, rest);
    x := Replace(rest, TractWord, TractFunc);
    assert Rewrite(f) == p + (TractFunc + x);
    TractFuncSplit(x);
    Regroup(Spaces(a), ds, Spaces(b), op, Spaces(c), TractWord + (TractFuncTail + x));
  }

  /** A rewritten right-form tract filter still begins `N OP tract`: the
      `tract` of the UDF call is matched again, and rewriting it once more
      makes the filter strictly longer. */
  lemma TractRightRewriteAgain(f: string)
    requires TractRight(f)
    ensures Classify(Rewrite(f)) == TractShape
    ensures |Rewrite(Rewrite(f))| > |Rewrite(f)|
  {
    var a, ds, b, op, c, x := TractRightText(f);
    TractRightComplete(a, ds, b, op, c, TractFuncTail + x);
    var r1 := Rewrite(f);
    RewriteTract(r1);
    var p := Spaces(a) + (ds + (Spaces(b) + (op + Spaces(c))));
    Regroup(Spaces(a), ds, Spaces(b), op, Spaces(c), TractWord + (TractFuncTail + x));
    RightPrefixNoT(a, ds, b, op, c);
    TractAfterPrefix(p, TractFuncTail + x);
    ReplaceNotShorter(TractFuncTail + x, TractWord, TractFunc);
  }
}
