/** Python `str` operations used by the catalog readers, on `seq<char>`.

    Every function follows CPython's behaviour for the inputs the readers can
    produce: `str.replace` replaces left to right without overlaps,
    `str.split` with an explicit separator keeps empty pieces, `int()` accepts
    surrounding whitespace and a sign, `str(n)` prints a minimal decimal. */
module Strings {
  import opened Wrappers

  predicate IsDigit(c: char) { '0' <= c <= '9' }

  /** The ASCII characters Python's `str.strip()` and `int()` treat as blank. */
  predicate IsBlank(c: char) {
    c == ' ' || c == '\t' || c == '\n' || c == '\r' || c as int == 11 || c as int == 12
  }

  predicate AllDigits(s: string) { forall i :: 0 <= i < |s| ==> IsDigit(s[i]) }

  predicate StartsWith(s: string, p: string) { |p| <= |s| && s[..|p|] == p }

  predicate EndsWith(s: string, p: string) { |p| <= |s| && s[|s| - |p|..] == p }

  /** `p` occurs in `s` starting at index `i`. */
  predicate OccursAt(s: string, p: string, i: int) {
    0 <= i && i + |p| <= |s| && s[i..i + |p|] == p
  }

  /** Python's `p in s`. */
  predicate Contains(s: string, p: string) {
    exists i :: 0 <= i <= |s| - |p| && OccursAt(s, p, i)
  }

  /** What a regular expression's `$` accepts at the end of the text: the
      end, or one newline and the end. */
  predicate AtEnd(s: string) { s == "" || s == "\n" }

  predicate HasChar(s: string, c: char) { exists i :: 0 <= i < |s| && s[i] == c }

  /** Occurrences in `t == s[1..]` are the occurrences in `s` shifted by one. */
  lemma OccursShift(s: string, t: string, p: string)
    requires |s| > 0 && t == s[1..]
    ensures forall j {:trigger OccursAt(t, p, j)} :: 0 <= j ==> (OccursAt(t, p, j) <==> OccursAt(s, p, j + 1))
    ensures forall j {:trigger OccursAt(s, p, j)} :: 1 <= j ==> (OccursAt(s, p, j) <==> OccursAt(t, p, j - 1))
  {
    forall j | 0 <= j
      ensures OccursAt(t, p, j) <==> OccursAt(s, p, j + 1)
    {
      if 0 <= j && j + 1 + |p| <= |s| {
        assert t[j..j + |p|] == s[j + 1..j + 1 + |p|];
      }
    }
  }

  /** `str.find`: the first index at which `p` occurs in `s`. */
  function IndexOf(s: string, p: string): (r: Option<nat>)
    ensures r.Some? ==> OccursAt(s, p, r.value)
    ensures r.Some? ==> forall j :: 0 <= j < r.value ==> !OccursAt(s, p, j)
    ensures r.None? ==> forall j :: 0 <= j <= |s| - |p| ==> !OccursAt(s, p, j)
    decreases |s|
  {
    if |p| > |s| then None
    else if s[..|p|] == p then Some(0)
    else
      OccursShift(s, s[1..], p);
      match IndexOf(s[1..], p)
      case None => None
      case Some(j) => Some(j + 1)
  }

  lemma IndexOfContains(s: string, p: string)
    ensures IndexOf(s, p).Some? <==> Contains(s, p)
  {
    if IndexOf(s, p).Some? {
      assert OccursAt(s, p, IndexOf(s, p).value);
    }
  }

  /** Python's `s.replace(pat, rep)`: every non-overlapping occurrence of `pat`,
      scanning left to right, becomes `rep`; an empty `pat` inserts `rep`
      before every character and at the end. */
  function Replace(s: string, pat: string, rep: string): string
    decreases |s|
  {
    if |pat| == 0 then
      if |s| == 0 then rep else rep + [s[0]] + Replace(s[1..], pat, rep)
    else if |s| == 0 then []
    else if StartsWith(s, pat) then rep + Replace(s[|pat|..], pat, rep)
    else [s[0]] + Replace(s[1..], pat, rep)
  }

  /** A prefix none of whose characters can start `pat` is copied verbatim. */
  lemma {:induction false} ReplaceSkipsPrefix(a: string, b: string, pat: string, rep: string)
    requires |pat| > 0
    requires forall i :: 0 <= i < |a| ==> a[i] != pat[0]
    ensures Replace(a + b, pat, rep) == a + Replace(b, pat, rep)
    decreases |a|
  {
    if |a| > 0 {
      var s, t := a + b, a[1..];
      assert s[1..] == t + b;
      ReplaceNoStart(s, pat, rep);
      ReplaceSkipsPrefix(t, b, pat, rep);
      var rb := Replace(b, pat, rep);
      assert Replace(s, pat, rep) == [a[0]] + (t + rb);
      assert [a[0]] + (t + rb) == ([a[0]] + t) + rb;
      assert [a[0]] + t == a;
    } else {
      assert a + b == b;
    }
  }

  /** A string whose first character cannot start `pat` keeps that character. */
  lemma ReplaceNoStart(s: string, pat: string, rep: string)
    requires |pat| > 0 && |s| > 0 && s[0] != pat[0]
    ensures Replace(s, pat, rep) == [s[0]] + Replace(s[1..], pat, rep)
  {
    assert !StartsWith(s, pat) by {
      if |pat| <= |s| { assert s[..|pat|][0] == s[0]; }
    }
  }

  /** `ReplaceSkipsPrefix` for a prefix given in two parts. */
  lemma ReplaceSkipsPair(x: string, y: string, u: string, pat: string, rep: string)
    requires |pat| > 0
    requires forall i :: 0 <= i < |x + y| ==> (x + y)[i] != pat[0]
    ensures Replace(x + (y + u), pat, rep) == x + (y + Replace(u, pat, rep))
  {
    var xy := x + y;
    ReplaceSkipsPrefix(xy, u, pat, rep);
    var ru := Replace(u, pat, rep);
    Assoc(x, y, u);
    Assoc(x, y, ru);
  }

  lemma Assoc<T>(x: seq<T>, y: seq<T>, u: seq<T>)
    ensures x + (y + u) == (x + y) + u
  {
  }

  /** An occurrence of `pat` at the very start is the first one replaced. */
  lemma ReplaceAtStart(b: string, pat: string, rep: string)
    requires |pat| > 0
    ensures Replace(pat + b, pat, rep) == rep + Replace(b, pat, rep)
  {
    assert (pat + b)[..|pat|] == pat;
    assert (pat + b)[|pat|..] == b;
  }

  /** With no occurrence of `pat`, replacing changes nothing. */
  lemma {:induction false} ReplaceAbsent(s: string, pat: string, rep: string)
    requires |pat| > 0
    requires !Contains(s, pat)
    ensures Replace(s, pat, rep) == s
    decreases |s|
  {
    if |s| > 0 {
      if StartsWith(s, pat) {
        assert OccursAt(s, pat, 0);
        assert false;
      }
      if Contains(s[1..], pat) {
        var j :| 0 <= j <= |s[1..]| - |pat| && OccursAt(s[1..], pat, j);
        assert s[j + 1..j + 1 + |pat|] == s[1..][j..j + |pat|];
        assert OccursAt(s, pat, j + 1);
        assert false;
      }
      ReplaceAbsent(s[1..], pat, rep);
      assert [s[0]] + s[1..] == s;
    }
  }

  /** Python's `s.split(sep)` for a non-empty separator. */
  function Split(s: string, sep: string): (parts: seq<string>)
    requires |sep| > 0
    ensures |parts| >= 1
    decreases |s|
  {
    match IndexOf(s, sep)
    case None => [s]
    case Some(i) => [s[..i]] + Split(s[i + |sep|..], sep)
  }

  /** Python's `sep.join(xs)`. */
  function Join(xs: seq<string>, sep: string): string
    decreases |xs|
  {
    if |xs| == 0 then []
    else if |xs| == 1 then xs[0]
    else xs[0] + sep + Join(xs[1..], sep)
  }

  /** `sep.join` of two and three pieces. */
  lemma JoinPair(x: string, y: string, sep: string)
    ensures Join([x, y], sep) == x + (sep + (y + ""))
  {
    assert [x, y][1..] == [y];
  }

  lemma JoinTriple(x: string, y: string, z: string, sep: string)
    ensures Join([x, y, z], sep) == x + (sep + (y + (sep + (z + ""))))
  {
    assert [x, y, z][1..] == [y, z];
    JoinPair(y, z, sep);
  }

  lemma {:induction false} JoinHasNoChar(xs: seq<string>, sep: string, c: char)
    requires forall k :: 0 <= k < |xs| ==> !HasChar(xs[k], c)
    requires !HasChar(sep, c)
    ensures !HasChar(Join(xs, sep), c)
    decreases |xs|
  {
    if |xs| > 1 {
      JoinHasNoChar(xs[1..], sep, c);
      var j := Join(xs[1..], sep);
      assert Join(xs, sep) == xs[0] + sep + j;
      forall i | 0 <= i < |xs[0] + sep + j|
        ensures (xs[0] + sep + j)[i] != c
      {
        if i < |xs[0]| {
          assert (xs[0] + sep + j)[i] == xs[0][i];
        } else if i < |xs[0]| + |sep| {
          assert (xs[0] + sep + j)[i] == sep[i - |xs[0]|];
        } else {
          assert (xs[0] + sep + j)[i] == j[i - |xs[0]| - |sep|];
        }
      }
    }
  }

  /** A one-character separator absent from every piece splits a join back
      into its pieces: `s.split(c)` inverts `c.join(xs)`. */
  lemma {:induction false} SplitJoin(xs: seq<string>, c: char)
    requires |xs| >= 1
    requires forall k :: 0 <= k < |xs| ==> !HasChar(xs[k], c)
    ensures Split(Join(xs, [c]), [c]) == xs
    decreases |xs|
  {
    var sep := [c];
    if |xs| == 1 {
      var s := xs[0];
      forall j | 0 <= j <= |s| - 1
        ensures !OccursAt(s, sep, j)
      {
        assert s[j..j + 1] == [s[j]];
      }
      assert IndexOf(s, sep).None?;
    } else {
      var rest := Join(xs[1..], sep);
      var s := xs[0] + sep + rest;
      assert Join(xs, sep) == s;
      assert OccursAt(s, sep, |xs[0]|) by {
        assert s[|xs[0]|..|xs[0]| + 1] == sep;
      }
      forall j | 0 <= j < |xs[0]|
        ensures !OccursAt(s, sep, j)
      {
        assert s[j] == xs[0][j];
        assert s[j..j + 1] == [s[j]];
      }
      var r := IndexOf(s, sep);
      assert r.Some? && r.value == |xs[0]|;
      assert s[..|xs[0]|] == xs[0];
      assert s[|xs[0]| + 1..] == rest;
      SplitJoin(xs[1..], c);
      assert [xs[0]] + xs[1..] == xs;
    }
  }

  /** `sep.join(s)` where `s` is iterated character by character, as in
      `','.join('42') == '4,2'`. */
  function JoinChars(s: string, sep: char): (r: string)
    ensures |s| == 0 ==> |r| == 0
    ensures |s| > 0 ==> |r| == 2 * |s| - 1
    ensures |s| == 2 ==> r == [s[0], sep, s[1]]
    decreases |s|
  {
    if |s| <= 1 then s else [s[0], sep] + JoinChars(s[1..], sep)
  }

  /** The characters at even positions: the inverse of `JoinChars`. */
  function EvenChars(r: string): string
    decreases |r|
  {
    if |r| <= 1 then r else [r[0]] + EvenChars(r[2..])
  }

  lemma {:induction false} EvenCharsJoinChars(s: string, sep: char)
    ensures EvenChars(JoinChars(s, sep)) == s
    decreases |s|
  {
    if |s| > 1 {
      var r := JoinChars(s, sep);
      assert r == [s[0], sep] + JoinChars(s[1..], sep);
      assert r[2..] == JoinChars(s[1..], sep);
      EvenCharsJoinChars(s[1..], sep);
      assert [s[0]] + s[1..] == s;
    }
  }

  function DigitChar(d: nat): char
    requires d < 10
  {
    ['0', '1', '2', '3', '4', '5', '6', '7', '8', '9'][d]
  }

  function DigitValue(c: char): nat
    requires IsDigit(c)
  {
    (c as int - '0' as int) as nat
  }

  lemma DigitRoundTrip(d: nat)
    requires d < 10
    ensures IsDigit(DigitChar(d)) && DigitValue(DigitChar(d)) == d
  {
  }

  /** The value of a string of decimal digits (leading zeros allowed). */
  function DigitsValue(s: string): nat
    requires AllDigits(s)
    decreases |s|
  {
    if |s| == 0 then 0 else DigitsValue(s[..|s| - 1]) * 10 + DigitValue(s[|s| - 1])
  }

  /** Python's `str(n)` for a natural number. */
  function NatToString(n: nat): (r: string)
    ensures |r| >= 1 && AllDigits(r)
    ensures n > 0 ==> r[0] != '0'
    decreases n
  {
    DigitRoundTrip(n % 10);
    if n < 10 then [DigitChar(n)] else NatToString(n / 10) + [DigitChar(n % 10)]
  }

  lemma {:induction false} NatToStringValue(n: nat)
    ensures DigitsValue(NatToString(n)) == n
    decreases n
  {
    var r := NatToString(n);
    DigitRoundTrip(n % 10);
    if n >= 10 {
      NatToStringValue(n / 10);
      assert r[..|r| - 1] == NatToString(n / 10);
    }
  }

  /** Python's `str(i)` for an integer. */
  function IntToString(i: int): (r: string)
    ensures |r| >= 1
    ensures i >= 0 <==> IsDigit(r[0])
  {
    if i < 0 then "-" + NatToString(-i) else NatToString(i)
  }

  /** Drops leading characters equal to `c`: Python's `s.lstrip(c)`. */
  function LStrip(s: string, c: char): (r: string)
    ensures |r| <= |s| && r == s[|s| - |r|..]
    ensures |r| > 0 ==> r[0] != c
    ensures forall i :: 0 <= i < |s| - |r| ==> s[i] == c
    decreases |s|
  {
    if |s| > 0 && s[0] == c then
      var r := LStrip(s[1..], c);
      assert s[1..][|s| - 1 - |r|..] == s[|s| - |r|..];
      assert forall i :: 1 <= i < |s| - |r| ==> s[i] == s[1..][i - 1];
      r
    else s
  }

  /** Drops trailing characters equal to `c`: Python's `s.rstrip(c)`. */
  function RStrip(s: string, c: char): (r: string)
    ensures |r| <= |s| && r == s[..|r|]
    ensures |r| > 0 ==> r[|r| - 1] != c
    ensures forall i :: |r| <= i < |s| ==> s[i] == c
    decreases |s|
  {
    if |s| > 0 && s[|s| - 1] == c then
      var r := RStrip(s[..|s| - 1], c);
      assert s[..|s| - 1][..|r|] == s[..|r|];
      r
    else s
  }

  /** Python's `s.strip(c)`. */
  function Strip(s: string, c: char): string {
    RStrip(LStrip(s, c), c)
  }

  /** Drops leading blanks (`str.lstrip()` with no argument). */
  function TrimLeft(s: string): (r: string)
    ensures |r| <= |s| && r == s[|s| - |r|..]
    ensures |r| > 0 ==> !IsBlank(r[0])
    decreases |s|
  {
    if |s| > 0 && IsBlank(s[0]) then TrimLeft(s[1..]) else s
  }

  /** Drops trailing blanks (`str.rstrip()` with no argument). */
  function TrimRight(s: string): (r: string)
    ensures |r| <= |s| && r == s[..|r|]
    ensures |r| > 0 ==> !IsBlank(r[|r| - 1])
    decreases |s|
  {
    if |s| > 0 && IsBlank(s[|s| - 1]) then TrimRight(s[..|s| - 1]) else s
  }

  /** Python's `int(s)` for a string: optional surrounding blanks, an optional
      sign, then at least one decimal digit; anything else is a ValueError. */
  function PyInt(s: string): (r: Result<int>)
    ensures r.Err? ==> r.error == ValueError
  {
    var t := TrimRight(TrimLeft(s));
    if |t| > 0 && (t[0] == '-' || t[0] == '+') then
      if |t| > 1 && AllDigits(t[1..]) then
        var v: int := DigitsValue(t[1..]);
        Ok(if t[0] == '-' then -v else v)
      else Err(ValueError)
    else if |t| > 0 && AllDigits(t) then Ok(DigitsValue(t))
    else Err(ValueError)
  }

  lemma TrimLeftNoBlank(s: string)
    requires |s| > 0 && !IsBlank(s[0])
    ensures TrimLeft(s) == s
  {
  }

  lemma TrimRightNoBlank(s: string)
    requires |s| > 0 && !IsBlank(s[|s| - 1])
    ensures TrimRight(s) == s
  {
  }

  /** `int(str(i)) == i`. */
  lemma PyIntIntToString(i: int)
    ensures PyInt(IntToString(i)) == Ok(i)
  {
    var r := IntToString(i);
    var n: nat := if i < 0 then -i else i;
    var d := NatToString(n);
    assert r == (if i < 0 then "-" + d else d);
    assert r[|r| - 1] == d[|d| - 1];
    assert IsDigit(r[|r| - 1]);
    TrimLeftNoBlank(r);
    TrimRightNoBlank(r);
    NatToStringValue(n);
    if i < 0 {
      assert r[1..] == d;
    }
  }

  /** The maximal runs of decimal digits in `s`, left to right: Python's
      `re.findall(r'\d+', s)` restricted to ASCII digits. */
  function DigitRuns(s: string): (runs: seq<string>)
    ensures forall k :: 0 <= k < |runs| ==> |runs[k]| > 0 && AllDigits(runs[k])
    decreases |s|
  {
    if |s| == 0 then []
    else if !IsDigit(s[0]) then DigitRuns(s[1..])
    else
      var n := LeadingDigits(s);
      [s[..n]] + DigitRuns(s[n..])
  }

  /** The length of the run of digits that starts `s`. */
  function LeadingDigits(s: string): (n: nat)
    ensures n <= |s| && AllDigits(s[..n])
    ensures n < |s| ==> !IsDigit(s[n])
    decreases |s|
  {
    if |s| > 0 && IsDigit(s[0]) then
      var k := LeadingDigits(s[1..]);
      assert s[..k + 1] == [s[0]] + s[1..][..k];
      k + 1
    else 0
  }

  /** A text starts with its first part, and the rest is what follows. */
  lemma PrefixOf(p: string, r: string)
    ensures StartsWith(p + r, p) && (p + r)[|p|..] == r
  {
    assert (p + r)[..|p|] == p;
  }

  lemma SplitAt(s: string, k: nat)
    requires k <= |s|
    ensures s == s[..k] + s[k..]
  {
  }

  /** `k` spaces. */
  function Spaces(k: nat): (r: string)
    ensures |r| == k && forall i :: 0 <= i < k ==> r[i] == ' '
  {
    seq(k, _ => ' ')
  }

  /** `s` without the run of spaces the regex ` *` consumes at its start. */
  function SkipSpaces(s: string): (r: string)
    ensures |r| <= |s| && r == s[|s| - |r|..]
    ensures |r| > 0 ==> r[0] != ' '
    ensures forall i :: 0 <= i < |s| - |r| ==> s[i] == ' '
    decreases |s|
  {
    if |s| > 0 && s[0] == ' ' then SkipSpaces(s[1..]) else s
  }

  /** What ` *` skips is exactly the run of spaces in front of a non-space. */
  lemma {:induction false} SkipSpacesOver(k: nat, t: string)
    requires |t| > 0 ==> t[0] != ' '
    ensures SkipSpaces(Spaces(k) + t) == t
    decreases k
  {
    if k > 0 {
      assert (Spaces(k) + t)[1..] == Spaces(k - 1) + t;
      SkipSpacesOver(k - 1, t);
    } else {
      assert Spaces(k) + t == t;
    }
  }

  /** Every string is its leading spaces followed by the rest. */
  lemma SkipSpacesSplit(s: string)
    ensures s == Spaces(|s| - |SkipSpaces(s)|) + SkipSpaces(s)
  {
    var r := SkipSpaces(s);
    SpacesPrefix(s, |s| - |r|);
  }

  /** A string whose first `m` characters are spaces starts with `Spaces(m)`. */
  lemma SpacesPrefix(s: string, m: nat)
    requires m <= |s| && forall i :: 0 <= i < m ==> s[i] == ' '
    ensures s == Spaces(m) + s[m..]
  {
    assert s[..m] == Spaces(m);
    assert s == s[..m] + s[m..];
  }

  /** A maximal run of digits is measured exactly. */
  lemma {:induction false} LeadingDigitsOver(ds: string, t: string)
    requires AllDigits(ds)
    requires |t| > 0 ==> !IsDigit(t[0])
    ensures LeadingDigits(ds + t) == |ds|
    decreases |ds|
  {
    if |ds| > 0 {
      assert (ds + t)[1..] == ds[1..] + t;
      LeadingDigitsOver(ds[1..], t);
    } else {
      assert ds + t == t;
    }
  }

  /** Python's `os.path.basename` for '/'-separated paths. */
  function Basename(p: string): (r: string)
    ensures !HasChar(r, '/')
    ensures EndsWith(p, r)
    decreases |p|
  {
    if |p| == 0 || p[|p| - 1] == '/' then []
    else Basename(p[..|p| - 1]) + [p[|p| - 1]]
  }

  /** Python's `os.path.splitext(p)[0]` for a path without '/': the text
      before the last '.', unless every character before that dot is a dot. */
  function StripExt(p: string): (r: string)
    ensures |r| <= |p| && r == p[..|r|]
  {
    match LastDot(p)
    case None => p
    case Some(d) =>
      if exists i :: 0 <= i < d && p[i] != '.' then p[..d] else p
  }

  function LastDot(p: string): (r: Option<nat>)
    ensures r.Some? ==> r.value < |p| && p[r.value] == '.'
    ensures r.Some? ==> forall i :: r.value < i < |p| ==> p[i] != '.'
    ensures r.None? ==> forall i :: 0 <= i < |p| ==> p[i] != '.'
    decreases |p|
  {
    if |p| == 0 then None
    else if p[|p| - 1] == '.' then Some(|p| - 1)
    else LastDot(p[..|p| - 1])
  }

  predicate NoDigits(s: string) { forall i :: 0 <= i < |s| ==> !IsDigit(s[i]) }

  /** Text without digits adds no run. */
  lemma {:induction false} DigitRunsSkip(x: string, y: string)
    requires NoDigits(x)
    ensures DigitRuns(x + y) == DigitRuns(y)
    decreases |x|
  {
    if |x| > 0 {
      assert (x + y)[1..] == x[1..] + y;
      DigitRunsSkip(x[1..], y);
    } else {
      assert x + y == y;
    }
  }

  /** A run of digits not followed by a digit is one run. */
  lemma DigitRunsRun(d: string, y: string)
    requires |d| > 0 && AllDigits(d)
    requires |y| > 0 ==> !IsDigit(y[0])
    ensures DigitRuns(d + y) == [d] + DigitRuns(y)
  {
    LeadingDigitsOver(d, y);
    assert (d + y)[..|d|] == d && (d + y)[|d|..] == y;
  }

  /** The last dot is the one in front of a dot-free extension. */
  lemma {:induction false} LastDotBefore(root: string, e: string)
    requires forall i :: 0 <= i < |e| ==> e[i] != '.'
    ensures LastDot(root + ("." + e)) == Some(|root|)
    decreases |e|
  {
    var p := root + ("." + e);
    if |e| > 0 {
      var e' := e[..|e| - 1];
      assert p[..|p| - 1] == root + ("." + e');
      LastDotBefore(root, e');
    }
  }

  /** Dropping a dot-free extension from a stem that is not all dots. */
  lemma StripExtOf(root: string, e: string)
    requires forall i :: 0 <= i < |e| ==> e[i] != '.'
    requires exists i :: 0 <= i < |root| && root[i] != '.'
    ensures StripExt(root + ("." + e)) == root
  {
    var p := root + ("." + e);
    LastDotBefore(root, e);
    var i :| 0 <= i < |root| && root[i] != '.';
    assert p[i] != '.';
    assert p[..|root|] == root;
  }

  /** Every piece of a join occurs in it. */
  lemma {:induction false} JoinContains(xs: seq<string>, sep: string, k: nat)
    requires k < |xs|
    ensures Contains(Join(xs, sep), xs[k])
    decreases |xs|
  {
    var s := Join(xs, sep);
    if |xs| == 1 {
      assert OccursAt(s, xs[k], 0);
    } else {
      var rest := Join(xs[1..], sep);
      assert s == xs[0] + sep + rest;
      if k == 0 {
        assert s[..|xs[0]|] == xs[0];
        assert OccursAt(s, xs[0], 0);
      } else {
        JoinContains(xs[1..], sep, k - 1);
        var i :| 0 <= i <= |rest| - |xs[k]| && OccursAt(rest, xs[k], i);
        var d := |xs[0]| + |sep|;
        assert s[d + i..d + i + |xs[k]|] == rest[i..i + |xs[k]|];
        assert OccursAt(s, xs[k], d + i);
      }
    }
  }

  /** `os.path.join(root, f)`. */
  function PathJoin(root: string, f: string): string {
    if |f| > 0 && f[0] == '/' then f
    else if |root| == 0 || root[|root| - 1] == '/' then root + f
    else root + "/" + f
  }

  /** `int(ds)` of a run of decimal digits is its value, leading zeros and
      all. */
  lemma PyIntDigits(ds: string)
    requires |ds| > 0 && AllDigits(ds)
    ensures PyInt(ds) == Ok(DigitsValue(ds))
  {
    TrimLeftNoBlank(ds);
    TrimRightNoBlank(ds);
  }

  /** Python's `str.lower()` on one ASCII character. */
  function Lower(c: char): (r: char) {
    if 'A' <= c <= 'Z' then (c as int + 32) as char else c
  }

  predicate IsLower(c: char) { 'a' <= c <= 'z' }

  predicate AllLower(s: string) { forall i :: 0 <= i < |s| ==> IsLower(s[i]) }

  /** The length of the run of lower-case letters that starts `s`. */
  function LeadingLower(s: string): (n: nat)
    ensures n <= |s| && AllLower(s[..n])
    ensures n < |s| ==> !IsLower(s[n])
    decreases |s|
  {
    if |s| > 0 && IsLower(s[0]) then
      var k := LeadingLower(s[1..]);
      assert s[..k + 1] == [s[0]] + s[1..][..k];
      k + 1
    else 0
  }

  /** A maximal run of lower-case letters is measured exactly. */
  lemma {:induction false} LowerRunOver(ls: string, t: string)
    requires AllLower(ls)
    requires |t| > 0 ==> !IsLower(t[0])
    ensures LeadingLower(ls + t) == |ls|
    decreases |ls|
  {
    if |ls| > 0 {
      assert (ls + t)[1..] == ls[1..] + t;
      LowerRunOver(ls[1..], t);
    } else {
      assert ls + t == t;
    }
  }

  /** The first occurrence is where `p` occurs and occurs nowhere before. */
  lemma IndexOfIs(s: string, p: string, i: nat)
    requires OccursAt(s, p, i)
    requires forall j :: 0 <= j < i ==> !OccursAt(s, p, j)
    ensures IndexOf(s, p) == Some(i)
  {
  }

  /** Splitting on a character at its first occurrence: the text before
      it, then the split of the rest. */
  lemma SplitCharHead(a: string, c: char, b: string)
    requires !HasChar(a, c)
    ensures Split(a + [c] + b, [c]) == [a] + Split(b, [c])
  {
    var s := a + [c] + b;
    assert s[|a|..|a| + 1] == [c];
    forall j | 0 <= j < |a| ensures !OccursAt(s, [c], j) {
      assert s[j] == a[j];
    }
    IndexOfIs(s, [c], |a|);
    assert s[..|a|] == a && s[|a| + 1..] == b;
  }

  /** `s.partition(c)` when `c` occurs: the text before its first
      occurrence and the text after it. */
  function CutAt(s: string, c: char): (r: Option<(string, string)>)
    ensures r.None? <==> !HasChar(s, c)
    ensures r.Some? ==> s == r.value.0 + [c] + r.value.1 && !HasChar(r.value.0, c)
  {
    IndexOfContains(s, [c]);
    match IndexOf(s, [c])
    case None =>
      assert !HasChar(s, c) by {
        if HasChar(s, c) {
          var i :| 0 <= i < |s| && s[i] == c;
          assert OccursAt(s, [c], i);
        }
      }
      None
    case Some(i) =>
      assert s[i..i + 1] == [c];
      assert s[i] == c;
      assert s == s[..i] + [c] + s[i + 1..];
      assert !HasChar(s[..i], c) by {
        forall j | 0 <= j < i ensures s[..i][j] != c {
          assert !OccursAt(s, [c], j);
          assert s[j..j + 1] == [s[j]];
        }
      }
      Some((s[..i], s[i + 1..]))
  }

  /** Cutting at the first `c` when the text before it holds none. */
  lemma CutAtHead(a: string, c: char, b: string)
    requires !HasChar(a, c)
    ensures CutAt(a + [c] + b, c) == Some((a, b))
  {
    var s := a + [c] + b;
    assert s[|a|..|a| + 1] == [c];
    forall j | 0 <= j < |a| ensures !OccursAt(s, [c], j) {
      assert s[j] == a[j];
      assert s[j..j + 1] == [s[j]];
    }
    IndexOfIs(s, [c], |a|);
    assert s[..|a|] == a && s[|a| + 1..] == b;
  }

  /** No `x` directly followed by `y` inside `a`. */
  predicate NoPair(a: string, x: char, y: char) {
    forall j :: 0 <= j < |a| - 1 ==> !(a[j] == x && a[j + 1] == y)
  }

  lemma NoPairAppend(a: string, b: string, x: char, y: char)
    requires NoPair(a, x, y) && NoPair(b, x, y)
    requires |a| > 0 && |b| > 0 ==> !(a[|a| - 1] == x && b[0] == y)
    ensures NoPair(a + b, x, y)
  {
    var s := a + b;
    forall j | 0 <= j < |s| - 1 ensures !(s[j] == x && s[j + 1] == y) {
      if j + 1 < |a| {
        assert s[j] == a[j] && s[j + 1] == a[j + 1];
      } else if j + 1 == |a| {
        assert s[j] == a[|a| - 1] && s[j + 1] == b[0];
      } else {
        assert s[j] == b[j - |a|] && s[j + 1] == b[j + 1 - |a|];
      }
    }
  }

  /** Digits hold no pair that starts with a non-digit. */
  lemma DigitsNoPair(d: string, x: char, y: char)
    requires AllDigits(d) && !IsDigit(x)
    ensures NoPair(d, x, y)
  {
  }

  /** The first occurrence of a two-character separator, when the text
      before it holds no such pair. */
  lemma SplitPairHead(a: string, x: char, y: char, b: string)
    requires x != y && NoPair(a, x, y)
    ensures Split(a + [x, y] + b, [x, y]) == [a] + Split(b, [x, y])
  {
    var s := a + [x, y] + b;
    assert s[|a|..|a| + 2] == [x, y];
    forall j | 0 <= j < |a| ensures !OccursAt(s, [x, y], j) {
      assert s[j..j + 2] == [s[j], s[j + 1]];
      if j + 1 < |a| {
        assert s[j] == a[j] && s[j + 1] == a[j + 1];
      } else {
        assert s[j + 1] == x;
      }
    }
    IndexOfIs(s, [x, y], |a|);
    assert s[..|a|] == a && s[|a| + 2..] == b;
  }

  /** The first piece of a split keeps every character before the first
      place the separator could start. */
  lemma SplitFirstKeeps(t: string, sep: string, n: nat)
    requires |sep| > 0 && n <= |t|
    requires forall j :: 0 <= j < n ==> !OccursAt(t, sep, j)
    ensures n <= |Split(t, sep)[0]| && Split(t, sep)[0][..n] == t[..n]
  {
  }

  /** `os.path.basename` of a directory joined with a name without `/`. */
  lemma {:induction false} BasenameOf(dir: string, name: string)
    requires !HasChar(name, '/')
    ensures Basename(dir + "/" + name) == name
    decreases |name|
  {
    var p := dir + "/" + name;
    if |name| == 0 {
      assert p[|p| - 1] == '/';
    } else {
      var init, last := name[..|name| - 1], name[|name| - 1];
      assert name == init + [last];
      assert p == (dir + "/" + init) + [last];
      assert !HasChar(init, '/') by {
        forall i | 0 <= i < |init| ensures init[i] != '/' {
          assert init[i] == name[i];
        }
      }
      BasenameOf(dir, init);
    }
  }

  /** Every piece of a split on a character is free of that character. */
  lemma {:induction false} SplitPiecesFree(s: string, c: char, k: nat)
    requires k < |Split(s, [c])|
    ensures !HasChar(Split(s, [c])[k], c)
    decreases |s|
  {
    match IndexOf(s, [c])
    case None =>
      forall i | 0 <= i < |s| ensures s[i] != c {
        assert !OccursAt(s, [c], i);
        assert s[i..i + 1] == [s[i]];
      }
    case Some(i) =>
      if k == 0 {
        forall j | 0 <= j < i ensures s[..i][j] != c {
          assert !OccursAt(s, [c], j);
          assert s[j..j + 1] == [s[j]];
        }
      } else {
        SplitPiecesFree(s[i + 1..], c, k - 1);
      }
  }

  /** `int(str(n)) == n` for a natural number. */
  lemma PyIntNatToString(n: nat)
    ensures PyInt(NatToString(n)) == Ok(n as int)
  {
    PyIntIntToString(n);
  }

  /** Stripping `c` leaves a string that neither starts nor ends with `c`
      unchanged. */
  lemma StripKeeps(s: string, c: char)
    requires |s| > 0 && s[0] != c && s[|s| - 1] != c
    ensures Strip(s, c) == s
  {
    assert LStrip(s, c) == s;
  }
}
