/** The `distutils.version.StrictVersion` numbers the cosmoDC2 reader
    compares: `major.minor[.patch][{a|b}N]`, where a missing patch counts as
    0 and a version without a pre-release tag is later than any with one.

    Parsing follows the class's pattern
    `^(\d+) \. (\d+) (\. (\d+))? ([ab](\d+))?$` (verbose, ASCII), applied
    with `re.match`; `$` also accepts one trailing newline. */
module StrictVersions {
  import opened Wrappers
  import opened Strings

  /** A pre-release tag: `a` or `b` and its number. */
  datatype Pre = Pre(letter: char, number: nat)

  datatype Version = Version(major: nat, minor: nat, patch: nat, pre: Option<Pre>)

  /** The versions `str()` can print back: the tag letter is `a` or `b`. */
  predicate WellFormed(v: Version) {
    v.pre.Some? ==> v.pre.value.letter == 'a' || v.pre.value.letter == 'b'
  }

  /** A non-empty leading run of digits and what follows it. */
  function Number(s: string): (r: Option<(nat, string)>)
    ensures r.Some? ==> |r.value.1| < |s|
  {
    var n := LeadingDigits(s);
    if n == 0 then None else Some((DigitsValue(s[..n]), s[n..]))
  }

  /** The optional `{a|b}N` tag, followed by the end. */
  function ParsePre(s: string): (r: Option<Option<Pre>>)
  {
    if AtEnd(s) then Some(None)
    else if s[0] == 'a' || s[0] == 'b' then
      match Number(s[1..])
      case Some((n, rest)) => if AtEnd(rest) then Some(Some(Pre(s[0], n))) else None
      case None => None
    else None
  }

  /** `StrictVersion(s)`, or `ValueError` when `s` is not a version. */
  function Parse(s: string): (r: Result<Version>)
    ensures r.Err? ==> r.error == ValueError
    ensures r.Ok? ==> WellFormed(r.value)
  {
    match Number(s)
    case None => Err(ValueError)
    case Some((major, rest)) => AfterMajor(major, rest)
  }

  /** The rest of the text after the major number: `.` and the minor. */
  function AfterMajor(major: nat, s: string): (r: Result<Version>)
    ensures r.Err? ==> r.error == ValueError
    ensures r.Ok? ==> WellFormed(r.value)
  {
    if |s| == 0 || s[0] != '.' then Err(ValueError)
    else
      match Number(s[1..])
      case None => Err(ValueError)
      case Some((minor, rest)) => AfterMinor(major, minor, rest)
  }

  /** The rest of the text after the minor number: an optional `.patch`,
      then the optional tag. */
  function AfterMinor(major: nat, minor: nat, s: string): (r: Result<Version>)
    ensures r.Err? ==> r.error == ValueError
    ensures r.Ok? ==> WellFormed(r.value)
  {
    if |s| > 0 && s[0] == '.' then
      match Number(s[1..])
      case None => Err(ValueError)
      case Some((patch, rest)) => AfterPatch(major, minor, patch, rest)
    else AfterPatch(major, minor, 0, s)
  }

  function AfterPatch(major: nat, minor: nat, patch: nat, s: string): (r: Result<Version>)
    ensures r.Err? ==> r.error == ValueError
    ensures r.Ok? ==> WellFormed(r.value)
  {
    match ParsePre(s)
    case None => Err(ValueError)
    case Some(pre) => Ok(Version(major, minor, patch, pre))
  }

  /** `str(v)`: the patch is printed only when it is not 0. */
  function Format(v: Version): string {
    NatToString(v.major) + ("." + (NatToString(v.minor) + (PatchText(v.patch) + PreText(v.pre))))
  }

  function PatchText(patch: nat): string {
    if patch == 0 then "" else "." + NatToString(patch)
  }

  /** Lexicographic order on the number triple. */
  function CompareNumbers(a: Version, b: Version): int {
    if a.major != b.major then (if a.major < b.major then -1 else 1)
    else if a.minor != b.minor then (if a.minor < b.minor then -1 else 1)
    else if a.patch != b.patch then (if a.patch < b.patch then -1 else 1)
    else 0
  }

  /** `StrictVersion._cmp`: the numbers first; on a tie, a version without
      a tag is the later one, and two tags compare by letter, then number. */
  function Compare(a: Version, b: Version): (c: int)
    ensures c == -1 || c == 0 || c == 1
  {
    var n := CompareNumbers(a, b);
    if n != 0 then n
    else match (a.pre, b.pre)
      case (None, None) => 0
      case (Some(_), None) => -1
      case (None, Some(_)) => 1
      case (Some(p), Some(q)) =>
        if p == q then 0
        else if p.letter < q.letter || (p.letter == q.letter && p.number < q.number) then -1
        else 1
  }

  predicate Less(a: Version, b: Version) { Compare(a, b) < 0 }

  predicate LessEq(a: Version, b: Version) { Compare(a, b) <= 0 }

  /** Two versions compare equal exactly when they are the same. */
  lemma CompareZero(a: Version, b: Version)
    ensures Compare(a, b) == 0 <==> a == b
  {
  }

  /** Swapping the operands flips the order. */
  lemma CompareFlip(a: Version, b: Version)
    ensures Compare(b, a) == -Compare(a, b)
  {
  }

  /** The order is transitive. */
  lemma CompareTransitive(a: Version, b: Version, c: Version)
    requires Less(a, b) && Less(b, c)
    ensures Less(a, c)
  {
  }

  lemma NumberOf(n: nat, t: string)
    requires |t| > 0 ==> !IsDigit(t[0])
    ensures Number(NatToString(n) + t) == Some((n, t))
  {
    var s := NatToString(n) + t;
    LeadingDigitsOver(NatToString(n), t);
    assert s[..|NatToString(n)|] == NatToString(n);
    assert s[|NatToString(n)|..] == t;
    NatToStringValue(n);
  }

  function PreText(pre: Option<Pre>): string {
    match pre
    case None => ""
    case Some(p) => [p.letter] + NatToString(p.number)
  }

  lemma ParsePreText(pre: Option<Pre>, t: string)
    requires pre.Some? ==> pre.value.letter == 'a' || pre.value.letter == 'b'
    requires AtEnd(t)
    ensures ParsePre(PreText(pre) + t) == Some(pre)
  {
    if pre.Some? {
      var p := pre.value;
      var s := [p.letter] + (NatToString(p.number) + t);
      assert PreText(pre) + t == s;
      assert s[1..] == NatToString(p.number) + t;
      assert !AtEnd(s) by {
        assert |s| >= 2;
      }
      NumberOf(p.number, t);
    } else {
      assert PreText(pre) + t == t;
    }
  }

  /** The text after the tag position: only a tag, or nothing, and the end. */
  predicate TagTail(s: string) {
    |s| > 0 ==> !IsDigit(s[0]) && s[0] != '.'
  }

  lemma TagTailOf(pre: Option<Pre>, t: string)
    requires pre.Some? ==> pre.value.letter == 'a' || pre.value.letter == 'b'
    requires AtEnd(t)
    ensures TagTail(PreText(pre) + t)
  {
    if pre.Some? {
      assert (PreText(pre) + t)[0] == pre.value.letter;
    }
  }

  lemma ParseMajor(major: nat, rest: string)
    requires |rest| > 0 && rest[0] == '.'
    ensures Parse(NatToString(major) + rest) == AfterMajor(major, rest)
  {
    NumberOf(major, rest);
  }

  lemma ParseMinor(major: nat, minor: nat, rest: string)
    requires TagTail(rest) || rest[0] == '.'
    ensures AfterMajor(major, "." + (NatToString(minor) + rest)) == AfterMinor(major, minor, rest)
  {
    var s := "." + (NatToString(minor) + rest);
    assert s[1..] == NatToString(minor) + rest;
    NumberOf(minor, rest);
  }

  lemma ParsePatch(major: nat, minor: nat, patch: nat, rest: string)
    requires TagTail(rest)
    ensures AfterMinor(major, minor, "." + (NatToString(patch) + rest)) == AfterPatch(major, minor, patch, rest)
  {
    var s := "." + (NatToString(patch) + rest);
    assert s[1..] == NatToString(patch) + rest;
    NumberOf(patch, rest);
  }

  /** The printed text followed by `t`, split at the groups the parser
      reads. */
  lemma FormatText(v: Version, t: string)
    ensures Format(v) + t ==
      NatToString(v.major) + ("." + (NatToString(v.minor) + (PatchText(v.patch) + (PreText(v.pre) + t))))
  {
    var mj, mn, pa, pr := NatToString(v.major), NatToString(v.minor), PatchText(v.patch), PreText(v.pre);
    Assoc(pa, pr, t);
    Assoc(mn, pa + pr, t);
    Assoc(".", mn + (pa + pr), t);
    Assoc(mj, "." + (mn + (pa + pr)), t);
  }

  lemma ParseNoPatch(major: nat, minor: nat, tail: string)
    requires TagTail(tail)
    ensures Parse(NatToString(major) + ("." + (NatToString(minor) + tail)))
         == AfterPatch(major, minor, 0, tail)
  {
    ParseMajor(major, "." + (NatToString(minor) + tail));
    ParseMinor(major, minor, tail);
  }

  lemma ParseWithPatch(major: nat, minor: nat, patch: nat, tail: string)
    requires TagTail(tail)
    ensures Parse(NatToString(major) + ("." + (NatToString(minor) + ("." + (NatToString(patch) + tail)))))
         == AfterPatch(major, minor, patch, tail)
  {
    var rest := "." + (NatToString(patch) + tail);
    ParseMajor(major, "." + (NatToString(minor) + rest));
    ParseMinor(major, minor, rest);
    ParsePatch(major, minor, patch, tail);
  }

  /** Printing a version and parsing the text gives the version back, also
      when a newline follows. */
  lemma ParseFormat(v: Version, t: string)
    requires WellFormed(v)
    requires AtEnd(t)
    ensures Parse(Format(v) + t) == Ok(v)
  {
    TagTailOf(v.pre, t);
    ParsePreText(v.pre, t);
    FormatText(v, t);
    if v.patch == 0 {
      assert PatchText(v.patch) + (PreText(v.pre) + t) == PreText(v.pre) + t;
      ParseNoPatch(v.major, v.minor, PreText(v.pre) + t);
    } else {
      Assoc(".", NatToString(v.patch), PreText(v.pre) + t);
      ParseWithPatch(v.major, v.minor, v.patch, PreText(v.pre) + t);
    }
  }

  /** `'.'.join(map(str, xs))`. */
  function JoinInts(xs: seq<int>): string {
    Join(IntsToStrings(xs), ".")
  }

  function IntsToStrings(xs: seq<int>): (r: seq<string>)
    ensures |r| == |xs|
    ensures forall k :: 0 <= k < |xs| ==> r[k] == IntToString(xs[k])
  {
    if |xs| == 0 then [] else [IntToString(xs[0])] + IntsToStrings(xs[1..])
  }
}
