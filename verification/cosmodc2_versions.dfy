/** The two version checks of the cosmoDC2 reader: the reader's own version
    against the configured one when the catalog is opened, and the version
    stored in each healpix file against the configured one. */
module CosmoVersions {
  import opened Wrappers
  import opened Strings
  import opened StrictVersions

  /** The reader's `__version__`, `1.0.0`. */
  const ReaderVersion := Version(1, 0, 0, None)

  /** The configured version when the configuration names none, `0.0.0`. */
  const DefaultConfigVersion := "0.0.0"

  /** The opening check: the configured version must parse and must not be
      later than the reader's. */
  function ReaderCheck(config: string): (r: Result<()>)
    ensures r.Err? ==> r.error == ValueError
    ensures r.Ok? <==> Parse(config).Ok? && LessEq(Parse(config).value, ReaderVersion)
  {
    match Parse(config)
    case Err(e) => Err(e)
    case Ok(c) => if Less(ReaderVersion, c) then Err(ValueError) else Ok(())
  }

  /** A configured version, as `str()` prints it, passes the opening check
      exactly when it is not later than the reader's. */
  lemma ReaderCheckFormat(v: Version)
    requires WellFormed(v)
    ensures ReaderCheck(Format(v)).Ok? <==> LessEq(v, ReaderVersion)
  {
    ParseFormat(v, "");
    assert Format(v) + "" == Format(v);
  }

  /** The configured version defaults to `0.0.0`, which passes. */
  lemma ReaderCheckDefault()
    ensures ReaderCheck(DefaultConfigVersion) == Ok(())
  {
    ParseWithPatch(0, 0, 0, "");
    assert NatToString(0) == "0";
    assert NatToString(0) + ("." + (NatToString(0) + ("." + (NatToString(0) + "")))) == DefaultConfigVersion;
  }

  /** The values stored under `versionMajor`, `versionMinor` and
      `versionMinorMinor`, up to the first one missing. */
  function PresentRun(labels: seq<Option<int>>): (r: seq<int>)
    ensures |r| <= |labels|
    ensures forall k :: 0 <= k < |r| ==> labels[k] == Some(r[k])
    ensures |r| < |labels| ==> labels[|r|].None?
  {
    if |labels| == 0 || labels[0].None? then []
    else [labels[0].value] + PresentRun(labels[1..])
  }

  /** The text the catalog version is parsed from: the present numbers
      joined by `.`, or `0.0` when none is present. */
  function CatalogVersionText(labels: seq<Option<int>>): string {
    var run := PresentRun(labels);
    if |run| == 0 then "0.0" else JoinInts(run)
  }

  function CatalogVersion(labels: seq<Option<int>>): (r: Result<Version>)
    ensures r.Err? ==> r.error == ValueError
  {
    Parse(CatalogVersionText(labels))
  }

  /** `_check_version`: the catalog version, then the configured one, must
      parse, and the two must compare equal. */
  function CheckVersion(labels: seq<Option<int>>, config: string): (r: Result<()>)
    ensures r.Err? ==> r.error == ValueError
    ensures r.Ok? <==> CatalogVersion(labels).Ok? && Parse(config).Ok?
                       && CatalogVersion(labels).value == Parse(config).value
  {
    match CatalogVersion(labels)
    case Err(e) => Err(e)
    case Ok(cat) =>
      match Parse(config)
      case Err(e) => Err(e)
      case Ok(cfg) =>
        CompareZero(cfg, cat);
        if Compare(cfg, cat) != 0 then Err(ValueError) else Ok(())
  }

  /** A file without `versionMajor` has catalog version `0.0`. */
  lemma CatalogVersionMissing(labels: seq<Option<int>>)
    requires |labels| > 0 && labels[0].None?
    ensures CatalogVersion(labels) == Ok(Version(0, 0, 0, None))
  {
    ParseNoPatch(0, 0, "");
    assert NatToString(0) == "0";
    assert NatToString(0) + ("." + (NatToString(0) + "")) == "0.0";
  }

  /** A file with `versionMajor` but without `versionMinor` has a version
      text of one number, which does not parse. */
  lemma CatalogVersionMajorOnly(labels: seq<Option<int>>)
    requires |labels| > 1 && labels[0].Some? && labels[1].None?
    ensures CatalogVersion(labels) == Err(ValueError)
  {
    var m := labels[0].value;
    assert PresentRun(labels) == [m];
    var s := IntToString(m);
    assert CatalogVersionText(labels) == s;
    if m >= 0 {
      NumberOf(m, "");
      assert NatToString(m) + "" == s;
    } else {
      assert LeadingDigits(s) == 0;
    }
  }

  lemma JoinTwo(a: nat, b: nat)
    ensures JoinInts([a, b]) == NatToString(a) + ("." + (NatToString(b) + ""))
  {
    assert IntsToStrings([a, b]) == [NatToString(a), NatToString(b)];
    JoinPair(NatToString(a), NatToString(b), ".");
  }

  lemma JoinThree(a: nat, b: nat, c: nat)
    ensures JoinInts([a, b, c]) ==
      NatToString(a) + ("." + (NatToString(b) + ("." + (NatToString(c) + ""))))
  {
    assert IntsToStrings([a, b, c]) == [NatToString(a), NatToString(b), NatToString(c)];
    JoinTriple(NatToString(a), NatToString(b), NatToString(c), ".");
  }

  lemma RunTwo(labels: seq<Option<int>>)
    requires |labels| == 3 && labels[0].Some? && labels[1].Some? && labels[2].None?
    ensures PresentRun(labels) == [labels[0].value, labels[1].value]
  {
    assert labels[1..][1..] == labels[2..];
  }

  lemma RunThree(labels: seq<Option<int>>)
    requires |labels| == 3 && labels[0].Some? && labels[1].Some? && labels[2].Some?
    ensures PresentRun(labels) == [labels[0].value, labels[1].value, labels[2].value]
  {
    assert labels[1..][1..] == labels[2..];
    assert labels[2..][1..] == [];
  }

  /** With major and minor present and not negative, the catalog version
      is those numbers and the patch when present, 0 when it is missing. */
  lemma CatalogVersionPresent(labels: seq<Option<int>>)
    requires |labels| == 3 && labels[0].Some? && labels[1].Some?
    requires labels[0].value >= 0 && labels[1].value >= 0
    requires labels[2].Some? ==> labels[2].value >= 0
    ensures CatalogVersion(labels) ==
      Ok(Version(labels[0].value, labels[1].value,
                 if labels[2].Some? then labels[2].value else 0, None))
  {
    var a, b := labels[0].value, labels[1].value;
    if labels[2].None? {
      RunTwo(labels);
      JoinTwo(a, b);
      ParseNoPatch(a, b, "");
    } else {
      var c := labels[2].value;
      RunThree(labels);
      JoinThree(a, b, c);
      ParseWithPatch(a, b, c, "");
    }
  }

  /** A file passes the check against a configured version, as `str()`
      prints it, exactly when its catalog version is that version. */
  lemma CheckVersionFormat(labels: seq<Option<int>>, v: Version)
    requires WellFormed(v)
    ensures CheckVersion(labels, Format(v)).Ok? <==> CatalogVersion(labels) == Ok(v)
  {
    ParseFormat(v, "");
    assert Format(v) + "" == Format(v);
  }
}
