/** The SED quantities of the cosmoDC2 galaxy reader: native names
    `SEDs/{component}LuminositiesStellar:SED_{start}_{width}:rest[:dustAtlas]`
    become keys `sed_{start}_{width}{_disk|_bulge|}{|_no_host_extinction}`.

    The native name is matched, with `re.match`, against
    `^SEDs/([a-z]+)LuminositiesStellar:SED_(\d+)_(\d+):rest((?::dustAtlas)?)$`.
    Each group is followed by a character the group cannot contain (`L`,
    `_`, `:`), so the greedy groups never give characters back, and the
    scanner below takes maximal runs. */
module CosmoSeds {
  import opened Wrappers
  import opened Strings
  import opened Tables

  /** The groups of a matching name. */
  datatype Sed = Sed(component: string, start: string, width: string, dust: bool)

  /** The groups as the pattern can capture them. */
  predicate ValidSed(m: Sed) {
    |m.component| > 0 && AllLower(m.component)
    && |m.start| > 0 && AllDigits(m.start)
    && |m.width| > 0 && AllDigits(m.width)
  }

  const SedHead := "SEDs/"
  const SedMiddle := "LuminositiesStellar:SED_"

  function DustText(dust: bool): string { if dust then ":dustAtlas" else "" }

  /** The native name a match stands for. */
  function SedText(m: Sed): string {
    SedHead + (m.component + (SedMiddle + (m.start + ("_" + (m.width + (":rest" + DustText(m.dust)))))))
  }

  /** The tail after the width: `:rest`, the optional dust group, the end. */
  function ParseRest(s: string): (r: Option<bool>) {
    if !StartsWith(s, ":rest") then None
    else
      var t := s[|":rest"|..];
      if AtEnd(t) then Some(false)
      else if t == ":dustAtlas" || t == ":dustAtlas\n" then Some(true)
      else None
  }

  /** The tail after the component: the middle text, start and `_`. */
  function ParseNumbers(component: string, s: string): (r: Option<Sed>) {
    if !StartsWith(s, SedMiddle) then None
    else
      var r3 := s[|SedMiddle|..];
      var d1 := LeadingDigits(r3);
      if d1 == 0 || d1 == |r3| || r3[d1] != '_' then None
      else ParseWidth(component, r3[..d1], r3[d1 + 1..])
  }

  /** The tail after `start_`: the width and the rest. */
  function ParseWidth(component: string, start: string, s: string): (r: Option<Sed>) {
    var d2 := LeadingDigits(s);
    if d2 == 0 then None
    else
      match ParseRest(s[d2..])
      case None => None
      case Some(dust) => Some(Sed(component, start, s[..d2], dust))
  }

  /** The groups of `q`, or `None` when the pattern does not match. */
  function ParseSed(q: string): (r: Option<Sed>)
    ensures r.Some? ==> ValidSed(r.value)
  {
    if !StartsWith(q, SedHead) then None
    else
      var s := q[|SedHead|..];
      var n := LeadingLower(s);
      if n == 0 then None else ParseNumbers(s[..n], s[n..])
  }

  lemma ParseRestText(dust: bool, t: string)
    requires AtEnd(t)
    ensures ParseRest(":rest" + (DustText(dust) + t)) == Some(dust)
  {
    PrefixOf(":rest", DustText(dust) + t);
  }

  lemma ParseWidthText(m: Sed, t: string)
    requires ValidSed(m) && AtEnd(t)
    ensures ParseWidth(m.component, m.start, m.width + (":rest" + (DustText(m.dust) + t))) == Some(m)
  {
    var tail := ":rest" + (DustText(m.dust) + t);
    var r5 := m.width + tail;
    LeadingDigitsOver(m.width, tail);
    assert r5[..|m.width|] == m.width && r5[|m.width|..] == tail;
    ParseRestText(m.dust, t);
  }

  lemma ParseNumbersText(m: Sed, t: string)
    requires ValidSed(m) && AtEnd(t)
    ensures ParseNumbers(m.component,
      SedMiddle + (m.start + ("_" + (m.width + (":rest" + DustText(m.dust) + t))))) == Some(m)
  {
    var tail := ":rest" + (DustText(m.dust) + t);
    assert ":rest" + DustText(m.dust) + t == tail;
    var r5 := m.width + tail;
    var r3 := m.start + ("_" + r5);
    PrefixOf(SedMiddle, r3);
    LeadingDigitsOver(m.start, "_" + r5);
    assert r3[..|m.start|] == m.start && r3[|m.start| + 1..] == r5;
    ParseWidthText(m, t);
  }

  lemma ParseSedComponent(component: string, rest: string)
    requires |component| > 0 && AllLower(component)
    requires |rest| > 0 && !IsLower(rest[0])
    ensures ParseSed(SedHead + (component + rest)) == ParseNumbers(component, rest)
  {
    var s := component + rest;
    PrefixOf(SedHead, s);
    LowerRunOver(component, rest);
    PrefixOf(component, rest);
  }

  /** Every valid match, printed and followed by nothing or a newline, is
      matched back to itself. */
  lemma ParseSedText(m: Sed, t: string)
    requires ValidSed(m) && AtEnd(t)
    ensures ParseSed(SedText(m) + t) == Some(m)
  {
    var tail := m.start + ("_" + (m.width + (":rest" + DustText(m.dust) + t)));
    var rest := SedMiddle + tail;
    assert SedText(m) + t == SedHead + (m.component + rest);
    assert rest[0] == 'L';
    ParseSedComponent(m.component, rest);
    ParseNumbersText(m, t);
  }

  lemma ParseRestSound(s: string) returns (t: string)
    requires ParseRest(s).Some?
    ensures AtEnd(t) && s == ":rest" + (DustText(ParseRest(s).value) + t)
  {
    var u := s[|":rest"|..];
    assert s == ":rest" + u;
    if AtEnd(u) {
      t := u;
    } else {
      t := u[|":dustAtlas"|..];
      assert u == ":dustAtlas" + t;
    }
  }

  lemma ParseWidthSound(component: string, start: string, s: string) returns (t: string)
    requires ParseWidth(component, start, s).Some?
    ensures var m := ParseWidth(component, start, s).value;
      m.component == component && m.start == start && AtEnd(t)
      && s == m.width + (":rest" + (DustText(m.dust) + t))
  {
    var d2 := LeadingDigits(s);
    assert s == s[..d2] + s[d2..];
    t := ParseRestSound(s[d2..]);
  }

  /** A text that starts with `p` is `p` and the rest. */
  lemma StartsWithSplit(s: string, p: string)
    requires StartsWith(s, p)
    ensures s == p + s[|p|..]
  {
    assert s == s[..|p|] + s[|p|..];
  }

  /** A text with `c` at index `k` is the part before, `c`, and the part
      after. */
  lemma SplitAround(s: string, k: nat, c: char)
    requires k < |s| && s[k] == c
    ensures s == s[..k] + ([c] + s[k + 1..])
  {
    assert s == s[..k] + s[k..];
    assert s[k..] == [c] + s[k + 1..];
  }

  lemma ParseNumbersSound(component: string, s: string) returns (t: string)
    requires ParseNumbers(component, s).Some?
    ensures var m := ParseNumbers(component, s).value;
      m.component == component && AtEnd(t)
      && s == SedMiddle + (m.start + ("_" + (m.width + (":rest" + (DustText(m.dust) + t)))))
  {
    var r3 := s[|SedMiddle|..];
    StartsWithSplit(s, SedMiddle);
    var d1 := LeadingDigits(r3);
    var start, r5 := r3[..d1], r3[d1 + 1..];
    SplitAround(r3, d1, '_');
    assert ParseNumbers(component, s) == ParseWidth(component, start, r5);
    t := ParseWidthSound(component, start, r5);
  }

  /** The text of a match followed by `t`, nested the way the scanner
      reads it. */
  lemma SedTextThen(m: Sed, t: string)
    ensures SedText(m) + t == SedHead + (m.component + (SedMiddle + (m.start + ("_" + (m.width + (":rest" + (DustText(m.dust) + t)))))))
  {
    var e := ":rest" + DustText(m.dust);
    var d := m.width + e;
    var c := "_" + d;
    var b := m.start + c;
    var a := SedMiddle + b;
    var z := m.component + a;
    Assoc(":rest", DustText(m.dust), t);
    Assoc(m.width, e, t);
    Assoc("_", d, t);
    Assoc(m.start, c, t);
    Assoc(SedMiddle, b, t);
    Assoc(m.component, a, t);
    Assoc(SedHead, z, t);
  }

  /** Every name the pattern matches is the text of its groups, followed by
      nothing or a newline. */
  lemma ParseSedSound(q: string) returns (t: string)
    requires ParseSed(q).Some?
    ensures AtEnd(t) && q == SedText(ParseSed(q).value) + t
  {
    var s := q[|SedHead|..];
    StartsWithSplit(q, SedHead);
    var n := LeadingLower(s);
    var component, rest := s[..n], s[n..];
    SplitAt(s, n);
    assert ParseSed(q) == ParseNumbers(component, rest);
    t := ParseNumbersSound(component, rest);
    SedTextThen(ParseSed(q).value, t);
  }

  /** The words `no_host_extinction` that mark a quantity without dust. */
  const NoDust: seq<string> := ["no", "host", "extinction"]

  /** `translate_component_name[component]`: the words the component adds
      to the key; a component outside the dictionary raises `KeyError`. */
  function ComponentWords(c: string): (r: Result<seq<string>>)
    ensures r.Err? <==> c != "total" && c != "disk" && c != "spheroid"
    ensures r.Err? ==> r.error == KeyError
  {
    if c == "total" then Ok([])
    else if c == "disk" then Ok(["disk"])
    else if c == "spheroid" then Ok(["bulge"])
    else Err(KeyError)
  }

  /** The words of `sed_{start}_{width}{component}{dust}`. */
  function SedKey(m: Sed): (r: Result<seq<string>>)
    ensures r.Err? <==> ComponentWords(m.component).Err?
    ensures r.Err? ==> r.error == KeyError
    ensures r.Ok? ==> |r.value| >= 3 && r.value[..3] == ["sed", m.start, m.width]
  {
    match ComponentWords(m.component)
    case Err(e) => Err(e)
    case Ok(cw) => Ok(["sed", m.start, m.width] + cw + (if m.dust then [] else NoDust))
  }

  /** The suffix `translate_component_name` gives, as text. */
  function ComponentSuffix(c: string): string {
    if c == "disk" then "_disk" else if c == "spheroid" then "_bulge" else ""
  }

  function DustSuffix(dust: bool): string { if dust then "" else "_no_host_extinction" }

  lemma KeyNoDust(ws: seq<string>)
    requires |ws| >= 1
    ensures Key(ws + NoDust) == Key(ws) + "_no_host_extinction"
  {
    KeyAppend(ws, "no");
    KeyAppend(ws + ["no"], "host");
    assert ws + ["no"] + ["host"] == ws + ["no", "host"];
    KeyAppend(ws + ["no", "host"], "extinction");
    assert ws + ["no", "host"] + ["extinction"] == ws + NoDust;
  }

  lemma KeyThree(a: string, b: string, c: string)
    ensures Key([a, b, c]) == a + "_" + b + "_" + c
  {
    JoinTriple(a, b, c, "_");
    assert c + "" == c;
    Assoc(b, "_", c);
    Assoc("_", b + "_", c);
    Assoc(a, "_" + (b + "_"), c);
    Assoc(a, "_", b + "_");
    Assoc(a + "_", b, "_");
  }

  lemma KeyComponent(ws: seq<string>, c: string)
    requires |ws| >= 1 && ComponentWords(c).Ok?
    ensures Key(ws + ComponentWords(c).value) == Key(ws) + ComponentSuffix(c)
  {
    if c == "total" {
      assert ws + [] == ws;
    } else {
      KeyAppend(ws, ComponentWords(c).value[0]);
    }
  }

  /** The key's words join to the text the reader formats. */
  lemma SedKeyText(m: Sed)
    requires SedKey(m).Ok?
    ensures Key(SedKey(m).value) ==
      "sed_" + m.start + "_" + m.width + ComponentSuffix(m.component) + DustSuffix(m.dust)
  {
    var head := ["sed", m.start, m.width];
    var cw := ComponentWords(m.component).value;
    KeyThree("sed", m.start, m.width);
    KeyComponent(head, m.component);
    if m.dust {
      assert head + cw + [] == head + cw;
    } else {
      KeyNoDust(head + cw);
    }
  }

  /** What the loop does with one native quantity: nothing when the name
      does not match, an entry `key: quantity` when it does, `KeyError`
      when its component is unknown. */
  function SedEntry(q: string): (r: Result<Option<Entry>>)
    ensures r.Err? ==> r.error == KeyError
    ensures r.Ok? && r.value.Some? ==> ParseSed(q).Some? && SedKey(ParseSed(q).value) == Ok(r.value.value.words)
    ensures r.Ok? && r.value.Some? ==> r.value.value.value == Alias(q)
    ensures r.Ok? && r.value.None? <==> ParseSed(q).None?
    ensures r.Err? <==> ParseSed(q).Some? && SedKey(ParseSed(q).value).Err?
  {
    match ParseSed(q)
    case None => Ok(None)
    case Some(m) =>
      match SedKey(m)
      case Err(e) => Err(e)
      case Ok(ws) => Ok(Some(Entry(ws, Alias(q))))
  }

  /** The SED loop over the native quantities in iteration order. */
  function SedEntries(qs: seq<string>): (r: Result<seq<Entry>>)
    ensures r.Err? ==> r.error == KeyError
  {
    CollectErrorKind(qs, SedEntry, KeyError);
    Collect(qs, SedEntry)
  }

  /** A native quantity the reader drops because the files do not hold it
      yet: an emission line or a continuum luminosity. */
  predicate Placeholder(q: string) {
    StartsWith(q, "emissionLines/") || EndsWith(q, "ContinuumLuminosity")
  }

  /** The native quantities after the placeholders are removed. */
  function DropPlaceholders(natives: set<string>): (r: set<string>)
    ensures r <= natives
    ensures forall q :: q in r ==> !Placeholder(q)
    ensures forall q :: q in natives && !Placeholder(q) ==> q in r
  {
    set q | q in natives && !Placeholder(q)
  }

  /** The removal never drops an SED quantity, so every SED key still
      names a native quantity of the catalog. */
  lemma SedNativeKept(natives: set<string>, q: string)
    requires q in natives && ParseSed(q).Some?
    ensures q in DropPlaceholders(natives)
  {
    SedNotPlaceholder(q);
  }

  lemma SedNotPlaceholder(q: string)
    requires ParseSed(q).Some?
    ensures !Placeholder(q)
  {
    var t := ParseSedSound(q);
    var m := ParseSed(q).value;
    var x := SedText(m);
    var tail := ":rest" + DustText(m.dust);
    SedTextEnds(m);
    assert x[0] == 'S';
    assert q[|q| - 1] != 'y' by {
      if t == "" {
        assert q == x;
        assert x[|x| - 1] == tail[|tail| - 1];
      } else {
        assert q[|q| - 1] == '\n';
      }
    }
    NotPlaceholder(q);
  }

  lemma NotPlaceholder(q: string)
    requires |q| > 0 && q[0] == 'S' && q[|q| - 1] != 'y'
    ensures !Placeholder(q)
  {
    assert q[0] != "emissionLines/"[0];
    assert q[|q| - 1] != "ContinuumLuminosity"[18];
  }

  lemma SedTextEnds(m: Sed)
    ensures SedText(m)[0] == 'S'
    ensures EndsWith(SedText(m), ":rest" + DustText(m.dust))
  {
    var tail := ":rest" + DustText(m.dust);
    Assoc(m.width, "_", tail);
    var x := SedText(m);
    assert x == (SedHead + (m.component + (SedMiddle + (m.start + "_" + m.width)))) + tail;
  }
}
