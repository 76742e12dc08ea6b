/** The focal-plane image catalog (`focal_plane.py`): sensor images named
    after their visit, raft and sensor are gathered into rafts, and rafts
    into the focal plane of one visit. A raft refuses a sensor of another
    raft or visit, or one it already holds; the focal plane refuses a raft
    of another visit, or one it already holds. Refusals only print a
    message, so in the model they leave the state as it was. */
module FocalPlane {
  import opened Wrappers
  import opened Strings

  /** A sensor image: its path and file name, and the visit, raft and
      sensor names read off the file name. */
  datatype Sensor = Sensor(path: string, filename: string, visit: string,
                           raft: string, name: string, rebinning: real)

  /** `float(x or 1)`: no rebinning, or a rebinning of zero, means 1. */
  function Rebinning(x: Option<real>): (r: real)
    ensures r != 0.0
    ensures x.Some? && x.value != 0.0 ==> r == x.value
    ensures x.None? || x.value == 0.0 ==> r == 1.0
  {
    if x.None? || x.value == 0.0 then 1.0 else x.value
  }

  /** Python's `s[:2]`. */
  function Head2(s: string): (r: string)
    ensures |r| == if |s| < 2 then |s| else 2
    ensures r == s[..|r|]
  {
    if |s| < 2 then s else s[..2]
  }

  /** `Sensor(path, default_rebinning)`: the visit is the third `_` field of
      the file name, the raft is `R` and the two characters after the first
      `_R`, the sensor is `S` and the two characters after the first `_S`.
      A file name without these raises `IndexError`. */
  function ParseSensor(path: string, rebinning: Option<real>): (r: Result<Sensor>)
    ensures r.Err? ==> r.error == IndexError
    ensures r.Ok? ==> r.value.path == path && r.value.filename == Basename(path)
    ensures r.Ok? ==> !HasChar(r.value.visit, '_')
    ensures r.Ok? ==> 1 <= |r.value.raft| <= 3 && r.value.raft[0] == 'R'
    ensures r.Ok? ==> 1 <= |r.value.name| <= 3 && r.value.name[0] == 'S'
    ensures r.Ok? ==> r.value.rebinning != 0.0
  {
    var filename := Basename(path);
    var fields := Split(filename, "_");
    var rafts := Split(filename, "_R");
    var sensors := Split(filename, "_S");
    if |fields| < 3 || |rafts| < 2 || |sensors| < 2 then Err(IndexError)
    else
      SplitPiecesFree(filename, '_', 2);
      Ok(Sensor(path, filename, fields[2], "R" + Head2(rafts[1]), "S" + Head2(sensors[1]), Rebinning(rebinning)))
  }

  /** The name phosim gives a sensor image:
      `lsst_e_<visit>_f<filter>_R<xy>_S<xy>_E000.fits`. */
  function PhosimName(visit: string, filter: char, raft: string, sensor: string): string {
    "lsst_e_" + visit + "_f" + [filter] + "_R" + raft + "_S" + sensor + "_E000.fits"
  }

  /** The file name before the raft's `_R`. */
  lemma BeforeRaft(visit: string, filter: char)
    requires |visit| > 0 && AllDigits(visit) && IsDigit(filter)
    ensures NoPair("lsst_e_" + visit + "_f" + [filter], '_', 'R')
    ensures NoPair("lsst_e_" + visit + "_f" + [filter], '_', 'S')
  {
    DigitsNoPair(visit, '_', 'R');
    DigitsNoPair(visit, '_', 'S');
    NoPairAppend("lsst_e_", visit, '_', 'R');
    NoPairAppend("lsst_e_" + visit, "_f", '_', 'R');
    NoPairAppend("lsst_e_" + visit + "_f", [filter], '_', 'R');
    NoPairAppend("lsst_e_", visit, '_', 'S');
    NoPairAppend("lsst_e_" + visit, "_f", '_', 'S');
    NoPairAppend("lsst_e_" + visit + "_f", [filter], '_', 'S');
  }

  /** The file name before the sensor's `_S`. */
  lemma BeforeSensor(visit: string, filter: char, raft: string)
    requires |visit| > 0 && AllDigits(visit) && IsDigit(filter)
    requires |raft| == 2 && AllDigits(raft)
    ensures NoPair("lsst_e_" + visit + "_f" + [filter] + "_R" + raft, '_', 'S')
  {
    var pre := "lsst_e_" + visit + "_f" + [filter];
    BeforeRaft(visit, filter);
    DigitsNoPair(raft, '_', 'S');
    NoPairAppend(pre, "_R", '_', 'S');
    NoPairAppend(pre + "_R", raft, '_', 'S');
  }

  /** The third `_` field of `a_b_c_rest`, for fields without `_`. */
  lemma ThirdField(a: string, b: string, c: string, rest: string)
    requires !HasChar(a, '_') && !HasChar(b, '_') && !HasChar(c, '_')
    ensures var s := a + "_" + b + "_" + c + "_" + rest;
      |Split(s, "_")| >= 3 && Split(s, "_")[2] == c
  {
    assert a + "_" + b + "_" + c + "_" + rest == a + ['_'] + (b + ['_'] + (c + ['_'] + rest));
    SplitCharHead(a, '_', b + ['_'] + (c + ['_'] + rest));
    SplitCharHead(b, '_', c + ['_'] + rest);
    SplitCharHead(c, '_', rest);
  }

  lemma DigitsNoUnderscore(d: string)
    requires AllDigits(d)
    ensures !HasChar(d, '_')
  {
    forall i | 0 <= i < |d| ensures d[i] != '_' {
      assert IsDigit(d[i]);
    }
  }

  /** The third `_` field of a phosim name is its visit. */
  lemma PhosimVisit(visit: string, filter: char, raft: string, sensor: string)
    requires |visit| > 0 && AllDigits(visit)
    ensures |Split(PhosimName(visit, filter, raft, sensor), "_")| >= 3
    ensures Split(PhosimName(visit, filter, raft, sensor), "_")[2] == visit
  {
    var rest := "f" + [filter] + "_R" + raft + "_S" + sensor + "_E000.fits";
    assert PhosimName(visit, filter, raft, sensor) == "lsst" + "_" + "e" + "_" + visit + "_" + rest;
    DigitsNoUnderscore(visit);
    ThirdField("lsst", "e", visit, rest);
  }

  /** The two characters after the first `xy` of `pre xy t`, when `pre`
      holds no `xy` and `t` starts with two characters other than `x`. */
  lemma CodeAfterPair(pre: string, x: char, y: char, t: string, code: string)
    requires x != y && NoPair(pre, x, y)
    requires |code| == 2 && |t| >= 2 && t[..2] == code && code[0] != x && code[1] != x
    ensures |Split(pre + [x, y] + t, [x, y])| >= 2
    ensures Head2(Split(pre + [x, y] + t, [x, y])[1]) == code
  {
    SplitPairHead(pre, x, y, t);
    forall j | 0 <= j < 2 ensures !OccursAt(t, [x, y], j) {
      assert t[j] == code[j];
    }
    SplitFirstKeeps(t, [x, y], 2);
  }

  /** What follows the first `_R` of a phosim name starts with its raft. */
  lemma PhosimRaft(visit: string, filter: char, raft: string, sensor: string)
    requires |visit| > 0 && AllDigits(visit) && IsDigit(filter)
    requires |raft| == 2 && AllDigits(raft)
    ensures |Split(PhosimName(visit, filter, raft, sensor), "_R")| >= 2
    ensures Head2(Split(PhosimName(visit, filter, raft, sensor), "_R")[1]) == raft
  {
    var pre := "lsst_e_" + visit + "_f" + [filter];
    var t := raft + "_S" + sensor + "_E000.fits";
    assert PhosimName(visit, filter, raft, sensor) == pre + ['_', 'R'] + t;
    assert t[..2] == raft;
    assert IsDigit(raft[0]) && IsDigit(raft[1]);
    BeforeRaft(visit, filter);
    CodeAfterPair(pre, '_', 'R', t, raft);
  }

  /** What follows the first `_S` of a phosim name starts with its sensor. */
  lemma PhosimSensor(visit: string, filter: char, raft: string, sensor: string)
    requires |visit| > 0 && AllDigits(visit) && IsDigit(filter)
    requires |raft| == 2 && AllDigits(raft)
    requires |sensor| == 2 && AllDigits(sensor)
    ensures |Split(PhosimName(visit, filter, raft, sensor), "_S")| >= 2
    ensures Head2(Split(PhosimName(visit, filter, raft, sensor), "_S")[1]) == sensor
  {
    var pre := "lsst_e_" + visit + "_f" + [filter] + "_R" + raft;
    var t := sensor + "_E000.fits";
    assert PhosimName(visit, filter, raft, sensor) == pre + ['_', 'S'] + t;
    assert t[..2] == sensor;
    assert IsDigit(sensor[0]) && IsDigit(sensor[1]);
    BeforeSensor(visit, filter, raft);
    CodeAfterPair(pre, '_', 'S', t, sensor);
  }

  lemma PhosimNoSlash(visit: string, filter: char, raft: string, sensor: string)
    requires AllDigits(visit) && IsDigit(filter) && AllDigits(raft) && AllDigits(sensor)
    ensures !HasChar(PhosimName(visit, filter, raft, sensor), '/')
  {
    var n := PhosimName(visit, filter, raft, sensor);
    forall i | 0 <= i < |n| ensures n[i] != '/' {
      var a := "lsst_e_" + visit + "_f" + [filter] + "_R" + raft + "_S" + sensor;
      if i < |a| {
        assert n[i] == a[i];
      }
    }
  }

  /** Parsing inverts phosim's naming: a sensor image of a phosim name, in
      any directory, is read back with the visit, raft and sensor it was
      named after. */
  lemma ParsePhosimName(dir: string, visit: string, filter: char, raft: string, sensor: string,
                        rebinning: Option<real>)
    requires |visit| > 0 && AllDigits(visit) && IsDigit(filter)
    requires |raft| == 2 && AllDigits(raft) && |sensor| == 2 && AllDigits(sensor)
    ensures var name := PhosimName(visit, filter, raft, sensor);
      ParseSensor(dir + "/" + name, rebinning)
      == Ok(Sensor(dir + "/" + name, name, visit, "R" + raft, "S" + sensor, Rebinning(rebinning)))
  {
    PhosimNoSlash(visit, filter, raft, sensor);
    BasenameOf(dir, PhosimName(visit, filter, raft, sensor));
    PhosimVisit(visit, filter, raft, sensor);
    PhosimRaft(visit, filter, raft, sensor);
    PhosimSensor(visit, filter, raft, sensor);
  }

  /** A raft of one visit and the sensors it holds, by sensor name. */
  datatype Raft = Raft(name: string, visit: string, sensors: map<string, Sensor>)

  /** Every sensor of the raft is filed under its own name and belongs to
      the raft's raft and visit. */
  predicate RaftValid(r: Raft) {
    forall n :: n in r.sensors ==>
      r.sensors[n].name == n && r.sensors[n].raft == r.name && r.sensors[n].visit == r.visit
  }

  predicate RaftAccepts(r: Raft, s: Sensor) {
    s.raft == r.name && s.visit == r.visit && s.name !in r.sensors
  }

  /** `Raft.add_sensor`: a sensor of the raft's raft and visit with a new
      name is filed; anything else is refused and nothing changes. */
  function AddSensorToRaft(r: Raft, s: Sensor): (r': Raft)
    ensures r'.name == r.name && r'.visit == r.visit
    ensures r' != r <==> RaftAccepts(r, s)
    ensures r'.sensors.Keys == if RaftAccepts(r, s) then r.sensors.Keys + {s.name} else r.sensors.Keys
    ensures forall n :: n in r.sensors ==> r'.sensors[n] == r.sensors[n]
    ensures RaftAccepts(r, s) ==> r'.sensors[s.name] == s
  {
    if RaftAccepts(r, s) then
      assert s.name in r.(sensors := r.sensors[s.name := s]).sensors;
      r.(sensors := r.sensors[s.name := s])
    else r
  }

  lemma AddSensorToRaftValid(r: Raft, s: Sensor)
    requires RaftValid(r)
    ensures RaftValid(AddSensorToRaft(r, s))
  {
  }

  /** The focal plane of one visit and its rafts, by raft name. */
  datatype Plane = Plane(visit: string, rafts: map<string, Raft>)

  /** `FocalPlane(visit)`: no rafts yet. */
  function NewPlane(visit: string): (p: Plane)
    ensures p.visit == visit && |p.rafts| == 0
  {
    Plane(visit, map[])
  }

  predicate PlaneValid(p: Plane) {
    forall n :: n in p.rafts ==>
      p.rafts[n].name == n && p.rafts[n].visit == p.visit && RaftValid(p.rafts[n])
  }

  predicate PlaneAccepts(p: Plane, r: Raft) {
    r.visit == p.visit && r.name !in p.rafts
  }

  /** `FocalPlane.add_raft`: a raft of the plane's visit with a new name is
      added; anything else is refused and nothing changes. */
  function AddRaft(p: Plane, r: Raft): (p': Plane)
    ensures p'.visit == p.visit
    ensures p' != p <==> PlaneAccepts(p, r)
    ensures p'.rafts.Keys == if PlaneAccepts(p, r) then p.rafts.Keys + {r.name} else p.rafts.Keys
    ensures forall n :: n in p.rafts ==> p'.rafts[n] == p.rafts[n]
  {
    if PlaneAccepts(p, r) then
      assert r.name in p.(rafts := p.rafts[r.name := r]).rafts;
      p.(rafts := p.rafts[r.name := r])
    else p
  }

  /** `FocalPlane.add_sensor`: create the sensor's raft if the plane lacks
      it, then hand the sensor to that raft. When the raft is missing and
      the plane refuses to create it (the sensor is of another visit), the
      lookup that follows raises `KeyError`. */
  function AddSensor(p: Plane, s: Sensor): (r: Result<Plane>)
    ensures r.Err? <==> s.raft !in p.rafts && s.visit != p.visit
    ensures r.Err? ==> r.error == KeyError
    ensures r.Ok? ==> r.value.visit == p.visit && r.value.rafts.Keys == p.rafts.Keys + {s.raft}
  {
    var p1 := if s.raft !in p.rafts then AddRaft(p, Raft(s.raft, s.visit, map[])) else p;
    if s.raft !in p1.rafts then Err(KeyError)
    else Ok(p1.(rafts := p1.rafts[s.raft := AddSensorToRaft(p1.rafts[s.raft], s)]))
  }

  /** Adding a sensor keeps every raft filed under its name, of the
      plane's visit, and every sensor filed correctly. */
  lemma AddSensorValid(p: Plane, s: Sensor)
    requires PlaneValid(p) && AddSensor(p, s).Ok?
    ensures PlaneValid(AddSensor(p, s).value)
  {
    var p1 := if s.raft !in p.rafts then AddRaft(p, Raft(s.raft, s.visit, map[])) else p;
    assert PlaneValid(p1);
    AddSensorToRaftValid(p1.rafts[s.raft], s);
  }

  /** A sensor is filed exactly when it is of the plane's visit and its
      raft does not yet hold a sensor of that name; nothing already filed
      is replaced. */
  lemma AddSensorFiles(p: Plane, s: Sensor)
    requires PlaneValid(p) && AddSensor(p, s).Ok?
    ensures var q := AddSensor(p, s).value;
      && s.raft in q.rafts
      && (s.name in q.rafts[s.raft].sensors && q.rafts[s.raft].sensors[s.name] == s
          <== s.visit == p.visit && (s.raft !in p.rafts || s.name !in p.rafts[s.raft].sensors))
      && (q == p <== s.raft in p.rafts && (s.visit != p.visit || s.name in p.rafts[s.raft].sensors))
      && (forall n, m :: n in p.rafts && m in p.rafts[n].sensors ==>
            n in q.rafts && m in q.rafts[n].sensors && q.rafts[n].sensors[m] == p.rafts[n].sensors[m])
  {
    if s.raft in p.rafts && (s.visit != p.visit || s.name in p.rafts[s.raft].sensors) {
      assert p.rafts[s.raft := p.rafts[s.raft]] == p.rafts;
    }
  }

  /** The sensor is already accounted for: its raft is present, and the
      sensor is either of another visit or filed under its name. Adding it
      again changes nothing. */
  predicate Absorbed(p: Plane, s: Sensor) {
    s.raft in p.rafts && (s.visit != p.visit || s.name in p.rafts[s.raft].sensors)
  }

  lemma AbsorbedKept(p: Plane, s: Sensor, t: Sensor)
    requires PlaneValid(p) && AddSensor(p, t).Ok? && Absorbed(p, s)
    ensures Absorbed(AddSensor(p, t).value, s)
  {
    AddSensorFiles(p, t);
  }

  /** Reading one file name into its sensor. */
  function Parser(rebinning: Option<real>): string -> Result<Sensor> {
    path => ParseSensor(path, rebinning)
  }

  /** Parsing some file of `paths` raises `e`. */
  predicate ParseFails(paths: seq<string>, parse: string -> Result<Sensor>, e: PyError) {
    exists i :: 0 <= i < |paths| && parse(paths[i]) == Err(e)
  }

  /** Parse every file, in order, and add its sensor, whatever the
      parsing. */
  function LoadWith(p: Plane, paths: seq<string>, parse: string -> Result<Sensor>): (r: Result<Plane>)
    ensures r.Ok? ==> r.value.visit == p.visit && p.rafts.Keys <= r.value.rafts.Keys
    ensures r.Err? ==> r.error == KeyError || ParseFails(paths, parse, r.error)
    decreases |paths|
  {
    if |paths| == 0 then Ok(p)
    else match parse(paths[0])
      case Err(e) => Err(e)
      case Ok(s) =>
        match AddSensor(p, s)
        case Err(e) => Err(e)
        case Ok(p1) =>
          var r := LoadWith(p1, paths[1..], parse);
          assert r.Err? && ParseFails(paths[1..], parse, r.error) ==> ParseFails(paths, parse, r.error) by {
            if r.Err? && ParseFails(paths[1..], parse, r.error) {
              var i :| 0 <= i < |paths[1..]| && parse(paths[1..][i]) == Err(r.error);
              assert paths[1..][i] == paths[i + 1];
            }
          }
          r
  }

  /** `_load_focal_plane`: parse every file, in order, and add its sensor;
      a file name without the sensor fields raises `IndexError`, a sensor
      whose raft is missing and whose visit differs raises `KeyError`. */
  function Load(p: Plane, paths: seq<string>, rebinning: Option<real>): (r: Result<Plane>)
    ensures r.Err? ==> r.error == IndexError || r.error == KeyError
    ensures r.Ok? ==> r.value.visit == p.visit && p.rafts.Keys <= r.value.rafts.Keys
  {
    LoadWith(p, paths, Parser(rebinning))
  }

  /** One step of a successful load: the first file parses, its sensor
      is added, and the rest is loaded into the result. */
  lemma LoadStep(p: Plane, paths: seq<string>, parse: string -> Result<Sensor>)
    requires |paths| > 0 && LoadWith(p, paths, parse).Ok?
    ensures parse(paths[0]).Ok?
    ensures AddSensor(p, parse(paths[0]).value).Ok?
    ensures LoadWith(p, paths, parse) == LoadWith(AddSensor(p, parse(paths[0]).value).value, paths[1..], parse)
  {
  }

  /** Loading keeps the plane valid and its visit. */
  lemma {:induction false} LoadValid(p: Plane, paths: seq<string>, parse: string -> Result<Sensor>)
    requires PlaneValid(p) && LoadWith(p, paths, parse).Ok?
    ensures PlaneValid(LoadWith(p, paths, parse).value)
    ensures LoadWith(p, paths, parse).value.visit == p.visit
    decreases |paths|
  {
    if |paths| > 0 {
      LoadStep(p, paths, parse);
      var s := parse(paths[0]).value;
      AddSensorValid(p, s);
      LoadValid(AddSensor(p, s).value, paths[1..], parse);
    }
  }

  /** After a load every file's sensor is accounted for. */
  lemma {:induction false} LoadAbsorbs(p: Plane, paths: seq<string>, parse: string -> Result<Sensor>, i: nat)
    requires PlaneValid(p) && LoadWith(p, paths, parse).Ok? && i < |paths|
    ensures parse(paths[i]).Ok?
    ensures Absorbed(LoadWith(p, paths, parse).value, parse(paths[i]).value)
    decreases |paths|
  {
    LoadStep(p, paths, parse);
    var s := parse(paths[0]).value;
    var p1 := AddSensor(p, s).value;
    AddSensorValid(p, s);
    if i == 0 {
      FirstAbsorbed(p, s);
      AbsorbedLoad(p1, paths[1..], parse, s);
    } else {
      assert paths[1..][i - 1] == paths[i];
      LoadAbsorbs(p1, paths[1..], parse, i - 1);
    }
  }

  /** The sensor just added is accounted for. */
  lemma FirstAbsorbed(p: Plane, s: Sensor)
    requires PlaneValid(p) && AddSensor(p, s).Ok?
    ensures Absorbed(AddSensor(p, s).value, s)
  {
    AddSensorFiles(p, s);
  }

  /** A sensor accounted for stays so through a load. */
  lemma {:induction false} AbsorbedLoad(p: Plane, paths: seq<string>, parse: string -> Result<Sensor>, s: Sensor)
    requires PlaneValid(p) && LoadWith(p, paths, parse).Ok? && Absorbed(p, s)
    ensures Absorbed(LoadWith(p, paths, parse).value, s)
    decreases |paths|
  {
    if |paths| > 0 {
      LoadStep(p, paths, parse);
      var t := parse(paths[0]).value;
      AbsorbedKept(p, s, t);
      AddSensorValid(p, t);
      AbsorbedLoad(AddSensor(p, t).value, paths[1..], parse, s);
    }
  }

  /** Loading files whose sensors are all accounted for changes nothing. */
  lemma {:induction false} LoadAbsorbed(q: Plane, paths: seq<string>, parse: string -> Result<Sensor>)
    requires PlaneValid(q)
    requires forall i :: 0 <= i < |paths| ==> parse(paths[i]).Ok? && Absorbed(q, parse(paths[i]).value)
    ensures LoadWith(q, paths, parse) == Ok(q)
    decreases |paths|
  {
    if |paths| > 0 {
      var s := parse(paths[0]).value;
      AddSensorFiles(q, s);
      assert forall i :: 0 <= i < |paths| - 1 ==> paths[1..][i] == paths[i + 1];
      LoadAbsorbed(q, paths[1..], parse);
    }
  }

  /** The reader loads the files again each time it lists or fetches the
      whole plane; loading a second time changes nothing. */
  lemma LoadTwice(p: Plane, paths: seq<string>, rebinning: Option<real>)
    requires PlaneValid(p) && Load(p, paths, rebinning).Ok?
    ensures Load(Load(p, paths, rebinning).value, paths, rebinning) == Load(p, paths, rebinning)
  {
    var parse := Parser(rebinning);
    var q := LoadWith(p, paths, parse).value;
    LoadValid(p, paths, parse);
    forall i | 0 <= i < |paths|
      ensures parse(paths[i]).Ok? && Absorbed(q, parse(paths[i]).value)
    {
      LoadAbsorbs(p, paths, parse, i);
    }
    LoadAbsorbed(q, paths, parse);
  }

  /** The `raft-sensor` name of a filed sensor. */
  function SensorQuantity(raft: string, sensor: string): string {
    raft + "-" + sensor
  }

  /** `_generate_native_quantity_list` on a loaded plane: `visit`, every
      raft name, and `raft-sensor` for every filed sensor. */
  function PlaneQuantities(p: Plane): (r: set<string>)
    ensures "visit" in r
    ensures forall n :: n in p.rafts ==> n in r
  {
    {"visit"} + p.rafts.Keys
      + (set n, m | n in p.rafts && m in p.rafts[n].sensors :: SensorQuantity(n, m))
  }

  /** The native quantities: load, then list the plane. */
  function NativeQuantities(p: Plane, paths: seq<string>, rebinning: Option<real>): (r: Result<set<string>>)
    ensures r.Ok? <==> Load(p, paths, rebinning).Ok?
    ensures r.Ok? ==> r.value == PlaneQuantities(Load(p, paths, rebinning).value)
  {
    match Load(p, paths, rebinning)
    case Err(e) => Err(e)
    case Ok(q) => Ok(PlaneQuantities(q))
  }

  /** What the getter hands back: the whole plane, one raft or one sensor. */
  datatype Got = WholePlane(plane: Plane) | OneRaft(raft: Raft) | OneSensor(sensor: Sensor)

  /** `_native_quantity_getter`: `visit` reloads and returns the plane; a
      name with `-` is split into a raft and a sensor name (a name with more
      than one `-` does not unpack: `ValueError`); any other name is a
      raft. A missing raft or sensor raises `KeyError`. */
  function Getter(p: Plane, paths: seq<string>, rebinning: Option<real>, quantity: string): (r: Result<Got>)
    ensures quantity == "visit" ==> (r.Ok? <==> Load(p, paths, rebinning).Ok?)
    ensures quantity != "visit" && !HasChar(quantity, '-') ==> (r.Ok? <==> quantity in p.rafts)
    ensures r.Ok? && r.value.OneRaft? ==> r.value.raft in p.rafts.Values
    ensures r.Err? && quantity != "visit" ==> r.error == KeyError || r.error == ValueError
  {
    if quantity == "visit" then
      match Load(p, paths, rebinning)
      case Err(e) => Err(e)
      case Ok(q) => Ok(WholePlane(q))
    else if HasChar(quantity, '-') then
      var parts := Split(quantity, "-");
      if |parts| != 2 then Err(ValueError)
      else if parts[0] !in p.rafts then Err(KeyError)
      else if parts[1] !in p.rafts[parts[0]].sensors then Err(KeyError)
      else Ok(OneSensor(p.rafts[parts[0]].sensors[parts[1]]))
    else if quantity in p.rafts then Ok(OneRaft(p.rafts[quantity]))
    else Err(KeyError)
  }

  /** A `raft-sensor` name splits back into its raft and sensor. */
  lemma SensorQuantitySplit(n: string, m: string)
    requires !HasChar(n, '-') && !HasChar(m, '-')
    ensures HasChar(SensorQuantity(n, m), '-')
    ensures Split(SensorQuantity(n, m), "-") == [n, m]
  {
    JoinPair(n, m, "-");
    assert Join([n, m], "-") == SensorQuantity(n, m);
    assert SensorQuantity(n, m)[|n|] == '-';
    SplitJoin([n, m], '-');
  }

  /** The getter inverts the native list: on a loaded plane, `visit`
      fetches the plane itself, ... */
  lemma GetterVisit(p: Plane, paths: seq<string>, rebinning: Option<real>)
    requires Load(p, paths, rebinning) == Ok(p)
    ensures Getter(p, paths, rebinning, "visit") == Ok(WholePlane(p))
  {
  }

  /** ... a listed raft name fetches that raft, when it holds no `-` and
      is not `visit` ... */
  lemma GetterRaft(p: Plane, paths: seq<string>, rebinning: Option<real>, n: string)
    requires n in p.rafts && n != "visit" && !HasChar(n, '-')
    ensures n in PlaneQuantities(p)
    ensures Getter(p, paths, rebinning, n) == Ok(OneRaft(p.rafts[n]))
  {
  }

  /** ... and the `raft-sensor` name of a filed sensor fetches that sensor,
      when neither name holds a `-`. */
  lemma GetterSensor(p: Plane, paths: seq<string>, rebinning: Option<real>, n: string, m: string)
    requires n in p.rafts && m in p.rafts[n].sensors
    requires !HasChar(n, '-') && !HasChar(m, '-')
    ensures SensorQuantity(n, m) in PlaneQuantities(p)
    ensures Getter(p, paths, rebinning, SensorQuantity(n, m)) == Ok(OneSensor(p.rafts[n].sensors[m]))
  {
    var q := SensorQuantity(n, m);
    SensorQuantitySplit(n, m);
    assert !HasChar("visit", '-');
    assert q != "visit";
  }

  /** Every listed name is one of the three kinds. */
  lemma QuantityKinds(p: Plane, quantity: string)
    requires quantity in PlaneQuantities(p)
    ensures quantity == "visit" || quantity in p.rafts
      || exists n, m :: n in p.rafts && m in p.rafts[n].sensors && quantity == SensorQuantity(n, m)
  {
  }

  /** `_iter_native_dataset`: native filters are refused with
      `ValueError`; without them the single dataset is the getter. */
  function IterNativeDataset<F>(nativeFilters: Option<F>): (r: Result<bool>)
    ensures r.Err? <==> nativeFilters.Some?
    ensures r.Err? ==> r.error == ValueError
  {
    if nativeFilters.Some? then Err(ValueError) else Ok(true)
  }

  /** The catalog's visit: a directory that does not exist (and is not a
      glob pattern) raises `ValueError`; the visit is read from the
      instance catalog when there is one, otherwise it is the third `_`
      field of the first image's file name (`IndexError` when there is no
      image or no such field). */
  function CatalogVisit(rootIsDir: bool, root: string, paths: seq<string>, instanceVisit: Option<string>): (r: Result<string>)
    ensures !rootIsDir && !HasChar(root, '*') ==> r == Err(ValueError)
    ensures (rootIsDir || HasChar(root, '*')) && instanceVisit.Some? ==> r == Ok(instanceVisit.value)
    ensures (rootIsDir || HasChar(root, '*')) && instanceVisit.None? && |paths| == 0 ==> r == Err(IndexError)
  {
    if !rootIsDir && !HasChar(root, '*') then Err(ValueError)
    else if instanceVisit.Some? then Ok(instanceVisit.value)
    else if |paths| == 0 then Err(IndexError)
    else
      var fields := Split(Basename(paths[0]), "_");
      if |fields| < 3 then Err(IndexError) else Ok(fields[2])
  }

  /** Without an instance catalog the visit is the first image's own
      visit, so that image is always filed. */
  lemma CatalogVisitFirstFiled(rootIsDir: bool, root: string, paths: seq<string>, rebinning: Option<real>)
    requires |paths| > 0 && ParseSensor(paths[0], rebinning).Ok?
    requires CatalogVisit(rootIsDir, root, paths, None).Ok?
    ensures var v := CatalogVisit(rootIsDir, root, paths, None).value;
      var s := ParseSensor(paths[0], rebinning).value;
      && v == s.visit
      && AddSensor(NewPlane(v), s).Ok?
      && s.name in AddSensor(NewPlane(v), s).value.rafts[s.raft].sensors
  {
    var v := CatalogVisit(rootIsDir, root, paths, None).value;
    var s := ParseSensor(paths[0], rebinning).value;
    AddSensorFiles(NewPlane(v), s);
  }
}
