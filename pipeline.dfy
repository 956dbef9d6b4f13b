/** The conversion and merging steps, `tiff_to_netcdf`, `cdo_merge` and
    `merge_glacier`, as functions of a modelled disk. The disk holds the
    modification time of every file that exists, the present time and the
    log of the external tools run so far (GDAL's `Translate` and the CDO
    operators `settaxis`, `mergetime` and `merge`). What a tool does is not
    modelled: an oracle says whether a run succeeds and, if it fails, whether
    it left its output file behind. A run that writes its output stamps it
    with the present time; every run takes one tick of the clock. */
module Pipeline {
  import opened Values
  import opened Dates
  import opened Templates
  import opened Grammar
  import opened Codec
  import opened Catalogue
  import opened Blacklist
  import opened Staleness

  /** One run of an external tool, with the arguments the source passes. */
  datatype Call =
    | Translate(source: string, target: string)
    | SetTaxis(when: int, input: string, target: string, options: string)
    | MergeTime(inputs: seq<string>, target: string, options: string)
    | Merge(inputs: seq<string>, target: string, options: string)

  function ToolName(c: Call): string {
    match c
    case Translate(_, _) => "gdal.Translate"
    case SetTaxis(_, _, _, _) => "cdo.settaxis"
    case MergeTime(_, _, _) => "cdo.mergetime"
    case Merge(_, _, _) => "cdo.merge"
  }

  /** What a tool run comes to: success, or an exception, after which the
      output file may or may not exist. */
  datatype Outcome = Done | Failed(leavesTarget: bool)

  /** How the tools behave on a call, given the files on disk. */
  type Tools = (Call, Files) -> Outcome

  datatype Disk = Disk(files: Files, clock: real, log: seq<Call>)

  /** The state after an operation, and what it returned or raised. */
  datatype Step<T> = Step(disk: Disk, out: Result<T>)

  /** No file was written after the present. */
  predicate Settled(d: Disk) {
    d.clock >= 0.0 && forall f :: f in d.files ==> d.files[f] <= d.clock
  }

  /** The compression options every CDO call here passes. */
  const Packed: string := "-f nc4 -z zip_2"

  /** The reference time of the time axis. */
  const RefTime: string := "2008-01-01"

  /** The extension of the intermediate file of a conversion. */
  const TempExt: string := ".tiff_to_netcdf_0.nc"

  /** Run one tool. */
  function Run(d: Disk, tools: Tools, c: Call): (s: Step<()>)
    ensures s.disk.log == d.log + [c] && s.disk.clock == d.clock + 1.0
    ensures s.out.Ok? <==> tools(c, d.files) == Done
    ensures s.out.Err? ==> s.out.error == ToolFailed(ToolName(c), c.target)
    ensures s.out.Ok? ==> s.disk.files == d.files[c.target := d.clock]
  {
    var o := tools(c, d.files);
    var files := if o.Done? || o.leavesTarget then d.files[c.target := d.clock] else d.files;
    Step(Disk(files, d.clock + 1.0, d.log + [c]), if o.Done? then Ok(()) else Err(ToolFailed(ToolName(c), c.target)))
  }

  /** `os.remove(path)` with `FileNotFoundError` swallowed. */
  function Remove(d: Disk, path: string): (r: Disk)
    ensures path !in r.files && r.clock == d.clock && r.log == d.log
    ensures forall f :: f != path ==> (f in r.files <==> f in d.files)
    ensures forall f :: f != path && f in d.files ==> r.files[f] == d.files[f]
  {
    d.(files := d.files - {path})
  }

  /** `rec[key]`. */
  function Entry(rec: Record, key: string): Result<Value> {
    if key in rec then Ok(rec[key]) else Err(KeyError(key))
  }

  /** A path component: `os.path.join` refuses anything but a string. */
  function PathText(v: Value, key: string): Result<string> {
    if v.Str? then Ok(v.s) else Err(TypeError(key))
  }

  /** `os.path.join(rec['dir'], rec['fname'])`. */
  function PathOf(rec: Record): Result<string> {
    var dir :- Entry(rec, "dir");
    var fname :- Entry(rec, "fname");
    var a :- PathText(dir, "dir");
    var b :- PathText(fname, "fname");
    Ok(Join(a, b))
  }

  /** The names a conversion works with. */
  datatype Names = Names(ifname: string, opfile: Record, ofname: string, tmp0: string)

  /** The first part of `tiff_to_netcdf`: the input path, the output record
      (a copy with the new directory, extension and name), the output path and
      the path of the intermediate file. */
  function Plan(pfile: Record, odir: string, oext: string): Result<Names> {
    var ifname :- PathOf(pfile);
    var renamed := pfile["dir" := Str(odir)]["ext" := Str(oext)];
    var oname :- Format(renamed, map[]);
    var opfile := renamed["fname" := Str(oname)];
    var tname :- Format(opfile, map["ext" := Str(TempExt)]);
    Ok(Names(ifname, opfile, Join(odir, oname), Join(odir, tname)))
  }

  /** A `datetime` entry of a record. */
  function DayEntry(rec: Record, key: string): Result<CivilDate> {
    var v :- Entry(rec, key);
    if v.Day? then Ok(v.date) else Err(TypeError(key))
  }

  /** The `input` argument of `settaxis`: set the reference time, the units
      of the variable, rename `Band1` to the variable, read the intermediate file. */
  function TaxisInput(v: string, tmp0: string): string {
    "-setreftime," + RefTime + " -setattribute," + v + "@units=\"m year-1\" -chname,Band1," + v + " " + tmp0
  }

  /** The `settaxis` call: the time axis is set to the midpoint of the
      granule's start and end dates. */
  function TaxisCall(pfile: Record, n: Names): Result<Call> {
    var start :- DayEntry(pfile, "startdate");
    var end :- DayEntry(pfile, "enddate");
    var v :- Entry(pfile, "parameter");
    Ok(SetTaxis(Midpoint(start, end), TaxisInput(Show(v), n.tmp0), n.ofname, Packed))
  }

  /** The body of the `try`: translate to the intermediate file, then write
      the output with its time axis set. */
  function Attempt(d: Disk, tools: Tools, pfile: Record, n: Names): Step<Record> {
    var t := Run(d, tools, Translate(n.ifname, n.tmp0));
    if t.out.Err? then Step(t.disk, Err(t.out.error))
    else
      match TaxisCall(pfile, n)
      case Err(e) => Step(t.disk, Err(e))
      case Ok(c) =>
        var s := Run(t.disk, tools, c);
        Step(s.disk, if s.out.Err? then Err(s.out.error) else Ok(n.opfile))
  }

  /** `tiff_to_netcdf(pfile, odir, oext)`: nothing is run when the output is
      up to date; otherwise the `try` runs and its `finally` removes the
      intermediate file whatever happened. */
  function Convert(d: Disk, tools: Tools, pfile: Record, odir: string, oext: string): (r: Step<Record>)
    ensures r.out.Ok? ==> Plan(pfile, odir, oext).Ok? && r.out.value == Plan(pfile, odir, oext).value.opfile
  {
    match Plan(pfile, odir, oext)
    case Err(e) => Step(d, Err(e))
    case Ok(n) =>
      match Fresh(d.files, d.clock, [n.ifname], [n.ofname])
      case Err(e) => Step(d, Err(e))
      case Ok(current) =>
        if current then Step(d, Ok(n.opfile))
        else
          var s := Attempt(d, tools, pfile, n);
          Step(Remove(s.disk, n.tmp0), s.out)
  }

  // ---------------------------------------------------------------- names

  /** The name of a granule with the extension `e`. */
  function Renamed(f: Fields, e: string): string {
    Assemble(Intended, GroupsOf(f.(ext := e)))
  }

  /** For a record with all its fields and a path, the plan succeeds: the
      output record is the input with the new directory, extension and file
      name, and that name is the granule's own name with the new extension. */
  lemma PlanNames(pfile: Record, odir: string, oext: string)
    requires FieldsFrom(pfile).Some? && PathOf(pfile).Ok?
    ensures var f := FieldsFrom(pfile).value;
      && Plan(pfile, odir, oext).Ok?
      && Plan(pfile, odir, oext).value.ifname == PathOf(pfile).value
      && Plan(pfile, odir, oext).value.opfile
         == pfile["dir" := Str(odir)]["ext" := Str(oext)]["fname" := Str(Renamed(f, oext))]
      && Plan(pfile, odir, oext).value.ofname == Join(odir, Renamed(f, oext))
      && Plan(pfile, odir, oext).value.tmp0 == Join(odir, Renamed(f, TempExt))
  {
    var f := FieldsFrom(pfile).value;
    var renamed := pfile["dir" := Str(odir)]["ext" := Str(oext)];
    RenamedFormat(pfile, odir, oext);
    TempFormat(renamed["fname" := Str(Renamed(f, oext))], f.(ext := oext));
    assert f.(ext := oext).(ext := TempExt) == f.(ext := TempExt);
  }

  /** The output's name is the granule's name with the new extension. */
  lemma RenamedFormat(pfile: Record, odir: string, oext: string)
    requires FieldsFrom(pfile).Some?
    ensures var f := FieldsFrom(pfile).value;
      var renamed := pfile["dir" := Str(odir)]["ext" := Str(oext)];
      && Format(renamed, map[]) == Ok(Renamed(f, oext))
      && FieldsFrom(renamed["fname" := Str(Renamed(f, oext))]) == Some(f.(ext := oext))
  {
    var f := FieldsFrom(pfile).value;
    assert "dir" !in FieldKeys && "fname" !in FieldKeys;
    FieldsWithOther(pfile, "dir", Str(odir));
    var renamed := pfile["dir" := Str(odir)]["ext" := Str(oext)];
    FieldsWithExt(pfile["dir" := Str(odir)], oext);
    assert renamed + map[] == renamed;
    FormatSpells(renamed, map[]);
    FieldsWithOther(renamed, "fname", Str(Renamed(f, oext)));
  }

  /** The intermediate file's name is the output's name with the
      intermediate extension. */
  lemma TempFormat(opfile: Record, g: Fields)
    requires FieldsFrom(opfile) == Some(g)
    ensures Format(opfile, map["ext" := Str(TempExt)]) == Ok(Renamed(g, TempExt))
  {
    var over: Record := map["ext" := Str(TempExt)];
    assert opfile + over == opfile["ext" := Str(TempExt)];
    FieldsWithExt(opfile, TempExt);
    FormatSpells(opfile, over);
  }

  /** The output record holds the fields the parser reads from the output's
      own name, whenever the parser can read a granule with the new extension. */
  lemma PlanReadsBack(dialect: Dialect, pfile: Record, odir: string, oext: string)
    requires FieldsFrom(pfile).Some? && PathOf(pfile).Ok?
    requires Renderable(dialect, FieldsFrom(pfile).value.(ext := oext))
    ensures Plan(pfile, odir, oext).Ok?
    ensures var opfile := Plan(pfile, odir, oext).value.opfile;
      && "fname" in opfile && opfile["fname"].Str?
      && Parse(dialect, opfile["fname"].s).Ok? && Parse(dialect, opfile["fname"].s).value.Some?
      && FieldsFrom(Parse(dialect, opfile["fname"].s).value.value) == FieldsFrom(opfile)
  {
    var f := FieldsFrom(pfile).value;
    PlanNames(pfile, odir, oext);
    RenamedReadsBack(dialect, f, oext);
    OutputFields(pfile, odir, oext, Renamed(f, oext));
  }

  /** The parser reads a granule's name with a new extension back as the
      granule with that extension. */
  lemma RenamedReadsBack(dialect: Dialect, f: Fields, e: string)
    requires Renderable(dialect, f.(ext := e))
    ensures Parse(dialect, Renamed(f, e)).Ok? && Parse(dialect, Renamed(f, e)).value.Some?
    ensures FieldsFrom(Parse(dialect, Renamed(f, e)).value.value) == Some(f.(ext := e))
  {
    ParseFormat(dialect, Renamed(f, e), f.(ext := e));
    FieldsOfRecord(Renamed(f, e), f.(ext := e));
  }

  /** The output record's fields are the input's, with the new extension. */
  lemma OutputFields(pfile: Record, odir: string, oext: string, name: string)
    requires FieldsFrom(pfile).Some?
    ensures FieldsFrom(pfile["dir" := Str(odir)]["ext" := Str(oext)]["fname" := Str(name)])
      == Some(FieldsFrom(pfile).value.(ext := oext))
  {
    assert "dir" !in FieldKeys && "fname" !in FieldKeys;
    FieldsWithOther(pfile, "dir", Str(odir));
    FieldsWithExt(pfile["dir" := Str(odir)], oext);
    FieldsWithOther(pfile["dir" := Str(odir)]["ext" := Str(oext)], "fname", Str(name));
  }

  lemma Assoc(a: string, b: string, c: string)
    ensures a + (b + c) == (a + b) + c
  {
  }

  /** A name the groups spell is a stem that does not depend on the
      extension, followed by the extension. */
  lemma AssembleExt(g: Groups, e: string)
    requires g.ext == ""
    ensures Assemble(Intended, g.(ext := e)) == Assemble(Intended, g) + e
    ensures |Assemble(Intended, g)| > 0
  {
    var v0 := ParameterSegment(Intended, g.parameter, g.version + ("" + ""));
    var v1 := ParameterSegment(Intended, g.parameter, g.version + (e + ""));
    assert g.version + ("" + "") == g.version && g.version + (e + "") == g.version + e;
    match g.parameter
    case None =>
      Assoc("_v", g.version, e);
    case Some(x) =>
      Assoc("_v", g.version, e);
      Assoc(x, "_v" + g.version, e);
      Assoc("_", x + ("_v" + g.version), e);
    assert v1 == v0 + e;
    var t0 := TimeText(g) + v0;
    Assoc(TimeText(g), v0, e);
    var s0 := "_" + t0;
    Assoc("_", t0, e);
    var n0 := g.endText + s0;
    Assoc(g.endText, s0, e);
    var m0 := "_" + n0;
    Assoc("_", n0, e);
    var k0 := g.startText + m0;
    Assoc(g.startText, m0, e);
    var j0 := "_" + k0;
    Assoc("_", k0, e);
    var i0 := g.grid + j0;
    Assoc(g.grid, j0, e);
    var o0 := "_" + i0;
    Assoc("_", i0, e);
    Assoc(g.source, o0, e);
    assert Assemble(Intended, g) == g.source + o0;
  }

  /** A granule's name is a stem that does not depend on the extension,
      followed by the extension. */
  lemma RenamedSplits(f: Fields, e: string)
    ensures Renamed(f, e) == Renamed(f, "") + e && |Renamed(f, "")| > 0
  {
    var h := GroupsOf(f.(ext := ""));
    assert GroupsOf(f.(ext := e)) == h.(ext := e);
    AssembleExt(h, e);
  }

  /** Two extensions give two different paths in the same directory. */
  lemma RenamedApart(f: Fields, odir: string, e1: string, e2: string)
    requires e1 != e2
    ensures Join(odir, Renamed(f, e1)) != Join(odir, Renamed(f, e2))
  {
    RenamedSplits(f, e1);
    RenamedSplits(f, e2);
    var stem, a, b := Renamed(f, ""), Renamed(f, e1), Renamed(f, e2);
    assert a[0] == stem[0] == b[0];
    assert a[|stem|..] == e1 && b[|stem|..] == e2;
    JoinSeparates(odir, a, b);
  }

  /** The intermediate file is never the output file, unless the output
      extension is the intermediate one. */
  lemma TempApart(pfile: Record, odir: string, oext: string)
    requires FieldsFrom(pfile).Some? && PathOf(pfile).Ok? && oext != TempExt
    ensures Plan(pfile, odir, oext).Ok?
    ensures Plan(pfile, odir, oext).value.ofname != Plan(pfile, odir, oext).value.tmp0
  {
    PlanNames(pfile, odir, oext);
    RenamedApart(FieldsFrom(pfile).value, odir, oext, TempExt);
  }

  // ---------------------------------------------------------------- conversion

  /** A tool run keeps the disk settled. */
  lemma RunSettled(d: Disk, tools: Tools, c: Call)
    requires Settled(d)
    ensures Settled(Run(d, tools, c).disk)
  {
  }

  /** A conversion keeps the disk settled. */
  lemma ConvertSettled(d: Disk, tools: Tools, pfile: Record, odir: string, oext: string)
    requires Settled(d)
    ensures Settled(Convert(d, tools, pfile, odir, oext).disk)
  {
    match Plan(pfile, odir, oext)
    case Err(_) =>
    case Ok(n) =>
      var t := Run(d, tools, Translate(n.ifname, n.tmp0));
      RunSettled(d, tools, Translate(n.ifname, n.tmp0));
      match TaxisCall(pfile, n)
      case Err(_) =>
      case Ok(c) => RunSettled(t.disk, tools, c);
  }

  /** The `try` body runs `Translate` into the intermediate file, then
      `settaxis` into the output if that succeeded; on success the output
      exists, written at the time of the second run. It writes no other file. */
  lemma AttemptRuns(d: Disk, tools: Tools, pfile: Record, n: Names)
    ensures var s := Attempt(d, tools, pfile, n);
      && |s.disk.log| > |d.log| && s.disk.log[..|d.log| + 1] == d.log + [Translate(n.ifname, n.tmp0)]
      && (forall f :: f != n.tmp0 && f != n.ofname ==>
            (f in s.disk.files <==> f in d.files) && (f in d.files ==> s.disk.files[f] == d.files[f]))
      && (s.out.Ok? ==>
            && s.out.value == n.opfile && TaxisCall(pfile, n).Ok?
            && s.disk.log == d.log + [Translate(n.ifname, n.tmp0), TaxisCall(pfile, n).value]
            && n.ofname in s.disk.files && s.disk.files[n.ofname] == d.clock + 1.0)
  {
    var t := Run(d, tools, Translate(n.ifname, n.tmp0));
    if t.out.Ok? && TaxisCall(pfile, n).Ok? {
      var c := TaxisCall(pfile, n).value;
      assert c.target == n.ofname;
      assert (d.log + [Translate(n.ifname, n.tmp0)] + [c])[..|d.log| + 1] == d.log + [Translate(n.ifname, n.tmp0)];
    }
  }

  /** When the output is not up to date, the conversion makes the runs of
      the `try` body and then leaves no intermediate file behind; on success
      it returns the output record and the output file exists. Every other
      file is as it was. */
  lemma ConvertRuns(d: Disk, tools: Tools, pfile: Record, odir: string, oext: string)
    requires Plan(pfile, odir, oext).Ok?
    requires var n := Plan(pfile, odir, oext).value;
      Fresh(d.files, d.clock, [n.ifname], [n.ofname]) == Ok(false)
    ensures var n := Plan(pfile, odir, oext).value;
      var r := Convert(d, tools, pfile, odir, oext);
      && n.tmp0 !in r.disk.files
      && |r.disk.log| > |d.log| && r.disk.log[..|d.log| + 1] == d.log + [Translate(n.ifname, n.tmp0)]
      && (forall f :: f != n.tmp0 && f != n.ofname ==>
            (f in r.disk.files <==> f in d.files) && (f in d.files ==> r.disk.files[f] == d.files[f]))
      && (r.out.Ok? ==>
            && r.out.value == n.opfile
            && r.disk.log == d.log + [Translate(n.ifname, n.tmp0), TaxisCall(pfile, n).value]
            && (n.ofname != n.tmp0 ==> n.ofname in r.disk.files && r.disk.files[n.ofname] == d.clock + 1.0))
  {
    var n := Plan(pfile, odir, oext).value;
    var s := Attempt(d, tools, pfile, n);
    AttemptRuns(d, tools, pfile, n);
    assert Convert(d, tools, pfile, odir, oext) == Step(Remove(s.disk, n.tmp0), s.out);
  }

  /** An output that is up to date is returned without running anything. */
  lemma CurrentConvert(d: Disk, tools: Tools, pfile: Record, odir: string, oext: string)
    requires Plan(pfile, odir, oext).Ok?
    requires var n := Plan(pfile, odir, oext).value;
      Fresh(d.files, d.clock, [n.ifname], [n.ofname]) == Ok(true)
    ensures Convert(d, tools, pfile, odir, oext) == Step(d, Ok(Plan(pfile, odir, oext).value.opfile))
  {
  }

  /** A conversion that runs and succeeds on a settled disk leaves its output
      up to date. */
  lemma RunLeavesCurrent(d: Disk, tools: Tools, pfile: Record, odir: string, oext: string, n: Names)
    requires Settled(d) && Plan(pfile, odir, oext) == Ok(n)
    requires n.ifname in d.files && n.ifname != n.ofname && n.ifname != n.tmp0 && n.ofname != n.tmp0
    requires Fresh(d.files, d.clock, [n.ifname], [n.ofname]) == Ok(false)
    requires Convert(d, tools, pfile, odir, oext).out.Ok?
    ensures var r := Convert(d, tools, pfile, odir, oext);
      Fresh(r.disk.files, r.disk.clock, [n.ifname], [n.ofname]) == Ok(true)
  {
    var r := Convert(d, tools, pfile, odir, oext);
    ConvertRuns(d, tools, pfile, odir, oext);
    var fs := r.disk.files;
    assert r.disk.clock == d.clock + 2.0;
    assert fs[n.ifname] == d.files[n.ifname] <= d.clock;
    assert fs[n.ofname] == d.clock + 1.0;
    OutputNewer(fs, r.disk.clock, n.ifname, n.ofname);
  }

  /** One input older than its one output is up to date. */
  lemma OutputNewer(fs: Files, now: real, ifname: string, ofname: string)
    requires ifname in fs && ofname in fs && fs[ifname] < fs[ofname] <= now && 0.0 <= now
    ensures Fresh(fs, now, [ifname], [ofname]) == Ok(true)
  {
    assert AllExist(fs, [ofname]) && AllExist(fs, [ifname]);
    assert Oldest(fs, now * 1000.0, [ofname]) == fs[ofname] by {
      assert [ofname][..0] == [];
    }
    assert Newest(fs, [ifname]) == fs[ifname];
  }

  /** Converting twice does nothing the second time: once a conversion has
      succeeded on a settled disk, the output is newer than the input, and so
      up to date. This needs the input to exist and to be neither the output
      nor the intermediate file. */
  lemma ConvertIdempotent(d: Disk, tools: Tools, pfile: Record, odir: string, oext: string)
    requires Settled(d) && Plan(pfile, odir, oext).Ok?
    requires var n := Plan(pfile, odir, oext).value;
      n.ifname in d.files && n.ifname != n.ofname && n.ifname != n.tmp0 && n.ofname != n.tmp0
    requires Convert(d, tools, pfile, odir, oext).out.Ok?
    ensures var r := Convert(d, tools, pfile, odir, oext);
      Convert(r.disk, tools, pfile, odir, oext) == Step(r.disk, r.out)
  {
    var n := Plan(pfile, odir, oext).value;
    var r := Convert(d, tools, pfile, odir, oext);
    if Fresh(d.files, d.clock, [n.ifname], [n.ofname]) == Ok(true) {
      CurrentConvert(d, tools, pfile, odir, oext);
    } else {
      RunLeavesCurrent(d, tools, pfile, odir, oext, n);
    }
    CurrentConvert(r.disk, tools, pfile, odir, oext);
  }

  // ---------------------------------------------------------------- cdo_merge

  /** `cdo_merge(inputs, output, options)`: one `merge` per input, each of
      that input alone into the same output; the first failure raises. */
  function MergeEach(d: Disk, tools: Tools, inputs: seq<string>, output: string, options: string): Step<()>
    decreases |inputs|
  {
    if inputs == [] then Step(d, Ok(()))
    else
      var s := Run(d, tools, Merge([inputs[0]], output, options));
      if s.out.Err? then s else MergeEach(s.disk, tools, inputs[1..], output, options)
  }

  /** The calls `cdo_merge` makes when all succeed. */
  function SingleMerges(inputs: seq<string>, output: string, options: string): (r: seq<Call>)
    ensures |r| == |inputs|
    ensures forall i :: 0 <= i < |inputs| ==> r[i] == Merge([inputs[i]], output, options)
  {
    if inputs == [] then [] else [Merge([inputs[0]], output, options)] + SingleMerges(inputs[1..], output, options)
  }

  /** When `cdo_merge` succeeds it has run one single-input `merge` per input,
      in order, all into the same output: no run ever merges two inputs, and
      each run overwrites the output of the one before. */
  lemma {:induction false} MergeEachCalls(d: Disk, tools: Tools, inputs: seq<string>, output: string, options: string)
    requires MergeEach(d, tools, inputs, output, options).out.Ok?
    ensures MergeEach(d, tools, inputs, output, options).disk.log == d.log + SingleMerges(inputs, output, options)
    ensures inputs != [] ==> output in MergeEach(d, tools, inputs, output, options).disk.files
    decreases |inputs|
  {
    if inputs != [] {
      var s := Run(d, tools, Merge([inputs[0]], output, options));
      MergeEachCalls(s.disk, tools, inputs[1..], output, options);
      if inputs[1..] == [] {
        assert MergeEach(s.disk, tools, inputs[1..], output, options) == Step(s.disk, Ok(()));
      }
    }
  }

  // ---------------------------------------------------------------- merge_glacier

  /** The options of a call with keyword arguments, in order. */
  type Items = seq<(string, Value)>

  predicate DistinctKeys(items: Items) {
    forall i, j :: 0 <= i < j < |items| ==> items[i].0 != items[j].0
  }

  /** `d[k] = v` on an ordered `dict`: an existing key keeps its place. */
  function SetItem(items: Items, k: string, v: Value): Items {
    if items == [] then [(k, v)]
    else if items[0].0 == k then [(k, v)] + items[1..]
    else [items[0]] + SetItem(items[1..], k, v)
  }

  /** The `dict` the items make, as the keyword arguments of `format`; a
      later item wins over an earlier one with the same key. */
  function AsRecord(items: Items): Record {
    if items == [] then map[] else map[items[0].0 := items[0].1] + AsRecord(items[1..])
  }

  /** The keys of the items, in order: `*attrs`. */
  function KeysOf(items: Items): (r: seq<string>)
    ensures |r| == |items| && forall i :: 0 <= i < |items| ==> r[i] == items[i].0
  {
    if items == [] then [] else [items[0].0] + KeysOf(items[1..])
  }

  /** The attributes a component is listed with. */
  function ComponentAttrs(attrs: Items, p: string): Items {
    SetItem(SetItem(attrs, "parameter", Str(p)), "ext", Str(".tif"))
  }

  /** `'{source}_{grid}_{parameter}_merged.nc'`. */
  const ComponentTemplate: Template :=
    [Field("source"), Lit("_"), Field("grid"), Lit("_"), Field("parameter"), Lit("_merged.nc")]

  function ParserOf(dialect: Dialect): Parser {
    leaf => Parse(dialect, leaf)
  }

  /** The granules of one component: listed, then with the blacklist removed. */
  function Listing(dialect: Dialect, idir: string, entries: seq<string>, atrs: Items, p: string): Result<seq<Record>> {
    var pfiles :- Catalogue.Catalogue(ParserOf(dialect), idir, entries, atrs);
    Removed(pfiles, map["parameter" := Str(p), "ext" := Str(".tif")])
  }

  /** One conversion, from the disk and the record. */
  type Converter = (Disk, Record) -> Step<Record>

  /** `tiff_to_netcdf(pfile, odir)`, with its default extension `.nc`. */
  function Converts(tools: Tools, odir: string): Converter {
    (d, pfile) => Convert(d, tools, pfile, odir, ".nc")
  }

  /** The record a conversion returns, as the plan names it. */
  function Renames(odir: string): Record -> Result<Record> {
    pfile => match Plan(pfile, odir, ".nc") case Ok(n) => Ok(n.opfile) case Err(e) => Err(e)
  }

  /** Every record a conversion returns is the one `rename` gives. */
  ghost predicate ConvertsAs(convert: Converter, rename: Record -> Result<Record>) {
    forall d, pfile :: convert(d, pfile).out.Ok? ==> rename(pfile) == Ok(convert(d, pfile).out.value)
  }

  lemma ConvertsRenames(tools: Tools, odir: string)
    ensures ConvertsAs(Converts(tools, odir), Renames(odir))
  {
    var convert := Converts(tools, odir);
    forall d, pfile | convert(d, pfile).out.Ok? ensures Renames(odir)(pfile) == Ok(convert(d, pfile).out.value) {
      assert convert(d, pfile) == Convert(d, tools, pfile, odir, ".nc");
    }
  }

  /** The conversion loop: each record converted in turn, the results
      appended to `done`; the first failure raises. */
  function ConvertFrom(d: Disk, convert: Converter, pfiles: seq<Record>, done: seq<Record>): Step<seq<Record>>
    decreases |pfiles|
  {
    if pfiles == [] then Step(d, Ok(done))
    else
      var s := convert(d, pfiles[0]);
      if s.out.Err? then Step(s.disk, Err(s.out.error))
      else ConvertFrom(s.disk, convert, pfiles[1..], done + [s.out.value])
  }

  /** When the conversion loop succeeds, `pfiles_nc` holds the renamed
      record of every granule, in the order of the listing. */
  lemma {:induction false} ConvertFromRecords(d: Disk, convert: Converter, rename: Record -> Result<Record>,
                                              pfiles: seq<Record>, done: seq<Record>)
    requires ConvertsAs(convert, rename)
    requires ConvertFrom(d, convert, pfiles, done).out.Ok?
    ensures var r := ConvertFrom(d, convert, pfiles, done).out.value;
      |r| == |done| + |pfiles| && r[..|done|] == done
      && forall i :: 0 <= i < |pfiles| ==> rename(pfiles[i]) == Ok(r[|done| + i])
    decreases |pfiles|
  {
    if pfiles != [] {
      var s := convert(d, pfiles[0]);
      var done' := done + [s.out.value];
      assert ConvertFrom(d, convert, pfiles, done) == ConvertFrom(s.disk, convert, pfiles[1..], done');
      ConvertFromRecords(s.disk, convert, rename, pfiles[1..], done');
      var r := ConvertFrom(s.disk, convert, pfiles[1..], done').out.value;
      assert r[..|done|] == done'[..|done|];
      assert r[|done|] == done'[|done|];
      forall i | 0 <= i < |pfiles| ensures rename(pfiles[i]) == Ok(r[|done| + i]) {
        if i > 0 {
          assert pfiles[i] == pfiles[1..][i - 1];
          assert |done| + i == |done'| + (i - 1);
        }
      }
    }
  }

  /** `[os.path.join(pf['dir'], pf['fname']) for pf in pfiles]`. */
  function PathsOf(pfiles: seq<Record>): (r: Result<seq<string>>)
    ensures r.Ok? <==> forall i :: 0 <= i < |pfiles| ==> PathOf(pfiles[i]).Ok?
    ensures r.Ok? ==> |r.value| == |pfiles| && forall i :: 0 <= i < |pfiles| ==> PathOf(pfiles[i]) == Ok(r.value[i])
  {
    if pfiles == [] then Ok([])
    else
      var p :- PathOf(pfiles[0]);
      var rest :- PathsOf(pfiles[1..]);
      assert forall i :: 1 <= i < |pfiles| ==> pfiles[i] == pfiles[1..][i - 1];
      Ok([p] + rest)
  }

  /** The record a conversion returns points at the file it wrote. */
  lemma PlannedPath(pfile: Record, odir: string, oext: string, n: Names)
    requires Plan(pfile, odir, oext) == Ok(n)
    ensures PathOf(n.opfile) == Ok(n.ofname)
  {
  }

  /** When the conversion loop succeeds, the inputs of `mergetime` are the
      output paths planned for the listed granules, in the order of the listing. */
  lemma ConvertedPaths(d: Disk, tools: Tools, odir: string, pfiles: seq<Record>)
    requires ConvertFrom(d, Converts(tools, odir), pfiles, []).out.Ok?
    ensures var inputs := PathsOf(ConvertFrom(d, Converts(tools, odir), pfiles, []).out.value);
      inputs.Ok? && |inputs.value| == |pfiles|
      && forall i :: 0 <= i < |pfiles| ==> Plan(pfiles[i], odir, ".nc").Ok? && inputs.value[i] == Plan(pfiles[i], odir, ".nc").value.ofname
  {
    var r := ConvertFrom(d, Converts(tools, odir), pfiles, []).out.value;
    ConvertsRenames(tools, odir);
    ConvertFromRecords(d, Converts(tools, odir), Renames(odir), pfiles, []);
    forall i | 0 <= i < |pfiles|
      ensures Plan(pfiles[i], odir, ".nc").Ok? && PathOf(r[i]) == Ok(Plan(pfiles[i], odir, ".nc").value.ofname)
    {
      assert Renames(odir)(pfiles[i]) == Ok(r[i]);
      var n := Plan(pfiles[i], odir, ".nc").value;
      PlannedPath(pfiles[i], odir, ".nc", n);
    }
  }

  /** What one pass of the parameter loop leaves behind: the merged file of
      the component and the converted records. */
  datatype Component = Component(ofname: string, converted: seq<Record>)

  /** The path of a component's merged file. */
  function ComponentName(odir: string, attrs: Items, p: string): Result<string> {
    var name :- Fill(ComponentTemplate, AsRecord(ComponentAttrs(attrs, p)));
    Ok(Join(odir, name))
  }

  /** The end of one pass of the parameter loop, once the records are
      converted: `mergetime` of the converted files into the component's
      file, which is named after the parameter. */
  function MergeComponent(c: Step<seq<Record>>, tools: Tools, odir: string, attrs: Items, p: string): (s: Step<Component>)
    ensures s.out.Ok? ==> c.out.Ok? && ComponentName(odir, attrs, p) == Ok(s.out.value.ofname) && s.out.value.converted == c.out.value
    ensures s.out.Ok? ==>
              PathsOf(c.out.value).Ok? && s.disk.log == c.disk.log + [MergeTime(PathsOf(c.out.value).value, s.out.value.ofname, Packed)]
  {
    if c.out.Err? then Step(c.disk, Err(c.out.error))
    else
      match ComponentName(odir, attrs, p)
      case Err(e) => Step(c.disk, Err(e))
      case Ok(ofname) =>
        match PathsOf(c.out.value)
        case Err(e) => Step(c.disk, Err(e))
        case Ok(inputs) =>
          var s := Run(c.disk, tools, MergeTime(inputs, ofname, Packed));
          Step(s.disk, if s.out.Err? then Err(s.out.error) else Ok(Component(ofname, c.out.value)))
  }

  /** One pass of the parameter loop: list, drop the blacklist, convert, then
      merge the converted files into the component's file. */
  function BuildComponent(d: Disk, tools: Tools, dialect: Dialect, idir: string, odir: string,
                          entries: seq<string>, attrs: Items, p: string): (s: Step<Component>)
    ensures s.out.Ok? ==> ComponentName(odir, attrs, p) == Ok(s.out.value.ofname)
  {
    match Listing(dialect, idir, entries, ComponentAttrs(attrs, p), p)
    case Err(e) => Step(d, Err(e))
    case Ok(pfiles) => MergeComponent(ConvertFrom(d, Converts(tools, odir), pfiles, []), tools, odir, attrs, p)
  }

  /** A pass of the parameter loop ends with `mergetime` of the output paths
      planned for the listed granules into the component's file. */
  lemma BuildMergesPlanned(d: Disk, tools: Tools, dialect: Dialect, idir: string, odir: string,
                           entries: seq<string>, attrs: Items, p: string)
    requires BuildComponent(d, tools, dialect, idir, odir, entries, attrs, p).out.Ok?
    ensures Listing(dialect, idir, entries, ComponentAttrs(attrs, p), p).Ok?
    ensures var pfiles := Listing(dialect, idir, entries, ComponentAttrs(attrs, p), p).value;
      var s := BuildComponent(d, tools, dialect, idir, odir, entries, attrs, p);
      |s.disk.log| > 0 && var last := s.disk.log[|s.disk.log| - 1];
      last.MergeTime? && last.target == s.out.value.ofname && last.options == Packed && |last.inputs| == |pfiles|
      && forall i :: 0 <= i < |pfiles| ==> Plan(pfiles[i], odir, ".nc").Ok? && last.inputs[i] == Plan(pfiles[i], odir, ".nc").value.ofname
  {
    var pfiles := Listing(dialect, idir, entries, ComponentAttrs(attrs, p), p).value;
    var c := ConvertFrom(d, Converts(tools, odir), pfiles, []);
    assert BuildComponent(d, tools, dialect, idir, odir, entries, attrs, p) == MergeComponent(c, tools, odir, attrs, p);
    ConvertedPaths(d, tools, odir, pfiles);
  }

  /** One pass of the parameter loop, from the disk and the parameter. */
  type Builder = (Disk, string) -> Step<Component>

  function Builds(tools: Tools, dialect: Dialect, idir: string, odir: string, entries: seq<string>, attrs: Items): Builder {
    (d, p) => BuildComponent(d, tools, dialect, idir, odir, entries, attrs, p)
  }

  /** The name of a component's merged file, from its parameter. */
  type Namer = string -> Result<string>

  function NamesIn(odir: string, attrs: Items): Namer {
    p => ComponentName(odir, attrs, p)
  }

  /** Every component a pass builds is named after its parameter. */
  ghost predicate NamesComponents(build: Builder, name: Namer) {
    forall d, p :: build(d, p).out.Ok? ==> name(p) == Ok(build(d, p).out.value.ofname)
  }

  lemma BuildsNamesComponents(tools: Tools, dialect: Dialect, idir: string, odir: string, entries: seq<string>, attrs: Items)
    ensures NamesComponents(Builds(tools, dialect, idir, odir, entries, attrs), NamesIn(odir, attrs))
  {
    var build := Builds(tools, dialect, idir, odir, entries, attrs);
    forall d, p | build(d, p).out.Ok? ensures NamesIn(odir, attrs)(p) == Ok(build(d, p).out.value.ofname) {
      assert build(d, p) == BuildComponent(d, tools, dialect, idir, odir, entries, attrs, p);
    }
  }

  /** The parameter loop as written: each pass overwrites `ofname` and
      `pfiles_nc`, so only the last pass is remembered. */
  function ComponentsFrom(d: Disk, build: Builder, ps: seq<string>, last: Option<Component>): Step<Option<Component>>
    decreases |ps|
  {
    if ps == [] then Step(d, Ok(last))
    else
      var s := build(d, ps[0]);
      if s.out.Err? then Step(s.disk, Err(s.out.error))
      else ComponentsFrom(s.disk, build, ps[1..], Some(s.out.value))
  }

  /** The final loop as written: one `merge` per converted record of the
      last component, each naming its output with `ofpattern.format(*attrs)`. */
  function FinalMerges(d: Disk, tools: Tools, ofnames: seq<string>, pfiles: seq<Record>,
                       ofpattern: Template, keys: seq<string>): Step<()>
    decreases |pfiles|
  {
    if pfiles == [] then Step(d, Ok(()))
    else
      match FillPositional(ofpattern, keys)
      case Err(e) => Step(d, Err(e))
      case Ok(output) =>
        var s := Run(d, tools, Merge(ofnames, output, Packed));
        if s.out.Err? then s else FinalMerges(s.disk, tools, ofnames, pfiles[1..], ofpattern, keys)
  }

  /** `merge_glacier(idir, odir, ofpattern, parameters, **attrs)` as written,
      over the listing `entries` of `idir`. */
  function MergeGlacier(d: Disk, tools: Tools, idir: string, odir: string, ofpattern: Template,
                        parameters: seq<string>, attrs: Items, entries: seq<string>): Step<()>
  {
    var s := ComponentsFrom(d, Builds(tools, AsWritten, idir, odir, entries, attrs), parameters, None);
    if s.out.Err? then Step(s.disk, Err(s.out.error))
    else if s.out.value.None? then Step(s.disk, Err(UnboundLocal("ofname")))
    else
      var c := s.out.value.value;
      FinalMerges(s.disk, tools, [c.ofname], c.converted, ofpattern, KeysOf(attrs))
  }

  // ---------------------------------------------------------------- merge_glacier, intended

  /** The parameter loop as intended: every component's merged file is
      remembered, in the order of `parameters`. */
  function ComponentsAll(d: Disk, build: Builder, ps: seq<string>, names: seq<string>): Step<seq<string>>
    decreases |ps|
  {
    if ps == [] then Step(d, Ok(names))
    else
      var s := build(d, ps[0]);
      if s.out.Err? then Step(s.disk, Err(s.out.error))
      else ComponentsAll(s.disk, build, ps[1..], names + [s.out.value.ofname])
  }

  /** `merge_glacier` as its comments describe it: the merged file of every
      component goes into one final `merge`, whose output is `ofpattern`
      filled in from the keyword arguments; with no parameters there is
      nothing to merge. */
  function MergeGlacierIntended(d: Disk, tools: Tools, idir: string, odir: string, ofpattern: Template,
                                parameters: seq<string>, attrs: Items, entries: seq<string>): Step<()>
  {
    var s := ComponentsAll(d, Builds(tools, Intended, idir, odir, entries, attrs), parameters, []);
    if s.out.Err? then Step(s.disk, Err(s.out.error))
    else if s.out.value == [] then Step(s.disk, Ok(()))
    else
      match Fill(ofpattern, AsRecord(attrs))
      case Err(e) => Step(s.disk, Err(e))
      case Ok(output) => Run(s.disk, tools, Merge(s.out.value, output, Packed))
  }

  // ---------------------------------------------------------------- lemmas on the merge

  /** Whether a key is among the items. */
  lemma {:induction false} AsRecordKeys(items: Items, k: string)
    ensures k in AsRecord(items) <==> exists i :: 0 <= i < |items| && items[i].0 == k
    decreases |items|
  {
    if items != [] {
      AsRecordKeys(items[1..], k);
      if k in AsRecord(items[1..]) {
        var i :| 0 <= i < |items[1..]| && items[1..][i].0 == k;
        assert items[i + 1].0 == k;
      }
      if exists i :: 0 <= i < |items| && items[i].0 == k {
        var i :| 0 <= i < |items| && items[i].0 == k;
        if i > 0 { assert items[1..][i - 1].0 == k; }
      }
    }
  }

  /** `d[k] = v` on a `dict` keeps its keys distinct and makes the keyword
      arguments of the old `dict` with `k` bound to `v`. */
  lemma {:induction false} SetItemRecord(items: Items, k: string, v: Value)
    requires DistinctKeys(items)
    ensures DistinctKeys(SetItem(items, k, v))
    ensures AsRecord(SetItem(items, k, v)) == AsRecord(items)[k := v]
    decreases |items|
  {
    if items == [] {
    } else if items[0].0 == k {
      SetItemHere(items, k, v);
    } else {
      var rest := items[1..];
      assert DistinctKeys(rest);
      SetItemRecord(rest, k, v);
      HeadStaysApart(items, k, v);
      UnionUpdate(items[0].0, items[0].1, AsRecord(rest), k, v);
      var t := SetItem(items, k, v);
      assert t == [items[0]] + SetItem(rest, k, v);
      assert t[1..] == SetItem(rest, k, v);
    }
  }

  lemma UnionUpdate(a: string, b: Value, m: Record, k: string, v: Value)
    requires a != k
    ensures map[a := b] + m[k := v] == (map[a := b] + m)[k := v]
  {
  }

  /** `d[k] = v` on a `dict` whose first key is `k`. */
  lemma SetItemHere(items: Items, k: string, v: Value)
    requires DistinctKeys(items) && items != [] && items[0].0 == k
    ensures DistinctKeys(SetItem(items, k, v))
    ensures AsRecord(SetItem(items, k, v)) == AsRecord(items)[k := v]
  {
    var rest := items[1..];
    AsRecordKeys(rest, k);
    assert k !in AsRecord(rest) by {
      forall i | 0 <= i < |rest| ensures rest[i].0 != k {
        assert rest[i] == items[i + 1];
      }
    }
    assert SetItem(items, k, v) == [(k, v)] + rest;
    assert ([(k, v)] + rest)[1..] == rest;
  }

  /** Setting a key other than the first leaves the first key apart from
      all the others. */
  lemma HeadStaysApart(items: Items, k: string, v: Value)
    requires DistinctKeys(items) && items != [] && items[0].0 != k
    requires AsRecord(SetItem(items[1..], k, v)) == AsRecord(items[1..])[k := v]
    ensures forall i :: 0 <= i < |SetItem(items[1..], k, v)| ==> SetItem(items[1..], k, v)[i].0 != items[0].0
  {
    var rest := items[1..];
    var r := SetItem(rest, k, v);
    forall i | 0 <= i < |r| ensures r[i].0 != items[0].0 {
      AsRecordKeys(r, r[i].0);
      AsRecordKeys(rest, r[i].0);
      if r[i].0 != k {
        var j :| 0 <= j < |rest| && rest[j].0 == r[i].0;
        assert rest[j] == items[j + 1];
      }
    }
  }

  /** The attributes a component is listed with keep the caller's, with the
      parameter and the GeoTIFF extension added. */
  lemma ComponentAttrsRecord(attrs: Items, p: string)
    requires DistinctKeys(attrs)
    ensures DistinctKeys(ComponentAttrs(attrs, p))
    ensures AsRecord(ComponentAttrs(attrs, p)) == AsRecord(attrs)["parameter" := Str(p)]["ext" := Str(".tif")]
  {
    SetItemRecord(attrs, "parameter", Str(p));
    SetItemRecord(SetItem(attrs, "parameter", Str(p)), "ext", Str(".tif"));
  }

  /** As written, the parameter loop remembers the component of the last
      parameter only, and nothing at all when there are no parameters. */
  lemma {:induction false} ComponentsFromLast(d: Disk, build: Builder, name: Namer, ps: seq<string>, last: Option<Component>)
    requires NamesComponents(build, name)
    requires ComponentsFrom(d, build, ps, last).out.Ok?
    ensures ps == [] ==> ComponentsFrom(d, build, ps, last).out.value == last
    ensures ps != [] ==> (ComponentsFrom(d, build, ps, last).out.value.Some?
      && name(ps[|ps| - 1]) == Ok(ComponentsFrom(d, build, ps, last).out.value.value.ofname))
    decreases |ps|
  {
    if ps != [] {
      var s := build(d, ps[0]);
      ComponentsFromLast(s.disk, build, name, ps[1..], Some(s.out.value));
      if |ps| > 1 {
        assert ps[1..][|ps[1..]| - 1] == ps[|ps| - 1];
      }
    }
  }

  /** When the final loop succeeds it has run one `merge` per record, all
      with the same inputs and the same output. */
  lemma {:induction false} FinalMergesCalls(d: Disk, tools: Tools, ofnames: seq<string>, pfiles: seq<Record>,
                                            ofpattern: Template, keys: seq<string>)
    requires FinalMerges(d, tools, ofnames, pfiles, ofpattern, keys).out.Ok?
    ensures var log := FinalMerges(d, tools, ofnames, pfiles, ofpattern, keys).disk.log;
      |log| == |d.log| + |pfiles| && log[..|d.log|] == d.log
      && forall i :: |d.log| <= i < |log| ==>
           FillPositional(ofpattern, keys).Ok? && log[i] == Merge(ofnames, FillPositional(ofpattern, keys).value, Packed)
    decreases |pfiles|
  {
    if pfiles != [] {
      var s := Run(d, tools, Merge(ofnames, FillPositional(ofpattern, keys).value, Packed));
      FinalMergesCalls(s.disk, tools, ofnames, pfiles[1..], ofpattern, keys);
      var log := FinalMerges(d, tools, ofnames, pfiles, ofpattern, keys).disk.log;
      assert log[..|s.disk.log|] == s.disk.log;
      assert log[..|d.log|] == s.disk.log[..|d.log|];
    }
  }

  /** As written, `merge_glacier` fails on an empty `parameters`: `ofname` is
      read after a loop that never bound it. */
  lemma NoParametersUnbound(d: Disk, tools: Tools, idir: string, odir: string, ofpattern: Template,
                            attrs: Items, entries: seq<string>)
    ensures MergeGlacier(d, tools, idir, odir, ofpattern, [], attrs, entries) == Step(d, Err(UnboundLocal("ofname")))
  {
  }

  /** As written, every final `merge` that `merge_glacier` runs has the last
      component's file as its only input: the files of the other parameters
      never reach the output. */
  lemma MergeGlacierMergesLastOnly(d: Disk, tools: Tools, idir: string, odir: string, ofpattern: Template,
                                   parameters: seq<string>, attrs: Items, entries: seq<string>)
    requires MergeGlacier(d, tools, idir, odir, ofpattern, parameters, attrs, entries).out.Ok?
    ensures parameters != []
    ensures var s := ComponentsFrom(d, Builds(tools, AsWritten, idir, odir, entries, attrs), parameters, None);
      var log := MergeGlacier(d, tools, idir, odir, ofpattern, parameters, attrs, entries).disk.log;
      s.out.Ok? && |s.disk.log| <= |log| && log[..|s.disk.log|] == s.disk.log
      && forall i :: |s.disk.log| <= i < |log| ==>
           log[i].Merge? && |log[i].inputs| == 1
           && ComponentName(odir, attrs, parameters[|parameters| - 1]) == Ok(log[i].inputs[0])
  {
    var build := Builds(tools, AsWritten, idir, odir, entries, attrs);
    var s := ComponentsFrom(d, build, parameters, None);
    BuildsNamesComponents(tools, AsWritten, idir, odir, entries, attrs);
    ComponentsFromLast(d, build, NamesIn(odir, attrs), parameters, None);
    var c := s.out.value.value;
    FinalMergesCalls(s.disk, tools, [c.ofname], c.converted, ofpattern, KeysOf(attrs));
  }

  /** As written, the final output name passes the keys of `attrs` by
      position to a pattern that names its fields, so with at least one
      converted record `format` raises `KeyError` on the pattern's first
      field, after every component has been merged. */
  lemma NamedPatternFails(d: Disk, tools: Tools, ofnames: seq<string>, pfiles: seq<Record>,
                          ofpattern: Template, keys: seq<string>, i: int)
    requires pfiles != []
    requires 0 <= i < |ofpattern| && ofpattern[i].Field? && forall j :: 0 <= j < i ==> ofpattern[j].Lit?
    ensures FinalMerges(d, tools, ofnames, pfiles, ofpattern, keys) == Step(d, Err(KeyError(ofpattern[i].name)))
  {
    PositionalFillFails(ofpattern, keys, i);
  }

  /** `'{source}_{grid}_2008_2020.nc'`, the pattern the script passes. */
  const GlacierPattern: Template := [Field("source"), Lit("_"), Field("grid"), Lit("_2008_2020.nc")]

  /** With the script's own pattern, the final loop raises `KeyError('source')`
      whenever there is a record to merge. */
  lemma GlacierPatternFails(d: Disk, tools: Tools, ofnames: seq<string>, pfiles: seq<Record>, keys: seq<string>)
    requires pfiles != []
    ensures FinalMerges(d, tools, ofnames, pfiles, GlacierPattern, keys) == Step(d, Err(KeyError("source")))
  {
    NamedPatternFails(d, tools, ofnames, pfiles, GlacierPattern, keys, 0);
  }

  /** Intended, the parameter loop keeps the file of every component, named
      after its parameter, in the order of the parameters. */
  lemma {:induction false} ComponentsAllNames(d: Disk, build: Builder, name: Namer, ps: seq<string>, names: seq<string>)
    requires NamesComponents(build, name)
    requires ComponentsAll(d, build, ps, names).out.Ok?
    ensures var r := ComponentsAll(d, build, ps, names).out.value;
      |r| == |names| + |ps| && r[..|names|] == names
      && forall i :: 0 <= i < |ps| ==> name(ps[i]) == Ok(r[|names| + i])
    decreases |ps|
  {
    if ps != [] {
      var s := build(d, ps[0]);
      assert name(ps[0]) == Ok(s.out.value.ofname);
      var names' := names + [s.out.value.ofname];
      assert ComponentsAll(d, build, ps, names) == ComponentsAll(s.disk, build, ps[1..], names');
      ComponentsAllNames(s.disk, build, name, ps[1..], names');
      var r := ComponentsAll(s.disk, build, ps[1..], names').out.value;
      assert r[..|names'|] == names';
      assert r[..|names|] == names' [..|names|];
      assert r[|names|] == names'[|names|];
      forall i | 0 <= i < |ps| ensures name(ps[i]) == Ok(r[|names| + i]) {
        if i > 0 {
          assert ps[i] == ps[1..][i - 1];
          assert |names| + i == |names'| + (i - 1);
        }
      }
    }
  }

  /** Intended, `merge_glacier` ends with one `merge` whose inputs are the
      files of all components, one per parameter in order, and whose output
      is the pattern filled in from the keyword arguments. */
  lemma IntendedMergesEveryComponent(d: Disk, tools: Tools, idir: string, odir: string, ofpattern: Template,
                                     parameters: seq<string>, attrs: Items, entries: seq<string>)
    requires MergeGlacierIntended(d, tools, idir, odir, ofpattern, parameters, attrs, entries).out.Ok?
    requires parameters != []
    ensures var log := MergeGlacierIntended(d, tools, idir, odir, ofpattern, parameters, attrs, entries).disk.log;
      |log| > 0 && log[|log| - 1].Merge?
      && Fill(ofpattern, AsRecord(attrs)) == Ok(log[|log| - 1].target)
      && |log[|log| - 1].inputs| == |parameters|
      && forall i :: 0 <= i < |parameters| ==> ComponentName(odir, attrs, parameters[i]) == Ok(log[|log| - 1].inputs[i])
  {
    var build := Builds(tools, Intended, idir, odir, entries, attrs);
    var s := ComponentsAll(d, build, parameters, []);
    BuildsNamesComponents(tools, Intended, idir, odir, entries, attrs);
    ComponentsAllNames(d, build, NamesIn(odir, attrs), parameters, []);
    var output := Fill(ofpattern, AsRecord(attrs)).value;
    var last := Merge(s.out.value, output, Packed);
    assert MergeGlacierIntended(d, tools, idir, odir, ofpattern, parameters, attrs, entries) == Run(s.disk, tools, last);
    forall i | 0 <= i < |parameters| ensures ComponentName(odir, attrs, parameters[i]) == Ok(last.inputs[i]) {
      assert NamesIn(odir, attrs)(parameters[i]) == Ok(s.out.value[i]);
    }
  }
}
