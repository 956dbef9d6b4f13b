/** The conversion and merging steps as the script runs them: a workspace
    whose files, clock and log of tool runs change in place. Each method is
    proved to leave the workspace in the state, and to return what, the
    functions of `Pipeline` say. */
module Runner {
  import opened Values
  import opened Dates
  import opened Templates
  import opened Grammar
  import opened Codec
  import opened Catalogue
  import opened Blacklist
  import opened Staleness
  import opened Pipeline

  class Workspace {
    /** The modification time of every file on disk. */
    var files: Files
    /** The present time, in seconds. */
    var clock: real
    /** The tool runs so far, oldest first. */
    var log: seq<Call>
    /** How GDAL and CDO behave. */
    const tools: Tools

    function State(): Disk
      reads this
    {
      Disk(files, clock, log)
    }

    constructor (tools: Tools, d: Disk)
      ensures this.tools == tools && State() == d
    {
      this.tools := tools;
      files := d.files;
      clock := d.clock;
      log := d.log;
    }

    /** Run one external tool; a failure comes back as the error it raises. */
    method RunTool(c: Call) returns (r: Result<()>)
      modifies this
      ensures Step(State(), r) == Run(old(State()), tools, c)
    {
      var o := tools(c, files);
      if o.Done? || o.leavesTarget {
        files := files[c.target := clock];
      }
      clock := clock + 1.0;
      log := log + [c];
      if o.Done? {
        r := Ok(());
      } else {
        r := Err(ToolFailed(ToolName(c), c.target));
      }
    }

    /** `os.remove(path)`, with a missing file ignored. */
    method RemoveFile(path: string)
      modifies this
      ensures State() == Remove(old(State()), path)
    {
      files := files - {path};
    }

    /** `tiff_to_netcdf(pfile, odir, oext)`. */
    method TiffToNetcdf(pfile: Record, odir: string, oext: string) returns (r: Result<Record>)
      modifies this
      ensures Step(State(), r) == Convert(old(State()), tools, pfile, odir, oext)
    {
      var plan := Plan(pfile, odir, oext);
      if plan.Err? {
        return Err(plan.error);
      }
      var n := plan.value;
      var current := UpToDate(files, clock, [n.ifname], [n.ofname]);
      if current.Err? {
        return Err(current.error);
      }
      if current.value {
        return Ok(n.opfile);
      }
      ghost var d0 := State();
      var t := RunTool(Translate(n.ifname, n.tmp0));
      if t.Err? {
        r := Err(t.error);
      } else {
        var c := TaxisCall(pfile, n);
        if c.Err? {
          r := Err(c.error);
        } else {
          var s := RunTool(c.value);
          if s.Err? {
            r := Err(s.error);
          } else {
            r := Ok(n.opfile);
          }
        }
      }
      assert Step(State(), r) == Attempt(d0, tools, pfile, n);
      RemoveFile(n.tmp0);
    }

    /** `cdo_merge(inputs, output, options)`. */
    method CdoMerge(inputs: seq<string>, output: string, options: string) returns (r: Result<()>)
      modifies this
      ensures Step(State(), r) == MergeEach(old(State()), tools, inputs, output, options)
    {
      for i := 0 to |inputs|
        invariant MergeEach(old(State()), tools, inputs, output, options)
          == MergeEach(State(), tools, inputs[i..], output, options)
      {
        assert inputs[i..][0] == inputs[i] && inputs[i..][1..] == inputs[i + 1..];
        var s := RunTool(Merge([inputs[i]], output, options));
        if s.Err? {
          return Err(s.error);
        }
      }
      r := Ok(());
    }

    /** The conversion loop of `merge_glacier`: `pfiles_nc`. */
    method ConvertAll(pfiles: seq<Record>, odir: string) returns (r: Result<seq<Record>>)
      modifies this
      ensures Step(State(), r) == ConvertFrom(old(State()), Converts(tools, odir), pfiles, [])
    {
      var nc: seq<Record> := [];
      for i := 0 to |pfiles|
        invariant ConvertFrom(old(State()), Converts(tools, odir), pfiles, [])
          == ConvertFrom(State(), Converts(tools, odir), pfiles[i..], nc)
      {
        assert pfiles[i..][0] == pfiles[i] && pfiles[i..][1..] == pfiles[i + 1..];
        var c := TiffToNetcdf(pfiles[i], odir, ".nc");
        if c.Err? {
          return Err(c.error);
        }
        nc := nc + [c.value];
      }
      r := Ok(nc);
    }

    /** One pass of the parameter loop of `merge_glacier`. */
    method BuildComponent(dialect: Dialect, idir: string, odir: string, entries: seq<string>,
                          attrs: Items, p: string) returns (r: Result<Component>)
      modifies this
      ensures Step(State(), r) == Pipeline.BuildComponent(old(State()), tools, dialect, idir, odir, entries, attrs, p)
    {
      var atrs := attrs;
      atrs := SetItem(atrs, "parameter", Str(p));
      atrs := SetItem(atrs, "ext", Str(".tif"));
      var listed := ListPfiles(ParserOf(dialect), idir, entries, atrs);
      if listed.Err? {
        return Err(listed.error);
      }
      var kept := RemoveBlacklist(listed.value, map["parameter" := Str(p), "ext" := Str(".tif")]);
      if kept.Err? {
        return Err(kept.error);
      }
      assert Listing(dialect, idir, entries, atrs, p) == kept;
      var nc := ConvertAll(kept.value, odir);
      if nc.Err? {
        return Err(nc.error);
      }
      var ofname := ComponentName(odir, attrs, p);
      if ofname.Err? {
        return Err(ofname.error);
      }
      var inputs := PathsOf(nc.value);
      if inputs.Err? {
        return Err(inputs.error);
      }
      var s := RunTool(MergeTime(inputs.value, ofname.value, Packed));
      if s.Err? {
        r := Err(s.error);
      } else {
        r := Ok(Component(ofname.value, nc.value));
      }
    }

    /** `merge_glacier(idir, odir, ofpattern, parameters, **attrs)` as written. */
    method MergeGlacier(idir: string, odir: string, ofpattern: Template, parameters: seq<string>,
                        attrs: Items, entries: seq<string>) returns (r: Result<()>)
      modifies this
      ensures Step(State(), r) == Pipeline.MergeGlacier(old(State()), tools, idir, odir, ofpattern, parameters, attrs, entries)
    {
      ghost var build := Builds(tools, AsWritten, idir, odir, entries, attrs);
      var last: Option<Component> := None;
      for i := 0 to |parameters|
        invariant ComponentsFrom(old(State()), build, parameters, None)
          == ComponentsFrom(State(), build, parameters[i..], last)
      {
        assert parameters[i..][0] == parameters[i] && parameters[i..][1..] == parameters[i + 1..];
        ghost var before := State();
        var c := BuildComponent(AsWritten, idir, odir, entries, attrs, parameters[i]);
        assert Step(State(), c) == build(before, parameters[i]);
        if c.Err? {
          return Err(c.error);
        }
        last := Some(c.value);
      }
      if last.None? {
        return Err(UnboundLocal("ofname"));
      }
      var ofnames := [last.value.ofname];
      var pfilesNc := last.value.converted;
      var keys := KeysOf(attrs);
      for j := 0 to |pfilesNc|
        invariant Pipeline.MergeGlacier(old(State()), tools, idir, odir, ofpattern, parameters, attrs, entries)
          == FinalMerges(State(), tools, ofnames, pfilesNc[j..], ofpattern, keys)
      {
        assert pfilesNc[j..][1..] == pfilesNc[j + 1..];
        var output := FillPositional(ofpattern, keys);
        if output.Err? {
          return Err(output.error);
        }
        var s := RunTool(Merge(ofnames, output.value, Packed));
        if s.Err? {
          return Err(s.error);
        }
      }
      r := Ok(());
    }

    /** `merge_glacier` as intended: every component's file goes into one
        final `merge`. */
    method MergeGlacierIntended(idir: string, odir: string, ofpattern: Template, parameters: seq<string>,
                                attrs: Items, entries: seq<string>) returns (r: Result<()>)
      modifies this
      ensures Step(State(), r) == Pipeline.MergeGlacierIntended(old(State()), tools, idir, odir, ofpattern, parameters, attrs, entries)
    {
      ghost var build := Builds(tools, Intended, idir, odir, entries, attrs);
      var ofnames: seq<string> := [];
      for i := 0 to |parameters|
        invariant ComponentsAll(old(State()), build, parameters, [])
          == ComponentsAll(State(), build, parameters[i..], ofnames)
      {
        assert parameters[i..][0] == parameters[i] && parameters[i..][1..] == parameters[i + 1..];
        ghost var before := State();
        var c := BuildComponent(Intended, idir, odir, entries, attrs, parameters[i]);
        assert Step(State(), c) == build(before, parameters[i]);
        if c.Err? {
          return Err(c.error);
        }
        ofnames := ofnames + [c.value.ofname];
      }
      if ofnames == [] {
        return Ok(());
      }
      var output := Fill(ofpattern, AsRecord(attrs));
      if output.Err? {
        return Err(output.error);
      }
      r := RunTool(Merge(ofnames, output.value, Packed));
    }
  }
}
