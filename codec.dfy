/** The granule record (`NSIDC_0418`, a `dict` subclass) and its two
    directions: `parse_nsidc_0418` reads a file name into a record, and
    `NSIDC_0418.format` renders a record, with overrides, back into a name. */
module Codec {
  import opened Values
  import opened Dates
  import opened Templates
  import opened Grammar
  import Dicts

  /** The typed contents of a granule record. */
  datatype Fields = Fields(
    source: string, grid: string, start: CivilDate, end: CivilDate,
    hour: int, minute: int, second: int,
    parameter: string, version: string, ext: string)

  /** The keys `format` reads. */
  const FieldKeys: set<string> :=
    {"source", "grid", "startdate", "enddate", "nominal_time", "parameter", "version", "ext"}

  /** The record `parse_nsidc_0418` builds for the name `fname`. */
  function GranuleRecord(fname: string, f: Fields): Record {
    map["fname" := Str(fname), "source" := Str(f.source), "grid" := Str(f.grid),
        "startdate" := Day(f.start), "enddate" := Day(f.end),
        "nominal_time" := Clock(f.hour, f.minute, f.second),
        "parameter" := Str(f.parameter), "version" := Str(f.version), "ext" := Str(f.ext)]
  }

  /** The typed fields a record holds, when it holds every one of them with
      the kind of value `parse_nsidc_0418` stores there. */
  function FieldsFrom(rec: Record): (r: Option<Fields>)
    ensures r.Some? ==> FieldKeys <= rec.Keys
  {
    if FieldKeys <= rec.Keys && rec["source"].Str? && rec["grid"].Str? && rec["startdate"].Day?
       && rec["enddate"].Day? && rec["nominal_time"].Clock? && rec["parameter"].Str?
       && rec["version"].Str? && rec["ext"].Str? then
      var t := rec["nominal_time"];
      Some(Fields(rec["source"].s, rec["grid"].s, rec["startdate"].date, rec["enddate"].date,
                  t.hour, t.minute, t.second, rec["parameter"].s, rec["version"].s, rec["ext"].s))
    else None
  }

  /** A granule record reads back as the fields it was built from. */
  lemma FieldsOfRecord(fname: string, f: Fields)
    ensures FieldsFrom(GranuleRecord(fname, f)) == Some(f)
    ensures "fname" in GranuleRecord(fname, f) && GranuleRecord(fname, f)["fname"] == Str(fname)
  {
    assert FieldKeys <= GranuleRecord(fname, f).Keys;
  }

  /** Setting an entry `format` does not read leaves the fields alone. */
  lemma FieldsWithOther(rec: Record, k: string, v: Value)
    requires k !in FieldKeys
    ensures FieldsFrom(rec[k := v]) == FieldsFrom(rec)
  {
    assert FieldKeys <= rec.Keys <==> FieldKeys <= rec[k := v].Keys;
  }

  /** Setting `ext` on a record changes exactly the extension of its fields. */
  lemma FieldsWithExt(rec: Record, e: string)
    requires FieldsFrom(rec).Some?
    ensures FieldsFrom(rec["ext" := Str(e)]) == Some(FieldsFrom(rec).value.(ext := e))
  {
    assert FieldKeys <= rec["ext" := Str(e)].Keys;
  }

  /** The fields of a match whose dates exist; a missing parameter becomes `''`. */
  function FieldsOf(g: Groups, start: CivilDate, end: CivilDate): Fields
    requires Conforms(g)
  {
    Fields(g.source, g.grid, start, end,
           TwoDigitValue(g.hour), TwoDigitValue(g.minute), TwoDigitValue(g.second),
           if g.parameter.None? then "" else g.parameter.value, g.version, g.ext)
  }

  /** `parse_nsidc_0418(leaf)` with the expression of the given dialect:
      `Ok(None)` for a name that does not match, `ValueError` when a matched
      date does not exist, otherwise the record. */
  function Parse(dialect: Dialect, leaf: string): (r: Result<Option<Record>>)
    ensures r == Ok(None) <==> Match(dialect, leaf).None?
    ensures r.Err? ==> r.error.ValueError?
    ensures Match(dialect, leaf).Some? ==>
      var g := Match(dialect, leaf).value.taken;
      (r.Err? <==> StrpDate(g.startText).None? || StrpDate(g.endText).None?)
  {
    var m := Match(dialect, leaf);
    if m.None? then Ok(None)
    else
      var g := m.value.taken;
      var start := StrpDate(g.startText);
      var end := StrpDate(g.endText);
      if start.None? then Err(ValueError(g.startText))
      else if end.None? then Err(ValueError(g.endText))
      else
        var f := FieldsOf(g, start.value, end.value);
        Ok(Some(GranuleRecord(leaf, f)))
  }

  /** The template for a record with a parameter. */
  const ParameterTemplate: Template :=
    [Field("source"), Lit("_"), Field("grid"), Lit("_"), Field("sstartdate"), Lit("_"),
     Field("senddate"), Lit("_"), Field("snominal_time"), Lit("_"), Field("parameter"),
     Lit("_v"), Field("version"), Field("ext")]

  /** The template for a record whose parameter is `''`: no parameter segment. */
  const NoParameterTemplate: Template :=
    [Field("source"), Lit("_"), Field("grid"), Lit("_"), Field("sstartdate"), Lit("_"),
     Field("senddate"), Lit("_"), Field("snominal_time"),
     Lit("_v"), Field("version"), Field("ext")]

  /** `datetime.strftime(p[key], '%d%b%y')`. */
  function DateEntry(p: Record, key: string): (r: Result<string>)
    ensures key !in p ==> r == Err(KeyError(key))
    ensures key in p && p[key].Day? ==> r == Ok(StrfDate(p[key].date))
    ensures key in p && !p[key].Day? ==> r == Err(TypeError(key))
  {
    if key !in p then Err(KeyError(key))
    else if p[key].Day? then Ok(StrfDate(p[key].date))
    else Err(TypeError(key))
  }

  /** `'{:02d}-{:02d}-{:02d}'.format(*p['nominal_time'])`. */
  function ClockEntry(p: Record): (r: Result<string>)
    ensures "nominal_time" !in p ==> r == Err(KeyError("nominal_time"))
    ensures "nominal_time" in p && p["nominal_time"] == Str("") ==> r == Err(IndexError)
    ensures "nominal_time" in p && p["nominal_time"].Str? && p["nominal_time"].s != "" ==> r == Err(ValueError(p["nominal_time"].s))
    ensures "nominal_time" in p && (p["nominal_time"].Day? || p["nominal_time"].Nothing?) ==> r == Err(TypeError("nominal_time"))
    ensures r.Ok? <==> "nominal_time" in p && p["nominal_time"].Clock?
  {
    if "nominal_time" !in p then Err(KeyError("nominal_time"))
    else match p["nominal_time"]
      case Clock(h, m, s) => Ok(PadInt(h, 2) + "-" + PadInt(m, 2) + "-" + PadInt(s, 2))
      // A string unpacks into characters: `{:02d}` refuses the first one,
      // and an empty string leaves `{0}` without an argument.
      case Str(t) => if t == "" then Err(IndexError) else Err(ValueError(t))
      case _ => Err(TypeError("nominal_time"))
  }

  /** `NSIDC_0418.format(rec, **overrides)`. */
  function Format(rec: Record, overrides: Record): Result<string> {
    var p := Dicts.Merged([rec, overrides]);
    var sstart :- DateEntry(p, "startdate");
    var send :- DateEntry(p, "enddate");
    var snom :- ClockEntry(p);
    var q := p["sstartdate" := Str(sstart)]["senddate" := Str(send)]["snominal_time" := Str(snom)];
    if "parameter" !in q then Err(KeyError("parameter"))
    else Fill(if q["parameter"] == Str("") then NoParameterTemplate else ParameterTemplate, q)
  }

  lemma MergedPair(a: Record, b: Record)
    ensures Dicts.Merged([a, b]) == a + b
  {
    assert [a, b][..1] == [a];
  }

  /** The groups a record's fields render to. */
  function GroupsOf(f: Fields): Groups {
    Groups(f.source, f.grid, StrfDate(f.start), StrfDate(f.end),
           PadInt(f.hour, 2), PadInt(f.minute, 2), PadInt(f.second, 2),
           if f.parameter == "" then None else Some(f.parameter), f.version, f.ext)
  }

  /** Filling a template whose first piece renders. */
  lemma FillStep(p: Piece, t: Template, q: Record, head: string, rest: string)
    requires Render(p, q) == Ok(head) && Fill(t, q) == Ok(rest)
    ensures Fill([p] + t, q) == Ok(head + rest)
  {
    assert ([p] + t)[0] == p && ([p] + t)[1..] == t;
  }

  /** The pieces both templates begin with. */
  const Head: Template :=
    [Field("source"), Lit("_"), Field("grid"), Lit("_"), Field("sstartdate"), Lit("_"),
     Field("senddate"), Lit("_"), Field("snominal_time")]

  /** The pieces both templates end with. */
  const VersionTail: Template := [Lit("_v"), Field("version"), Field("ext")]

  lemma FillHeadEnd(q: Record, tail: Template, rest: string)
    requires "senddate" in q && "snominal_time" in q
    requires Fill(tail, q) == Ok(rest)
    ensures Fill(Head[5..] + tail, q) ==
      Ok("_" + (Show(q["senddate"]) + ("_" + (Show(q["snominal_time"]) + rest))))
  {
    var t, text := tail, rest;
    FillStep(Field("snominal_time"), t, q, Show(q["snominal_time"]), text);
    t, text := [Field("snominal_time")] + t, Show(q["snominal_time"]) + text;
    FillStep(Lit("_"), t, q, "_", text);
    t, text := [Lit("_")] + t, "_" + text;
    FillStep(Field("senddate"), t, q, Show(q["senddate"]), text);
    t, text := [Field("senddate")] + t, Show(q["senddate"]) + text;
    FillStep(Lit("_"), t, q, "_", text);
    t, text := [Lit("_")] + t, "_" + text;
    assert t == Head[5..] + tail;
  }

  lemma FillHeadMid(q: Record, tail: Template, rest: string)
    requires "grid" in q && "sstartdate" in q && "senddate" in q && "snominal_time" in q
    requires Fill(tail, q) == Ok(rest)
    ensures Fill(Head[2..] + tail, q) == Ok(Show(q["grid"]) + ("_" +
      (Show(q["sstartdate"]) + ("_" + (Show(q["senddate"]) + ("_" + (Show(q["snominal_time"]) + rest)))))))
  {
    FillHeadEnd(q, tail, rest);
    var t := Head[5..] + tail;
    var text := "_" + (Show(q["senddate"]) + ("_" + (Show(q["snominal_time"]) + rest)));
    FillStep(Field("sstartdate"), t, q, Show(q["sstartdate"]), text);
    t, text := [Field("sstartdate")] + t, Show(q["sstartdate"]) + text;
    FillStep(Lit("_"), t, q, "_", text);
    t, text := [Lit("_")] + t, "_" + text;
    FillStep(Field("grid"), t, q, Show(q["grid"]), text);
    t, text := [Field("grid")] + t, Show(q["grid"]) + text;
    assert t == Head[2..] + tail;
  }

  lemma FillHead(q: Record, tail: Template, rest: string)
    requires "source" in q && "grid" in q && "sstartdate" in q && "senddate" in q && "snominal_time" in q
    requires Fill(tail, q) == Ok(rest)
    ensures Fill(Head + tail, q) == Ok(Show(q["source"]) + ("_" + (Show(q["grid"]) + ("_" +
      (Show(q["sstartdate"]) + ("_" + (Show(q["senddate"]) + ("_" + (Show(q["snominal_time"]) + rest)))))))))
  {
    FillHeadMid(q, tail, rest);
    var t := Head[2..] + tail;
    var text := Show(q["grid"]) + ("_" +
      (Show(q["sstartdate"]) + ("_" + (Show(q["senddate"]) + ("_" + (Show(q["snominal_time"]) + rest))))));
    FillStep(Lit("_"), t, q, "_", text);
    t, text := [Lit("_")] + t, "_" + text;
    FillStep(Field("source"), t, q, Show(q["source"]), text);
    t, text := [Field("source")] + t, Show(q["source"]) + text;
    assert t == Head + tail;
  }

  lemma FillVersionTail(q: Record)
    requires "version" in q && "ext" in q
    ensures Fill(VersionTail, q) == Ok("_v" + (Show(q["version"]) + (Show(q["ext"]) + "")))
  {
    var t: Template, text := [], "";
    FillStep(Field("ext"), t, q, Show(q["ext"]), text);
    t, text := [Field("ext")] + t, Show(q["ext"]) + text;
    FillStep(Field("version"), t, q, Show(q["version"]), text);
    t, text := [Field("version")] + t, Show(q["version"]) + text;
    FillStep(Lit("_v"), t, q, "_v", text);
    t, text := [Lit("_v")] + t, "_v" + text;
    assert t == VersionTail;
  }

  lemma FillParameterTemplate(q: Record)
    requires "source" in q && "grid" in q && "sstartdate" in q && "senddate" in q && "snominal_time" in q
    requires "parameter" in q && "version" in q && "ext" in q
    ensures Fill(ParameterTemplate, q) == Ok(Show(q["source"]) + ("_" + (Show(q["grid"]) + ("_" +
      (Show(q["sstartdate"]) + ("_" + (Show(q["senddate"]) + ("_" + (Show(q["snominal_time"]) +
      ("_" + (Show(q["parameter"]) + ("_v" + (Show(q["version"]) + (Show(q["ext"]) + ""))))))))))))))
  {
    FillVersionTail(q);
    var t, text := VersionTail, "_v" + (Show(q["version"]) + (Show(q["ext"]) + ""));
    FillStep(Field("parameter"), t, q, Show(q["parameter"]), text);
    t, text := [Field("parameter")] + t, Show(q["parameter"]) + text;
    FillStep(Lit("_"), t, q, "_", text);
    t, text := [Lit("_")] + t, "_" + text;
    FillHead(q, t, text);
    assert ParameterTemplate == Head + t;
  }

  lemma FillNoParameterTemplate(q: Record)
    requires "source" in q && "grid" in q && "sstartdate" in q && "senddate" in q && "snominal_time" in q
    requires "version" in q && "ext" in q
    ensures Fill(NoParameterTemplate, q) == Ok(Show(q["source"]) + ("_" + (Show(q["grid"]) + ("_" +
      (Show(q["sstartdate"]) + ("_" + (Show(q["senddate"]) + ("_" + (Show(q["snominal_time"]) +
      ("_v" + (Show(q["version"]) + (Show(q["ext"]) + ""))))))))))))
  {
    FillVersionTail(q);
    FillHead(q, VersionTail, "_v" + (Show(q["version"]) + (Show(q["ext"]) + "")));
    assert NoParameterTemplate == Head + VersionTail;
  }

  /** What `format` renders: a record (with its overrides applied) that holds
      all its fields is spelled by the grammar, with the parameter segment
      left out exactly when the parameter is `''`. */
  lemma FormatSpells(rec: Record, overrides: Record)
    requires FieldsFrom(rec + overrides).Some?
    ensures Format(rec, overrides) == Ok(Assemble(Intended, GroupsOf(FieldsFrom(rec + overrides).value)))
  {
    MergedPair(rec, overrides);
    var p := rec + overrides;
    var f := FieldsFrom(p).value;
    var g := GroupsOf(f);
    var q := p["sstartdate" := Str(StrfDate(f.start))]["senddate" := Str(StrfDate(f.end))]
              ["snominal_time" := Str(TimeText(g))];
    assert ClockEntry(p) == Ok(TimeText(g));
    if f.parameter == "" {
      FillNoParameterTemplate(q);
    } else {
      FillParameterTemplate(q);
    }
  }

  /** Overrides take precedence over the record's own entries, and `format`
      reads nothing but its fields. */
  lemma FormatOverride(rec: Record, overrides: Record)
    ensures Format(rec, overrides) == Format(rec + overrides, map[])
  {
    MergedPair(rec, overrides);
    MergedPair(rec + overrides, map[]);
    assert (rec + overrides) + map[] == rec + overrides;
  }

  /** Fields the grammar can spell and read back: the sensor and tile have the
      grammar's shape, the years lie in the century `%y` covers, the times
      have two digits, the parameter is one the expression knows (or, in the
      intended dialect, `''`), and the extension starts with a dot and a
      character that cannot continue the version. */
  predicate Renderable(dialect: Dialect, f: Fields) {
    && f.source in Sources && IsGridText(f.grid)
    && 1969 <= f.start.year <= 2068 && 1969 <= f.end.year <= 2068
    && 0 <= f.hour < 100 && 0 <= f.minute < 100 && 0 <= f.second < 100
    && (f.parameter in Parameters || (dialect == Intended && f.parameter == ""))
    && |f.version| >= 1 && (forall j :: 0 <= j < |f.version| ==> DigitOrDot(f.version[j]))
    && |f.ext| >= 2 && f.ext[0] == '.' && !DigitOrDot(f.ext[1])
    && (forall j :: 0 <= j < |f.ext| ==> f.ext[j] != '\n')
  }

  lemma GroupsOfRenderable(dialect: Dialect, f: Fields)
    requires Renderable(dialect, f)
    ensures Conforms(GroupsOf(f)) && Unambiguous(GroupsOf(f))
    ensures StrpDate(GroupsOf(f).startText) == Some(f.start)
    ensures StrpDate(GroupsOf(f).endText) == Some(f.end)
    ensures FieldsOf(GroupsOf(f), f.start, f.end) == f
    ensures Assemble(dialect, GroupsOf(f)) == Assemble(Intended, GroupsOf(f))
  {
    StrpOfStrf(f.start);
    StrpOfStrf(f.end);
    TwoDigitsOfPad(f.hour);
    TwoDigitsOfPad(f.minute);
    TwoDigitsOfPad(f.second);
  }

  /** Decoding an encoded record gives the record back: the name `format`
      renders is matched, and its record holds the same fields. */
  lemma ParseFormat(dialect: Dialect, fname: string, f: Fields)
    requires Renderable(dialect, f)
    ensures Format(GranuleRecord(fname, f), map[]) == Ok(Assemble(Intended, GroupsOf(f)))
    ensures Parse(dialect, Assemble(Intended, GroupsOf(f)))
      == Ok(Some(GranuleRecord(Assemble(Intended, GroupsOf(f)), f)))
  {
    var rec := GranuleRecord(fname, f);
    FieldsOfRecord(fname, f);
    assert rec + map[] == rec;
    FormatSpells(rec, map[]);
    GroupsOfRenderable(dialect, f);
    MatchAssemble(dialect, GroupsOf(f));
  }

  /** Unfolds `Parse` for a match whose dates exist, for the lemmas below. */
  lemma ParsedRecord(dialect: Dialect, leaf: string)
    requires Match(dialect, leaf).Some? && Parse(dialect, leaf).Ok?
    ensures var g := Match(dialect, leaf).value.taken;
      StrpDate(g.startText).Some? && StrpDate(g.endText).Some? &&
      Parse(dialect, leaf) == Ok(Some(GranuleRecord(leaf,
        FieldsOf(g, StrpDate(g.startText).value, StrpDate(g.endText).value))))
  {
  }

  /** A parsed record is named after its file and holds all its fields. */
  lemma ParsedFields(dialect: Dialect, leaf: string)
    requires Parse(dialect, leaf).Ok? && Parse(dialect, leaf).value.Some?
    ensures Parse(dialect, leaf).value.value["fname"] == Str(leaf)
    ensures FieldsFrom(Parse(dialect, leaf).value.value).Some?
  {
    ParsedRecord(dialect, leaf);
    var g := Match(dialect, leaf).value.taken;
    var f := FieldsOf(g, StrpDate(g.startText).value, StrpDate(g.endText).value);
    var rec := Parse(dialect, leaf).value.value;
    assert rec == GranuleRecord(leaf, f);
    FieldsOfRecord(leaf, f);
  }

  /** Rendering the fields read from matched groups gives back the groups. */
  lemma GroupsOfFieldsOf(g: Groups, start: CivilDate, end: CivilDate)
    requires Conforms(g) && StrpDate(g.startText) == Some(start) && StrpDate(g.endText) == Some(end)
    ensures GroupsOf(FieldsOf(g, start, end)) == g
  {
    StrfOfStrp(g.startText);
    StrfOfStrp(g.endText);
    PadTwoDigits(g.hour);
    PadTwoDigits(g.minute);
    PadTwoDigits(g.second);
  }

  /** Encoding a decoded name gives the name back, for every whole name the
      expression matches, except (in the dialect as written) one without a
      parameter. */
  lemma FormatParse(dialect: Dialect, leaf: string)
    requires FullMatch(dialect, leaf) && Parse(dialect, leaf).Ok?
    requires dialect == Intended || Match(dialect, leaf).value.taken.parameter.Some?
    ensures Parse(dialect, leaf).value.Some?
    ensures Format(Parse(dialect, leaf).value.value, map[]) == Ok(leaf)
  {
    ParsedRecord(dialect, leaf);
    var g := Match(dialect, leaf).value.taken;
    var start, end := StrpDate(g.startText).value, StrpDate(g.endText).value;
    var f := FieldsOf(g, start, end);
    var rec := GranuleRecord(leaf, f);
    GroupsOfFieldsOf(g, start, end);
    FieldsOfRecord(leaf, f);
    assert rec + map[] == rec;
    FormatSpells(rec, map[]);
  }

  /** `format` renders a record whose parameter is `''` without a parameter
      segment, as the vendor names such files, but the expression as written
      wants `__v` there: `parse_nsidc_0418` does not recognise the name, and
      a listing silently skips such files. */
  lemma ParameterlessNameNotMatched(fname: string, f: Fields)
    requires Renderable(Intended, f) && f.parameter == ""
    ensures Format(GranuleRecord(fname, f), map[]) == Ok(Assemble(Intended, GroupsOf(f)))
    ensures Parse(AsWritten, Assemble(Intended, GroupsOf(f))) == Ok(None)
    ensures Parse(Intended, Assemble(Intended, GroupsOf(f))).Ok?
  {
    ParseFormat(Intended, fname, f);
    GroupsOfRenderable(Intended, f);
    ParameterlessNotMatched(GroupsOf(f));
  }
}
