/** `get_blackset` and `remove_blacklist`: a fixed list of name templates,
    filled with the current parameter and extension, and the filter that drops
    the records whose file name is one of them. */
module Blacklist {
  import opened Values
  import opened Dates
  import opened Templates
  import opened Grammar
  import opened Codec
  import opened Catalogue

  /** The tile every blacklisted granule belongs to. */
  const BlackTile: string := "TSX_W69.10N_"

  /** A number written with two digits. */
  type TwoDigit = n: int | 0 <= n < 100

  type MonthNo = m: int | 1 <= m <= 12 witness 1

  /** A date as a granule name writes it, `ddMonyy`. */
  datatype Stamp = Stamp(day: TwoDigit, month: MonthNo, year: TwoDigit)

  /** The dates and nominal time a granule name spells after its tile. */
  datatype Acquisition = Acquisition(start: Stamp, end: Stamp, hour: TwoDigit, minute: TwoDigit, second: TwoDigit)

  function StampText(d: Stamp): string {
    PadInt(d.day, 2) + MonthNames[d.month - 1] + PadInt(d.year, 2)
  }

  /** `ddMonyy_ddMonyy_HH-MM-SS`. */
  function AcquisitionText(a: Acquisition): string {
    StampText(a.start) + "_" + StampText(a.end) + "_"
      + PadInt(a.hour, 2) + "-" + PadInt(a.minute, 2) + "-" + PadInt(a.second, 2)
  }

  lemma AcquisitionTextLength(a: Acquisition)
    ensures |AcquisitionText(a)| == 24
  {
    TwoDigitsOfPad(a.start.day);
    TwoDigitsOfPad(a.start.year);
    TwoDigitsOfPad(a.end.day);
    TwoDigitsOfPad(a.end.year);
    TwoDigitsOfPad(a.hour);
    TwoDigitsOfPad(a.minute);
    TwoDigitsOfPad(a.second);
    assert |MonthNames[a.start.month - 1]| == 3 && |MonthNames[a.end.month - 1]| == 3;
  }

  /** The granules whose pixels near the glacier terminus are all fill, by
      the dates and time that follow the tile in their names. */
  const BlackAcquisitions: seq<Acquisition> :=
    [Acquisition(Stamp(2, 6, 18), Stamp(13, 6, 18), 9, 48, 58),
     Acquisition(Stamp(29, 5, 15), Stamp(20, 6, 15), 9, 48, 37),
     Acquisition(Stamp(31, 5, 14), Stamp(11, 6, 14), 9, 48, 32),
     Acquisition(Stamp(3, 7, 9), Stamp(14, 7, 9), 9, 48, 7),
     Acquisition(Stamp(13, 6, 18), Stamp(5, 7, 18), 9, 48, 58),
     Acquisition(Stamp(5, 7, 18), Stamp(27, 7, 18), 9, 49, 0),
     Acquisition(Stamp(26, 5, 16), Stamp(17, 6, 16), 9, 48, 43),
     Acquisition(Stamp(18, 7, 17), Stamp(9, 8, 17), 9, 48, 53),
     Acquisition(Stamp(16, 7, 13), Stamp(18, 8, 13), 9, 48, 29),
     Acquisition(Stamp(30, 4, 18), Stamp(2, 6, 18), 9, 48, 57),
     Acquisition(Stamp(10, 11, 15), Stamp(21, 11, 15), 9, 48, 42),
     Acquisition(Stamp(23, 8, 11), Stamp(14, 9, 11), 9, 48, 21),
     Acquisition(Stamp(18, 9, 9), Stamp(29, 9, 9), 9, 48, 11),
     Acquisition(Stamp(28, 4, 9), Stamp(9, 5, 9), 9, 48, 4),
     Acquisition(Stamp(9, 9, 18), Stamp(20, 9, 18), 9, 49, 3),
     Acquisition(Stamp(30, 1, 9), Stamp(10, 2, 9), 9, 48, 2),
     Acquisition(Stamp(6, 2, 11), Stamp(28, 2, 11), 9, 48, 12),
     Acquisition(Stamp(21, 4, 12), Stamp(2, 5, 12), 9, 48, 19),
     Acquisition(Stamp(10, 2, 14), Stamp(21, 2, 14), 9, 48, 29),
     Acquisition(Stamp(23, 11, 14), Stamp(4, 12, 14), 9, 48, 46),
     Acquisition(Stamp(25, 8, 10), Stamp(5, 9, 10), 9, 48, 16),
     Acquisition(Stamp(21, 11, 10), Stamp(2, 12, 10), 9, 48, 17),
     Acquisition(Stamp(14, 2, 17), Stamp(25, 2, 17), 9, 48, 47),
     Acquisition(Stamp(18, 5, 15), Stamp(29, 5, 15), 9, 48, 36),
     Acquisition(Stamp(4, 2, 12), Stamp(15, 2, 12), 9, 48, 17),
     Acquisition(Stamp(19, 4, 18), Stamp(30, 4, 18), 9, 48, 57),
     Acquisition(Stamp(21, 7, 11), Stamp(1, 8, 11), 9, 48, 19),
     Acquisition(Stamp(12, 2, 13), Stamp(23, 2, 13), 9, 48, 22),
     Acquisition(Stamp(24, 4, 11), Stamp(5, 5, 11), 9, 48, 14),
     Acquisition(Stamp(26, 4, 10), Stamp(7, 5, 10), 9, 48, 11)]

  /** The part of an acquisition's name before its parameter. */
  function Root(a: Acquisition): string {
    BlackTile + AcquisitionText(a)
  }

  /** The template `'<root>_{parameter}_v02.0{ext}'`: one entry of `blacklist_raw`. */
  function BlackTemplate(root: string): Template {
    [Lit(root + "_"), Field("parameter"), Lit("_v02.0"), Field("ext")]
  }

  /** `{x.format(**kwargs) for x in blacklist_raw}` over the entries of
      `acqs`: the entries are filled in order and the first one that fails
      raises. */
  function FillAll(acqs: seq<Acquisition>, kwargs: Record): Result<set<string>> {
    if acqs == [] then Ok({})
    else
      var x :- Fill(BlackTemplate(Root(acqs[0])), kwargs);
      var rest :- FillAll(acqs[1..], kwargs);
      Ok({x} + rest)
  }

  /** `get_blackset(**kwargs)`. */
  function GetBlackset(kwargs: Record): Result<set<string>> {
    FillAll(BlackAcquisitions, kwargs)
  }

  /** The name a blacklist entry renders to. */
  function BlackName(root: string, kwargs: Record): string
    requires "parameter" in kwargs && "ext" in kwargs
  {
    root + "_" + (Show(kwargs["parameter"]) + ("_v02.0" + (Show(kwargs["ext"]) + "")))
  }

  /** One entry renders to its name, or fails on `parameter` and then on `ext`. */
  lemma FillBlackTemplate(root: string, kwargs: Record)
    ensures "parameter" !in kwargs ==> Fill(BlackTemplate(root), kwargs) == Err(KeyError("parameter"))
    ensures "parameter" in kwargs && "ext" !in kwargs ==> Fill(BlackTemplate(root), kwargs) == Err(KeyError("ext"))
    ensures "parameter" in kwargs && "ext" in kwargs ==> Fill(BlackTemplate(root), kwargs) == Ok(BlackName(root, kwargs))
  {
    var t3: Template := [Field("ext")];
    var t2: Template := [Lit("_v02.0")] + t3;
    var t1: Template := [Field("parameter")] + t2;
    var t := BlackTemplate(root);
    assert t == [Lit(root + "_")] + t1;
    assert t[1..] == t1 && t1[1..] == t2 && t2[1..] == t3 && t3[1..] == [];
    if "ext" in kwargs {
      assert Fill(t3, kwargs) == Ok(Show(kwargs["ext"]) + "");
      assert Fill(t2, kwargs) == Ok("_v02.0" + (Show(kwargs["ext"]) + ""));
    } else {
      assert Fill(t3, kwargs) == Err(KeyError("ext"));
      assert Fill(t2, kwargs) == Err(KeyError("ext"));
    }
  }

  lemma {:induction false} FillAllFails(acqs: seq<Acquisition>, kwargs: Record)
    requires acqs != []
    ensures "parameter" !in kwargs ==> FillAll(acqs, kwargs) == Err(KeyError("parameter"))
    ensures "parameter" in kwargs && "ext" !in kwargs ==> FillAll(acqs, kwargs) == Err(KeyError("ext"))
  {
    FillBlackTemplate(Root(acqs[0]), kwargs);
  }

  /** With both keys given, filling a non-empty list adds its first entry's
      name to the names of the rest. */
  lemma FillAllStep(acqs: seq<Acquisition>, kwargs: Record)
    requires "parameter" in kwargs && "ext" in kwargs
    requires acqs != [] && FillAll(acqs[1..], kwargs).Ok?
    ensures FillAll(acqs, kwargs) == Ok({BlackName(Root(acqs[0]), kwargs)} + FillAll(acqs[1..], kwargs).value)
  {
    FillBlackTemplate(Root(acqs[0]), kwargs);
  }

  lemma {:induction false} FillAllContents(acqs: seq<Acquisition>, kwargs: Record)
    requires "parameter" in kwargs && "ext" in kwargs
    ensures FillAll(acqs, kwargs).Ok?
    ensures forall name :: name in FillAll(acqs, kwargs).value <==>
      exists a :: a in acqs && name == BlackName(Root(a), kwargs)
  {
    if acqs != [] {
      FillAllContents(acqs[1..], kwargs);
      FillAllStep(acqs, kwargs);
      assert forall a :: a in acqs <==> a == acqs[0] || a in acqs[1..];
    }
  }

  /** `get_blackset` raises `KeyError` for `parameter`, then for `ext`, when
      one is not given; otherwise it holds exactly one name per entry. */
  lemma GetBlacksetContents(kwargs: Record)
    ensures "parameter" !in kwargs ==> GetBlackset(kwargs) == Err(KeyError("parameter"))
    ensures "parameter" in kwargs && "ext" !in kwargs ==> GetBlackset(kwargs) == Err(KeyError("ext"))
    ensures "parameter" in kwargs && "ext" in kwargs ==> GetBlackset(kwargs).Ok?
    ensures "parameter" in kwargs && "ext" in kwargs ==> forall name :: name in GetBlackset(kwargs).value <==>
      exists a :: a in BlackAcquisitions && name == BlackName(Root(a), kwargs)
  {
    if "parameter" in kwargs && "ext" in kwargs {
      FillAllContents(BlackAcquisitions, kwargs);
    } else {
      FillAllFails(BlackAcquisitions, kwargs);
    }
  }

  /** `pf['fname'] in blackset`: a name that is not a string is in no set of strings. */
  predicate Blacklisted(pf: Record, black: set<string>) {
    "fname" in pf && pf["fname"].Str? && pf["fname"].s in black
  }

  /** What `remove_blacklist` does with one record: drop it, keep it, or raise
      `KeyError` when it has no `fname`. */
  function Verdict(pf: Record, black: set<string>): Result<Option<Record>> {
    if "fname" !in pf then Err(KeyError("fname"))
    else if Blacklisted(pf, black) then Ok(None)
    else Ok(Some(pf))
  }

  function Verdicts(pfiles: seq<Record>, black: set<string>): (r: seq<Result<Option<Record>>>)
    ensures |r| == |pfiles|
  {
    seq(|pfiles|, i requires 0 <= i < |pfiles| => Verdict(pfiles[i], black))
  }

  /** The records kept, in order, or the error of the first record that raises. */
  function Kept(pfiles: seq<Record>, black: set<string>): Result<seq<Record>> {
    Collect(Verdicts(pfiles, black))
  }

  /** The outcome of `remove_blacklist(pfiles, **kwargs)`. */
  function Removed(pfiles: seq<Record>, kwargs: Record): Result<seq<Record>> {
    var black :- GetBlackset(kwargs);
    Kept(pfiles, black)
  }

  /** `remove_blacklist(pfiles, **kwargs)`: build the set, then filter. */
  method RemoveBlacklist(pfiles: seq<Record>, kwargs: Record) returns (r: Result<seq<Record>>)
    ensures r == Removed(pfiles, kwargs)
  {
    var blackset := GetBlackset(kwargs);
    if blackset.Err? {
      return Err(blackset.error);
    }
    r := KeepUnlisted(pfiles, blackset.value);
  }

  /** The loop of `remove_blacklist` over the records, given the set. */
  method KeepUnlisted(pfiles: seq<Record>, black: set<string>) returns (r: Result<seq<Record>>)
    ensures r == Kept(pfiles, black)
  {
    ghost var verdicts := Verdicts(pfiles, black);
    var ret: seq<Record> := [];
    for i := 0 to |pfiles|
      invariant Collect(verdicts[..i]) == Ok(ret)
    {
      var pf := pfiles[i];
      var prefix := verdicts[..i + 1];
      assert prefix[..i] == verdicts[..i] && prefix[i] == Verdict(pf, black);
      if "fname" !in pf {
        assert Collect(prefix) == Err(KeyError("fname"));
        CollectErrorSticks(verdicts, i + 1);
        return Err(KeyError("fname"));
      }
      if !(pf["fname"].Str? && pf["fname"].s in black) {
        ret := ret + [pf];
      }
    }
    assert verdicts[..|pfiles|] == verdicts;
    return Ok(ret);
  }

  /** The records that are not blacklisted, in their original order. */
  function Unlisted(pfiles: seq<Record>, black: set<string>): seq<Record> {
    if pfiles == [] then []
    else
      var last := pfiles[|pfiles| - 1];
      Unlisted(pfiles[..|pfiles| - 1], black) + (if Blacklisted(last, black) then [] else [last])
  }

  lemma {:induction false} UnlistedMembers(pfiles: seq<Record>, black: set<string>, x: Record)
    ensures x in Unlisted(pfiles, black) <==> x in pfiles && !Blacklisted(x, black)
  {
    if pfiles != [] {
      var init := pfiles[..|pfiles| - 1];
      UnlistedMembers(init, black, x);
      assert pfiles == init + [pfiles[|pfiles| - 1]];
    }
  }

  lemma {:induction false} CollectVerdicts(pfiles: seq<Record>, black: set<string>)
    requires forall i :: 0 <= i < |pfiles| ==> "fname" in pfiles[i]
    ensures Collect(Verdicts(pfiles, black)) == Ok(Unlisted(pfiles, black))
  {
    if pfiles != [] {
      var init := pfiles[..|pfiles| - 1];
      assert forall i :: 0 <= i < |init| ==> init[i] == pfiles[i];
      CollectVerdicts(init, black);
      var vs := Verdicts(pfiles, black);
      assert vs[..|vs| - 1] == Verdicts(init, black);
      var last := pfiles[|pfiles| - 1];
      assert vs[|vs| - 1] == Verdict(last, black);
      assert "fname" in last;
      assert Unlisted(pfiles, black) == Unlisted(init, black) + (if Blacklisted(last, black) then [] else [last]);
      if Blacklisted(last, black) {
        assert vs[|vs| - 1] == Ok(None);
        assert Collect(vs) == Collect(vs[..|vs| - 1]);
        assert Unlisted(init, black) + [] == Unlisted(init, black);
      } else {
        assert vs[|vs| - 1] == Ok(Some(last));
      }
    } else {
      assert Verdicts(pfiles, black) == [];
    }
  }

  /** When every record has a name, `remove_blacklist` keeps exactly the
      records that are not blacklisted, in their original order. */
  lemma RemovedFilters(pfiles: seq<Record>, kwargs: Record)
    requires GetBlackset(kwargs).Ok?
    requires forall i :: 0 <= i < |pfiles| ==> "fname" in pfiles[i]
    ensures Removed(pfiles, kwargs) == Ok(Unlisted(pfiles, GetBlackset(kwargs).value))
  {
    CollectVerdicts(pfiles, GetBlackset(kwargs).value);
  }

  /** `remove_blacklist` fails exactly when the set cannot be built or some
      record has no `fname`, and then the latter raises `KeyError('fname')`. */
  lemma RemovedFails(pfiles: seq<Record>, kwargs: Record)
    ensures Removed(pfiles, kwargs).Err? <==> GetBlackset(kwargs).Err? || exists i :: 0 <= i < |pfiles| && "fname" !in pfiles[i]
    ensures GetBlackset(kwargs).Ok? && Removed(pfiles, kwargs).Err? ==> Removed(pfiles, kwargs).error == KeyError("fname")
  {
    if GetBlackset(kwargs).Ok? {
      var vs := Verdicts(pfiles, GetBlackset(kwargs).value);
      CollectFails(vs);
      assert forall i :: 0 <= i < |pfiles| ==> (vs[i].Err? <==> "fname" !in pfiles[i]);
    }
  }

  /** The tile ends at index 11, and its grid holds no underscore. */
  lemma TileShape()
    ensures |BlackTile| == 12 && BlackTile[11] == '_'
    ensures forall k :: 4 <= k < 11 ==> BlackTile[k] != '_'
  {
  }

  /** Where the parameter segment of a name the expression matched begins:
      after the source, the grid (which holds no underscore) and the fixed-width
      dates and time. */
  lemma SegmentAt(dialect: Dialect, g: Groups, tail: string)
    requires Conforms(g)
    ensures |AssembleWith(dialect, g, tail)| >= 29 + |g.grid|
    ensures AssembleWith(dialect, g, tail)[4 + |g.grid|] == '_'
    ensures forall k :: 4 <= k < 4 + |g.grid| ==> AssembleWith(dialect, g, tail)[k] != '_'
    ensures AssembleWith(dialect, g, tail)[29 + |g.grid|..] ==
      ParameterSegment(dialect, g.parameter, g.version + (g.ext + tail))
  {
    var seg := ParameterSegment(dialect, g.parameter, g.version + (g.ext + tail));
    var pre := g.source + "_" + g.grid + "_" + g.startText + "_" + g.endText + "_" + TimeText(g);
    var s := AssembleWith(dialect, g, tail);
    assert |g.source| == 3 && |g.startText| == 7 && |g.endText| == 7 && |TimeText(g)| == 8;
    assert s == pre + seg;
    assert |pre| == 29 + |g.grid|;
    assert s[4..4 + |g.grid|] == g.grid;
    assert forall k :: 0 <= k < |g.grid| ==> g.grid[k] != '_';
  }

  /** A segment `_<p>_v02.0<e>` read as a parameter segment names `p`:
      without a parameter group the expression would have needed a second
      underscore (as written) or a version digit (intended) where `p` begins. */
  lemma SegmentParameter(dialect: Dialect, p: string, e: string, q: Option<string>, after: string)
    requires p in Parameters
    requires q.Some? ==> q.value in Parameters
    requires |after| >= 1 && DigitOrDot(after[0])
    requires "_" + (p + ("_v02.0" + (e + ""))) == ParameterSegment(dialect, q, after)
    ensures q == Some(p)
  {
    var t := "_" + (p + ("_v02.0" + (e + "")));
    assert |p| == 2 && p[0] != '_' && !DigitOrDot(p[1]);
    assert t[1] == p[0] && t[2] == p[1] && t[1..3] == p;
    match q
    case None =>
    case Some(x) =>
      assert |x| == 2;
      assert t[1..3] == x;
  }

  /** A name of the form `<root>_<p>_v02.0<e>`, with the grid of `root`
      ending at index 11, read with a grid of `n` characters and the parameter
      segment for `q` starting after it, has `p` as its parameter group. */
  lemma BlackNameParameter(dialect: Dialect, leaf: string, root: string, p: string, e: string,
                           n: nat, q: Option<string>, after: string)
    requires |root| == 36 && root[11] == '_' && forall k :: 4 <= k < 11 ==> root[k] != '_'
    requires leaf == root + "_" + (p + ("_v02.0" + (e + "")))
    requires p in Parameters
    requires |leaf| >= 29 + n && leaf[4 + n] == '_' && forall k :: 4 <= k < 4 + n ==> leaf[k] != '_'
    requires leaf[29 + n..] == ParameterSegment(dialect, q, after)
    requires q.Some? ==> q.value in Parameters
    requires |after| >= 1 && DigitOrDot(after[0])
    ensures q == Some(p)
  {
    assert forall k :: 0 <= k < 36 ==> leaf[k] == root[k];
    assert n == 7;
    var t := "_" + (p + ("_v02.0" + (e + "")));
    assert leaf == root + t;
    assert leaf[36..] == t;
    SegmentParameter(dialect, p, e, q, after);
  }

  /** The root of every acquisition: the tile, whose grid ends at index 11,
      and the 24 characters of the acquisition. */
  lemma RootShape(a: Acquisition)
    ensures |Root(a)| == 36 && Root(a)[11] == '_' && forall k :: 4 <= k < 11 ==> Root(a)[k] != '_'
  {
    TileShape();
    AcquisitionTextLength(a);
    assert forall k :: 0 <= k < |BlackTile| ==> Root(a)[k] == BlackTile[k];
  }

  /** The expression reads the parameter of a name of the form `<root>_<p>_v02.0<e>`
      back as `p`. */
  lemma BlackNameMatched(dialect: Dialect, leaf: string, root: string, p: string, e: string)
    requires |root| == 36 && root[11] == '_' && forall k :: 4 <= k < 11 ==> root[k] != '_'
    requires leaf == root + "_" + (p + ("_v02.0" + (e + "")))
    requires p in Parameters
    requires Match(dialect, leaf).Some?
    ensures Match(dialect, leaf).value.taken.parameter == Some(p)
  {
    var m := Match(dialect, leaf).value;
    var g := m.taken;
    SegmentAt(dialect, g, m.rest);
    BlackNameParameter(dialect, leaf, root, p, e, |g.grid|, g.parameter, g.version + (g.ext + m.rest));
  }

  /** Every name in the set filled for `p` and `e` is an acquisition's root
      followed by `_<p>_v02.0<e>`. */
  lemma BlacksetName(leaf: string, p: string, e: string)
    requires GetBlackset(map["parameter" := Str(p), "ext" := Str(e)]).Ok?
    requires leaf in GetBlackset(map["parameter" := Str(p), "ext" := Str(e)]).value
    ensures exists a: Acquisition :: leaf == Root(a) + "_" + (p + ("_v02.0" + (e + "")))
  {
    var kwargs: Record := map["parameter" := Str(p), "ext" := Str(e)];
    GetBlacksetContents(kwargs);
    var a :| a in BlackAcquisitions && leaf == BlackName(Root(a), kwargs);
    assert leaf == Root(a) + "_" + (p + ("_v02.0" + (e + "")));
  }

  /** The parameter a parsed record holds is the matched parameter group. */
  lemma ParsedParameter(dialect: Dialect, leaf: string)
    requires Parse(dialect, leaf).Ok? && Parse(dialect, leaf).value.Some?
    ensures Match(dialect, leaf).Some?
    ensures var q := Match(dialect, leaf).value.taken.parameter;
      Parse(dialect, leaf).value.value["parameter"] == Str(if q.None? then "" else q.value)
  {
    ParsedRecord(dialect, leaf);
  }

  /** A blacklisted name, read back by the parser, carries the parameter it
      was rendered with: filling the list for one parameter never removes a
      record of another. */
  lemma BlacklistSparesOtherParameters(dialect: Dialect, leaf: string, p: string, e: string)
    requires p in Parameters
    requires Parse(dialect, leaf).Ok? && Parse(dialect, leaf).value.Some?
    requires GetBlackset(map["parameter" := Str(p), "ext" := Str(e)]).Ok?
    requires leaf in GetBlackset(map["parameter" := Str(p), "ext" := Str(e)]).value
    ensures Parse(dialect, leaf).value.value["parameter"] == Str(p)
  {
    BlacksetName(leaf, p, e);
    var a: Acquisition :| leaf == Root(a) + "_" + (p + ("_v02.0" + (e + "")));
    RootShape(a);
    ParsedParameter(dialect, leaf);
    BlackNameMatched(dialect, leaf, Root(a), p, e);
  }
}
