/** The vendor file-name grammar of NSIDC-0481 velocity granules, e.g.
    `TSX_W69.10N_03Jul09_14Jul09_09-48-07_vx_v02.0.tif`, and the regular
    expression match that splits a name into its groups.

    The expression is
      (TSX|TDX)_([EWS][0-9.]+[NS])_(DDMonYY)_(DDMonYY)_(\d\d)-(\d\d)-(\d\d)(_(vv|vx|vy|ex|ey)?)_v([0-9.]+)(\..+)
    matched at the start of the name only (`re.match`): text after the match is
    allowed. The version group is greedy but gives characters back until a
    `.` followed by a non-newline character starts the extension, and the
    extension's `.+` stops at a newline. */
module Grammar {
  import opened Values
  import opened Dates

  const Sources: seq<string> := ["TSX", "TDX"]
  const Parameters: seq<string> := ["vv", "vx", "vy", "ex", "ey"]

  /** The regular expression's groups 1-9, 11, 12 and 13 (group 10 is the
      `_` before the parameter, which the parameter segment accounts for). */
  datatype Groups = Groups(
    source: string, grid: string, startText: string, endText: string,
    hour: string, minute: string, second: string,
    parameter: Option<string>, version: string, ext: string)

  /** Which form of the expression: as the module writes it, where the
      parameter-less segment is `(_)_v`, so a name without a parameter needs
      two underscores before `v`; or as the vendor names are written and the
      parameter-less template renders them, `(_(vv|vx|vy|ex|ey))?_v`. */
  datatype Dialect = AsWritten | Intended

  /** A matched prefix and the text after it. */
  datatype Cut<T> = Cut(taken: T, rest: string)

  predicate DigitOrDot(c: char) { IsDigit(c) || c == '.' }

  predicate IsGridText(x: string) {
    |x| >= 3 && x[0] in "EWS" && x[|x| - 1] in "NS"
    && forall j :: 1 <= j < |x| - 1 ==> DigitOrDot(x[j])
  }

  predicate IsTwoDigits(x: string) { |x| == 2 && IsDigit(x[0]) && IsDigit(x[1]) }

  /** The shape the regular expression gives every group it matches. */
  predicate Conforms(g: Groups) {
    && g.source in Sources
    && IsGridText(g.grid)
    && IsDateText(g.startText) && IsDateText(g.endText)
    && IsTwoDigits(g.hour) && IsTwoDigits(g.minute) && IsTwoDigits(g.second)
    && (g.parameter.Some? ==> g.parameter.value in Parameters)
    && |g.version| >= 1 && (forall j :: 0 <= j < |g.version| ==> DigitOrDot(g.version[j]))
    && |g.ext| >= 2 && g.ext[0] == '.' && (forall j :: 0 <= j < |g.ext| ==> g.ext[j] != '\n')
  }

  /** The extension does not itself begin with a version-like run, so the
      version/extension split of the rendered name is this one. */
  predicate Unambiguous(g: Groups)
    requires |g.ext| >= 2
  {
    !DigitOrDot(g.ext[1])
  }

  function TimeText(g: Groups): string { g.hour + "-" + g.minute + "-" + g.second }

  /** The parameter segment and `_v`, followed by `after`. */
  function ParameterSegment(dialect: Dialect, p: Option<string>, after: string): string {
    match p
    case None => if dialect == AsWritten then "_" + ("_v" + after) else "_v" + after
    case Some(x) => "_" + (x + ("_v" + after))
  }

  /** The name the groups spell, followed by `tail`. */
  function AssembleWith(dialect: Dialect, g: Groups, tail: string): string {
    g.source + ("_" + (g.grid + ("_" + (g.startText + ("_" + (g.endText + ("_" +
      (TimeText(g) + ParameterSegment(dialect, g.parameter, g.version + (g.ext + tail))))))))))
  }

  function Assemble(dialect: Dialect, g: Groups): string { AssembleWith(dialect, g, "") }

  /** Length of the run of `[0-9.]` characters starting at `i`. */
  function RunFrom(s: string, i: nat): (n: nat)
    requires i <= |s|
    ensures i + n <= |s|
    ensures forall j :: i <= j < i + n ==> DigitOrDot(s[j])
    ensures i + n == |s| || !DigitOrDot(s[i + n])
    decreases |s| - i
  {
    if i < |s| && DigitOrDot(s[i]) then 1 + RunFrom(s, i + 1) else 0
  }

  /** Length of the run of non-newline characters starting at `i` (what `.+` takes). */
  function LineFrom(s: string, i: nat): (n: nat)
    requires i <= |s|
    ensures i + n <= |s|
    ensures forall j :: i <= j < i + n ==> s[j] != '\n'
    ensures i + n == |s| || s[i + n] == '\n'
    decreases |s| - i
  {
    if i < |s| && s[i] != '\n' then 1 + LineFrom(s, i + 1) else 0
  }

  lemma RunFromIs(s: string, i: nat, n: nat)
    requires i + n <= |s|
    requires forall j :: i <= j < i + n ==> DigitOrDot(s[j])
    requires i + n == |s| || !DigitOrDot(s[i + n])
    ensures RunFrom(s, i) == n
  {
  }

  lemma LineFromIs(s: string, i: nat, n: nat)
    requires i + n <= |s|
    requires forall j :: i <= j < i + n ==> s[j] != '\n'
    requires i + n == |s| || s[i + n] == '\n'
    ensures LineFrom(s, i) == n
  {
  }

  function TakeSource(s: string): (r: Option<Cut<string>>)
    ensures r.Some? ==> r.value.taken in Sources && s == r.value.taken + ("_" + r.value.rest)
  {
    if |s| >= 4 && s[..3] in Sources && s[3] == '_' then
      assert s == s[..3] + ("_" + s[4..]);
      Some(Cut(s[..3], s[4..]))
    else None
  }

  /** `([EWS][0-9.]+[NS])_`: the run of digits and dots is maximal, since the
      letter after it is not one of them, so no other split exists. */
  function TakeGrid(s: string): (r: Option<Cut<string>>)
    ensures r.Some? ==> IsGridText(r.value.taken) && s == r.value.taken + ("_" + r.value.rest)
  {
    if |s| >= 1 && s[0] in "EWS" then
      var n := RunFrom(s, 1);
      if n >= 1 && n + 2 < |s| && s[n + 1] in "NS" && s[n + 2] == '_' then
        assert s == s[..n + 2] + ("_" + s[n + 3..]);
        Some(Cut(s[..n + 2], s[n + 3..]))
      else None
    else None
  }

  function TakeDate(s: string): (r: Option<Cut<string>>)
    ensures r.Some? ==> IsDateText(r.value.taken) && s == r.value.taken + ("_" + r.value.rest)
  {
    if |s| >= 8 && IsDateText(s[..7]) && s[7] == '_' then
      assert s == s[..7] + ("_" + s[8..]);
      Some(Cut(s[..7], s[8..]))
    else None
  }

  /** `(\d\d)-(\d\d)-(\d\d)`. */
  function TakeTime(s: string): (r: Option<Cut<(string, string, string)>>)
    ensures r.Some? ==> IsTwoDigits(r.value.taken.0) && IsTwoDigits(r.value.taken.1) && IsTwoDigits(r.value.taken.2)
    ensures r.Some? ==> s == r.value.taken.0 + "-" + r.value.taken.1 + "-" + r.value.taken.2 + r.value.rest
  {
    if |s| >= 8 && IsDigit(s[0]) && IsDigit(s[1]) && s[2] == '-' && IsDigit(s[3]) && IsDigit(s[4])
       && s[5] == '-' && IsDigit(s[6]) && IsDigit(s[7]) then
      assert s == s[0..2] + "-" + s[3..5] + "-" + s[6..8] + s[8..];
      Some(Cut((s[0..2], s[3..5], s[6..8]), s[8..]))
    else None
  }

  /** A string that starts with `p` is `p` followed by the rest. */
  lemma PrefixSplit(s: string, p: string)
    requires |p| <= |s| && s[..|p|] == p
    ensures s == p + s[|p|..]
  {
    assert s == s[..|p|] + s[|p|..];
  }

  /** The parameter segment and `_v`: first with a parameter, then without. */
  function TakeParameter(dialect: Dialect, s: string): (r: Option<Cut<Option<string>>>)
    ensures r.Some? ==> (r.value.taken.Some? ==> r.value.taken.value in Parameters)
    ensures r.Some? ==> s == ParameterSegment(dialect, r.value.taken, r.value.rest)
  {
    if |s| >= 5 && s[0] == '_' && s[1..3] in Parameters && s[3..5] == "_v" then
      assert s == "_" + (s[1..3] + ("_v" + s[5..]));
      Some(Cut(Some(s[1..3]), s[5..]))
    else if dialect == AsWritten && |s| >= 3 && s[0] == '_' && s[1..3] == "_v" then
      assert s == "_" + ("_v" + s[3..]);
      Some(Cut(None, s[3..]))
    else if dialect == Intended && |s| >= 2 && s[..2] == "_v" then
      PrefixSplit(s, "_v");
      Some(Cut(None, s[2..]))
    else None
  }

  /** `s[k]` can start the extension: a dot followed by a non-newline character. */
  predicate IsSplit(s: string, k: nat) {
    k + 1 < |s| && s[k] == '.' && s[k + 1] != '\n'
  }

  /** The longest version the backtracking leaves: the largest `k` in `1..n`
      at which the extension can start. */
  function LastSplit(s: string, n: nat): (r: Option<nat>)
    ensures r.Some? ==> 1 <= r.value <= n && IsSplit(s, r.value)
    ensures r.Some? ==> forall i :: r.value < i <= n ==> !IsSplit(s, i)
    ensures r.None? ==> forall i :: 1 <= i <= n ==> !IsSplit(s, i)
  {
    if n == 0 then None
    else if IsSplit(s, n) then Some(n)
    else LastSplit(s, n - 1)
  }

  /** `([0-9.]+)(\..+)`: the version, then the extension up to a newline. */
  function TakeVersionExt(s: string): (r: Option<Cut<(string, string)>>)
    ensures r.Some? ==> |r.value.taken.0| >= 1 && (forall j :: 0 <= j < |r.value.taken.0| ==> DigitOrDot(r.value.taken.0[j]))
    ensures r.Some? ==> |r.value.taken.1| >= 2 && r.value.taken.1[0] == '.'
    ensures r.Some? ==> forall j :: 0 <= j < |r.value.taken.1| ==> r.value.taken.1[j] != '\n'
    ensures r.Some? ==> s == r.value.taken.0 + (r.value.taken.1 + r.value.rest)
    ensures r.Some? ==> r.value.rest == [] || r.value.rest[0] == '\n'
  {
    var n := RunFrom(s, 0);
    var k :- LastSplit(s, n);
    var e := LineFrom(s, k + 1);
    assert s == s[..k] + (s[k..k + 1 + e] + s[k + 1 + e..]);
    Some(Cut((s[..k], s[k..k + 1 + e]), s[k + 1 + e..]))
  }

  /** `reNSIDC_0418.match(s)` (in the given dialect): the groups and the
      unmatched rest, or `None`. A match spells its groups in order, and its
      rest is empty unless a newline stopped the extension. */
  function Match(dialect: Dialect, s: string): (r: Option<Cut<Groups>>)
    ensures r.Some? ==> Conforms(r.value.taken) && s == AssembleWith(dialect, r.value.taken, r.value.rest)
    ensures r.Some? ==> r.value.rest == [] || r.value.rest[0] == '\n'
  {
    var a :- TakeSource(s);
    var b :- TakeGrid(a.rest);
    var c :- TakeDate(b.rest);
    var d :- TakeDate(c.rest);
    var e :- TakeTime(d.rest);
    var f :- TakeParameter(dialect, e.rest);
    var v :- TakeVersionExt(f.rest);
    var g := Groups(a.taken, b.taken, c.taken, d.taken, e.taken.0, e.taken.1, e.taken.2,
                    f.taken, v.taken.0, v.taken.1);
    Spelled(dialect, s, g, a.rest, b.rest, c.rest, d.rest, e.rest, f.rest, v.rest);
    Some(Cut(g, v.rest))
  }

  /** The pieces the steps of `Match` take, put back together, spell the name. */
  lemma Spelled(dialect: Dialect, s: string, g: Groups, r1: string, r2: string, r3: string, r4: string,
                r5: string, r6: string, rest: string)
    requires s == g.source + ("_" + r1) && r1 == g.grid + ("_" + r2)
    requires r2 == g.startText + ("_" + r3) && r3 == g.endText + ("_" + r4)
    requires r4 == g.hour + "-" + g.minute + "-" + g.second + r5
    requires r5 == ParameterSegment(dialect, g.parameter, r6) && r6 == g.version + (g.ext + rest)
    ensures s == AssembleWith(dialect, g, rest)
  {
  }

  /** The whole of `s` is a name of the grammar. */
  predicate FullMatch(dialect: Dialect, s: string) {
    Match(dialect, s).Some? && Match(dialect, s).value.rest == []
  }

  lemma SourceOf(x: string, rest: string)
    requires x in Sources
    ensures TakeSource(x + ("_" + rest)) == Some(Cut(x, rest))
  {
    var s := x + ("_" + rest);
    assert s[..3] == x && s[3] == '_' && s[4..] == rest;
  }

  lemma GridOf(x: string, rest: string)
    requires IsGridText(x)
    ensures TakeGrid(x + ("_" + rest)) == Some(Cut(x, rest))
  {
    var s := x + ("_" + rest);
    var n := |x| - 2;
    RunFromIs(s, 1, n);
    assert s[..n + 2] == x && s[n + 3..] == rest;
  }

  lemma DateOf(x: string, rest: string)
    requires IsDateText(x)
    ensures TakeDate(x + ("_" + rest)) == Some(Cut(x, rest))
  {
    var s := x + ("_" + rest);
    assert s[..7] == x && s[8..] == rest;
  }

  lemma TimeOf(g: Groups, rest: string)
    requires IsTwoDigits(g.hour) && IsTwoDigits(g.minute) && IsTwoDigits(g.second)
    ensures TakeTime(TimeText(g) + rest) == Some(Cut((g.hour, g.minute, g.second), rest))
  {
    var s := TimeText(g) + rest;
    assert s[0..2] == g.hour && s[3..5] == g.minute && s[6..8] == g.second && s[8..] == rest;
  }

  lemma ParameterOf(dialect: Dialect, p: Option<string>, rest: string)
    requires p.Some? ==> p.value in Parameters
    requires |rest| > 0 && DigitOrDot(rest[0])
    ensures TakeParameter(dialect, ParameterSegment(dialect, p, rest)) == Some(Cut(p, rest))
  {
    var s := ParameterSegment(dialect, p, rest);
    if p.Some? {
      assert s[1..3] == p.value && s[3..5] == "_v" && s[5..] == rest;
    } else if dialect == AsWritten {
      assert s[1..3] == "_v" && s[3..] == rest;
      assert s[1..3] !in Parameters;
    } else {
      assert s[..2] == "_v" && s[2..] == rest;
      assert s[0] != '_' || s[1..3] !in Parameters;
    }
  }

  lemma VersionExtOf(version: string, ext: string)
    requires |version| >= 1 && forall j :: 0 <= j < |version| ==> DigitOrDot(version[j])
    requires |ext| >= 2 && ext[0] == '.' && !DigitOrDot(ext[1])
    requires forall j :: 0 <= j < |ext| ==> ext[j] != '\n'
    ensures TakeVersionExt(version + (ext + "")) == Some(Cut((version, ext), ""))
  {
    var s := version + (ext + "");
    var k := |version|;
    RunFromIs(s, 0, k + 1);
    assert IsSplit(s, k) && !IsSplit(s, k + 1);
    assert LastSplit(s, k + 1) == Some(k);
    LineFromIs(s, k + 1, |ext| - 1);
    assert s[..k] == version && s[k..k + 1 + (|ext| - 1)] == ext;
  }

  /** Every name the grammar spells is matched back to the same groups, with
      nothing left over: in either dialect, the expression and `Assemble` are
      inverse. */
  lemma MatchAssemble(dialect: Dialect, g: Groups)
    requires Conforms(g) && Unambiguous(g)
    ensures Match(dialect, Assemble(dialect, g)) == Some(Cut(g, ""))
  {
    var vx := g.version + (g.ext + "");
    var r6 := ParameterSegment(dialect, g.parameter, vx);
    var r5 := TimeText(g) + r6;
    var r4 := g.endText + ("_" + r5);
    var r3 := g.startText + ("_" + r4);
    var r2 := g.grid + ("_" + r3);
    assert Assemble(dialect, g) == g.source + ("_" + r2);
    SourceOf(g.source, r2);
    GridOf(g.grid, r3);
    DateOf(g.startText, r4);
    DateOf(g.endText, r5);
    TimeOf(g, r6);
    assert vx[0] == g.version[0];
    ParameterOf(dialect, g.parameter, vx);
    VersionExtOf(g.version, g.ext);
  }

  /** A name without a parameter segment, as the intended grammar spells it,
      is not matched by the expression as written. */
  lemma ParameterlessNotMatched(g: Groups)
    requires Conforms(g) && g.parameter.None?
    ensures Match(AsWritten, Assemble(Intended, g)).None?
  {
    var vx := g.version + (g.ext + "");
    var r6 := ParameterSegment(Intended, g.parameter, vx);
    var r5 := TimeText(g) + r6;
    var r4 := g.endText + ("_" + r5);
    var r3 := g.startText + ("_" + r4);
    var r2 := g.grid + ("_" + r3);
    assert Assemble(Intended, g) == g.source + ("_" + r2);
    SourceOf(g.source, r2);
    GridOf(g.grid, r3);
    DateOf(g.startText, r4);
    DateOf(g.endText, r5);
    TimeOf(g, r6);
    assert vx[0] == g.version[0];
    BareVersionMarkNotMatched(vx);
  }

  lemma BareVersionMarkNotMatched(rest: string)
    requires |rest| > 0 && DigitOrDot(rest[0])
    ensures TakeParameter(AsWritten, "_v" + rest).None?
  {
    var s := "_v" + rest;
    assert s[1] == 'v' && s[2] == rest[0];
    assert s[1..3] !in Parameters by {
      assert s[1..3][1] == rest[0];
    }
  }
}
