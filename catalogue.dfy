/** `list_pfiles`: the catalogue of the granules in one directory that match
    given attributes, sorted by the key (source, grid, startdate, enddate,
    parameter, nominal_time, version, ext). The directory listing is an input,
    in the order `os.listdir` returns it. */
module Catalogue {
  import opened Values
  import opened Dates
  import opened Grammar
  import opened Codec
  import opened Ordering

  function DateCodes(d: Date): seq<int> { [d.year, d.month, d.day] }

  /** The sort key of a record that holds all its fields. */
  function Key(rec: Record): seq<seq<int>> {
    match FieldsFrom(rec)
    case None => []
    case Some(f) =>
      [Codes(f.source), Codes(f.grid), DateCodes(f.start), DateCodes(f.end), Codes(f.parameter),
       [f.hour, f.minute, f.second], Codes(f.version), Codes(f.ext)]
  }

  /** `a` may come before `b`: its key is not larger. */
  predicate KeyLeq(a: Record, b: Record) { !KeyLess(Key(b), Key(a)) }

  predicate Sorted(s: seq<Record>) {
    forall i, j :: 0 <= i < j < |s| ==> KeyLeq(s[i], s[j])
  }

  /** `x` inserted after every record whose key is not larger than its own. */
  function Insert(x: Record, s: seq<Record>): (r: seq<Record>)
    ensures multiset(r) == multiset(s) + multiset{x}
  {
    if s == [] || KeyLess(Key(x), Key(s[0])) then [x] + s
    else
      assert s == [s[0]] + s[1..];
      [s[0]] + Insert(x, s[1..])
  }

  /** `list.sort(key=...)`: a stable sort, here as insertion of each record
      in turn into the sorted records before it. */
  function SortByKey(s: seq<Record>): (r: seq<Record>)
    ensures multiset(r) == multiset(s)
  {
    if s == [] then []
    else
      assert s == s[..|s| - 1] + [s[|s| - 1]];
      Insert(s[|s| - 1], SortByKey(s[..|s| - 1]))
  }

  lemma KeyLeqTransitive(a: Record, b: Record, c: Record)
    requires KeyLeq(a, b) && KeyLeq(b, c)
    ensures KeyLeq(a, c)
  {
    KeyTotal(Key(a), Key(b));
    KeyTotal(Key(b), Key(c));
    if KeyLess(Key(c), Key(a)) {
      if KeyLess(Key(a), Key(b)) {
        KeyTransitive(Key(c), Key(a), Key(b));
      }
    }
  }

  lemma InsertFront(x: Record, s: seq<Record>)
    requires Sorted(s) && s != [] && KeyLess(Key(x), Key(s[0]))
    ensures Sorted([x] + s)
  {
    KeyAsymmetric(Key(x), Key(s[0]));
    var r := [x] + s;
    forall i, j | 0 <= i < j < |r|
      ensures KeyLeq(r[i], r[j])
    {
      if i == 0 && j > 1 {
        KeyLeqTransitive(x, s[0], s[j - 1]);
      }
    }
  }

  lemma InsertBehind(x: Record, s: seq<Record>, rest: seq<Record>)
    requires Sorted(s) && s != [] && KeyLeq(s[0], x)
    requires Sorted(rest) && multiset(rest) == multiset(s[1..]) + multiset{x}
    ensures Sorted([s[0]] + rest)
  {
    var r := [s[0]] + rest;
    forall i, j | 0 <= i < j < |r|
      ensures KeyLeq(r[i], r[j])
    {
      if i == 0 {
        assert r[j] in multiset(rest);
        if r[j] != x {
          assert r[j] in multiset(s[1..]);
          var k :| 0 <= k < |s[1..]| && s[1..][k] == r[j];
          assert s[k + 1] == r[j];
        }
      }
    }
  }

  lemma {:induction false} InsertSorted(x: Record, s: seq<Record>)
    requires Sorted(s)
    ensures Sorted(Insert(x, s))
  {
    if s == [] {
    } else if KeyLess(Key(x), Key(s[0])) {
      InsertFront(x, s);
    } else {
      KeyTotal(Key(x), Key(s[0]));
      assert Sorted(s[1..]);
      InsertSorted(x, s[1..]);
      InsertBehind(x, s, Insert(x, s[1..]));
    }
  }

  /** The sort puts the records in key order and keeps each of them. */
  lemma {:induction false} SortByKeySorted(s: seq<Record>)
    ensures Sorted(SortByKey(s)) && multiset(SortByKey(s)) == multiset(s)
  {
    if s != [] {
      SortByKeySorted(s[..|s| - 1]);
      InsertSorted(s[|s| - 1], SortByKey(s[..|s| - 1]));
    }
  }

  /** Whether a record has every attribute asked for: the keys are looked up
      in order, and a missing key raises `KeyError` unless an earlier key
      already failed to match. */
  function AttrsMatch(rec: Record, attrs: seq<(string, Value)>): (r: Result<bool>)
    ensures r == Ok(true) <==> forall i :: 0 <= i < |attrs| ==> attrs[i].0 in rec && rec[attrs[i].0] == attrs[i].1
    ensures r.Err? ==> exists i :: 0 <= i < |attrs| && attrs[i].0 !in rec && r.error == KeyError(attrs[i].0)
  {
    if attrs == [] then Ok(true)
    else
      var (k, v) := attrs[0];
      if k !in rec then Err(KeyError(k))
      else if rec[k] != v then Ok(false)
      else
        var r := AttrsMatch(rec, attrs[1..]);
        assert forall i :: 1 <= i < |attrs| ==> attrs[i] == attrs[1..][i - 1];
        r
  }

  /** A parsed record with the directory it was listed in and its path, the
      directory joined with the record's own `fname`: `KeyError` when the
      record has none, `TypeError` when it is not a string. */
  function Locate(parsed: Record, dir: string): (r: Result<Record>)
    ensures r.Ok? <==> "fname" in parsed && parsed["fname"].Str?
    ensures "fname" !in parsed ==> r == Err(KeyError("fname"))
    ensures "fname" in parsed && !parsed["fname"].Str? ==> r == Err(TypeError("fname"))
    ensures r.Ok? ==> r.value.Keys == parsed.Keys + {"dir", "path"}
    ensures r.Ok? ==> r.value["dir"] == Str(dir) && r.value["path"] == Str(Join(dir, parsed["fname"].s))
    ensures r.Ok? ==> forall k :: k in parsed && k != "dir" && k != "path" ==> r.value[k] == parsed[k]
  {
    var rec := parsed["dir" := Str(dir)];
    if "fname" !in rec then Err(KeyError("fname"))
    else if !rec["fname"].Str? then Err(TypeError("fname"))
    else Ok(rec["path" := Str(Join(dir, rec["fname"].s))])
  }

  lemma LocateKeepsFields(parsed: Record, dir: string)
    requires Locate(parsed, dir).Ok?
    ensures FieldsFrom(Locate(parsed, dir).value) == FieldsFrom(parsed)
  {
    assert "dir" !in FieldKeys && "path" !in FieldKeys;
    FieldsWithOther(parsed, "dir", Str(dir));
    FieldsWithOther(parsed["dir" := Str(dir)], "path", Str(Join(dir, parsed["fname"].s)));
  }

  /** The `parser_fn` argument: a name to its record, `None` for a name it
      does not recognise, or the error it raises. */
  type Parser = string -> Result<Option<Record>>

  /** The parser names each record after its file and fills all its fields,
      as `parse_nsidc_0418` does. */
  ghost predicate ParsesGranules(parser: Parser) {
    forall file :: parser(file).Ok? && parser(file).value.Some? ==>
      "fname" in parser(file).value.value && parser(file).value.value["fname"] == Str(file)
      && FieldsFrom(parser(file).value.value).Some?
  }

  lemma ParseParsesGranules(dialect: Dialect)
    ensures ParsesGranules(file => Parse(dialect, file))
  {
    forall file | Parse(dialect, file).Ok? && Parse(dialect, file).value.Some?
      ensures "fname" in Parse(dialect, file).value.value
      ensures Parse(dialect, file).value.value["fname"] == Str(file)
      ensures FieldsFrom(Parse(dialect, file).value.value).Some?
    {
      ParsedFields(dialect, file);
    }
  }

  /** What one directory entry contributes: nothing when it does not parse or
      does not match, otherwise its record with `dir` and `path` added. */
  function Listed(parser: Parser, dir: string, file: string, attrs: seq<(string, Value)>): Result<Option<Record>> {
    var parsed :- parser(file);
    if parsed.None? then Ok(None)
    else
      var rec :- Locate(parsed.value, dir);
      var m :- AttrsMatch(rec, attrs);
      if m then Ok(Some(rec)) else Ok(None)
  }

  /** The records of a sequence of outcomes, in order; the first error stops
      the collection. */
  function Collect<T>(rs: seq<Result<Option<T>>>): Result<seq<T>> {
    if rs == [] then Ok([])
    else
      var prev :- Collect(rs[..|rs| - 1]);
      var one :- rs[|rs| - 1];
      Ok(if one.Some? then prev + [one.value] else prev)
  }

  /** Once an outcome is an error, the collection is that error whatever follows. */
  lemma {:induction false} CollectErrorSticks<T>(rs: seq<Result<Option<T>>>, i: nat)
    requires i <= |rs| && Collect(rs[..i]).Err?
    ensures Collect(rs) == Collect(rs[..i])
    decreases |rs| - i
  {
    if i < |rs| {
      var e := rs[..i + 1];
      assert e[..|e| - 1] == rs[..i];
      CollectErrorSticks(rs, i + 1);
    } else {
      assert rs[..i] == rs;
    }
  }

  /** A collection fails exactly when one of its outcomes is an error, and
      then with the error of the first one. */
  lemma {:induction false} CollectFails<T>(rs: seq<Result<Option<T>>>)
    ensures Collect(rs).Err? <==> exists i :: 0 <= i < |rs| && rs[i].Err?
    ensures Collect(rs).Err? ==>
      exists i :: 0 <= i < |rs| && rs[i].Err? && Collect(rs).error == rs[i].error && forall j :: 0 <= j < i ==> rs[j].Ok?
  {
    if rs != [] {
      var init := rs[..|rs| - 1];
      CollectFails(init);
      assert forall i :: 0 <= i < |init| ==> init[i] == rs[i];
    }
  }

  /** A collection holds exactly the values of its outcomes. */
  lemma {:induction false} CollectMembers<T>(rs: seq<Result<Option<T>>>, x: T)
    requires Collect(rs).Ok?
    ensures x in Collect(rs).value <==> exists i :: 0 <= i < |rs| && rs[i] == Ok(Some(x))
  {
    if rs != [] {
      var init := rs[..|rs| - 1];
      CollectMembers(init, x);
      assert forall i :: 0 <= i < |init| ==> init[i] == rs[i];
    }
  }

  /** What each entry of the listing contributes, in listing order. */
  function Outcomes(parser: Parser, dir: string, entries: seq<string>, attrs: seq<(string, Value)>): (r: seq<Result<Option<Record>>>)
    ensures |r| == |entries|
  {
    seq(|entries|, i requires 0 <= i < |entries| => Listed(parser, dir, entries[i], attrs))
  }

  /** The records of the entries, in listing order; the first entry that
      raises stops the listing with its error. */
  function Scan(parser: Parser, dir: string, entries: seq<string>, attrs: seq<(string, Value)>): Result<seq<Record>> {
    Collect(Outcomes(parser, dir, entries, attrs))
  }

  /** The entries of the sort key, in the order the key reads them. */
  const SortFields: seq<string> := ["source", "grid", "startdate", "enddate", "parameter", "nominal_time", "version", "ext"]

  /** The first of `keys` that `rec` lacks. */
  function MissingField(rec: Record, keys: seq<string>): (r: Option<string>)
    ensures r.None? <==> forall i :: 0 <= i < |keys| ==> keys[i] in rec
    ensures r.Some? ==>
              exists i :: 0 <= i < |keys| && keys[i] == r.value && r.value !in rec && forall j :: 0 <= j < i ==> keys[j] in rec
  {
    if keys == [] then None
    else if keys[0] !in rec then Some(keys[0])
    else
      assert forall i :: 1 <= i < |keys| ==> keys[i] == keys[1..][i - 1];
      MissingField(rec, keys[1..])
  }

  /** The sort computes the key of every record, in order, before comparing
      any: the first record lacking a key entry raises `KeyError` for the
      first entry it lacks. */
  function Unkeyed(s: seq<Record>): (r: Option<PyError>)
    ensures r.None? <==> forall i :: 0 <= i < |s| ==> MissingField(s[i], SortFields).None?
    ensures r.Some? ==>
              exists i :: 0 <= i < |s| && MissingField(s[i], SortFields).Some?
                && r.value == KeyError(MissingField(s[i], SortFields).value)
                && forall j :: 0 <= j < i ==> MissingField(s[j], SortFields).None?
  {
    if s == [] then None
    else
      match MissingField(s[0], SortFields)
      case Some(k) => Some(KeyError(k))
      case None =>
        assert forall i :: 1 <= i < |s| ==> s[i] == s[1..][i - 1];
        Unkeyed(s[1..])
  }

  /** A record with all its fields has every entry of the sort key. */
  lemma FieldsKeyed(rec: Record)
    requires FieldsFrom(rec).Some?
    ensures MissingField(rec, SortFields).None?
  {
    assert forall i :: 0 <= i < |SortFields| ==> SortFields[i] in FieldKeys;
  }

  function Catalogue(parser: Parser, dir: string, entries: seq<string>, attrs: seq<(string, Value)>): Result<seq<Record>> {
    var s :- Scan(parser, dir, entries, attrs);
    match Unkeyed(s)
    case Some(e) => Err(e)
    case None => Ok(SortByKey(s))
  }

  /** The body of the loop of `list_pfiles` for one entry: its record, or
      `None` where the loop continues, or the error it raises. */
  method ListEntry(parser: Parser, dir: string, file: string, attrs: seq<(string, Value)>)
    returns (r: Result<Option<Record>>)
    ensures r == Listed(parser, dir, file, attrs)
  {
    var parsed := parser(file);
    if parsed.Err? {
      return Err(parsed.error);
    }
    if parsed.value.None? {
      return Ok(None);
    }
    var pfile := parsed.value.value;
    pfile := pfile["dir" := Str(dir)];
    if "fname" !in pfile {
      return Err(KeyError("fname"));
    }
    if !pfile["fname"].Str? {
      return Err(TypeError("fname"));
    }
    pfile := pfile["path" := Str(Join(dir, pfile["fname"].s))];
    assert Locate(parsed.value.value, dir) == Ok(pfile);
    var matched := true;
    var j := 0;
    while j < |attrs| && matched
      invariant 0 <= j <= |attrs|
      invariant matched ==> AttrsMatch(pfile, attrs) == AttrsMatch(pfile, attrs[j..])
      invariant !matched ==> AttrsMatch(pfile, attrs) == Ok(false)
      decreases |attrs| - j, matched
    {
      var (k, v) := attrs[j];
      assert attrs[j..][0] == attrs[j] && attrs[j..][1..] == attrs[j + 1..];
      if k !in pfile {
        return Err(KeyError(k));
      }
      if pfile[k] != v {
        matched := false;
      } else {
        j := j + 1;
      }
    }
    if !matched {
      return Ok(None);
    }
    return Ok(Some(pfile));
  }

  /** `list_pfiles(dir, parser_fn, attrs)` over the listing `entries`. */
  method ListPfiles(parser: Parser, dir: string, entries: seq<string>, attrs: seq<(string, Value)>)
    returns (r: Result<seq<Record>>)
    ensures r == Catalogue(parser, dir, entries, attrs)
  {
    ghost var outcomes := Outcomes(parser, dir, entries, attrs);
    var pfiles: seq<Record> := [];
    for i := 0 to |entries|
      invariant Collect(outcomes[..i]) == Ok(pfiles)
    {
      assert outcomes[..i + 1][..i] == outcomes[..i];
      var listed := ListEntry(parser, dir, entries[i], attrs);
      assert outcomes[i] == listed;
      if listed.Err? {
        CollectErrorSticks(outcomes, i + 1);
        return Err(listed.error);
      }
      if listed.value.None? {
        continue;
      }
      pfiles := pfiles + [listed.value.value];
    }
    assert outcomes[..|entries|] == outcomes;
    var unkeyed := Unkeyed(pfiles);
    if unkeyed.Some? {
      return Err(unkeyed.value);
    }
    pfiles := SortByKey(pfiles);
    r := Ok(pfiles);
  }

  /** A listed record is the parsed record of its entry, with the directory
      and the joined path added, and it has every attribute asked for. */
  lemma ListedRecord(parser: Parser, dir: string, file: string, attrs: seq<(string, Value)>)
    requires ParsesGranules(parser)
    requires Listed(parser, dir, file, attrs).Ok? && Listed(parser, dir, file, attrs).value.Some?
    ensures var rec := Listed(parser, dir, file, attrs).value.value;
      && rec["fname"] == Str(file) && rec["dir"] == Str(dir) && rec["path"] == Str(Join(dir, file))
      && FieldsFrom(rec).Some?
      && forall i :: 0 <= i < |attrs| ==> attrs[i].0 in rec && rec[attrs[i].0] == attrs[i].1
  {
    var p := parser(file);
    assert p.Ok? && p.value.Some?;
    var rec := Locate(p.value.value, dir).value;
    assert Listed(parser, dir, file, attrs) == Ok(Some(rec));
    assert AttrsMatch(rec, attrs) == Ok(true);
    LocateKeepsFields(p.value.value, dir);
  }

  /** `list_pfiles` returns the records it collected, sorted by key, none
      lost and none added. */
  lemma CatalogueSorted(parser: Parser, dir: string, entries: seq<string>, attrs: seq<(string, Value)>)
    requires Catalogue(parser, dir, entries, attrs).Ok?
    ensures Scan(parser, dir, entries, attrs).Ok?
    ensures Sorted(Catalogue(parser, dir, entries, attrs).value)
    ensures multiset(Catalogue(parser, dir, entries, attrs).value) == multiset(Scan(parser, dir, entries, attrs).value)
  {
    SortByKeySorted(Scan(parser, dir, entries, attrs).value);
  }

  /** The catalogue holds exactly the records of the listed entries that
      parse and have the attributes asked for. */
  lemma CatalogueMembers(parser: Parser, dir: string, entries: seq<string>, attrs: seq<(string, Value)>, rec: Record)
    requires Catalogue(parser, dir, entries, attrs).Ok?
    ensures rec in Catalogue(parser, dir, entries, attrs).value <==>
      exists i :: 0 <= i < |entries| && Listed(parser, dir, entries[i], attrs) == Ok(Some(rec))
  {
    var c := Catalogue(parser, dir, entries, attrs).value;
    CatalogueSorted(parser, dir, entries, attrs);
    assert rec in c <==> rec in multiset(c);
    var os := Outcomes(parser, dir, entries, attrs);
    CollectMembers(os, rec);
    assert forall i :: 0 <= i < |entries| ==> os[i] == Listed(parser, dir, entries[i], attrs);
  }

  /** Every catalogue record carries its directory, all its fields and every
      attribute asked for. */
  lemma CatalogueRecords(parser: Parser, dir: string, entries: seq<string>, attrs: seq<(string, Value)>, rec: Record)
    requires ParsesGranules(parser) && Catalogue(parser, dir, entries, attrs).Ok?
    requires rec in Catalogue(parser, dir, entries, attrs).value
    ensures "dir" in rec && rec["dir"] == Str(dir) && FieldsFrom(rec).Some?
    ensures forall i :: 0 <= i < |attrs| ==> attrs[i].0 in rec && rec[attrs[i].0] == attrs[i].1
  {
    CatalogueMembers(parser, dir, entries, attrs, rec);
    var i :| 0 <= i < |entries| && Listed(parser, dir, entries[i], attrs) == Ok(Some(rec));
    ListedCarries(parser, dir, entries[i], attrs, rec);
  }

  /** With a parser that fills every field, the sort key never raises: the
      catalogue fails only where the scan of the entries does. */
  lemma GranulesKeyed(parser: Parser, dir: string, entries: seq<string>, attrs: seq<(string, Value)>)
    requires ParsesGranules(parser) && Scan(parser, dir, entries, attrs).Ok?
    ensures Catalogue(parser, dir, entries, attrs) == Ok(SortByKey(Scan(parser, dir, entries, attrs).value))
  {
    var s := Scan(parser, dir, entries, attrs).value;
    var os := Outcomes(parser, dir, entries, attrs);
    assert forall i :: 0 <= i < |entries| ==> os[i] == Listed(parser, dir, entries[i], attrs);
    forall i | 0 <= i < |s| ensures MissingField(s[i], SortFields).None? {
      CollectMembers(os, s[i]);
      var k :| 0 <= k < |entries| && os[k] == Ok(Some(s[i]));
      ListedCarries(parser, dir, entries[k], attrs, s[i]);
      FieldsKeyed(s[i]);
    }
  }

  lemma ListedCarries(parser: Parser, dir: string, file: string, attrs: seq<(string, Value)>, rec: Record)
    requires ParsesGranules(parser) && Listed(parser, dir, file, attrs) == Ok(Some(rec))
    ensures "dir" in rec && rec["dir"] == Str(dir) && FieldsFrom(rec).Some?
    ensures forall i :: 0 <= i < |attrs| ==> attrs[i].0 in rec && rec[attrs[i].0] == attrs[i].1
  {
    ListedRecord(parser, dir, file, attrs);
  }

  lemma DateLessIsLex(a: Date, b: Date)
    ensures DateLess(a, b) <==> LexLess(DateCodes(a), DateCodes(b))
  {
    var x, y := DateCodes(a), DateCodes(b);
    assert x[1..] == [a.month, a.day] && y[1..] == [b.month, b.day];
    assert x[1..][1..] == [a.day] && y[1..][1..] == [b.day];
    assert !LexLess(x[1..][1..][1..], y[1..][1..][1..]);
    assert LexLess(x[1..][1..], y[1..][1..]) <==> a.day < b.day;
    assert LexLess(x[1..], y[1..]) <==> a.month < b.month || (a.month == b.month && a.day < b.day);
  }

  /** A key that agrees with another on its first two entries and is smaller
      on the third is the smaller key. */
  lemma KeyLessOnThird(a: seq<seq<int>>, b: seq<seq<int>>)
    requires |a| >= 3 && |b| >= 3 && a[0] == b[0] && a[1] == b[1]
    ensures LexLess(a[2], b[2]) ==> KeyLess(a, b)
  {
    assert a[1..][0] == a[1] && b[1..][0] == b[1];
    assert a[1..][1..] == a[2..] && b[1..][1..] == b[2..];
    assert a[2..][0] == a[2] && b[2..][0] == b[2];
  }

  /** Within one source and grid, the catalogue order is the order of the
      start dates: the key order yields time order once those are fixed. */
  lemma SameTileChronological(c: seq<Record>)
    requires Sorted(c)
    requires forall i :: 0 <= i < |c| ==> FieldsFrom(c[i]).Some?
    requires forall i, j :: 0 <= i < |c| && 0 <= j < |c| ==>
      FieldsFrom(c[i]).value.source == FieldsFrom(c[j]).value.source && FieldsFrom(c[i]).value.grid == FieldsFrom(c[j]).value.grid
    ensures forall i, j :: 0 <= i < j < |c| ==> !DateLess(FieldsFrom(c[j]).value.start, FieldsFrom(c[i]).value.start)
  {
    forall i, j | 0 <= i < j < |c|
      ensures !DateLess(FieldsFrom(c[j]).value.start, FieldsFrom(c[i]).value.start)
    {
      var a, b := Key(c[j]), Key(c[i]);
      assert !KeyLess(a, b);
      KeyLessOnThird(a, b);
      DateLessIsLex(FieldsFrom(c[j]).value.start, FieldsFrom(c[i]).value.start);
    }
  }

  /** Records with the same key hold the same fields. */
  lemma KeyDeterminesFields(a: Record, b: Record)
    requires FieldsFrom(a).Some? && FieldsFrom(b).Some? && Key(a) == Key(b)
    ensures FieldsFrom(a) == FieldsFrom(b)
  {
    var f, g := FieldsFrom(a).value, FieldsFrom(b).value;
    var ka, kb := Key(a), Key(b);
    assert ka[0] == kb[0] && ka[1] == kb[1] && ka[4] == kb[4] && ka[6] == kb[6] && ka[7] == kb[7];
    CodesInjective(f.source, g.source);
    CodesInjective(f.grid, g.grid);
    CodesInjective(f.parameter, g.parameter);
    CodesInjective(f.version, g.version);
    CodesInjective(f.ext, g.ext);
    assert ka[2] == kb[2] && ka[3] == kb[3] && ka[5] == kb[5];
    assert f.start.year == g.start.year && f.start.month == g.start.month && f.start.day == g.start.day;
    assert f.end.year == g.end.year && f.end.month == g.end.month && f.end.day == g.end.day;
  }

  /** The key identifies the granule: two whole names the expression matches
      whose records have the same key are the same name. */
  lemma KeyIdentifiesName(dialect: Dialect, name1: string, name2: string)
    requires FullMatch(dialect, name1) && Parse(dialect, name1).Ok?
    requires FullMatch(dialect, name2) && Parse(dialect, name2).Ok?
    requires Key(Parse(dialect, name1).value.value) == Key(Parse(dialect, name2).value.value)
    ensures name1 == name2
  {
    ParsedRecord(dialect, name1);
    ParsedRecord(dialect, name2);
    var g1, g2 := Match(dialect, name1).value.taken, Match(dialect, name2).value.taken;
    var f1 := FieldsOf(g1, StrpDate(g1.startText).value, StrpDate(g1.endText).value);
    var f2 := FieldsOf(g2, StrpDate(g2.startText).value, StrpDate(g2.endText).value);
    FieldsOfRecord(name1, f1);
    FieldsOfRecord(name2, f2);
    KeyDeterminesFields(GranuleRecord(name1, f1), GranuleRecord(name2, f2));
    GroupsOfFieldsOf(g1, StrpDate(g1.startText).value, StrpDate(g1.endText).value);
    GroupsOfFieldsOf(g2, StrpDate(g2.startText).value, StrpDate(g2.endText).value);
    assert g1 == g2;
  }
}
