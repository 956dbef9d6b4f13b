/** `up_to_date(ifnames, ofnames)`: whether a step's outputs exist and are
    newer than its inputs. The filesystem is a map from path to modification
    time in seconds; `now` is the wall-clock time in seconds, which the source
    scales to milliseconds before using it as the starting "oldest output". */
module Staleness {
  import opened Values

  /** Path to modification time (`os.path.getmtime`), for the paths that exist. */
  type Files = map<string, real>

  predicate AllExist(fs: Files, names: seq<string>) {
    forall i :: 0 <= i < |names| ==> names[i] in fs
  }

  /** The first name in `names` that does not exist. */
  function FirstMissing(fs: Files, names: seq<string>): (r: string)
    requires !AllExist(fs, names)
    ensures r in names && r !in fs
    ensures exists i :: 0 <= i < |names| && names[i] == r && AllExist(fs, names[..i])
  {
    if names[0] !in fs then (assert AllExist(fs, names[..0]); names[0])
    else
      var r := FirstMissing(fs, names[1..]);
      assert forall i :: 0 <= i < |names| - 1 ==> names[1..][..i] == names[..i + 1][1..];
      r
  }

  /** The smaller of `start` and the modification times of `names`. */
  function Oldest(fs: Files, start: real, names: seq<string>): real
    requires AllExist(fs, names)
  {
    if names == [] then start
    else
      var m := Oldest(fs, start, names[..|names| - 1]);
      var t := fs[names[|names| - 1]];
      if m < t then m else t
  }

  /** The latest modification time of `names`. */
  function Newest(fs: Files, names: seq<string>): real
    requires names != [] && AllExist(fs, names)
  {
    if |names| == 1 then fs[names[0]]
    else
      var m := Newest(fs, names[..|names| - 1]);
      var t := fs[names[|names| - 1]];
      if m > t then m else t
  }

  /** What `up_to_date` returns or raises: `False` as soon as an output is
      missing; `IndexError` for no inputs; `FileNotFoundError` for the first
      missing input; otherwise whether the oldest output, capped by
      `now * 1000`, is later than the newest input. */
  function Fresh(fs: Files, now: real, ifnames: seq<string>, ofnames: seq<string>): Result<bool> {
    if !AllExist(fs, ofnames) then Ok(false)
    else if ifnames == [] then Err(IndexError)
    else if !AllExist(fs, ifnames) then Err(FileNotFound(FirstMissing(fs, ifnames)))
    else Ok(Oldest(fs, now * 1000.0, ofnames) > Newest(fs, ifnames))
  }

  /** `up_to_date(ifnames, ofnames)` on the filesystem `fs` at time `now`. */
  method UpToDate(fs: Files, now: real, ifnames: seq<string>, ofnames: seq<string>) returns (r: Result<bool>)
    ensures r == Fresh(fs, now, ifnames, ofnames)
  {
    var oldest := now * 1000.0;
    for i := 0 to |ofnames|
      invariant AllExist(fs, ofnames[..i])
      invariant oldest == Oldest(fs, now * 1000.0, ofnames[..i])
    {
      if ofnames[i] !in fs {
        assert !AllExist(fs, ofnames);
        return Ok(false);
      }
      assert ofnames[..i + 1][..i] == ofnames[..i];
      oldest := if oldest < fs[ofnames[i]] then oldest else fs[ofnames[i]];
    }
    assert ofnames[..|ofnames|] == ofnames;
    if |ifnames| == 0 {
      return Err(IndexError);
    }
    if ifnames[0] !in fs {
      return Err(FileNotFound(ifnames[0]));
    }
    var newest := fs[ifnames[0]];
    for i := 1 to |ifnames|
      invariant AllExist(fs, ifnames[..i])
      invariant newest == Newest(fs, ifnames[..i])
    {
      if ifnames[i] !in fs {
        MissingAfterPrefix(fs, ifnames, i);
        return Err(FileNotFound(ifnames[i]));
      }
      assert ifnames[..i + 1][..i] == ifnames[..i];
      newest := if newest > fs[ifnames[i]] then newest else fs[ifnames[i]];
    }
    assert ifnames[..|ifnames|] == ifnames;
    return Ok(oldest > newest);
  }

  /** The first missing name is the first one the loop meets. */
  lemma {:induction false} MissingAfterPrefix(fs: Files, names: seq<string>, i: int)
    requires 0 <= i < |names| && AllExist(fs, names[..i]) && names[i] !in fs
    ensures !AllExist(fs, names) && FirstMissing(fs, names) == names[i]
    decreases i
  {
    if i > 0 {
      assert names[..i][0] == names[0];
      assert names[1..][..i - 1] == names[..i][1..];
      MissingAfterPrefix(fs, names[1..], i - 1);
    }
  }

  lemma {:induction false} OldestIsMinimum(fs: Files, start: real, names: seq<string>)
    requires AllExist(fs, names)
    ensures Oldest(fs, start, names) <= start
    ensures forall i :: 0 <= i < |names| ==> Oldest(fs, start, names) <= fs[names[i]]
    ensures Oldest(fs, start, names) == start || exists i :: 0 <= i < |names| && Oldest(fs, start, names) == fs[names[i]]
  {
    if names != [] {
      var init := names[..|names| - 1];
      assert AllExist(fs, init) by {
        assert forall i :: 0 <= i < |init| ==> init[i] == names[i];
      }
      OldestIsMinimum(fs, start, init);
      assert forall i :: 0 <= i < |init| ==> init[i] == names[i];
    }
  }

  lemma {:induction false} NewestIsMaximum(fs: Files, names: seq<string>)
    requires names != [] && AllExist(fs, names)
    ensures forall i :: 0 <= i < |names| ==> fs[names[i]] <= Newest(fs, names)
    ensures exists i :: 0 <= i < |names| && Newest(fs, names) == fs[names[i]]
  {
    if |names| > 1 {
      var init := names[..|names| - 1];
      assert AllExist(fs, init) by {
        assert forall i :: 0 <= i < |init| ==> init[i] == names[i];
      }
      NewestIsMaximum(fs, init);
      assert forall i :: 0 <= i < |init| ==> init[i] == names[i];
    } else {
      assert Newest(fs, names) == fs[names[0]];
    }
  }

  /** The reading of the docstring: `up_to_date` holds exactly when every
      output exists and is newer than every input, the inputs are not empty
      and all exist, and no input is stamped later than `now * 1000`. */
  lemma FreshMeansNewer(fs: Files, now: real, ifnames: seq<string>, ofnames: seq<string>)
    ensures Fresh(fs, now, ifnames, ofnames) == Ok(true) <==>
      && AllExist(fs, ofnames) && ifnames != [] && AllExist(fs, ifnames)
      && (forall i :: 0 <= i < |ifnames| ==> fs[ifnames[i]] < now * 1000.0)
      && (forall i, o :: 0 <= i < |ifnames| && 0 <= o < |ofnames| ==> fs[ifnames[i]] < fs[ofnames[o]])
  {
    if AllExist(fs, ofnames) && ifnames != [] && AllExist(fs, ifnames) {
      OldestIsMinimum(fs, now * 1000.0, ofnames);
      NewestIsMaximum(fs, ifnames);
    }
  }

  /** A step with no outputs is up to date as soon as its inputs exist and
      none is stamped after `now * 1000`: "all outputs are newer" holds of
      no outputs at all. */
  lemma NoOutputsUpToDate(fs: Files, now: real, ifnames: seq<string>)
    requires ifnames != [] && AllExist(fs, ifnames)
    requires forall i :: 0 <= i < |ifnames| ==> fs[ifnames[i]] < now * 1000.0
    ensures Fresh(fs, now, ifnames, []) == Ok(true)
  {
    NewestIsMaximum(fs, ifnames);
  }

  /** With every output present, no inputs raise `IndexError`, and a missing
      input raises `FileNotFoundError` for the first missing one. */
  lemma InputErrors(fs: Files, now: real, ifnames: seq<string>, ofnames: seq<string>)
    requires AllExist(fs, ofnames)
    ensures Fresh(fs, now, ifnames, ofnames).Err? <==> ifnames == [] || !AllExist(fs, ifnames)
    ensures ifnames == [] ==> Fresh(fs, now, ifnames, ofnames) == Err(IndexError)
    ensures ifnames != [] && !AllExist(fs, ifnames) ==>
      (exists i :: 0 <= i < |ifnames| && ifnames[i] !in fs && AllExist(fs, ifnames[..i])
         && Fresh(fs, now, ifnames, ofnames) == Err(FileNotFound(ifnames[i])))
  {
    if ifnames != [] && !AllExist(fs, ifnames) {
      var r := FirstMissing(fs, ifnames);
    }
  }
}
