/** The `str.format` templates the pipeline fills: file-name patterns whose
    `{name}` fields are replaced by `str()` of a keyword argument. A template is
    held already split into its literal text and its named fields. */
module Templates {
  import opened Values

  datatype Piece = Lit(text: string) | Field(name: string)

  type Template = seq<Piece>

  /** Field `i` of `t` has no keyword argument. */
  predicate MissingAt(t: Template, kwargs: Record, i: int)
    requires 0 <= i < |t|
  {
    t[i].Field? && t[i].name !in kwargs
  }

  /** One piece of a template, rendered. */
  function Render(p: Piece, kwargs: Record): Result<string> {
    match p
    case Lit(x) => Ok(x)
    case Field(n) => if n in kwargs then Ok(Show(kwargs[n])) else Err(KeyError(n))
  }

  /** `t.format(**kwargs)`: the pieces rendered left to right and joined. */
  function Fill(t: Template, kwargs: Record): Result<string> {
    if t == [] then Ok("")
    else
      var head :- Render(t[0], kwargs);
      var rest :- Fill(t[1..], kwargs);
      Ok(head + rest)
  }

  /** Filling fails exactly when some field has no keyword argument, and then
      with `KeyError` naming the first such field. */
  lemma {:induction false} FillFailsAtFirstMissing(t: Template, kwargs: Record)
    ensures Fill(t, kwargs).Err? <==> exists i :: 0 <= i < |t| && MissingAt(t, kwargs, i)
    ensures Fill(t, kwargs).Err? ==> exists i :: (0 <= i < |t| && MissingAt(t, kwargs, i)
      && Fill(t, kwargs).error == KeyError(t[i].name)
      && forall j :: 0 <= j < i ==> !MissingAt(t, kwargs, j))
  {
    if t != [] {
      var r := Fill(t, kwargs);
      if Render(t[0], kwargs).Err? {
        assert MissingAt(t, kwargs, 0);
      } else {
        FillFailsAtFirstMissing(t[1..], kwargs);
        assert forall i :: 1 <= i < |t| ==> (MissingAt(t, kwargs, i) <==> MissingAt(t[1..], kwargs, i - 1));
        if r.Err? {
          var k :| 0 <= k < |t| - 1 && MissingAt(t[1..], kwargs, k) && r.error == KeyError(t[1..][k].name)
            && forall j :: 0 <= j < k ==> !MissingAt(t[1..], kwargs, j);
          assert MissingAt(t, kwargs, k + 1);
        }
      }
    }
  }

  /** `t.format(*args)`: the arguments are positional, so no named field has a
      value (`{name}` looks only among keyword arguments). */
  function FillPositional(t: Template, args: seq<string>): Result<string> {
    Fill(t, map[])
  }

  /** A template with a named field cannot be filled positionally: it raises
      `KeyError` for its first field, whatever the arguments. */
  lemma PositionalFillFails(t: Template, args: seq<string>, i: int)
    requires 0 <= i < |t| && t[i].Field? && forall j :: 0 <= j < i ==> t[j].Lit?
    ensures FillPositional(t, args) == Err(KeyError(t[i].name))
  {
    var r := FillPositional(t, args);
    FillFailsAtFirstMissing(t, map[]);
    assert MissingAt(t, map[], i);
    var k :| 0 <= k < |t| && MissingAt(t, map[], k) && r.error == KeyError(t[k].name)
      && forall j :: 0 <= j < k ==> !MissingAt(t, map[], j);
    assert k == i;
  }

  /** Filling a concatenation fills each part in turn. */
  lemma {:induction false} FillConcat(t1: Template, t2: Template, kwargs: Record)
    requires Fill(t1, kwargs).Ok? && Fill(t2, kwargs).Ok?
    ensures Fill(t1 + t2, kwargs) == Ok(Fill(t1, kwargs).value + Fill(t2, kwargs).value)
  {
    if t1 == [] {
      assert t1 + t2 == t2;
      assert Fill(t1, kwargs) == Ok("");
      assert "" + Fill(t2, kwargs).value == Fill(t2, kwargs).value;
    } else {
      assert (t1 + t2)[0] == t1[0];
      assert (t1 + t2)[1..] == t1[1..] + t2;
      FillConcat(t1[1..], t2, kwargs);
      var head := Render(t1[0], kwargs).value;
      var a, b := Fill(t1[1..], kwargs).value, Fill(t2, kwargs).value;
      assert Fill(t1, kwargs) == Ok(head + a);
      assert Render((t1 + t2)[0], kwargs) == Ok(head);
      assert Fill(t1 + t2, kwargs) == Ok(head + (a + b));
      assert head + (a + b) == (head + a) + b;
    }
  }

  /** Only the template's own fields matter: arguments that agree on them
      fill it alike. */
  lemma {:induction false} FillReadsOnlyFields(t: Template, a: Record, b: Record)
    requires forall i :: 0 <= i < |t| && t[i].Field? ==>
      (t[i].name in a <==> t[i].name in b) && (t[i].name in a ==> a[t[i].name] == b[t[i].name])
    ensures Fill(t, a) == Fill(t, b)
  {
    if t != [] {
      FillReadsOnlyFields(t[1..], a, b);
    }
  }
}
