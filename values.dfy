/** The Python-level values the pipeline passes around: the entries of a
    granule record (a `dict` in the source), the exceptions it can raise, and
    the text renderings `str()`, `'{:02d}'` and `os.path.join` that it relies on. */
module Values {

  datatype Option<+T> = None | Some(value: T) {
    predicate IsFailure() { None? }
    function PropagateFailure<U>(): Option<U> requires None? { None }
    function Extract(): T requires Some? { value }
  }

  /** The exceptions the modelled code can raise; nothing catches them except
      the `finally` of the conversion step, which re-raises. */
  datatype PyError =
    | KeyError(key: string)            // a dict lookup or a template field with no value
    | ValueError(text: string)         // `strptime` rejecting a matched date, `{:02d}` given a character
    | TypeError(key: string)           // a record entry of the wrong kind
    | IndexError                       // `ifnames[0]` on an empty list, `format` short of arguments
    | FileNotFound(path: string)       // `os.path.getmtime` of a missing path
    | UnboundLocal(name: string)       // a local read before any assignment
    | ToolFailed(tool: string, target: string)  // GDAL or CDO reported failure

  datatype Result<+T> = Ok(value: T) | Err(error: PyError) {
    predicate IsFailure() { Err? }
    function PropagateFailure<U>(): Result<U> requires Err? { Err(error) }
    function Extract(): T requires Ok? { value }
  }

  /** A calendar date as Python's `datetime` holds it (the time of day of every
      parsed date is midnight, so it is not represented). */
  datatype Date = Date(year: int, month: int, day: int)

  predicate IsLeap(y: int) { y % 4 == 0 && (y % 100 != 0 || y % 400 == 0) }

  /** Days in month `m` of year `y` (the Gregorian calendar `datetime` uses). */
  function DaysInMonth(y: int, m: int): (n: int)
    requires 1 <= m <= 12
    ensures 28 <= n <= 31
    ensures n == 29 <==> m == 2 && IsLeap(y)
  {
    if m == 2 then (if IsLeap(y) then 29 else 28)
    else if m == 4 || m == 6 || m == 9 || m == 11 then 30
    else 31
  }

  /** The dates `datetime` can represent: years 1 to 9999. */
  predicate ValidDate(d: Date) {
    1 <= d.year <= 9999 && 1 <= d.month <= 12 && 1 <= d.day <= DaysInMonth(d.year, d.month)
  }

  type CivilDate = d: Date | ValidDate(d) witness Date(2008, 1, 1)

  /** One value of a record entry: a string, a `datetime`, the
      `nominal_time` triple, or `None`. */
  datatype Value =
    | Str(s: string)
    | Day(date: CivilDate)
    | Clock(hour: int, minute: int, second: int)
    | Nothing

  /** A record: the `dict` that `parse_nsidc_0418` returns and the pipeline
      copies and updates. */
  type Record = map<string, Value>

  function DigitChar(n: int): char
    requires 0 <= n < 10
  {
    "0123456789"[n]
  }

  predicate IsDigit(c: char) { '0' <= c <= '9' }

  function DigitValue(c: char): int
    requires IsDigit(c)
  {
    c as int - '0' as int
  }

  /** Decimal digits of `n`, without leading zeros (`str(n)` for n >= 0). */
  function Digits(n: nat): (r: string)
    ensures 1 <= |r|
    ensures forall i :: 0 <= i < |r| ==> IsDigit(r[i])
    ensures n < 10 <==> |r| == 1
    ensures |r| == 1 ==> DigitValue(r[0]) == n
    decreases n
  {
    if n < 10 then [DigitChar(n)] else Digits(n / 10) + [DigitChar(n % 10)]
  }

  /** `n` as `str(n)` renders it. */
  function IntText(n: int): string {
    if n < 0 then "-" + Digits(-n) else Digits(n)
  }

  /** `s` left-padded with '0' to at least `width` characters. */
  function ZeroFill(s: string, width: nat): (r: string)
    ensures |r| == if |s| < width then width else |s|
    decreases width - |s|
  {
    if |s| < width then ZeroFill("0" + s, width) else s
  }

  /** `'{:0Nd}'.format(n)`: sign first, then digits zero-padded so that the
      whole text is at least `width` wide. */
  function PadInt(n: int, width: nat): string {
    if n < 0 then "-" + ZeroFill(Digits(-n), if width == 0 then 0 else width - 1)
    else ZeroFill(Digits(n), width)
  }

  /** The number a two-character decimal field denotes (`int('07') == 7`). */
  function TwoDigitValue(t: string): (n: int)
    requires |t| == 2 && IsDigit(t[0]) && IsDigit(t[1])
    ensures 0 <= n < 100
  {
    10 * DigitValue(t[0]) + DigitValue(t[1])
  }

  /** `'{:02d}'` reproduces every two-digit field it reads back. */
  lemma PadTwoDigits(t: string)
    requires |t| == 2 && IsDigit(t[0]) && IsDigit(t[1])
    ensures PadInt(TwoDigitValue(t), 2) == t
  {
    var n := TwoDigitValue(t);
    if n < 10 {
      assert DigitValue(t[0]) == 0;
      assert Digits(n) == [t[1]];
      assert ZeroFill(Digits(n), 2) == ZeroFill("0" + Digits(n), 2);
    } else {
      assert Digits(n / 10) == [t[0]];
      assert Digits(n) == [t[0]] + [t[1]];
    }
  }

  /** `'{:02d}'` of a number below 100 reads back as that number. */
  lemma TwoDigitsOfPad(n: int)
    requires 0 <= n < 100
    ensures |PadInt(n, 2)| == 2 && IsDigit(PadInt(n, 2)[0]) && IsDigit(PadInt(n, 2)[1])
    ensures TwoDigitValue(PadInt(n, 2)) == n
  {
    if n < 10 {
      assert PadInt(n, 2) == "0" + [DigitChar(n)];
    } else {
      assert PadInt(n, 2) == [DigitChar(n / 10)] + [DigitChar(n % 10)];
    }
  }

  /** What `str(v)` (and so a `{field}` in a template) renders for a value. */
  function Show(v: Value): string {
    match v
    case Str(s) => s
    case Day(d) =>
      PadInt(d.year, 4) + "-" + PadInt(d.month, 2) + "-" + PadInt(d.day, 2) + " 00:00:00"
    case Clock(h, m, s) => "(" + IntText(h) + ", " + IntText(m) + ", " + IntText(s) + ")"
    case Nothing => "None"
  }

  /** `os.path.join(a, b)` for two POSIX path components: an absolute `b`
      replaces `a`, and a separator is added only when `a` lacks one. */
  function Join(a: string, b: string): (r: string)
    ensures |b| > 0 && b[0] == '/' ==> r == b
    ensures !(|b| > 0 && b[0] == '/') ==> exists d :: r == d + b && (d == a || d == a + "/")
  {
    if |b| > 0 && b[0] == '/' then b
    else if a == [] || a[|a| - 1] == '/' then a + b
    else a + "/" + b
  }

  /** Two relative-or-absolute names that agree on their first character and
      differ somewhere are joined to different paths. */
  lemma JoinSeparates(a: string, b1: string, b2: string)
    requires |b1| > 0 && |b2| > 0 && b1[0] == b2[0] && b1 != b2
    ensures Join(a, b1) != Join(a, b2)
  {
    if b1[0] != '/' {
      var d := if a == [] || a[|a| - 1] == '/' then a else a + "/";
      assert Join(a, b1) == d + b1 && Join(a, b2) == d + b2;
      assert (d + b1)[|d|..] == b1 && (d + b2)[|d|..] == b2;
    }
  }
}
