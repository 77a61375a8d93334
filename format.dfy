/**
  How a trace frame is rendered as text: `operator<<` of class `Trace`
  writes `file:line - func`, with the line printed as a decimal `int`.

  A line written to a stream is kept as a `Line` value that says what it
  reports; `Text` gives the exact characters written.

  Besides the rendering itself, this module gives its inverse: a parser
  that recovers the line from its text whenever the file name holds no
  colon, which shows that the rendering loses nothing.
 */
module Format {

  /** The C++ `int` that holds a frame's line number. */
  newtype int32 = x: int | -0x8000_0000 <= x < 0x8000_0000

  /** The source point a frame records: the three constructor arguments of a `Trace`. */
  datatype Location = Location(file: string, func: string, line: int32)

  datatype Option<+T> = None | Some(value: T)

  predicate IsDigit(c: char) {
    '0' <= c <= '9'
  }

  predicate AllDigits(s: string) {
    forall i :: 0 <= i < |s| ==> IsDigit(s[i])
  }

  function DigitChar(d: nat): (c: char)
    requires d < 10
    ensures IsDigit(c) && c as int - '0' as int == d
  {
    ('0' as int + d) as char
  }

  function DigitValue(c: char): (d: nat)
    requires IsDigit(c)
    ensures d < 10 && DigitChar(d) == c
  {
    c as int - '0' as int
  }

  /** Decimal numeral of a natural number, most significant digit first. */
  function NatToString(n: nat): (s: string)
    ensures |s| > 0 && AllDigits(s)
    ensures s[0] == '0' <==> n == 0
    ensures n == 0 ==> s == "0"
    decreases n
  {
    if n < 10 then [DigitChar(n)] else NatToString(n / 10) + [DigitChar(n % 10)]
  }

  /** What `std::ostream << int` writes: a minus sign for negatives, then the digits. */
  function IntToString(n: int): (s: string)
    ensures |s| > 0
    ensures s[0] == '-' <==> n < 0
    ensures AllDigits(s[1..])
    ensures n >= 0 ==> AllDigits(s)
  {
    if n < 0 then "-" + NatToString(-n) else NatToString(n)
  }

  /** The value of a string of decimal digits. */
  function DigitsValue(s: string): nat
    requires AllDigits(s)
  {
    if s == [] then 0 else DigitsValue(s[..|s| - 1]) * 10 + DigitValue(s[|s| - 1])
  }

  function ParseNat(s: string): Option<nat> {
    if s != [] && AllDigits(s) then Some(DigitsValue(s)) else None
  }

  /** Reads back a numeral written by IntToString. */
  function ParseInt(s: string): Option<int> {
    if |s| > 0 && s[0] == '-' then
      match ParseNat(s[1..])
      case Some(v) => Some(-(v as int))
      case None => None
    else
      match ParseNat(s)
      case Some(v) => Some(v)
      case None => None
  }

  lemma {:induction false} NatToStringRoundTrip(n: nat)
    ensures ParseNat(NatToString(n)) == Some(n)
    decreases n
  {
    var s := NatToString(n);
    if n >= 10 {
      NatToStringRoundTrip(n / 10);
      assert s[..|s| - 1] == NatToString(n / 10);
      assert DigitValue(s[|s| - 1]) == n % 10;
    } else {
      assert s[..|s| - 1] == [];
      assert DigitsValue(s[..|s| - 1]) == 0;
      assert DigitValue(s[0]) == n;
    }
  }

  lemma IntToStringRoundTrip(n: int)
    ensures ParseInt(IntToString(n)) == Some(n)
  {
    var s := IntToString(n);
    if n < 0 {
      NatToStringRoundTrip(-n);
      assert s[1..] == NatToString(-n);
    } else {
      NatToStringRoundTrip(n);
    }
  }

  /** `operator<<` of a frame: `file`, a colon, the decimal line, ` - `, `func`. */
  function Render(loc: Location): (r: string)
    ensures |r| > |loc.file| + |loc.func| + 4
    ensures r[..|loc.file|] == loc.file && r[|loc.file|] == ':'
    ensures r[|r| - |loc.func|..] == loc.func
    ensures r[|r| - |loc.func| - 3..|r| - |loc.func|] == " - "
  {
    loc.file + ":" + IntToString(loc.line as int) + " - " + loc.func
  }

  /** The index of the first occurrence of `c` in `s`, if any. */
  function FirstIndex(s: string, c: char): (r: Option<nat>)
    ensures r.Some? ==> r.value < |s| && s[r.value] == c && c !in s[..r.value]
    ensures r.None? ==> c !in s
  {
    if s == [] then None
    else if s[0] == c then Some(0)
    else
      match FirstIndex(s[1..], c)
      case None => None
      case Some(i) => Some(i + 1)
  }

  /** Reads `<numeral> - <func>`: the numeral ends at the first space. */
  function ParseLineAndFunc(rest: string): Option<(int32, string)> {
    match FirstIndex(rest, ' ')
    case None => None
    case Some(k) =>
      if k + 3 <= |rest| && rest[k..k + 3] == " - " then
        match ParseInt(rest[..k])
        case Some(n) =>
          if -0x8000_0000 <= n < 0x8000_0000 then Some((n as int32, rest[k + 3..])) else None
        case None => None
      else None
  }

  /**
    Splits a rendered frame back into its parts: the file up to the first
    colon, then the line and the function name.
   */
  function ParseLocation(s: string): Option<Location> {
    match FirstIndex(s, ':')
    case None => None
    case Some(i) =>
      match ParseLineAndFunc(s[i + 1..])
      case None => None
      case Some(lf) => Some(Location(s[..i], lf.1, lf.0))
  }

  /** Where `c` first occurs in `a + b` when `a` does not hold it but `b` starts with it. */
  lemma FirstIndexAfter(a: string, b: string, c: char)
    requires c !in a && |b| > 0 && b[0] == c
    ensures FirstIndex(a + b, c) == Some(|a|)
  {
    var s := a + b;
    assert s[|a|] == c;
    assert s[..|a|] == a;
    assert forall j :: 0 <= j < |a| ==> s[j] == a[j];
  }

  lemma LineAndFuncRoundTrip(n: int32, func: string)
    ensures ParseLineAndFunc(IntToString(n as int) + " - " + func) == Some((n, func))
  {
    var num := IntToString(n as int);
    var rest := num + " - " + func;
    assert ' ' !in num by {
      forall j | 0 <= j < |num| ensures num[j] != ' ' {
        if j > 0 { assert num[1..][j - 1] == num[j]; }
      }
    }
    assert rest == num + (" - " + func);
    FirstIndexAfter(num, " - " + func, ' ');
    assert rest[|num|..|num| + 3] == " - ";
    assert rest[..|num|] == num;
    assert rest[|num| + 3..] == func;
    IntToStringRoundTrip(n as int);
  }

  /** Rendering loses nothing: a frame whose file name has no colon is read back exactly. */
  lemma RenderRoundTrip(loc: Location)
    requires ':' !in loc.file
    ensures ParseLocation(Render(loc)) == Some(loc)
  {
    var rest := IntToString(loc.line as int) + " - " + loc.func;
    var s := Render(loc);
    assert s == loc.file + (":" + rest);
    FirstIndexAfter(loc.file, ":" + rest, ':');
    assert s[|loc.file| + 1..] == rest;
    assert s[..|loc.file|] == loc.file;
    LineAndFuncRoundTrip(loc.line, loc.func);
  }

  /**
    A line written by `Trace`: a stack-trace line of `printStackTrace` or
    the report the destructor writes while an exception propagates.
   */
  datatype Line = StackLine(loc: Location) | ExceptionThrown(loc: Location)

  const ExceptionPrefix: string := "Exception thrown: "

  /** The characters of a line, its line break included. */
  function Text(l: Line): (t: string)
    ensures |t| > 0 && t[|t| - 1] == '\n'
    ensures l.StackLine? ==> t[..|t| - 1] == Render(l.loc)
    ensures l.ExceptionThrown? ==>
      |t| > |ExceptionPrefix| && t[..|ExceptionPrefix|] == ExceptionPrefix && t[|ExceptionPrefix|..|t| - 1] == Render(l.loc)
  {
    match l
    case StackLine(loc) => Render(loc) + "\n"
    case ExceptionThrown(loc) => ExceptionPrefix + Render(loc) + "\n"
  }

  /** Reads a line back from its text. */
  function ParseLine(t: string): Option<Line> {
    if |t| == 0 || t[|t| - 1] != '\n' then None
    else
      var body := t[..|t| - 1];
      if |ExceptionPrefix| <= |body| && body[..|ExceptionPrefix|] == ExceptionPrefix then
        match ParseLocation(body[|ExceptionPrefix|..])
        case Some(loc) => Some(ExceptionThrown(loc))
        case None => None
      else
        match ParseLocation(body)
        case Some(loc) => Some(StackLine(loc))
        case None => None
  }

  /** A rendered frame with a colon-free file name never starts with the exception prefix. */
  lemma RenderNotExceptionPrefixed(loc: Location)
    requires ':' !in loc.file
    ensures !(|ExceptionPrefix| <= |Render(loc)| && Render(loc)[..|ExceptionPrefix|] == ExceptionPrefix)
  {
    var r := Render(loc);
    var num := IntToString(loc.line as int);
    var k := |loc.file|;
    assert r[k] == ':';
    assert r[k + 1] == num[0];
    assert num[0] == '-' || IsDigit(num[0]);
    assert ExceptionPrefix[16] == ':' && ExceptionPrefix[17] == ' ';
    assert forall j :: 0 <= j < 16 ==> ExceptionPrefix[j] != ':';
    assert forall j :: 0 <= j < k ==> r[j] == loc.file[j];
  }

  /** A written line whose file name has no colon is read back exactly. */
  lemma LineRoundTrip(l: Line)
    requires ':' !in l.loc.file
    ensures ParseLine(Text(l)) == Some(l)
  {
    var t := Text(l);
    var body := t[..|t| - 1];
    RenderRoundTrip(l.loc);
    match l
    case StackLine(loc) =>
      assert body == Render(loc);
      RenderNotExceptionPrefixed(loc);
    case ExceptionThrown(loc) =>
      assert body == ExceptionPrefix + Render(loc);
      assert body[..|ExceptionPrefix|] == ExceptionPrefix;
      assert body[|ExceptionPrefix|..] == Render(loc);
  }
}
