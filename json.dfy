/**
 * Request-body values as the route validators see them, and the string
 * conversions that the validators and controllers apply to them.
 *
 * A JSON number is kept in hundredths, so `12.5` is `Number(1250)`: amounts
 * are money with two decimal places, as in the DECIMAL(15, 2) columns.
 */
module Json {
  import opened Wrappers

  /** One field of a parsed request body. `Absent` is JavaScript's undefined. */
  datatype Value = Absent | Null | Bool(b: bool) | Number(hundredths: int) | Text(s: string)

  predicate IsDigit(c: char) { '0' <= c <= '9' }

  predicate IsDigits(s: string) { |s| > 0 && forall k :: 0 <= k < |s| ==> IsDigit(s[k]) }

  function DigitChar(d: nat): (c: char)
    requires d < 10
    ensures IsDigit(c) && c as int - '0' as int == d
  {
    ('0' as int + d) as char
  }

  /** The decimal spelling of `n`, without leading zeros. */
  function DigitString(n: nat): (s: string)
    ensures IsDigits(s)
    ensures s[0] == '0' ==> n == 0
    decreases n
  {
    if n < 10 then [DigitChar(n)] else DigitString(n / 10) + [DigitChar(n % 10)]
  }

  /** The number a string of decimal digits denotes. */
  function DigitsValue(s: string): nat
    requires forall k :: 0 <= k < |s| ==> IsDigit(s[k])
    decreases |s|
  {
    if |s| == 0 then 0
    else
      assert IsDigit(s[|s| - 1]);
      DigitsValue(s[..|s| - 1]) * 10 + (s[|s| - 1] as int - '0' as int)
  }

  lemma {:induction false} DigitsRoundTrip(n: nat)
    ensures DigitsValue(DigitString(n)) == n
    decreases n
  {
    if n >= 10 {
      var s := DigitString(n);
      assert s[..|s| - 1] == DigitString(n / 10);
      DigitsRoundTrip(n / 10);
    }
  }

  /** JavaScript's String(x) for the number `h` hundredths. */
  function NumberString(h: int): string
  {
    if h < 0 then "-" + Magnitude(-h) else Magnitude(h)
  }

  function Magnitude(h: nat): string
  {
    var whole := DigitString(h / 100);
    var frac := h % 100;
    if frac == 0 then whole
    else if frac % 10 == 0 then whole + "." + [DigitChar(frac / 10)]
    else whole + "." + [DigitChar(frac / 10), DigitChar(frac % 10)]
  }

  /** express-validator's toString: undefined and null become "", anything else String(value). */
  function ToStr(v: Value): string
  {
    match v
    case Absent => ""
    case Null => ""
    case Bool(b) => if b then "true" else "false"
    case Number(h) => NumberString(h)
    case Text(s) => s
  }

  /**
   * The integer a string denotes when it matches validator.js's isInt pattern
   * with leading zeros allowed: an optional sign, then one or more digits.
   */
  function ParseInt(s: string): (r: Option<int>)
    ensures r.Some? ==> IsDigits(s) || (|s| > 1 && s[0] in "+-" && IsDigits(s[1..]))
  {
    if IsDigits(s) then Some(DigitsValue(s))
    else if |s| > 1 && s[0] == '+' && IsDigits(s[1..]) then Some(DigitsValue(s[1..]))
    else if |s| > 1 && s[0] == '-' && IsDigits(s[1..]) then Some(0 - DigitsValue(s[1..]))
    else None
  }

  lemma ParseDigitString(n: nat)
    ensures ParseInt(DigitString(n)) == Some(n)
    ensures ParseInt("-" + DigitString(n)) == Some(0 - n)
  {
    DigitsRoundTrip(n);
    var s := DigitString(n);
    assert ("-" + s)[1..] == s;
    assert !IsDigit('-');
    assert !IsDigits("-" + s) by { assert ("-" + s)[0] == '-'; }
  }

  /** A string holding a '.' is not accepted as an integer. */
  lemma ParseRejectsPoint(s: string, k: nat)
    requires k < |s| && s[k] == '.'
    ensures ParseInt(s) == None
  {
    assert !IsDigit('.');
    if |s| > 1 && k > 0 {
      assert s[1..][k - 1] == '.';
    }
  }

  /** isInt(): the field's string form matches the integer pattern. */
  predicate IsInt(v: Value) { ParseInt(ToStr(v)).Some? }

  /** The integer an isInt-valid field stands for, as Postgres reads it. */
  function IntValue(v: Value): int
    requires IsInt(v)
  {
    ParseInt(ToStr(v)).value
  }

  /** A JSON number passes isInt exactly when it is whole, and then denotes itself. */
  lemma NumberIsInt(h: int)
    ensures IsInt(Number(h)) <==> h % 100 == 0
    ensures h % 100 == 0 ==> IntValue(Number(h)) == h / 100
  {
    var m: nat := if h < 0 then -h else h;
    var whole := DigitString(m / 100);
    ParseDigitString(m / 100);
    if m % 100 == 0 {
      assert Magnitude(m) == whole;
      if h < 0 {
        assert NumberString(h) == "-" + whole;
        assert h % 100 == 0 && h / 100 == -(m / 100);
      } else {
        assert NumberString(h) == whole;
      }
    } else {
      var mag := Magnitude(m);
      assert mag[|whole|] == '.';
      if h < 0 {
        assert NumberString(h) == "-" + mag;
        assert ("-" + mag)[|whole| + 1] == '.';
        ParseRejectsPoint("-" + mag, |whole| + 1);
        assert h % 100 != 0;
      } else {
        ParseRejectsPoint(mag, |whole|);
      }
    }
  }

  /**
   * isFloat({ min }): a JSON number of at least `minHundredths`. Numeric
   * strings are outside the model and are not accepted here.
   */
  predicate IsFloatAtLeast(v: Value, minHundredths: int)
  {
    v.Number? && v.hundredths >= minHundredths
  }

  /** notEmpty(): the field's string form is not "". */
  predicate NotEmpty(v: Value) { ToStr(v) != "" }

  /** isIn(options): the field's string form is one of the options. */
  predicate IsIn(v: Value, options: seq<string>) { ToStr(v) in options }

  /** isLength({ min: n, max: n }). */
  predicate HasLength(v: Value, n: nat) { |ToStr(v)| == n }

  /** The characters JavaScript's trim() removes: WhiteSpace and LineTerminator. */
  predicate IsSpace(c: char)
  {
    c == ' ' || c == '\t' || c == '\n' || c == '\r' || c == '\U{000B}' || c == '\U{000C}'
    || c == '\U{00A0}' || c == '\U{1680}' || ('\U{2000}' <= c <= '\U{200A}')
    || c == '\U{2028}' || c == '\U{2029}' || c == '\U{202F}' || c == '\U{205F}'
    || c == '\U{3000}' || c == '\U{FEFF}'
  }

  /** How many white-space characters `s` starts with. */
  function LeadingSpace(s: string): (n: nat)
    ensures n <= |s|
    ensures forall k :: 0 <= k < n ==> IsSpace(s[k])
    ensures n < |s| ==> !IsSpace(s[n])
  {
    if |s| > 0 && IsSpace(s[0]) then
      var n := 1 + LeadingSpace(s[1..]);
      assert forall k :: 1 <= k < n ==> s[k] == s[1..][k - 1];
      n
    else 0
  }

  /** How many white-space characters `s` ends with. */
  function TrailingSpace(s: string): (n: nat)
    ensures n <= |s|
    ensures forall k :: |s| - n <= k < |s| ==> IsSpace(s[k])
    ensures n < |s| ==> !IsSpace(s[|s| - n - 1])
  {
    if |s| > 0 && IsSpace(s[|s| - 1]) then 1 + TrailingSpace(s[..|s| - 1]) else 0
  }

  /** The trim() sanitizer: `s` without its leading and trailing white space. */
  function Trim(s: string): string
  {
    var t := s[LeadingSpace(s)..];
    t[..|t| - TrailingSpace(t)]
  }

  /** What trim() keeps neither starts nor ends with white space. */
  lemma TrimKeepsNoOuterSpace(s: string)
    ensures var r := Trim(s); r != [] ==> !IsSpace(r[0]) && !IsSpace(r[|r| - 1])
  {
    var i := LeadingSpace(s);
    var t := s[i..];
    var n := TrailingSpace(t);
    var r := t[..|t| - n];
    assert r == Trim(s);
    if r != [] {
      assert r[0] == s[i];
      assert r[|r| - 1] == t[|t| - n - 1];
    }
  }

  /**
   * What trim() keeps is the piece of the input between its leading and its
   * trailing white space, and that piece neither starts nor ends with white space.
   */
  lemma TrimCutsOnlySpace(s: string)
    ensures var r, i := Trim(s), LeadingSpace(s);
      i + |r| <= |s| && r == s[i..i + |r|]
      && (forall k :: 0 <= k < i ==> IsSpace(s[k]))
      && (forall k :: i + |r| <= k < |s| ==> IsSpace(s[k]))
      && (r != [] ==> !IsSpace(r[0]) && !IsSpace(r[|r| - 1]))
  {
    TrimDropsTrailingSpace(s);
    TrimKeepsNoOuterSpace(s);
  }

  /** What trim() removes after the piece it keeps is white space. */
  lemma TrimDropsTrailingSpace(s: string)
    ensures var r, i := Trim(s), LeadingSpace(s);
      i + |r| <= |s| && r == s[i..i + |r|] && forall k :: i + |r| <= k < |s| ==> IsSpace(s[k])
  {
    var i := LeadingSpace(s);
    var t := s[i..];
    var n := TrailingSpace(t);
    var r := t[..|t| - n];
    assert r == Trim(s);
    assert r == s[i..i + |r|];
    forall k | i + |r| <= k < |s| ensures IsSpace(s[k]) {
      assert s[k] == t[k - i];
    }
  }

  /** Trimming twice is trimming once. */
  lemma TrimIdempotent(s: string)
    ensures Trim(Trim(s)) == Trim(s)
  {
    var r := Trim(s);
    TrimCutsOnlySpace(s);
    assert LeadingSpace(r) == 0;
    assert TrailingSpace(r) == 0;
    assert r[0..][..|r|] == r;
  }
}
