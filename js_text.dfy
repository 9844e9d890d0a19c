/** The JavaScript built-ins the work page relies on, stated on strings:
    `parseInt` (one argument), `Number.prototype.toString()` for integers,
    `String.prototype.padStart` and `URLSearchParams.prototype.get`.
    Numbers are exact integers here. */
module JsText {
  import opened Wrappers

  // ---------------------------------------------------------------------
  // parseInt
  // ---------------------------------------------------------------------

  /** The characters `parseInt` skips before the number: white space and line
      terminators of the ECMAScript grammar (StrWhiteSpaceChar). */
  predicate IsWhiteSpace(c: char) {
    || c == '\t' || c == '\U{000B}' || c == '\U{000C}' || c == ' '
    || c == '\n' || c == '\r' || c == '\U{2028}' || c == '\U{2029}'
    || c == '\U{00A0}' || c == '\U{FEFF}' || c == '\U{1680}'
    || ('\U{2000}' <= c <= '\U{200A}')
    || c == '\U{202F}' || c == '\U{205F}' || c == '\U{3000}'
  }

  /** The string without its leading white space. */
  function TrimStart(s: string): (r: string)
    ensures r == [] || !IsWhiteSpace(r[0])
  {
    if |s| > 0 && IsWhiteSpace(s[0]) then TrimStart(s[1..]) else s
  }

  /** The value of a digit character in radix 36 ('0'-'9', then 'a'-'z' in
      either case); `None` for any other character. */
  function DigitValue(c: char): (d: Option<nat>)
    ensures d.Some? ==> d.value < 36
    ensures ('0' <= c <= '9') <==> (d.Some? && d.value < 10)
  {
    if '0' <= c <= '9' then Some(c as nat - '0' as nat)
    else if 'a' <= c <= 'z' then Some(c as nat - 'a' as nat + 10)
    else if 'A' <= c <= 'Z' then Some(c as nat - 'A' as nat + 10)
    else None
  }

  predicate IsDigit(c: char, radix: nat) {
    DigitValue(c).Some? && DigitValue(c).value < radix
  }

  predicate AllDigits(s: string, radix: nat) {
    forall i :: 0 <= i < |s| ==> IsDigit(s[i], radix)
  }

  /** The longest prefix of `s` made of radix-`radix` digits. */
  function DigitRun(s: string, radix: nat): (r: string)
    ensures r <= s && AllDigits(r, radix)
    ensures |r| == |s| || !IsDigit(s[|r|], radix)
  {
    if |s| > 0 && IsDigit(s[0], radix) then [s[0]] + DigitRun(s[1..], radix) else []
  }

  /** The number a string of digits denotes, most significant digit first. */
  function DigitsValue(s: string, radix: nat): nat
    requires AllDigits(s, radix)
  {
    if s == [] then 0
    else DigitsValue(s[..|s| - 1], radix) * radix + DigitValue(s[|s| - 1]).value
  }

  /** The unsigned part of `parseInt`: hexadecimal after a `0x`/`0X` prefix,
      decimal otherwise, the value of the longest run of digits; `None` when
      there is no digit. */
  function ParseMagnitude(u: string): Option<nat>
  {
    var radix := if HasHexPrefix(u) then 16 else 10;
    var run := DigitRun(if HasHexPrefix(u) then u[2..] else u, radix);
    if run == [] then None else Some(DigitsValue(run, radix))
  }

  predicate HasHexPrefix(u: string) {
    |u| >= 2 && u[0] == '0' && (u[1] == 'x' || u[1] == 'X')
  }

  /** `parseInt(s)` with no radix: skip white space, take an optional sign and
      read the magnitude; `None` stands for `NaN`. */
  function ParseInt(s: string): Option<int> {
    var t := TrimStart(s);
    if |t| > 0 && t[0] == '-' then
      match ParseMagnitude(t[1..])
      case Some(m) => Some(-(m as int))
      case None => None
    else if |t| > 0 && t[0] == '+' then
      match ParseMagnitude(t[1..])
      case Some(m) => Some(m)
      case None => None
    else
      match ParseMagnitude(t)
      case Some(m) => Some(m)
      case None => None
  }

  // ---------------------------------------------------------------------
  // Number.prototype.toString() on integers
  // ---------------------------------------------------------------------

  function DecimalDigit(d: nat): char
    requires d < 10
  {
    ('0' as nat + d) as char
  }

  /** The decimal numeral of a natural number, without leading zeros. */
  function DecimalString(n: nat): (s: string)
    ensures |s| >= 1 && AllDigits(s, 10)
    ensures s[0] == '0' ==> n == 0
  {
    if n < 10 then [DecimalDigit(n)] else DecimalString(n / 10) + [DecimalDigit(n % 10)]
  }

  /** `n.toString()` for an integer `n`. */
  function NumberToString(n: int): (s: string)
    ensures |s| >= 1
  {
    if n < 0 then "-" + DecimalString(-n) else DecimalString(n)
  }

  lemma {:induction false} DecimalStringValue(n: nat)
    ensures DigitsValue(DecimalString(n), 10) == n
  {
    if n >= 10 {
      var s := DecimalString(n);
      DecimalStringValue(n / 10);
      assert s[..|s| - 1] == DecimalString(n / 10);
    }
  }

  lemma {:induction false} DigitRunOfDigits(s: string, radix: nat)
    requires AllDigits(s, radix)
    ensures DigitRun(s, radix) == s
  {
    if |s| > 0 {
      DigitRunOfDigits(s[1..], radix);
    }
  }

  /** A decimal numeral followed by anything that does not begin with a
      letter or digit is read as that numeral's value. */
  lemma ParseMagnitudeOfNumeral(m: nat, rest: string)
    requires rest == [] || DigitValue(rest[0]).None?
    ensures ParseMagnitude(DecimalString(m) + rest) == Some(m)
  {
    var d := DecimalString(m);
    var u := d + rest;
    DecimalStringValue(m);
    DigitRunAppend(d, rest, 10);
    if m == 0 {
      assert d == "0";
      assert |u| >= 2 ==> u[1] == rest[0];
    } else {
      assert u[0] == d[0] != '0';
    }
  }

  /** `parseInt` reads back what `toString` writes: the decimal numeral of an
      integer, followed by anything that does not begin with a letter or
      digit, parses to that integer. */
  lemma ParseIntOfNumeral(n: int, rest: string)
    requires rest == [] || DigitValue(rest[0]).None?
    ensures ParseInt(NumberToString(n) + rest) == Some(n)
  {
    var m: nat := if n < 0 then -n else n;
    var u := DecimalString(m) + rest;
    ParseMagnitudeOfNumeral(m, rest);
    LeadingDigit(m, rest);
    if n < 0 {
      assert NumberToString(n) + rest == "-" + u;
      NegativeNumeral(m, u);
    } else {
      assert NumberToString(n) + rest == u;
      PositiveNumeral(m, u);
    }
  }

  lemma PositiveNumeral(m: nat, u: string)
    requires |u| > 0 && '0' <= u[0] <= '9'
    requires ParseMagnitude(u) == Some(m)
    ensures ParseInt(u) == Some(m)
  {
    TrimStartKeeps(u);
  }

  lemma LeadingDigit(m: nat, rest: string)
    ensures '0' <= (DecimalString(m) + rest)[0] <= '9'
  {
    assert IsDigit(DecimalString(m)[0], 10);
  }

  lemma NegativeNumeral(m: nat, u: string)
    requires |u| > 0 && '0' <= u[0] <= '9'
    requires ParseMagnitude(u) == Some(m)
    ensures ParseInt("-" + u) == Some(-(m as int))
  {
    var s := "-" + u;
    TrimStartKeeps(s);
    assert s[1..] == u;
  }

  lemma TrimStartKeeps(s: string)
    requires |s| > 0 && (s[0] == '-' || '0' <= s[0] <= '9')
    ensures TrimStart(s) == s
  {
    assert !IsWhiteSpace(s[0]);
  }

  lemma {:induction false} DigitRunAppend(d: string, rest: string, radix: nat)
    requires AllDigits(d, radix)
    requires rest == [] || !IsDigit(rest[0], radix)
    ensures DigitRun(d + rest, radix) == d
  {
    if |d| > 0 {
      assert (d + rest)[1..] == d[1..] + rest;
      DigitRunAppend(d[1..], rest, radix);
    }
  }

  /** `toString` is injective on integers, so a numeral names one integer. */
  lemma NumberToStringInjective(a: int, b: int)
    requires NumberToString(a) == NumberToString(b)
    ensures a == b
  {
    ParseIntOfNumeral(a, []);
    ParseIntOfNumeral(b, []);
    assert NumberToString(a) + [] == NumberToString(b) + [];
  }

  // ---------------------------------------------------------------------
  // String.prototype.padStart
  // ---------------------------------------------------------------------

  /** `s.padStart(width, fill)` with a one-character filler. */
  function PadStart(s: string, width: nat, fill: char): (r: string)
    ensures |r| == if |s| >= width then |s| else width
    ensures r[|r| - |s|..] == s
    ensures forall i :: 0 <= i < |r| - |s| ==> r[i] == fill
  {
    if |s| >= width then s else seq(width - |s|, _ => fill) + s
  }

  // ---------------------------------------------------------------------
  // URLSearchParams.prototype.get
  // ---------------------------------------------------------------------

  /** The pieces of `s` between occurrences of `sep`; there is always one
      more piece than there are separators. */
  function Split(s: string, sep: char): (parts: seq<string>)
    ensures |parts| >= 1
  {
    if s == [] then [""]
    else
      var rest := Split(s[1..], sep);
      if s[0] == sep then [""] + rest else [[s[0]] + rest[0]] + rest[1..]
  }

  lemma {:induction false} SplitWithoutSeparator(s: string, sep: char)
    requires sep !in s
    ensures Split(s, sep) == [s]
  {
    if s != [] {
      SplitWithoutSeparator(s[1..], sep);
      assert [s[0]] + s[1..] == s;
    }
  }

  /** A name-value pair split at its first '='; a pair without '=' is all name. */
  function SplitPair(segment: string): (pair: (string, string))
    ensures '=' !in pair.0
  {
    if segment == [] then ("", "")
    else if segment[0] == '=' then ("", segment[1..])
    else
      var (name, value) := SplitPair(segment[1..]);
      ([segment[0]] + name, value)
  }

  lemma {:induction false} SplitPairAt(name: string, value: string)
    requires '=' !in name
    ensures SplitPair(name + "=" + value) == (name, value)
  {
    if name != [] {
      var whole := name + "=" + value;
      assert whole[0] == name[0] && whole[0] != '=';
      assert whole[1..] == name[1..] + "=" + value;
      SplitPairAt(name[1..], value);
      assert [name[0]] + name[1..] == name;
    }
  }

  /** The form-encoding rule that '+' stands for a space. */
  function PlusToSpace(s: string): (r: string)
    ensures |r| == |s|
    ensures forall i :: 0 <= i < |s| ==> r[i] == if s[i] == '+' then ' ' else s[i]
  {
    seq(|s|, i requires 0 <= i < |s| => if s[i] == '+' then ' ' else s[i])
  }

  /** The value of the first pair named `name` among `segments`, skipping empty segments. */
  function FindParam(segments: seq<string>, name: string): Option<string> {
    if segments == [] then None
    else if segments[0] == "" then FindParam(segments[1..], name)
    else
      var (n, v) := SplitPair(segments[0]);
      if PlusToSpace(n) == name then Some(PlusToSpace(v)) else FindParam(segments[1..], name)
  }

  /** `new URLSearchParams(search).get(name)`: a leading '?' is dropped, the
      query is split on '&' and the first pair with that name wins; `None` is
      `null`. */
  function SearchParamGet(search: string, name: string): Option<string> {
    var query := if |search| > 0 && search[0] == '?' then search[1..] else search;
    FindParam(Split(query, '&'), name)
  }

  /** A query holding exactly one pair gives back that pair's value. */
  lemma SearchParamOfSinglePair(name: string, value: string)
    requires name != [] && '=' !in name
    requires '&' !in name && '&' !in value
    requires '+' !in name && '+' !in value
    ensures SearchParamGet("?" + name + "=" + value, name) == Some(value)
  {
    var query := name + "=" + value;
    assert ("?" + name + "=" + value)[1..] == query;
    assert '&' !in query by {
      forall i | 0 <= i < |query| ensures query[i] != '&' {
        if i < |name| { assert query[i] == name[i]; }
        else if i > |name| { assert query[i] == value[i - |name| - 1]; }
      }
    }
    SplitWithoutSeparator(query, '&');
    SplitPairAt(name, value);
    assert PlusToSpace(name) == name;
    assert PlusToSpace(value) == value;
  }
}
