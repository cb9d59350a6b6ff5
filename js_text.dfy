/** The JavaScript string and number rules that the routes and the game component use:
    `String.prototype.trim`, `String.prototype.slice(0, n)`, `Array.prototype.join`,
    `Number.prototype.toString()` on non-negative integers, and the global `parseInt`
    without a radix (sections 22.1.3.32, 22.1.3.22, 23.1.3.18, 21.1.3.6 and 19.2.5 of
    ECMAScript 2024). Strings are sequences of Dafny characters. */
module JsText {
  import opened Wrappers

  /** A code point of ECMAScript's WhiteSpace or LineTerminator productions: the set
      `trim` strips and `parseInt` skips. */
  predicate IsWhiteSpace(c: char) {
    || c == '\t' || c == '\n' || c == '\U{000B}' || c == '\U{000C}' || c == '\r' || c == ' '
    || c == '\U{00A0}' || c == '\U{1680}' || ('\U{2000}' <= c <= '\U{200A}')
    || c == '\U{2028}' || c == '\U{2029}' || c == '\U{202F}' || c == '\U{205F}'
    || c == '\U{3000}' || c == '\U{FEFF}'
  }

  predicate AllWhiteSpace(s: string) {
    forall i :: 0 <= i < |s| ==> IsWhiteSpace(s[i])
  }

  /** JavaScript truthiness of a string that may be absent: absent and "" are falsy. */
  predicate Truthy(s: Option<string>) {
    s.Some? && s.value != ""
  }

  /** `a || b` where `a` is a string that may be absent. */
  function OrElse(a: Option<string>, b: string): string {
    if Truthy(a) then a.value else b
  }

  /** The number of white-space characters at the start of `s`. */
  function LeadingWhiteSpace(s: string): (k: nat)
    ensures k <= |s|
    ensures AllWhiteSpace(s[..k])
    ensures k < |s| ==> !IsWhiteSpace(s[k])
    decreases |s|
  {
    if |s| == 0 || !IsWhiteSpace(s[0]) then 0
    else
      var k' := LeadingWhiteSpace(s[1..]);
      assert s[..1 + k'] == [s[0]] + s[1..][..k'];
      1 + k'
  }

  /** The number of white-space characters at the end of `s`. */
  function TrailingWhiteSpace(s: string): (k: nat)
    ensures k <= |s|
    ensures AllWhiteSpace(s[|s| - k..])
    ensures k < |s| ==> !IsWhiteSpace(s[|s| - 1 - k])
    decreases |s|
  {
    if |s| == 0 || !IsWhiteSpace(s[|s| - 1]) then 0
    else
      var init := s[..|s| - 1];
      var k' := TrailingWhiteSpace(init);
      assert s[|s| - (1 + k')..] == init[|init| - k'..] + [s[|s| - 1]];
      1 + k'
  }

  /** `s.trim()`: the result has no white space at either end, and it is empty exactly
      when `s` is white space only. */
  function Trim(s: string): (t: string)
    ensures |t| <= |s|
    ensures t != [] ==> !IsWhiteSpace(t[0]) && !IsWhiteSpace(t[|t| - 1])
    ensures t == [] <==> AllWhiteSpace(s)
  {
    var k := LeadingWhiteSpace(s);
    var u := s[k..];
    var m := TrailingWhiteSpace(u);
    if m == |u| then
      assert s == s[..k] + u;
      []
    else
      assert !IsWhiteSpace(u[|u| - 1 - m]);
      assert !AllWhiteSpace(s) by { assert s[k + |u| - 1 - m] == u[|u| - 1 - m]; }
      u[..|u| - m]
  }

  /** The trimmed text is the part of `s` that starts after its leading white space. */
  lemma TrimIsSlice(s: string)
    ensures var k := LeadingWhiteSpace(s);
      k + |Trim(s)| <= |s| && Trim(s) == s[k..k + |Trim(s)|]
  {
    var k := LeadingWhiteSpace(s);
    var u := s[k..];
    var m := TrailingWhiteSpace(u);
    if m != |u| {
      assert Trim(s) == u[..|u| - m];
      assert u[..|u| - m] == s[k..k + |u| - m];
    }
  }

  /** `s.slice(0, n)`: the first `n` characters, or all of `s` when it is shorter. */
  function Prefix(s: string, n: nat): (p: string)
    ensures |p| == if |s| < n then |s| else n
    ensures p <= s
  {
    if |s| <= n then s else s[..n]
  }

  /** `parts.join(sep)`. */
  function Join(parts: seq<string>, sep: string): string
    decreases |parts|
  {
    if |parts| == 0 then ""
    else if |parts| == 1 then parts[0]
    else parts[0] + sep + Join(parts[1..], sep)
  }

  /** The total length of the parts. */
  function TotalLength(parts: seq<string>): nat
    decreases |parts|
  {
    if |parts| == 0 then 0 else |parts[0]| + TotalLength(parts[1..])
  }

  /** Joining one more part adds the separator and that part at the end: the parts
      appear in order, separated by `sep`. */
  lemma {:induction false} JoinSnoc(parts: seq<string>, x: string, sep: string)
    requires |parts| > 0
    ensures Join(parts + [x], sep) == Join(parts, sep) + sep + x
    decreases |parts|
  {
    if |parts| == 1 {
      assert parts + [x] == [parts[0], x];
      assert (parts + [x])[1..] == [x];
    } else {
      assert (parts + [x])[1..] == parts[1..] + [x];
      JoinSnoc(parts[1..], x, sep);
    }
  }

  /** A join of `n` parts is as long as the parts plus `n - 1` separators. */
  lemma {:induction false} JoinLength(parts: seq<string>, sep: string)
    requires |parts| > 0
    ensures |Join(parts, sep)| == TotalLength(parts) + (|parts| - 1) * |sep|
    decreases |parts|
  {
    if |parts| == 1 {
      assert TotalLength(parts[1..]) == 0;
    } else {
      JoinLength(parts[1..], sep);
    }
  }

  /** The character of the decimal digit `d`. */
  function DigitChar(d: nat): (c: char)
    requires d < 10
    ensures '0' <= c <= '9'
  {
    ('0' as int + d) as char
  }

  /** `n.toString()` for a non-negative integer: its decimal digits, without leading
      zeros. */
  function Decimal(n: nat): (s: string)
    ensures |s| > 0
    ensures forall i :: 0 <= i < |s| ==> '0' <= s[i] <= '9'
    ensures s[0] == '0' ==> n == 0
    ensures n < 10 <==> |s| == 1
    decreases n
  {
    if n < 10 then [DigitChar(n)] else Decimal(n / 10) + [DigitChar(n % 10)]
  }

  /** The value of `c` as a digit in `radix` (10 or 16), if it is one. */
  function DigitValue(c: char, radix: nat): Option<nat> {
    var code := c as int;
    if '0' as int <= code <= '9' as int then Some(code - '0' as int)
    else if radix == 16 && 'a' as int <= code <= 'f' as int then Some(code - 'a' as int + 10)
    else if radix == 16 && 'A' as int <= code <= 'F' as int then Some(code - 'A' as int + 10)
    else None
  }

  predicate IsDigit(c: char, radix: nat) {
    DigitValue(c, radix).Some?
  }

  predicate AllDigits(s: string, radix: nat) {
    forall i :: 0 <= i < |s| ==> IsDigit(s[i], radix)
  }

  /** The length of the longest prefix of `s` made of digits in `radix`. */
  function DigitRun(s: string, radix: nat): (k: nat)
    ensures k <= |s|
    ensures AllDigits(s[..k], radix)
    ensures k < |s| ==> !IsDigit(s[k], radix)
    decreases |s|
  {
    if |s| == 0 || !IsDigit(s[0], radix) then 0
    else
      var k' := DigitRun(s[1..], radix);
      assert s[..1 + k'] == [s[0]] + s[1..][..k'];
      1 + k'
  }

  /** The number that the digits `s` denote in `radix`, most significant first. */
  function Value(s: string, radix: nat): nat
    requires AllDigits(s, radix)
    decreases |s|
  {
    if |s| == 0 then 0
    else Value(s[..|s| - 1], radix) * radix + DigitValue(s[|s| - 1], radix).value
  }

  /** `parseInt(s)` with no radix, as an integer when the result is a number and as
      `None` when it is NaN: skip leading white space, take one optional sign, switch to
      base 16 after a `0x` or `0X`, then read the longest run of digits; no digits at all
      is NaN. Exact integers stand for JavaScript's doubles. */
  function ParseInt(s: string): (v: Option<int>)
    ensures AllWhiteSpace(s) ==> v == None
  {
    ParseSigned(s[LeadingWhiteSpace(s)..])
  }

  /** `parseInt` after the white space: an optional sign, then the unsigned part. */
  function ParseSigned(t: string): Option<int> {
    if |t| > 0 && t[0] == '-' then
      match ParseUnsigned(t[1..])
      case None => None
      case Some(v) => Some(-v)
    else if |t| > 0 && t[0] == '+' then ParseUnsigned(t[1..])
    else ParseUnsigned(t)
  }

  /** The unsigned part of `parseInt`: a `0x` or `0X` prefix selects base 16, then the
      longest run of digits is read; an empty run is NaN. */
  function ParseUnsigned(u: string): Option<int> {
    var hex := |u| >= 2 && u[0] == '0' && (u[1] == 'x' || u[1] == 'X');
    var radix := if hex then 16 else 10;
    var w := if hex then u[2..] else u;
    var k := DigitRun(w, radix);
    if k == 0 then None else Some(Value(w[..k], radix))
  }

  /** Reading back the decimal digits of `n` yields `n`. */
  lemma {:induction false} DecimalValue(n: nat)
    ensures AllDigits(Decimal(n), 10)
    ensures Value(Decimal(n), 10) == n
    decreases n
  {
    var s := Decimal(n);
    assert AllDigits(s, 10) by {
      forall i | 0 <= i < |s| ensures IsDigit(s[i], 10) { assert '0' <= s[i] <= '9'; }
    }
    if n >= 10 {
      DecimalValue(n / 10);
      assert s[..|s| - 1] == Decimal(n / 10);
    }
  }

  /** A run of digits followed by a non-digit ends where the non-digit starts. */
  lemma {:induction false} DigitRunAppend(d: string, tail: string, radix: nat)
    requires AllDigits(d, radix)
    requires tail == [] || !IsDigit(tail[0], radix)
    ensures DigitRun(d + tail, radix) == |d|
    decreases |d|
  {
    if |d| > 0 {
      assert (d + tail)[1..] == d[1..] + tail;
      DigitRunAppend(d[1..], tail, radix);
    } else {
      assert d + tail == tail;
    }
  }

  /** White space in front adds exactly its own length to the white space skipped. */
  lemma {:induction false} LeadingWhiteSpaceAppend(ws: string, s: string)
    requires AllWhiteSpace(ws)
    ensures LeadingWhiteSpace(ws + s) == |ws| + LeadingWhiteSpace(s)
    decreases |ws|
  {
    if |ws| > 0 {
      assert (ws + s)[1..] == ws[1..] + s;
      LeadingWhiteSpaceAppend(ws[1..], s);
    } else {
      assert ws + s == s;
    }
  }

  /** `parseInt` of text that starts with a decimal digit and is not a `0x` prefix
      reads the leading run of decimal digits. */
  lemma ParseIntUnsigned(s: string)
    requires |s| > 0 && '0' <= s[0] <= '9'
    requires !(|s| >= 2 && s[0] == '0' && (s[1] == 'x' || s[1] == 'X'))
    ensures DigitRun(s, 10) > 0
    ensures ParseUnsigned(s) == Some(Value(s[..DigitRun(s, 10)], 10))
    ensures ParseInt(s) == ParseUnsigned(s)
  {
    assert LeadingWhiteSpace(s) == 0;
    assert s[0..] == s;
  }

  /** `parseInt` reads the decimal digits of `n` and stops at the first character that
      cannot continue them: `parseInt("12.5")` and `parseInt("12e3")` are 12. */
  lemma ParseIntDecimal(n: nat, tail: string)
    requires tail == [] || (!('0' <= tail[0] <= '9') && tail[0] != 'x' && tail[0] != 'X')
    ensures ParseInt(Decimal(n) + tail) == Some(n)
  {
    var d := Decimal(n);
    var s := d + tail;
    assert s[0] == d[0];
    assert !(|s| >= 2 && s[0] == '0' && (s[1] == 'x' || s[1] == 'X')) by {
      if |s| >= 2 && s[0] == '0' {
        assert |d| == 1;
        assert s[1] == tail[0];
      }
    }
    DecimalValue(n);
    DigitRunAppend(d, tail, 10);
    assert s[..|d|] == d;
    ParseIntUnsigned(s);
  }

  /** With a leading minus sign, `parseInt` yields the negated value. */
  lemma ParseIntNegative(n: nat)
    ensures ParseInt("-" + Decimal(n)) == Some(-(n as int))
  {
    DecimalUnsigned(n);
    NegatedUnsigned(Decimal(n), n);
  }

  /** The unsigned part reads the decimal digits of `n` as `n`. */
  lemma DecimalUnsigned(n: nat)
    ensures ParseUnsigned(Decimal(n)) == Some(n)
  {
    var d := Decimal(n);
    ParseIntDecimal(n, []);
    assert d + [] == d;
    assert '0' <= d[0] <= '9';
    assert LeadingWhiteSpace(d) == 0;
    assert d[0..] == d;
  }

  /** A minus sign in front of an unsigned number negates it. */
  lemma NegatedUnsigned(u: string, v: int)
    requires ParseUnsigned(u) == Some(v)
    ensures ParseInt("-" + u) == Some(-v)
  {
    var s := "-" + u;
    assert s[1..] == u;
    assert LeadingWhiteSpace(s) == 0;
    assert s[0..] == s;
  }


  /** Leading white space does not change what `parseInt` reads. */
  lemma ParseIntSkipsWhiteSpace(ws: string, s: string)
    requires AllWhiteSpace(ws)
    ensures ParseInt(ws + s) == ParseInt(s)
  {
    LeadingWhiteSpaceAppend(ws, s);
    var k := LeadingWhiteSpace(s);
    var t := (ws + s)[LeadingWhiteSpace(ws + s)..];
    assert t == s[k..];
    assert ParseInt(ws + s) == ParseSigned(t);
  }

  /** An input with no digit where `parseInt` looks for one is NaN. */
  lemma ParseIntEmpty()
    ensures ParseInt("") == None
  {
  }
}
