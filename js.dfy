/**
 * The small part of JavaScript's string and number semantics that the
 * modelled code relies on: the white-space class `\s` and `trim`,
 * `split`/`join` on one separator character, UTF-16 code units,
 * 32-bit integer conversion, `parseInt(_, 10)` and `Number#toString(radix)`
 * for integers, and `toLowerCase`/`toUpperCase` on the Latin-1 range.
 */
module Js {

  import opened Wrappers

  // ---------------------------------------------------------------------
  // White space and trimming
  // ---------------------------------------------------------------------

  /** The characters matched by `\s` in a JavaScript regular expression; the
      same set (WhiteSpace and LineTerminator) is removed by `String#trim`
      and skipped by `parseInt`. */
  predicate IsWhitespace(c: char) {
    c == '\t' || c == '\n' || c == '\U{000B}' || c == '\U{000C}' || c == '\r' ||
    c == ' ' || c == '\U{00A0}' || c == '\U{1680}' ||
    ('\U{2000}' <= c <= '\U{200A}') ||
    c == '\U{2028}' || c == '\U{2029}' || c == '\U{202F}' || c == '\U{205F}' ||
    c == '\U{3000}' || c == '\U{FEFF}'
  }

  predicate AllWhitespace(s: string) {
    forall i :: 0 <= i < |s| ==> IsWhitespace(s[i])
  }

  /** `String#trimStart`: drops the leading white space. */
  function TrimStart(s: string): (r: string)
    ensures |r| <= |s| && r == s[|s| - |r|..]
    ensures r == [] || !IsWhitespace(r[0])
    ensures AllWhitespace(s[..|s| - |r|])
  {
    if |s| > 0 && IsWhitespace(s[0]) then
      var r := TrimStart(s[1..]);
      assert s[..|s| - |r|] == [s[0]] + s[1..][..|s| - 1 - |r|];
      r
    else s
  }

  /** `String#trimEnd`: drops the trailing white space. */
  function TrimEnd(s: string): (r: string)
    ensures |r| <= |s| && r == s[..|r|]
    ensures r == [] || !IsWhitespace(r[|r| - 1])
    ensures AllWhitespace(s[|r|..])
  {
    if |s| > 0 && IsWhitespace(s[|s| - 1]) then
      var r := TrimEnd(s[..|s| - 1]);
      assert s[|r|..] == s[..|s| - 1][|r|..] + [s[|s| - 1]];
      r
    else s
  }

  /** `String#trim`. */
  function Trim(s: string): string {
    TrimEnd(TrimStart(s))
  }

  lemma TrimStartIdempotent(s: string)
    requires s == [] || !IsWhitespace(s[0])
    ensures TrimStart(s) == s
  {
  }

  lemma TrimEndIdempotent(s: string)
    requires s == [] || !IsWhitespace(s[|s| - 1])
    ensures TrimEnd(s) == s
  {
  }

  /** Trimming an already trimmed string changes nothing. */
  lemma TrimIdempotent(s: string)
    ensures Trim(Trim(s)) == Trim(s)
  {
    var t := Trim(s);
    var u := TrimStart(s);
    if t != [] {
      assert t[0] == u[0];
    }
    TrimStartIdempotent(t);
    TrimEndIdempotent(t);
  }

  /** `Trim(s)` is the part of `s` between its leading and its trailing
      white space. */
  lemma TrimIsInfix(s: string)
    ensures |s| - |TrimStart(s)| + |Trim(s)| <= |s|
    ensures Trim(s) == s[|s| - |TrimStart(s)|..|s| - |TrimStart(s)| + |Trim(s)|]
  {
    var u := TrimStart(s);
    var t := TrimEnd(u);
    assert Trim(s) == t;
    assert |u| <= |s| && u == s[|s| - |u|..];
    assert |t| <= |u| && t == u[..|t|];
    PrefixOfSuffix(s, u, t);
  }

  /** A prefix of an ending of `s` is a slice of `s`. */
  lemma PrefixOfSuffix(s: string, u: string, t: string)
    requires |u| <= |s| && u == s[|s| - |u|..]
    requires |t| <= |u| && t == u[..|t|]
    ensures t == s[|s| - |u|..|s| - |u| + |t|]
  {
  }

  /** Neither end of a trimmed string is white space. */
  lemma TrimEndsNotBlank(s: string)
    ensures Trim(s) == [] || (!IsWhitespace(Trim(s)[0]) && !IsWhitespace(Trim(s)[|Trim(s)| - 1]))
  {
    var u := TrimStart(s);
    var t := TrimEnd(u);
    if t != [] {
      assert t[0] == u[0];
    }
  }

  // ---------------------------------------------------------------------
  // split and join on a single separator character
  // ---------------------------------------------------------------------

  /** `s.split(sep)` for a one-character separator: the pieces between the
      separators, including the empty ones; never an empty list. */
  function Split(s: string, sep: char): (parts: seq<string>)
    ensures |parts| >= 1
  {
    if s == [] then [""]
    else
      var rest := Split(s[1..], sep);
      if s[0] == sep then [""] + rest else [[s[0]] + rest[0]] + rest[1..]
  }

  /** `parts.join(sep)`. */
  function Join(parts: seq<string>, sep: char): string {
    if |parts| == 0 then ""
    else if |parts| == 1 then parts[0]
    else parts[0] + [sep] + Join(parts[1..], sep)
  }

  /** Joining the pieces of a split gives back the string. */
  lemma {:induction false} JoinSplit(s: string, sep: char)
    ensures Join(Split(s, sep), sep) == s
  {
    if s != [] {
      var rest := Split(s[1..], sep);
      JoinSplit(s[1..], sep);
      if s[0] == sep {
        assert Split(s, sep) == [""] + rest;
      } else {
        var parts := [[s[0]] + rest[0]] + rest[1..];
        assert Split(s, sep) == parts;
        if |rest| > 1 {
          assert parts[1..] == rest[1..];
          assert Join(rest, sep) == rest[0] + [sep] + Join(rest[1..], sep);
        }
      }
    }
  }

  /** No piece of a split contains the separator. */
  lemma {:induction false} SplitPiecesAvoidSeparator(s: string, sep: char)
    ensures forall k :: 0 <= k < |Split(s, sep)| ==> sep !in Split(s, sep)[k]
  {
    if s != [] {
      SplitPiecesAvoidSeparator(s[1..], sep);
    }
  }

  /** Splitting a string with no separator in front of one separator. */
  lemma {:induction false} SplitAtFirst(a: string, b: string, sep: char)
    requires sep !in a
    ensures Split(a + [sep] + b, sep) == [a] + Split(b, sep)
  {
    if a == [] {
      assert a + [sep] + b == [sep] + b;
      assert ([sep] + b)[1..] == b;
    } else {
      assert (a + [sep] + b)[1..] == a[1..] + [sep] + b;
      SplitAtFirst(a[1..], b, sep);
      assert [a[0]] + a[1..] == a;
    }
  }

  /** A string without the separator splits into itself alone. */
  lemma {:induction false} SplitWithoutSeparator(a: string, sep: char)
    requires sep !in a
    ensures Split(a, sep) == [a]
  {
    if a != [] {
      SplitWithoutSeparator(a[1..], sep);
      assert [a[0]] + a[1..] == a;
    }
  }

  /** Splitting a join gives back the pieces, when none holds the separator. */
  lemma {:induction false} SplitJoin(parts: seq<string>, sep: char)
    requires |parts| >= 1
    requires forall k :: 0 <= k < |parts| ==> sep !in parts[k]
    ensures Split(Join(parts, sep), sep) == parts
  {
    if |parts| == 1 {
      SplitWithoutSeparator(parts[0], sep);
    } else {
      SplitJoin(parts[1..], sep);
      SplitAtFirst(parts[0], Join(parts[1..], sep), sep);
      assert [parts[0]] + parts[1..] == parts;
    }
  }

  // ---------------------------------------------------------------------
  // UTF-16
  // ---------------------------------------------------------------------

  /** The UTF-16 code units of a string, as `charCodeAt` sees them: one per
      character of the Basic Multilingual Plane, a surrogate pair otherwise. */
  function CodeUnits(s: string): (units: seq<int>)
    ensures |s| <= |units| <= 2 * |s|
    ensures forall k :: 0 <= k < |units| ==> 0 <= units[k] < 0x1_0000
  {
    if s == [] then []
    else
      var c := s[0] as int;
      var first := if c < 0x1_0000 then [c]
                   else [0xD800 + (c - 0x1_0000) / 0x400, 0xDC00 + (c - 0x1_0000) % 0x400];
      first + CodeUnits(s[1..])
  }

  /** `String#length`, which counts UTF-16 code units. */
  function Length(s: string): nat {
    |CodeUnits(s)|
  }

  /** On the Basic Multilingual Plane `length` is the number of characters. */
  lemma {:induction false} LengthOfBmp(s: string)
    requires forall k :: 0 <= k < |s| ==> (s[k] as int) < 0x1_0000
    ensures Length(s) == |s|
  {
    if s != [] {
      LengthOfBmp(s[1..]);
    }
  }

  // ---------------------------------------------------------------------
  // 32-bit integers
  // ---------------------------------------------------------------------

  const TwoTo31: int := 0x8000_0000
  const TwoTo32: int := 0x1_0000_0000

  predicate IsInt32(x: int) {
    -TwoTo31 <= x < TwoTo31
  }

  /** The abstract operation ToInt32 of ECMAScript: the int32 congruent to
      `x` modulo 2^32. This is what `x & x` and `x << k` compute. */
  function ToInt32(x: int): (r: int)
    ensures IsInt32(r)
    ensures (r - x) % TwoTo32 == 0
  {
    (x + TwoTo31) % TwoTo32 - TwoTo31
  }

  /** ToInt32 only depends on its argument modulo 2^32. */
  lemma ToInt32Congruent(x: int, y: int)
    requires (x - y) % TwoTo32 == 0
    ensures ToInt32(x) == ToInt32(y)
  {
    var k := (x - y) / TwoTo32;
    assert x == y + k * TwoTo32;
    assert (x + TwoTo31) % TwoTo32 == (y + TwoTo31 + k * TwoTo32) % TwoTo32;
  }

  // ---------------------------------------------------------------------
  // Integers written in a radix
  // ---------------------------------------------------------------------

  predicate IsRadix(radix: int) {
    2 <= radix <= 36
  }

  /** The digit characters `0-9a-z` used by `toString(radix)`. */
  function DigitChar(d: nat): char
    requires d < 36
  {
    if d < 10 then ('0' as int + d) as char else ('a' as int + d - 10) as char
  }

  /** The value of a digit character in the given radix, if it is one. */
  function DigitValue(c: char, radix: int): Option<nat>
    requires IsRadix(radix)
  {
    var v := if '0' <= c <= '9' then c as int - '0' as int
             else if 'a' <= c <= 'z' then c as int - 'a' as int + 10
             else if 'A' <= c <= 'Z' then c as int - 'A' as int + 10
             else 36;
    if v < radix then Some(v) else None
  }

  predicate AllDigits(s: string, radix: int)
    requires IsRadix(radix)
  {
    forall k :: 0 <= k < |s| ==> DigitValue(s[k], radix).Some?
  }

  lemma DivisionShrinks(n: nat, radix: int)
    requires IsRadix(radix) && n >= radix
    ensures 0 < n / radix < n && 0 <= n % radix < radix
    ensures n == n / radix * radix + n % radix
  {
  }

  /** The digits of a natural number, most significant first. */
  function RadixDigits(n: nat, radix: int): (s: string)
    requires IsRadix(radix)
    ensures |s| >= 1
    decreases n
  {
    if n < radix then [DigitChar(n)]
    else
      DivisionShrinks(n, radix);
      RadixDigits(n / radix, radix) + [DigitChar(n % radix)]
  }

  /** The digits of `n` are digits of the radix, never a sign, and there is
      no leading zero. */
  lemma {:induction false} RadixDigitsWellFormed(n: nat, radix: int)
    requires IsRadix(radix)
    ensures AllDigits(RadixDigits(n, radix), radix)
    ensures RadixDigits(n, radix)[0] != '-'
    ensures RadixDigits(n, radix)[0] != '0' || n == 0
    decreases n
  {
    var s := RadixDigits(n, radix);
    if n < radix {
      DigitCharValue(n, radix);
    } else {
      DivisionShrinks(n, radix);
      RadixDigitsWellFormed(n / radix, radix);
      DigitCharValue(n % radix, radix);
      var p := RadixDigits(n / radix, radix);
      assert s == p + [DigitChar(n % radix)];
      assert forall k :: 0 <= k < |p| ==> s[k] == p[k];
    }
  }

  /** The number a digit string denotes. */
  function DigitsValue(s: string, radix: int): nat
    requires IsRadix(radix) && AllDigits(s, radix)
  {
    if s == [] then 0
    else DigitsValue(s[..|s| - 1], radix) * radix + DigitValue(s[|s| - 1], radix).value
  }

  lemma DigitCharValue(d: nat, radix: int)
    requires IsRadix(radix) && d < radix
    ensures DigitValue(DigitChar(d), radix) == Some(d)
    ensures DigitChar(d) != '-'
  {
  }

  /** Reading back the digits of `n` gives `n`. */
  lemma {:induction false} DigitsRoundTrip(n: nat, radix: int)
    requires IsRadix(radix)
    ensures AllDigits(RadixDigits(n, radix), radix)
    ensures DigitsValue(RadixDigits(n, radix), radix) == n
    decreases n
  {
    RadixDigitsWellFormed(n, radix);
    var s := RadixDigits(n, radix);
    if n < radix {
      DigitCharValue(n, radix);
    } else {
      DivisionShrinks(n, radix);
      DigitsRoundTrip(n / radix, radix);
      DigitCharValue(n % radix, radix);
      assert s[..|s| - 1] == RadixDigits(n / radix, radix);
    }
  }

  /** `Number#toString(radix)` for an integer: a `-` sign for negatives. */
  function ToRadixString(n: int, radix: int): (s: string)
    requires IsRadix(radix)
    ensures |s| >= 1
  {
    if n < 0 then "-" + RadixDigits(-n, radix) else RadixDigits(n, radix)
  }

  /** Reads an optionally signed digit string back. */
  function FromRadixString(s: string, radix: int): Option<int>
    requires IsRadix(radix)
  {
    if |s| >= 2 && s[0] == '-' && AllDigits(s[1..], radix) then Some(0 - DigitsValue(s[1..], radix) as int)
    else if |s| >= 1 && AllDigits(s, radix) then Some(DigitsValue(s, radix))
    else None
  }

  /** `toString(radix)` loses nothing: it can be read back. */
  lemma RadixStringRoundTrip(n: int, radix: int)
    requires IsRadix(radix)
    ensures FromRadixString(ToRadixString(n, radix), radix) == Some(n)
  {
    if n < 0 {
      var s := ToRadixString(n, radix);
      assert s[1..] == RadixDigits(-n, radix);
      DigitsRoundTrip(-n, radix);
    } else {
      DigitsRoundTrip(n, radix);
      assert ToRadixString(n, radix)[0] != '-';
    }
  }

  /** Different integers are written differently. */
  lemma RadixStringInjective(m: int, n: int, radix: int)
    requires IsRadix(radix)
    requires ToRadixString(m, radix) == ToRadixString(n, radix)
    ensures m == n
  {
    RadixStringRoundTrip(m, radix);
    RadixStringRoundTrip(n, radix);
  }

  // ---------------------------------------------------------------------
  // parseInt(s, 10)
  // ---------------------------------------------------------------------

  /** A JavaScript number as far as the model needs one: NaN or an integer. */
  datatype Num = NaN | Int(value: int)

  /** The longest prefix made of decimal digits. */
  function DecimalPrefix(s: string): (p: string)
    ensures |p| <= |s| && p == s[..|p|] && AllDigits(p, 10)
    ensures |p| == |s| || DigitValue(s[|p|], 10).None?
  {
    if s != [] && DigitValue(s[0], 10).Some? then [s[0]] + DecimalPrefix(s[1..]) else ""
  }

  /** `parseInt(s, 10)`: skip leading white space, take one optional sign,
      then the longest run of decimal digits; NaN when there is none. */
  function ParseInt(s: string): Num {
    ParseSigned(TrimStart(s))
  }

  function ParseSigned(t: string): Num {
    if |t| > 0 && t[0] == '-' then Negate(ParseDigits(t[1..]))
    else if |t| > 0 && t[0] == '+' then ParseDigits(t[1..])
    else ParseDigits(t)
  }

  function ParseDigits(body: string): Num {
    var digits := DecimalPrefix(body);
    if digits == [] then NaN else Int(DigitsValue(digits, 10))
  }

  function Negate(n: Num): Num {
    match n
    case NaN => NaN
    case Int(v) => Int(-v)
  }

  lemma {:induction false} DecimalPrefixOfDigits(s: string, rest: string)
    requires AllDigits(s, 10)
    requires rest == [] || DigitValue(rest[0], 10).None?
    ensures DecimalPrefix(s + rest) == s
  {
    if s != [] {
      assert (s + rest)[1..] == s[1..] + rest;
      DecimalPrefixOfDigits(s[1..], rest);
      assert [s[0]] + s[1..] == s;
    } else {
      assert s + rest == rest;
    }
  }

  /** `parseInt` reads back what `toString(10)` writes. */
  lemma ParseIntOfDecimal(n: int)
    ensures ParseInt(ToRadixString(n, 10)) == Int(n)
  {
    var s := ToRadixString(n, 10);
    var digits := RadixDigits(if n < 0 then -n else n, 10);
    RadixDigitsWellFormed(if n < 0 then -n else n, 10);
    assert !IsWhitespace(s[0]);
    TrimStartIdempotent(s);
    DecimalPrefixOfDigits(digits, "");
    assert digits + "" == digits;
    DigitsRoundTrip(if n < 0 then -n else n, 10);
    if n < 0 {
      assert s[1..] == digits;
    }
  }

  /** A string that opens with a decimal digit is read as its leading
      run of digits: no white space to skip, no sign. */
  lemma ParseIntFromDigit(s: string)
    requires s != [] && DigitValue(s[0], 10).Some?
    ensures ParseInt(s) == ParseDigits(s)
  {
    assert !IsWhitespace(s[0]);
    TrimStartIdempotent(s);
    assert ParseSigned(s) == ParseDigits(s);
  }

  /** A plain string of decimal digits parses to the number it denotes. */
  lemma ParseIntOfDigits(s: string)
    requires |s| >= 1 && AllDigits(s, 10)
    ensures ParseInt(s) == Int(DigitsValue(s, 10))
  {
    ParseIntFromDigit(s);
    DecimalPrefixOfDigits(s, "");
    assert s + "" == s;
  }

  /** `parseInt` stops at the first character that is not a digit. */
  lemma ParseIntStopsAtNonDigit(n: nat, rest: string)
    requires rest == [] || DigitValue(rest[0], 10).None?
    ensures ParseInt(RadixDigits(n, 10) + rest) == Int(n)
  {
    var digits := RadixDigits(n, 10);
    RadixDigitsWellFormed(n, 10);
    var s := digits + rest;
    assert s[0] == digits[0];
    ParseIntFromDigit(s);
    DecimalPrefixOfDigits(digits, rest);
    DigitsRoundTrip(n, 10);
  }

  /** `parseInt` is NaN exactly when no digit follows the white space and
      the optional sign. */
  lemma ParseIntNaN(s: string)
    ensures var t := TrimStart(s);
            var body := if |t| > 0 && (t[0] == '-' || t[0] == '+') then t[1..] else t;
            ParseInt(s) == NaN <==> (body == [] || DigitValue(body[0], 10).None?)
  {
    var t := TrimStart(s);
    var body := if |t| > 0 && (t[0] == '-' || t[0] == '+') then t[1..] else t;
    assert ParseSigned(t) == NaN <==> ParseDigits(body) == NaN;
    ParseDigitsNaN(body);
  }

  lemma ParseDigitsNaN(body: string)
    ensures ParseDigits(body) == NaN <==> (body == [] || DigitValue(body[0], 10).None?)
  {
  }

  // ---------------------------------------------------------------------
  // Case mapping (Latin-1)
  // ---------------------------------------------------------------------

  /** `toLowerCase` on one character of the Latin-1 range: `A-Z` and
      `À-Þ` (except `×`) move down by 32; every other character is kept. */
  function ToLowerChar(c: char): (r: char)
    ensures 'A' <= c <= 'Z' ==> 'a' <= r <= 'z'
    ensures !('A' <= c <= 'Z') && !('À' <= c <= 'Þ') ==> r == c
  {
    if IsLatinCapital(c) then (c as int + 32) as char else c
  }

  /** The capitals of the Latin-1 range: `A-Z` and `À-Þ` except `×`. */
  predicate IsLatinCapital(c: char) {
    'A' <= c <= 'Z' || ('À' <= c <= 'Þ' && c != '×')
  }

  /** `toUpperCase` on one character of the Latin-1 range: `a-z` and `à-þ`
      (except `÷`) move up by 32, `ÿ` becomes `Ÿ`, `µ` becomes `Μ` and `ß`
      becomes `SS`; every other character is kept. */
  function ToUpperChar(c: char): (r: string)
    ensures c != 'ß' ==> |r| == 1
    ensures 'a' <= c <= 'z' ==> r == [(c as int - 32) as char]
  {
    if 'a' <= c <= 'z' || ('à' <= c <= 'þ' && c != '÷') then [(c as int - 32) as char]
    else if c == 'ÿ' then "Ÿ"
    else if c == 'µ' then "Μ"
    else if c == 'ß' then "SS"
    else [c]
  }

  /** `String#toUpperCase`. */
  function ToUpper(s: string): (r: string)
    ensures |r| >= |s|
  {
    if s == [] then [] else ToUpperChar(s[0]) + ToUpper(s[1..])
  }

  /** On ASCII letters `toUpperCase` maps character by character. */
  lemma {:induction false} ToUpperOfAsciiLetters(s: string)
    requires forall k :: 0 <= k < |s| ==> 'a' <= s[k] <= 'z' || 'A' <= s[k] <= 'Z'
    ensures |ToUpper(s)| == |s|
    ensures forall k :: 0 <= k < |s| ==>
              ToUpper(s)[k] == if 'a' <= s[k] <= 'z' then (s[k] as int - 32) as char else s[k]
  {
    if s != [] {
      ToUpperOfAsciiLetters(s[1..]);
      assert ToUpper(s) == ToUpperChar(s[0]) + ToUpper(s[1..]);
      forall k | 1 <= k < |s|
        ensures ToUpper(s)[k] == if 'a' <= s[k] <= 'z' then (s[k] as int - 32) as char else s[k]
      {
        assert ToUpper(s)[k] == ToUpper(s[1..])[k - 1];
        assert s[1..][k - 1] == s[k];
      }
    }
  }

  /** `String#toLowerCase`. */
  function ToLower(s: string): string {
    seq(|s|, k requires 0 <= k < |s| => ToLowerChar(s[k]))
  }

  /** Lower-casing keeps the length, leaves no Latin-1 capital behind,
      changes exactly the capitals (each to the small letter 32 code points
      up), and lower-casing again changes nothing. */
  lemma LowerCaseSpec(s: string)
    ensures |ToLower(s)| == |s|
    ensures forall k :: 0 <= k < |s| ==> !IsLatinCapital(ToLower(s)[k])
    ensures forall k :: 0 <= k < |s| ==> (ToLower(s)[k] == s[k] <==> !IsLatinCapital(s[k]))
    ensures forall k :: 0 <= k < |s| && IsLatinCapital(s[k]) ==> ToLower(s)[k] as int == s[k] as int + 32
    ensures ToLower(ToLower(s)) == ToLower(s)
  {
    var r := ToLower(s);
    forall k | 0 <= k < |s| ensures !IsLatinCapital(r[k]) {
      assert r[k] == ToLowerChar(s[k]);
    }
    assert |ToLower(r)| == |r|;
    forall k | 0 <= k < |r| ensures ToLower(r)[k] == r[k] {
      assert ToLower(r)[k] == ToLowerChar(r[k]);
    }
  }
}
