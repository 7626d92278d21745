/**
 * ASCII byte-string helpers used by the connection, request and client code:
 * case-insensitive comparison, hex digits, percent decoding and the decimal /
 * hexadecimal text of integers.  Byte arrays are modelled as strings whose
 * characters stand for bytes.
 */
module Bytes {

  datatype Option<T> = None | Some(value: T)

  const CRLF: string := "\r\n"

  /** A (name, value) pair, as used for request and response headers. */
  datatype Header = Header(name: string, value: string)

  // ---------------------------------------------------------------------
  // Case-insensitive comparison
  // ---------------------------------------------------------------------

  predicate IsUpper(c: char) { 'A' <= c <= 'Z' }

  function ToLower(c: char): char
  {
    if IsUpper(c) then (c as int + 32) as char else c
  }

  function Lower(s: string): (r: string)
    ensures |r| == |s|
    ensures forall i :: 0 <= i < |s| ==> r[i] == ToLower(s[i])
  {
    if s == [] then [] else [ToLower(s[0])] + Lower(s[1..])
  }

  /** asciiEqualsCaseInsensitive: equal length and equal letters up to ASCII case. */
  function AsciiEqualsCI(a: string, b: string): (r: bool)
    ensures r <==> |a| == |b| && forall i :: 0 <= i < |a| ==> ToLower(a[i]) == ToLower(b[i])
  {
    if |a| != |b| then false
    else if a == [] then true
    else
      var rest := AsciiEqualsCI(a[1..], b[1..]);
      assert forall i :: 1 <= i < |a| ==> a[1..][i - 1] == a[i] && b[1..][i - 1] == b[i];
      ToLower(a[0]) == ToLower(b[0]) && rest
  }

  /** Case-insensitive equality is equality of the lower-cased texts. */
  lemma AsciiEqualsCIIsLowerEquality(a: string, b: string)
    ensures AsciiEqualsCI(a, b) <==> Lower(a) == Lower(b)
  {
    if Lower(a) == Lower(b) {
      assert |a| == |b|;
      forall i | 0 <= i < |a| ensures ToLower(a[i]) == ToLower(b[i]) {
        assert Lower(a)[i] == Lower(b)[i];
      }
    }
  }

  /** Case-insensitive equality is an equivalence relation. */
  lemma AsciiEqualsCIEquivalence(a: string, b: string, c: string)
    ensures AsciiEqualsCI(a, a)
    ensures AsciiEqualsCI(a, b) ==> AsciiEqualsCI(b, a)
    ensures AsciiEqualsCI(a, b) && AsciiEqualsCI(b, c) ==> AsciiEqualsCI(a, c)
  {
  }

  /**
   * qstrnicmp(s, prefix, |prefix|) == 0: the first |prefix| bytes of the
   * NUL-terminated s equal prefix up to case (a shorter s hits its NUL first).
   */
  predicate StartsWithCI(s: string, prefix: string)
  {
    |s| >= |prefix| && AsciiEqualsCI(s[..|prefix|], prefix)
  }

  // ---------------------------------------------------------------------
  // Hex digits and percent decoding
  // ---------------------------------------------------------------------

  predicate IsDecimalDigit(c: char) { '0' <= c <= '9' }

  predicate IsHexDigit(c: char) { IsDecimalDigit(c) || 'a' <= c <= 'f' || 'A' <= c <= 'F' }

  /** unhex: the value of a hex digit of either case, 0 for anything else. */
  function Unhex(c: char): (r: nat)
    ensures r < 16
    ensures !IsHexDigit(c) ==> r == 0
    ensures IsDecimalDigit(c) ==> r == c as int - '0' as int
    ensures 'a' <= c <= 'f' ==> r == c as int - 'a' as int + 10
    ensures 'A' <= c <= 'F' ==> r == c as int - 'A' as int + 10
  {
    if IsDecimalDigit(c) then c as int - '0' as int
    else if 'a' <= c <= 'f' then c as int - 'a' as int + 10
    else if 'A' <= c <= 'F' then c as int - 'A' as int + 10
    else 0
  }

  /** The lower-case digit character of d in bases up to 16. */
  function Digit(d: nat): (c: char)
    requires d < 16
  {
    if d < 10 then (d + '0' as int) as char else (d - 10 + 'a' as int) as char
  }

  lemma UnhexDigit(d: nat)
    requires d < 16
    ensures IsHexDigit(Digit(d)) && Unhex(Digit(d)) == d
    ensures d < 10 <==> IsDecimalDigit(Digit(d))
  {
  }

  /**
   * percentDecode: "%XY" becomes the byte 16 * unhex(X) + unhex(Y) whenever
   * two characters follow the '%'; every other character is copied.
   */
  function PercentDecode(s: string): (r: string)
    ensures |r| <= |s|
    decreases |s|
  {
    if s == [] then []
    else if s[0] == '%' && |s| >= 3 then
      [(16 * Unhex(s[1]) + Unhex(s[2])) as char] + PercentDecode(s[3..])
    else [s[0]] + PercentDecode(s[1..])
  }

  /** Characters the encoder escapes: the query delimiters and the escape itself. */
  predicate Reserved(c: char) { c == '%' || c == '&' || c == '=' || c == '#' || c == ' ' }

  /** Escapes every reserved character as "%XY" (lower-case hex). */
  function PercentEncode(s: string): (r: string)
    ensures |r| >= |s|
  {
    if s == [] then []
    else
      var c := s[0];
      (if Reserved(c) then ['%', Digit(c as int / 16), Digit(c as int % 16)] else [c])
      + PercentEncode(s[1..])
  }

  /** Decoding undoes encoding, whatever the text. */
  lemma {:induction false} PercentDecodeEncode(s: string)
    ensures PercentDecode(PercentEncode(s)) == s
  {
    if s != [] {
      var c := s[0];
      var tail := PercentEncode(s[1..]);
      PercentDecodeEncode(s[1..]);
      if Reserved(c) {
        var e := ['%', Digit(c as int / 16), Digit(c as int % 16)] + tail;
        UnhexDigit(c as int / 16);
        UnhexDigit(c as int % 16);
        assert e[3..] == tail;
        assert PercentDecode(e) == [(16 * Unhex(e[1]) + Unhex(e[2])) as char] + PercentDecode(tail);
      } else {
        assert ([c] + tail)[1..] == tail;
      }
    }
  }

  /** The encoded text holds no query delimiter: every '&', '=', '#' and ' ' was escaped. */
  lemma {:induction false} PercentEncodeEscapes(s: string)
    ensures forall i :: 0 <= i < |PercentEncode(s)| ==> !Reserved(PercentEncode(s)[i]) || PercentEncode(s)[i] == '%'
  {
    if s != [] {
      var c := s[0];
      PercentEncodeEscapes(s[1..]);
      if Reserved(c) {
        UnhexDigit(c as int / 16);
        UnhexDigit(c as int % 16);
      }
    }
  }

  /** Text without '%' is left unchanged by decoding. */
  lemma {:induction false} PercentDecodeIdentity(s: string)
    requires forall i :: 0 <= i < |s| ==> s[i] != '%'
    ensures PercentDecode(s) == s
  {
    if s != [] {
      PercentDecodeIdentity(s[1..]);
    }
  }

  // ---------------------------------------------------------------------
  // Number text: appendNumber and toInt / toLongLong
  // ---------------------------------------------------------------------

  /** The two bases appendNumber is instantiated with. */
  predicate IsBase(base: nat) { base == 10 || base == 16 }

  function Quot(n: nat, base: nat): (q: nat)
    requires IsBase(base)
    ensures n >= base ==> 0 < q < n
    ensures n == q * base + Rem(n, base)
  {
    if base == 10 then n / 10 else n / 16
  }

  function Rem(n: nat, base: nat): (d: nat)
    requires IsBase(base)
    ensures d < base
  {
    if base == 10 then n % 10 else n % 16
  }

  /** The digits of n in the given base, most significant first, no leading zeros. */
  function NatText(n: nat, base: nat): (r: string)
    requires IsBase(base)
    ensures |r| >= 1
    ensures n > 0 ==> r[0] != '0'
    decreases n
  {
    if n < base then [Digit(n)]
    else NatText(Quot(n, base), base) + [Digit(Rem(n, base))]
  }

  /** Decimal text of a signed number: a '-' before the digits of its magnitude. */
  function DecimalText(n: int): string
  {
    if n < 0 then "-" + NatText(-n, 10) else NatText(n, 10)
  }

  /** Lower-case hexadecimal text, as used for chunk sizes. */
  function HexText(n: nat): string
  {
    NatText(n, 16)
  }

  /** The value of a digit string read in the given base. */
  function DigitsValue(s: string, base: nat): nat
    requires IsBase(base)
  {
    if s == [] then 0 else DigitsValue(s[..|s| - 1], base) * base + Unhex(s[|s| - 1])
  }

  predicate AllDecimal(s: string)
  {
    forall i :: 0 <= i < |s| ==> IsDecimalDigit(s[i])
  }

  /** Reading the digits back gives the number. */
  lemma {:induction false} NatTextValue(n: nat, base: nat)
    requires IsBase(base)
    ensures DigitsValue(NatText(n, base), base) == n
    ensures base == 10 ==> AllDecimal(NatText(n, base))
    ensures forall i :: 0 <= i < |NatText(n, base)| ==> IsHexDigit(NatText(n, base)[i])
    decreases n
  {
    if n >= base {
      var q := Quot(n, base);
      UnhexDigit(Rem(n, base));
      NatTextValue(q, base);
      var t := NatText(n, base);
      assert t == NatText(q, base) + [Digit(Rem(n, base))];
      assert t[..|t| - 1] == NatText(q, base);
      assert DigitsValue(t, base) == n;
    } else {
      UnhexDigit(n);
    }
  }

  /**
   * A signed decimal number: an optional '+' or '-' followed by one or more
   * digits (the integer form accepted by QByteArray::toInt / toLongLong).
   */
  function ParseDecimal(s: string): (r: Option<int>)
    ensures r.Some? ==> |s| >= 1
  {
    if s == [] then None
    else if s[0] == '-' || s[0] == '+' then
      var digits := s[1..];
      if digits != [] && AllDecimal(digits) then
        var magnitude: int := DigitsValue(digits, 10);
        Some(if s[0] == '-' then -magnitude else magnitude)
      else None
    else if AllDecimal(s) then Some(DigitsValue(s, 10))
    else None
  }

  /** Parsing the decimal text of any integer gives it back. */
  lemma ParseDecimalText(n: int)
    ensures ParseDecimal(DecimalText(n)) == Some(n)
  {
    if n < 0 {
      NatTextValue(-n, 10);
      assert DecimalText(n)[1..] == NatText(-n, 10);
    } else {
      NatTextValue(n, 10);
    }
  }

  /** Every parsed text is made of a sign and digits, so no other text parses. */
  lemma ParseDecimalRejectsNonDigits(s: string, i: nat)
    requires 0 < i < |s| && !IsDecimalDigit(s[i])
    ensures ParseDecimal(s) == None
  {
    if s[0] == '-' || s[0] == '+' {
      assert !IsDecimalDigit(s[1..][i - 1]);
    }
  }

  const Int32Min: int := -0x8000_0000
  const Int32Max: int := 0x7fff_ffff
  const Int64Min: int := -0x8000_0000_0000_0000
  const Int64Max: int := 0x7fff_ffff_ffff_ffff

  /** The C library's isspace in the "C" locale. */
  predicate IsSpace(c: char)
  {
    c == ' ' || c == '\t' || c == '\n' || c == '\U{000B}' || c == '\U{000C}' || c == '\r'
  }

  /** qstrtoll's first step: the whitespace before the number is skipped. */
  function SkipSpace(s: string): (r: string)
    ensures |r| <= |s| && r == s[|s| - |r|..]
    ensures forall i :: 0 <= i < |s| - |r| ==> IsSpace(s[i])
    ensures r != [] ==> !IsSpace(r[0])
  {
    if s != [] && IsSpace(s[0]) then SkipSpace(s[1..]) else s
  }

  /** QByteArray::toInt(&ok): the number after any leading whitespace, when it fits in 32 bits. */
  function ToInt(s: string): (r: Option<int>)
    ensures r.Some? <==> ParseDecimal(SkipSpace(s)).Some? && Int32Min <= ParseDecimal(SkipSpace(s)).value <= Int32Max
    ensures r.Some? ==> r.value == ParseDecimal(SkipSpace(s)).value
  {
    match ParseDecimal(SkipSpace(s))
    case Some(v) => if Int32Min <= v <= Int32Max then Some(v) else None
    case None => None
  }

  /** QByteArray::toLongLong(&ok): the number after any leading whitespace, when it fits in 64 bits. */
  function ToLongLong(s: string): (r: Option<int>)
    ensures r.Some? <==> ParseDecimal(SkipSpace(s)).Some? && Int64Min <= ParseDecimal(SkipSpace(s)).value <= Int64Max
    ensures r.Some? ==> r.value == ParseDecimal(SkipSpace(s)).value
  {
    match ParseDecimal(SkipSpace(s))
    case Some(v) => if Int64Min <= v <= Int64Max then Some(v) else None
    case None => None
  }

  /** A decimal text starts with a sign or a digit, never with whitespace. */
  lemma DecimalTextStart(n: int)
    ensures DecimalText(n) != [] && !IsSpace(DecimalText(n)[0])
  {
    if n >= 0 {
      NatTextValue(n, 10);
      assert IsDecimalDigit(NatText(n, 10)[0]);
    }
  }

  /** Whitespace in front of a decimal text is skipped down to its first character. */
  lemma {:induction false} SkipSpaceDecimal(w: string, n: int)
    requires forall i :: 0 <= i < |w| ==> IsSpace(w[i])
    ensures SkipSpace(w + DecimalText(n)) == DecimalText(n)
    decreases |w|
  {
    var t := DecimalText(n);
    DecimalTextStart(n);
    if w != [] {
      assert (w + t)[1..] == w[1..] + t;
      SkipSpaceDecimal(w[1..], n);
    }
  }

  /** A 64-bit number with whitespace before it reads back, as " 5".toLongLong(&ok) gives 5. */
  lemma ToLongLongSkipsSpace(w: string, n: int)
    requires forall i :: 0 <= i < |w| ==> IsSpace(w[i])
    requires Int64Min <= n <= Int64Max
    ensures ToLongLong(w + DecimalText(n)) == Some(n)
  {
    SkipSpaceDecimal(w, n);
    ParseDecimalText(n);
  }

  /** The same for a 32-bit number and toInt. */
  lemma ToIntSkipsSpace(w: string, n: int)
    requires forall i :: 0 <= i < |w| ==> IsSpace(w[i])
    requires Int32Min <= n <= Int32Max
    ensures ToInt(w + DecimalText(n)) == Some(n)
  {
    SkipSpaceDecimal(w, n);
    ParseDecimalText(n);
  }

  /** Reads back a chunk-size field written by HexText. */
  function ParseHex(s: string): (r: Option<nat>)
    ensures r.Some? ==> |s| >= 1
  {
    if s != [] && forall i :: 0 <= i < |s| ==> IsHexDigit(s[i]) then Some(DigitsValue(s, 16)) else None
  }

  lemma ParseHexText(n: nat)
    ensures ParseHex(HexText(n)) == Some(n)
  {
    NatTextValue(n, 16);
  }

  /** Truncation of a 64-bit value to a 32-bit two's-complement int. */
  function TruncateToInt32(n: int): (r: int)
    ensures Int32Min <= r <= Int32Max
    ensures (r - n) % 0x1_0000_0000 == 0
  {
    var m := n % 0x1_0000_0000;
    if m > Int32Max then m - 0x1_0000_0000 else m
  }

  lemma TruncateToInt32Identity(n: int)
    requires Int32Min <= n <= Int32Max
    ensures TruncateToInt32(n) == n
  {
  }
}
