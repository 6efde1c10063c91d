/** The pieces of JavaScript's string semantics that the flight-log code relies on:
    decimal digits, `String(n)` for integers, `padStart`, `split` on one separator and
    the white space that `Number()` and `parseInt` skip. Strings are sequences of
    Unicode scalar values. */
module JsStrings {

  predicate IsDigit(c: char) {
    '0' <= c <= '9'
  }

  function DigitValue(c: char): (d: nat)
    requires IsDigit(c)
    ensures d < 10
  {
    c as int - '0' as int
  }

  function DigitChar(d: nat): (c: char)
    requires d < 10
    ensures IsDigit(c) && DigitValue(c) == d
  {
    ('0' as int + d) as char
  }

  predicate AllDigits(s: string) {
    forall i | 0 <= i < |s| :: IsDigit(s[i])
  }

  /** The value of a string of decimal digits, leading zeros allowed ("" is 0). */
  function DecimalValue(s: string): nat
    requires AllDigits(s)
    decreases |s|
  {
    if s == [] then 0 else DecimalValue(s[..|s| - 1]) * 10 + DigitValue(s[|s| - 1])
  }

  /** A digit string with no superfluous leading zero. */
  predicate Canonical(s: string) {
    1 <= |s| && AllDigits(s) && (s[0] == '0' ==> |s| == 1)
  }

  /** `String(n)` for a non-negative integer. */
  function NatToDecimal(n: nat): (s: string)
    ensures Canonical(s)
    ensures n < 10 <==> |s| == 1
    decreases n
  {
    if n < 10 then [DigitChar(n)] else NatToDecimal(n / 10) + [DigitChar(n % 10)]
  }

  /** `String(n)` (and `String(big)` for a BigInt) for any integer. */
  function IntToString(n: int): string {
    if n < 0 then "-" + NatToDecimal(-n) else NatToDecimal(n)
  }

  lemma {:induction false} DecimalRoundTrip(n: nat)
    ensures DecimalValue(NatToDecimal(n)) == n
    decreases n
  {
    if n >= 10 {
      var s := NatToDecimal(n);
      assert s[..|s| - 1] == NatToDecimal(n / 10);
      DecimalRoundTrip(n / 10);
    }
  }

  lemma {:induction false} LeadingDigitBound(s: string)
    requires AllDigits(s) && |s| >= 1
    ensures DecimalValue(s) >= DigitValue(s[0])
    decreases |s|
  {
    if |s| > 1 {
      LeadingDigitBound(s[..|s| - 1]);
    }
  }

  /** The other direction: a canonical digit string is `String` of its own value. */
  lemma {:induction false} CanonicalRoundTrip(s: string)
    requires Canonical(s)
    ensures NatToDecimal(DecimalValue(s)) == s
    decreases |s|
  {
    if |s| > 1 {
      var init := s[..|s| - 1];
      assert Canonical(init);
      LeadingDigitBound(init);
      CanonicalRoundTrip(init);
      assert s == init + [s[|s| - 1]];
    }
  }

  /** A digit string followed by digits only: its value with leading zeros is the same. */
  lemma {:induction false} LeadingZerosIgnored(zeros: string, s: string)
    requires AllDigits(s) && forall i | 0 <= i < |zeros| :: zeros[i] == '0'
    ensures AllDigits(zeros + s) && DecimalValue(zeros + s) == DecimalValue(s)
    decreases |s|
  {
    var t := zeros + s;
    assert AllDigits(t);
    if s == [] {
      ZerosValue(zeros);
      assert t == zeros;
    } else {
      assert t[..|t| - 1] == zeros + s[..|s| - 1];
      LeadingZerosIgnored(zeros, s[..|s| - 1]);
    }
  }

  lemma {:induction false} ZerosValue(zeros: string)
    requires forall i | 0 <= i < |zeros| :: zeros[i] == '0'
    ensures AllDigits(zeros) && DecimalValue(zeros) == 0
    decreases |zeros|
  {
    if zeros != [] {
      ZerosValue(zeros[..|zeros| - 1]);
    }
  }

  function Repeat(c: char, n: nat): (s: string)
    ensures |s| == n && forall i | 0 <= i < n :: s[i] == c
  {
    if n == 0 then [] else [c] + Repeat(c, n - 1)
  }

  /** `s.padStart(width, [fill])`. */
  function PadStart(s: string, width: nat, fill: char): (r: string)
    ensures |r| == if |s| >= width then |s| else width
    ensures r[|r| - |s|..] == s
    ensures forall i | 0 <= i < |r| - |s| :: r[i] == fill
  {
    if |s| >= width then s else Repeat(fill, width - |s|) + s
  }

  /** `s.split(sep)` for a one-character separator. */
  function Split(s: string, sep: char): (parts: seq<string>)
    ensures |parts| >= 1
    decreases |s|
  {
    if s == [] then [""]
    else if s[0] == sep then [""] + Split(s[1..], sep)
    else
      var rest := Split(s[1..], sep);
      [[s[0]] + rest[0]] + rest[1..]
  }

  /** `parts.join(sep)`, the inverse of `Split`. */
  function Join(parts: seq<string>, sep: char): string
    decreases |parts|
  {
    if parts == [] then ""
    else if |parts| == 1 then parts[0]
    else parts[0] + [sep] + Join(parts[1..], sep)
  }

  lemma {:induction false} SplitParts(s: string, sep: char)
    ensures Join(Split(s, sep), sep) == s
    ensures forall k | 0 <= k < |Split(s, sep)| :: sep !in Split(s, sep)[k]
    decreases |s|
  {
    if s != [] {
      SplitParts(s[1..], sep);
      var rest := Split(s[1..], sep);
      if s[0] == sep {
        assert s == [sep] + s[1..];
      } else {
        var parts := Split(s, sep);
        assert parts[1..] == rest[1..];
        if |rest| == 1 {
          assert s == [s[0]] + rest[0];
        } else {
          assert Join(rest, sep) == rest[0] + [sep] + Join(rest[1..], sep);
          assert s == [s[0]] + rest[0] + [sep] + Join(rest[1..], sep);
        }
        forall k | 0 <= k < |parts|
          ensures sep !in parts[k]
        {
          if k > 0 {
            assert parts[k] == rest[k];
          }
        }
      }
    }
  }

  /** The other direction: splitting pieces joined by a separator they avoid gives them back. */
  lemma {:induction false} JoinSplit(parts: seq<string>, sep: char)
    requires |parts| >= 1
    requires forall k | 0 <= k < |parts| :: sep !in parts[k]
    ensures Split(Join(parts, sep), sep) == parts
    decreases |parts|
  {
    if |parts| == 1 {
      NoSeparator(parts[0], sep);
    } else {
      JoinSplit(parts[1..], sep);
      var tail := Join(parts[1..], sep);
      SplitAfterSeparator(parts[0], sep, tail);
      assert [parts[0]] + parts[1..] == parts;
    }
  }

  lemma {:induction false} NoSeparator(s: string, sep: char)
    requires sep !in s
    ensures Split(s, sep) == [s]
    decreases |s|
  {
    if s != [] {
      NoSeparator(s[1..], sep);
      assert s == [s[0]] + s[1..];
    }
  }

  /** Splitting `a + [sep] + b` when `a` has no separator. */
  lemma {:induction false} SplitAfterSeparator(a: string, sep: char, b: string)
    requires sep !in a
    ensures Split(a + [sep] + b, sep) == [a] + Split(b, sep)
    decreases |a|
  {
    if a == [] {
      assert a + [sep] + b == [sep] + b;
      assert ([sep] + b)[1..] == b;
    } else {
      SplitAfterSeparator(a[1..], sep, b);
      assert (a + [sep] + b)[1..] == a[1..] + [sep] + b;
      assert [a[0]] + a[1..] == a;
    }
  }

  /** Splitting a concatenation whose second half opens with the separator. */
  lemma {:induction false} SplitConcat(a: string, b: string, sep: char)
    requires b != [] && b[0] == sep
    ensures Split(a + b, sep) == Split(a, sep) + Split(b[1..], sep)
    decreases |a|
  {
    if a == [] {
      assert a + b == b;
      assert b == [sep] + b[1..];
    } else {
      var rest, tail := Split(a[1..], sep), Split(b[1..], sep);
      SplitConcat(a[1..], b, sep);
      SplitOfLonger(a, b, sep);
      if a[0] == sep {
        assert Split(a, sep) == [""] + rest;
        assert Split(a + b, sep) == [""] + (rest + tail);
      } else {
        assert Split(a, sep) == [[a[0]] + rest[0]] + rest[1..];
        FirstPartExtended(a[0], rest, tail);
      }
    }
  }

  /** One step of `Split` on `a + b` for a non-empty `a`. */
  lemma SplitOfLonger(a: string, b: string, sep: char)
    requires a != []
    ensures a[0] == sep ==> Split(a + b, sep) == [""] + Split(a[1..] + b, sep)
    ensures a[0] != sep ==>
      Split(a + b, sep) == [[a[0]] + Split(a[1..] + b, sep)[0]] + Split(a[1..] + b, sep)[1..]
  {
    assert (a + b)[0] == a[0];
    assert (a + b)[1..] == a[1..] + b;
  }

  /** Prefixing a character to the first part commutes with appending later parts. */
  lemma FirstPartExtended(c: char, rest: seq<string>, tail: seq<string>)
    requires rest != []
    ensures [[c] + (rest + tail)[0]] + (rest + tail)[1..] == [[c] + rest[0]] + rest[1..] + tail
  {
    assert (rest + tail)[0] == rest[0];
    assert (rest + tail)[1..] == rest[1..] + tail;
  }

  /** The characters `Number()` and `parseInt` skip: ECMAScript's WhiteSpace
      (tab, vertical tab, form feed, BOM and the space separators) and LineTerminator. */
  predicate IsJsWhitespace(c: char) {
    || c == '\U{0009}' || c == '\U{000B}' || c == '\U{000C}' || c == '\U{FEFF}'
    || c == '\U{0020}' || c == '\U{00A0}' || c == '\U{1680}'
    || ('\U{2000}' <= c <= '\U{200A}') || c == '\U{202F}' || c == '\U{205F}' || c == '\U{3000}'
    || c == '\U{000A}' || c == '\U{000D}' || c == '\U{2028}' || c == '\U{2029}'
  }

  function TrimStart(s: string): (r: string)
    ensures |r| <= |s| && r == s[|s| - |r|..]
    ensures r == [] || !IsJsWhitespace(r[0])
    decreases |s|
  {
    if s != [] && IsJsWhitespace(s[0]) then TrimStart(s[1..]) else s
  }

  function TrimEnd(s: string): (r: string)
    ensures |r| <= |s| && r == s[..|r|]
    ensures r == [] || !IsJsWhitespace(r[|r| - 1])
    decreases |s|
  {
    if s != [] && IsJsWhitespace(s[|s| - 1]) then TrimEnd(s[..|s| - 1]) else s
  }

  /** `s.trim()`. */
  function Trim(s: string): string {
    TrimEnd(TrimStart(s))
  }

  lemma TrimDigits(s: string)
    requires AllDigits(s)
    ensures Trim(s) == s
  {
    if s != [] {
      assert IsDigit(s[0]) && IsDigit(s[|s| - 1]);
      assert !IsJsWhitespace(s[0]) && !IsJsWhitespace(s[|s| - 1]);
      assert TrimStart(s) == s;
    }
  }
}
