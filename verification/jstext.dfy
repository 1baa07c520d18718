/** The pieces of JavaScript string and number semantics the order API depends on:
    `String.prototype.length` (UTF-16 code units), `parseInt` with no radix,
    `String.prototype.split` on a single character, and the decimal rendering of
    identifiers. */
module JsText {
  import opened Common

  /** Code units a character occupies in a JavaScript (UTF-16) string. */
  function Utf16Units(c: char): nat {
    if c as int > 0xFFFF then 2 else 1
  }

  /** `s.length` in JavaScript: characters outside the Basic Multilingual Plane count twice. */
  function Utf16Length(s: string): (n: nat)
    ensures |s| <= n <= 2 * |s|
  {
    if |s| == 0 then 0 else Utf16Length(s[..|s| - 1]) + Utf16Units(s[|s| - 1])
  }

  /** A minimum-length check of one unit is exactly non-emptiness. */
  lemma Utf16NonEmpty(s: string)
    ensures Utf16Length(s) >= 1 <==> |s| >= 1
  {
  }

  // ---------------------------------------------------------------------------
  // Decimal rendering of identifiers (`_id.toString()`) and parseInt

  function DigitChar(d: nat): (c: char)
    requires d < 10
    ensures '0' <= c <= '9'
  {
    ('0' as int + d) as char
  }

  /** The value of an alphanumeric character as a digit in radix up to 36; 36 for anything else. */
  function DigitOf(c: char): (d: nat)
    ensures d <= 36
  {
    if '0' <= c <= '9' then c as int - '0' as int
    else if 'a' <= c <= 'z' then c as int - 'a' as int + 10
    else if 'A' <= c <= 'Z' then c as int - 'A' as int + 10
    else 36
  }

  predicate IsRadixDigit(c: char, radix: nat) {
    DigitOf(c) < radix
  }

  /** Decimal rendering of a natural number, without leading zeros. */
  function NatToString(n: nat): (s: string)
    ensures |s| >= 1
    ensures forall i :: 0 <= i < |s| ==> '0' <= s[i] <= '9'
    ensures s[0] == '0' <==> n == 0
    ensures n == 0 ==> s == "0"
  {
    if n < 10 then [DigitChar(n)] else NatToString(n / 10) + [DigitChar(n % 10)]
  }

  /** The number denoted by a string of radix digits, most significant first. */
  function DigitsValue(s: string, radix: nat): nat {
    if |s| == 0 then 0
    else DigitsValue(s[..|s| - 1], radix) * radix + DigitOf(s[|s| - 1])
  }

  /** The longest prefix of `s` made of digits of the radix. */
  function DigitPrefix(s: string, radix: nat): (d: string)
    ensures |d| <= |s| && d == s[..|d|]
    ensures forall i :: 0 <= i < |d| ==> IsRadixDigit(d[i], radix)
    ensures |d| < |s| ==> !IsRadixDigit(s[|d|], radix)
  {
    if |s| == 0 || !IsRadixDigit(s[0], radix) then []
    else [s[0]] + DigitPrefix(s[1..], radix)
  }

  /** WhiteSpace and LineTerminator code points of ECMAScript, which `parseInt` skips. */
  predicate IsJsSpace(c: char) {
    || c == '\t' || c == '\n' || c == '\U{000B}' || c == '\U{000C}' || c == '\r'
    || c == ' ' || c == '\U{00A0}' || c == '\U{1680}'
    || ('\U{2000}' <= c <= '\U{200A}')
    || c == '\U{2028}' || c == '\U{2029}' || c == '\U{202F}' || c == '\U{205F}'
    || c == '\U{3000}' || c == '\U{FEFF}'
  }

  function TrimStart(s: string): (t: string)
    ensures |t| <= |s| && t == s[|s| - |t|..]
    ensures |t| > 0 ==> !IsJsSpace(t[0])
    ensures |s| > 0 && !IsJsSpace(s[0]) ==> t == s
  {
    if |s| > 0 && IsJsSpace(s[0]) then TrimStart(s[1..]) else s
  }

  /** `parseInt(s)` with no radix argument; `None` stands for NaN. Leading white space
      and one sign are skipped, a `0x`/`0X` prefix selects radix 16, and the longest run
      of digits that follows is read; no digits at all gives NaN. */
  function ParseInt(s: string): Option<int> {
    var t := TrimStart(s);
    var negative := |t| > 0 && t[0] == '-';
    var u := if |t| > 0 && (t[0] == '-' || t[0] == '+') then t[1..] else t;
    var hex := |u| >= 2 && u[0] == '0' && (u[1] == 'x' || u[1] == 'X');
    var radix := if hex then 16 else 10;
    var w := if hex then u[2..] else u;
    var digits := DigitPrefix(w, radix);
    var magnitude: int := DigitsValue(digits, radix);
    if |digits| == 0 then None
    else Some(if negative then -magnitude else magnitude)
  }

  /** `parseInt(q) || fallback`: NaN and zero (including -0) are falsy and give the
      fallback; any other parsed number, negative ones included, is kept. */
  function NumberOrDefault(q: Option<string>, fallback: int): (n: int)
    ensures fallback != 0 ==> n != 0
    ensures q.None? ==> n == fallback
    ensures n != fallback ==> q.Some? && ParseInt(q.value) == Some(n)
    ensures q.Some? && ParseInt(q.value).Some? && ParseInt(q.value).value != 0 ==>
              n == ParseInt(q.value).value
  {
    var parsed := if q.None? then None else ParseInt(q.value);
    if parsed.None? || parsed.value == 0 then fallback else parsed.value
  }

  lemma {:induction false} DigitsValueOfNatToString(n: nat)
    ensures DigitsValue(NatToString(n), 10) == n
    decreases n
  {
    var s := NatToString(n);
    if n < 10 {
      assert s[..0] == [];
    } else {
      DigitsValueOfNatToString(n / 10);
      assert s[..|s| - 1] == NatToString(n / 10);
    }
  }

  lemma DigitPrefixOfDigits(s: string, radix: nat)
    requires forall i :: 0 <= i < |s| ==> IsRadixDigit(s[i], radix)
    ensures DigitPrefix(s, radix) == s
  {
  }

  /** `parseInt` reads back the decimal rendering of every natural number. */
  lemma ParseIntOfNatToString(n: nat)
    ensures ParseInt(NatToString(n)) == Some(n)
  {
    var s := NatToString(n);
    assert TrimStart(s) == s;
    DigitPrefixOfDigits(s, 10);
    DigitsValueOfNatToString(n);
  }

  /** A query parameter holding a positive decimal number is taken as given. */
  lemma NumberOrDefaultOfPositive(n: nat, fallback: int)
    requires n > 0
    ensures NumberOrDefault(Some(NatToString(n)), fallback) == n
  {
    ParseIntOfNatToString(n);
  }

  // ---------------------------------------------------------------------------
  // String.prototype.split on one separator character

  function Count(s: string, c: char): nat {
    if |s| == 0 then 0 else (if s[0] == c then 1 else 0) + Count(s[1..], c)
  }

  /** `s.split(sep)` for a one-character separator: every occurrence cuts, so adjacent
      separators yield empty parts and the empty string yields one empty part. */
  function Split(s: string, sep: char): (parts: seq<string>)
    ensures |parts| == Count(s, sep) + 1
    ensures forall i :: 0 <= i < |parts| ==> sep !in parts[i]
  {
    if |s| == 0 then [""]
    else
      var rest := Split(s[1..], sep);
      if s[0] == sep then [""] + rest
      else [[s[0]] + rest[0]] + rest[1..]
  }

  /** `parts.join(sep)`. */
  function Join(parts: seq<string>, sep: char): string
    requires |parts| >= 1
  {
    if |parts| == 1 then parts[0] else parts[0] + [sep] + Join(parts[1..], sep)
  }

  /** Joining the parts with the separator gives back the original string. */
  lemma {:induction false} JoinSplit(s: string, sep: char)
    ensures Join(Split(s, sep), sep) == s
  {
    if |s| > 0 {
      var rest := Split(s[1..], sep);
      JoinSplit(s[1..], sep);
      if s[0] == sep {
        assert ([""] + rest)[1..] == rest;
      } else {
        var parts := [[s[0]] + rest[0]] + rest[1..];
        if |rest| == 1 {
          assert parts == [[s[0]] + rest[0]];
        } else {
          assert parts[1..] == rest[1..];
          assert Join(rest, sep) == rest[0] + [sep] + Join(rest[1..], sep);
        }
      }
    }
  }

  lemma {:induction false} SplitWithoutSeparator(s: string, sep: char)
    requires sep !in s
    ensures Split(s, sep) == [s]
  {
    if |s| > 0 {
      SplitWithoutSeparator(s[1..], sep);
      assert [s[0]] + s[1..] == s;
    }
  }

  /** Two separator-free words around one separator split into exactly those words. */
  lemma {:induction false} SplitAround(a: string, b: string, sep: char)
    requires sep !in a && sep !in b
    ensures Split(a + [sep] + b, sep) == [a, b]
  {
    var s := a + [sep] + b;
    if |a| == 0 {
      assert s == [sep] + b;
      assert s[1..] == b;
      SplitWithoutSeparator(b, sep);
    } else {
      assert s[1..] == a[1..] + [sep] + b;
      SplitAround(a[1..], b, sep);
      assert [a[0]] + a[1..] == a;
    }
  }

  /** A split into two parts is exactly a cut at the only separator. */
  lemma SplitTwoParts(s: string, sep: char)
    requires |Split(s, sep)| == 2
    ensures s == Split(s, sep)[0] + [sep] + Split(s, sep)[1]
  {
    var parts := Split(s, sep);
    JoinSplit(s, sep);
    assert Join(parts[1..], sep) == parts[1];
  }

  // ---------------------------------------------------------------------------
  // Case-insensitive comparison as a regular expression with the `i` flag does it

  /** ASCII lower-casing. A regular expression without the `u` flag never folds a
      non-ASCII character onto an ASCII one, so for an all-ASCII pattern this is the
      whole of case-insensitive matching. */
  function AsciiLower(c: char): (l: char)
    ensures 'A' <= c <= 'Z' ==> l as int == c as int + 32
    ensures !('A' <= c <= 'Z') ==> l == c
  {
    if 'A' <= c <= 'Z' then (c as int + 32) as char else c
  }

  /** Distinct numbers render as distinct strings. */
  lemma NatToStringInjective(n: nat)
    ensures forall m: nat :: NatToString(m) == NatToString(n) ==> m == n
  {
    forall m: nat | NatToString(m) == NatToString(n)
      ensures m == n
    {
      ParseIntOfNatToString(m);
      ParseIntOfNatToString(n);
    }
  }
}
