/**
 * The JavaScript string operations the handlers rely on: `trim`,
 * `startsWith`, the `split(sep)[1]` token extraction, `parseInt`, and the
 * code-point order in which the store sorts strings.
 */
module JsString {
  import opened Optional

  /** ECMAScript WhiteSpace and LineTerminator code points (what `trim` and `parseInt` skip). */
  predicate IsWhitespace(c: char)
  {
    c == '\t' || c == '\n' || c == '\U{000B}' || c == '\U{000C}' || c == '\r' || c == ' '
    || c == '\U{00A0}' || c == '\U{1680}' || ('\U{2000}' <= c <= '\U{200A}')
    || c == '\U{2028}' || c == '\U{2029}' || c == '\U{202F}' || c == '\U{205F}'
    || c == '\U{3000}' || c == '\U{FEFF}'
  }

  predicate AllWhitespace(s: string)
  {
    forall i :: 0 <= i < |s| ==> IsWhitespace(s[i])
  }

  /** `s.trimStart()`: drops the longest all-whitespace prefix. */
  function TrimStart(s: string): (r: string)
    ensures |r| <= |s| && r == s[|s| - |r|..]
    ensures AllWhitespace(s[..|s| - |r|])
    ensures r == [] || !IsWhitespace(r[0])
  {
    if |s| > 0 && IsWhitespace(s[0]) then
      var r := TrimStart(s[1..]);
      assert s[..|s| - |r|] == [s[0]] + s[1..][..|s[1..]| - |r|];
      r
    else
      s
  }

  /** `s.trimEnd()`: drops the longest all-whitespace suffix. */
  function TrimEnd(s: string): (r: string)
    ensures |r| <= |s| && r == s[..|r|]
    ensures AllWhitespace(s[|r|..])
    ensures r == [] || !IsWhitespace(r[|r| - 1])
  {
    if |s| > 0 && IsWhitespace(s[|s| - 1]) then
      var r := TrimEnd(s[..|s| - 1]);
      assert s[|r|..] == s[..|s| - 1][|r|..] + [s[|s| - 1]];
      r
    else
      s
  }

  /** `s.length`: UTF-16 code units, two for each character beyond U+FFFF. */
  function Utf16Length(s: string): (n: nat)
    ensures |s| <= n <= 2 * |s|
  {
    if s == [] then 0 else (if s[0] > '\U{FFFF}' then 2 else 1) + Utf16Length(s[1..])
  }

  /** Text within the Basic Multilingual Plane has one code unit per character. */
  lemma {:induction false} Utf16LengthBmp(s: string)
    requires forall i :: 0 <= i < |s| ==> s[i] <= '\U{FFFF}'
    ensures Utf16Length(s) == |s|
  {
    if s != [] {
      assert forall i :: 0 <= i < |s[1..]| ==> s[1..][i] == s[i + 1];
      Utf16LengthBmp(s[1..]);
    }
  }

  /** Each character beyond U+FFFF adds one unit beyond the character count. */
  lemma {:induction false} Utf16LengthAstral(s: string)
    requires forall i :: 0 <= i < |s| ==> s[i] > '\U{FFFF}'
    ensures Utf16Length(s) == 2 * |s|
  {
    if s != [] {
      assert forall i :: 0 <= i < |s[1..]| ==> s[1..][i] == s[i + 1];
      Utf16LengthAstral(s[1..]);
    }
  }

  /** `s.trim()` */
  function Trim(s: string): string
  {
    TrimEnd(TrimStart(s))
  }

  /** `trim` removes a whitespace prefix and a whitespace suffix, and leaves no whitespace at either end. */
  lemma TrimIsSlice(s: string)
    ensures exists a, b :: 0 <= a <= b <= |s| && Trim(s) == s[a..b] && AllWhitespace(s[..a]) && AllWhitespace(s[b..])
    ensures var t := Trim(s); t == [] || (!IsWhitespace(t[0]) && !IsWhitespace(t[|t| - 1]))
  {
    var u := TrimStart(s);
    var t := TrimEnd(u);
    var a := |s| - |u|;
    var b := a + |t|;
    SuffixSlices(s, a, |t|);
    assert Trim(s) == s[a..b] && AllWhitespace(s[..a]) && AllWhitespace(s[b..]);
    if t != [] {
      assert t[0] == u[0];
    }
  }

  /** Slicing a suffix of `s` is slicing `s` itself. */
  lemma SuffixSlices(s: string, a: nat, k: nat)
    requires a + k <= |s|
    ensures s[a..][..k] == s[a..a + k] && s[a..][k..] == s[a + k..]
  {
  }

  /** `s.trim()` is empty exactly when every character of `s` is whitespace. */
  lemma TrimEmptyIff(s: string)
    ensures Trim(s) == [] <==> AllWhitespace(s)
  {
    var u := TrimStart(s);
    if Trim(s) == [] {
      assert s == s[..|s| - |u|] + u;
      assert AllWhitespace(u[0..]);
      forall i | 0 <= i < |s| ensures IsWhitespace(s[i]) {
        assert s[i] == s[..|s| - |u|][i];
      }
    }
  }

  /** Trimming twice is trimming once. */
  lemma TrimIdempotent(s: string)
    ensures Trim(Trim(s)) == Trim(s)
  {
    var t := Trim(s);
    TrimIsSlice(s);
    assert TrimStart(t) == t;
    assert TrimEnd(t) == t;
  }

  /** `s.startsWith(p)` */
  predicate StartsWith(s: string, p: string)
  {
    |p| <= |s| && s[..|p|] == p
  }

  /** `sep` occurs in `s` at index `i`. */
  predicate OccursAt(s: string, sep: string, i: int)
  {
    0 <= i && i + |sep| <= |s| && s[i..i + |sep|] == sep
  }

  /**
   * The text of `s` before the first occurrence of `sep`, or all of `s`
   * when `sep` does not occur: the piece `split` yields up to that point.
   */
  function UntilSeparator(s: string, sep: string): (r: string)
    requires |sep| > 0
    ensures |r| <= |s| && r == s[..|r|]
    ensures forall i :: 0 <= i < |r| ==> !OccursAt(s, sep, i)
    ensures |r| < |s| ==> OccursAt(s, sep, |r|)
    ensures |r| == |s| ==> forall i :: 0 <= i <= |s| ==> !OccursAt(s, sep, i)
  {
    if StartsWith(s, sep) then
      []
    else if s == [] then
      []
    else
      var r := UntilSeparator(s[1..], sep);
      forall i | 1 <= i <= |s| ensures OccursAt(s, sep, i) <==> OccursAt(s[1..], sep, i - 1) {
        OccursAtTail(s, sep, i);
      }
      [s[0]] + r
  }

  lemma OccursAtTail(s: string, sep: string, i: int)
    requires 1 <= i <= |s|
    ensures OccursAt(s, sep, i) <==> OccursAt(s[1..], sep, i - 1)
  {
    if i + |sep| <= |s| {
      var a, b := s[i..i + |sep|], s[1..][i - 1..i - 1 + |sep|];
      assert |a| == |b| == |sep|;
      forall j | 0 <= j < |sep|
        ensures a[j] == b[j]
      {
        assert a[j] == s[i + j] && b[j] == s[1..][i - 1 + j];
      }
      assert a == b;
    }
  }

  // ---------------------------------------------------------------------
  // Digits and parseInt

  /** The value of `c` as a digit in radix up to 36; 36 when it is no digit at all. */
  function DigitValue(c: char): (d: nat)
    ensures d <= 36
  {
    if '0' <= c <= '9' then (c as int) - ('0' as int)
    else if 'a' <= c <= 'z' then (c as int) - ('a' as int) + 10
    else if 'A' <= c <= 'Z' then (c as int) - ('A' as int) + 10
    else 36
  }

  function DigitChar(d: nat): (c: char)
    requires d < 10
    ensures DigitValue(c) == d
  {
    (('0' as int) + d) as char
  }

  predicate AllDigits(s: string, radix: nat)
  {
    forall i :: 0 <= i < |s| ==> DigitValue(s[i]) < radix
  }

  /** The number written by the digits `s` in the given radix. */
  function DigitsValue(s: string, radix: nat): nat
  {
    if s == [] then 0 else DigitsValue(s[..|s| - 1], radix) * radix + DigitValue(s[|s| - 1])
  }

  /** The longest prefix of `s` made of digits of the radix. */
  function LeadingDigits(s: string, radix: nat): (r: string)
    ensures |r| <= |s| && r == s[..|r|]
    ensures AllDigits(r, radix)
    ensures |r| < |s| ==> DigitValue(s[|r|]) >= radix
  {
    if s != [] && DigitValue(s[0]) < radix then
      var r := LeadingDigits(s[1..], radix);
      [s[0]] + r
    else
      []
  }

  function Pow10(n: nat): (p: nat)
    ensures p >= 1
  {
    if n == 0 then 1 else 10 * Pow10(n - 1)
  }

  /** `v` written in decimal with exactly `width` digits, zero-padded. */
  function PadDigits(v: nat, width: nat): (r: string)
    ensures |r| == width && AllDigits(r, 10)
  {
    if width == 0 then [] else PadDigits(v / 10, width - 1) + [DigitChar(v % 10)]
  }

  /** Reading back a zero-padded numeral gives the number it was made from. */
  lemma {:induction false} PadDigitsRoundTrip(v: nat, width: nat)
    requires v < Pow10(width)
    ensures DigitsValue(PadDigits(v, width), 10) == v
  {
    if width > 0 {
      PadDigitsRoundTrip(v / 10, width - 1);
      var s := PadDigits(v, width);
      assert s[..|s| - 1] == PadDigits(v / 10, width - 1);
    }
  }

  /** `String(n)` for a natural number: its shortest decimal numeral. */
  function DecimalString(n: nat): (r: string)
    ensures |r| > 0 && AllDigits(r, 10)
  {
    if n < 10 then [DigitChar(n)] else DecimalString(n / 10) + [DigitChar(n % 10)]
  }

  lemma {:induction false} DecimalStringValue(n: nat)
    ensures DigitsValue(DecimalString(n), 10) == n
  {
    if n >= 10 {
      DecimalStringValue(n / 10);
      var s := DecimalString(n);
      assert s[..|s| - 1] == DecimalString(n / 10);
    }
  }

  /**
   * `parseInt(s)` with no radix; `None` stands for `NaN`. Leading
   * whitespace is skipped, one sign is accepted, a `0x`/`0X` prefix selects
   * radix 16, and the longest run of digits after that is read.
   */
  function ParseInt(s: string): Option<int>
  {
    var t := TrimStart(s);
    if |t| > 0 && t[0] == '-' then
      match ParseUnsigned(t[1..])
      case None => None
      case Some(v) => Some(-v)
    else if |t| > 0 && t[0] == '+' then
      ParseUnsigned(t[1..])
    else
      ParseUnsigned(t)
  }

  /** The unsigned part of `parseInt`: an optional hexadecimal prefix, then digits. */
  function ParseUnsigned(u: string): Option<int>
  {
    if |u| >= 2 && u[0] == '0' && (u[1] == 'x' || u[1] == 'X') then
      LeadingValue(u[2..], 16)
    else
      LeadingValue(u, 10)
  }

  function LeadingValue(body: string, radix: nat): Option<int>
  {
    var digits := LeadingDigits(body, radix);
    if digits == [] then None else Some(DigitsValue(digits, radix))
  }

  lemma TrimStartNoop(s: string)
    requires s == [] || !IsWhitespace(s[0])
    ensures TrimStart(s) == s
  {
  }

  lemma AllDigitsLeading(s: string, radix: nat)
    requires AllDigits(s, radix)
    ensures LeadingDigits(s, radix) == s
  {
  }

  lemma DecimalUnsigned(n: nat)
    ensures ParseUnsigned(DecimalString(n)) == Some(n)
  {
    var d := DecimalString(n);
    if |d| >= 2 {
      assert DigitValue(d[1]) < 10;
    }
    AllDigitsLeading(d, 10);
    DecimalStringValue(n);
  }

  /** `parseInt(String(n)) === n` for every natural number. */
  lemma ParseIntDecimal(n: nat)
    ensures ParseInt(DecimalString(n)) == Some(n)
  {
    var d := DecimalString(n);
    assert DigitValue(d[0]) < 10;
    TrimStartNoop(d);
    DecimalUnsigned(n);
  }

  /** `parseInt("-" + String(n)) === -n`. */
  lemma ParseIntNegative(n: nat)
    ensures var v: int := n; ParseInt("-" + DecimalString(n)) == Some(-v)
  {
    var s := "-" + DecimalString(n);
    TrimStartNoop(s);
    assert s[1..] == DecimalString(n);
    DecimalUnsigned(n);
    assert ParseUnsigned(s[1..]) == Some(n);
    var v: int := n;
    assert ParseInt(s) == Some(-v);
  }

  /** A string none of whose characters is a digit parses to `NaN`. */
  lemma ParseIntNoDigits(s: string)
    requires forall i :: 0 <= i < |s| ==> DigitValue(s[i]) >= 10
    ensures ParseInt(s) == None
  {
    var t := TrimStart(s);
    NoDigitsSuffix(s, |s| - |t|);
    if |t| > 0 && (t[0] == '-' || t[0] == '+') {
      NoDigitsSuffix(t, 1);
      NoDigitsUnsigned(t[1..]);
    } else {
      NoDigitsUnsigned(t);
    }
  }

  /** A suffix of a string without digits has none either. */
  lemma NoDigitsSuffix(s: string, k: nat)
    requires k <= |s| && forall i :: 0 <= i < |s| ==> DigitValue(s[i]) >= 10
    ensures forall i :: 0 <= i < |s[k..]| ==> DigitValue(s[k..][i]) >= 10
  {
    forall i | 0 <= i < |s[k..]|
      ensures DigitValue(s[k..][i]) >= 10
    {
      assert s[k..][i] == s[k + i];
    }
  }

  lemma NoDigitsUnsigned(u: string)
    requires forall i :: 0 <= i < |u| ==> DigitValue(u[i]) >= 10
    ensures ParseUnsigned(u) == None
  {
  }

  // ---------------------------------------------------------------------
  // Ordering

  /** Lexicographic code-point order, the order in which the store sorts strings. */
  predicate StrLt(a: string, b: string)
  {
    if a == [] then b != []
    else if b == [] then false
    else if a[0] != b[0] then a[0] < b[0]
    else StrLt(a[1..], b[1..])
  }

  lemma {:induction false} StrLtIrreflexive(a: string)
    ensures !StrLt(a, a)
  {
    if a != [] { StrLtIrreflexive(a[1..]); }
  }

  lemma {:induction false} StrLtTransitive(a: string, b: string, c: string)
    requires StrLt(a, b) && StrLt(b, c)
    ensures StrLt(a, c)
  {
    if a != [] && b != [] && c != [] && a[0] == b[0] && b[0] == c[0] {
      StrLtTransitive(a[1..], b[1..], c[1..]);
    }
  }

  lemma {:induction false} StrLtTotal(a: string, b: string)
    requires a != b
    ensures StrLt(a, b) || StrLt(b, a)
  {
    if a != [] && b != [] && a[0] == b[0] {
      assert a == [a[0]] + a[1..] && b == [b[0]] + b[1..];
      StrLtTotal(a[1..], b[1..]);
    }
  }

  /** `m` is the least element of `s` in code-point order. */
  predicate IsLeast(m: string, s: set<string>)
  {
    m in s && forall x :: x in s && x != m ==> StrLt(m, x)
  }

  /** Every non-empty finite set of strings has a least element. */
  lemma {:induction false} LeastExists(s: set<string>)
    requires s != {}
    ensures exists m :: IsLeast(m, s)
  {
    var x :| x in s;
    if s == {x} {
      assert IsLeast(x, s);
    } else {
      LeastExists(s - {x});
      var m :| IsLeast(m, s - {x});
      if StrLt(m, x) {
        assert IsLeast(m, s);
      } else {
        StrLtTotal(m, x);
        forall y | y in s && y != x ensures StrLt(x, y) {
          if y != m { StrLtTransitive(x, m, y); }
        }
        assert IsLeast(x, s);
      }
    }
  }

}
