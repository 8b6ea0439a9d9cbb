/**
 * Shared value types and text helpers used by every other module:
 * Rust's `Option`/`Result`, substring search (`str::contains`), decimal and
 * hexadecimal rendering of unsigned integers (`to_string`, `{:02}`, `{:016x}`),
 * `u32::from_str` and `join`.
 */
module Common {

  datatype Option<+T> = None | Some(value: T) {
    function GetOr(default: T): T {
      match this
      case Some(v) => v
      case None => default
    }
  }

  datatype Result<+T, +E> = Ok(value: T) | Err(error: E)

  const U32_MAX: nat := 0xFFFF_FFFF
  const U64_MODULUS: nat := 0x1_0000_0000_0000_0000

  function Min(a: nat, b: nat): nat { if a <= b then a else b }

  /** `usize::saturating_sub` on naturals. */
  function SaturatingSub(a: nat, b: nat): (r: nat)
    ensures b <= a ==> r + b == a
    ensures a < b ==> r == 0
  {
    if a >= b then a - b else 0
  }

  // ---------------------------------------------------------------------------
  // Substring search

  /** `pat` occurs in `s` starting at position `i`. */
  predicate OccursAt(s: string, pat: string, i: nat) {
    i + |pat| <= |s| && s[i..i + |pat|] == pat
  }

  /** Rust's `str::contains` with a string pattern. */
  predicate Contains(s: string, pat: string) {
    exists i: nat | i <= |s| :: OccursAt(s, pat, i)
  }

  /** A position witnessing an occurrence proves `Contains`. */
  lemma ContainsAt(s: string, pat: string, i: nat)
    requires OccursAt(s, pat, i)
    ensures Contains(s, pat)
  {
  }

  /** A string in which the first character of `pat` never appears does not contain `pat`. */
  lemma NotContainsWithoutFirstChar(s: string, pat: string)
    requires |pat| > 0 && pat[0] !in s
    ensures !Contains(s, pat)
  {
    forall i: nat | i <= |s| ensures !OccursAt(s, pat, i) {
      if i + |pat| <= |s| {
        assert s[i..i + |pat|][0] == s[i];
        assert s[i] in s;
      }
    }
  }

  // ---------------------------------------------------------------------------
  // Decimal digits

  predicate IsDigit(c: char) { '0' <= c <= '9' }

  predicate IsDigits(s: string) { forall i | 0 <= i < |s| :: IsDigit(s[i]) }

  function DigitChar(d: nat): (c: char)
    requires d < 10
    ensures IsDigit(c) && c as int - '0' as int == d
  {
    ('0' as int + d) as char
  }

  function DigitValue(c: char): nat
    requires IsDigit(c)
  {
    c as int - '0' as int
  }

  /** The number a string of decimal digits denotes (most significant digit first). */
  function DigitsValue(s: string): nat
    requires IsDigits(s)
  {
    if s == [] then 0 else DigitsValue(s[..|s| - 1]) * 10 + DigitValue(s[|s| - 1])
  }

  /** `n.to_string()` for an unsigned integer: decimal digits without leading zeros. */
  function NatToString(n: nat): (s: string)
    ensures |s| >= 1 && IsDigits(s)
    ensures |s| > 1 ==> s[0] != '0'
    ensures ',' !in s
  {
    if n < 10 then [DigitChar(n)] else NatToString(n / 10) + [DigitChar(n % 10)]
  }

  /** Rendering then reading the digits gives the number back. */
  lemma {:induction false} NatToStringValue(n: nat)
    ensures DigitsValue(NatToString(n)) == n
  {
    var s := NatToString(n);
    if n >= 10 {
      NatToStringValue(n / 10);
      assert s[..|s| - 1] == NatToString(n / 10);
    }
  }

  /** Different numbers render as different strings. */
  lemma NatToStringInjective(a: nat, b: nat)
    requires NatToString(a) == NatToString(b)
    ensures a == b
  {
    NatToStringValue(a);
    NatToStringValue(b);
  }

  /** `format!("{:02}", n)`: at least two digits, zero-padded on the left. */
  function Pad2(n: nat): (s: string)
    ensures |s| >= 2 && IsDigits(s)
    ensures DigitsValue(s) == n
    ensures n >= 10 ==> s == NatToString(n)
    ensures n < 100 ==> |s| == 2
  {
    NatToStringValue(n);
    if n < 10 then
      var s := ['0', DigitChar(n)];
      assert s[..1] == ['0'];
      s
    else
      NatToStringLength(n);
      NatToString(n)
  }

  /** Numbers from 10 to 99 have two digits. */
  lemma NatToStringLength(n: nat)
    requires 10 <= n
    ensures n < 100 ==> |NatToString(n)| == 2
  {
  }

  // ---------------------------------------------------------------------------
  // `u32::from_str`

  /**
   * `s.parse::<u32>()`: an optional leading `+`, then at least one decimal digit
   * and nothing else; values above `u32::MAX` are an overflow error.
   */
  function ParseU32(s: string): (r: Option<nat>)
    ensures r.Some? <==>
      var d := WithoutPlus(s); |d| > 0 && IsDigits(d) && DigitsValue(d) <= U32_MAX
    ensures r.Some? ==> IsDigits(WithoutPlus(s)) && r.value == DigitsValue(WithoutPlus(s))
    ensures r.Some? ==> r.value <= U32_MAX
    ensures forall i | 0 <= i < |s| && !IsDigit(s[i]) && !(i == 0 && s[i] == '+') :: r.None?
  {
    var digits := WithoutPlus(s);
    if |digits| == 0 || !IsDigits(digits) then None
    else if DigitsValue(digits) > U32_MAX then None
    else Some(DigitsValue(digits))
  }

  /** The text after one optional leading `+`. */
  function WithoutPlus(s: string): (d: string)
    ensures s == d || s == ['+'] + d
  {
    if |s| > 0 && s[0] == '+' then s[1..] else s
  }

  /** Every `u32` survives a round trip through its decimal rendering. */
  lemma ParseU32OfNatToString(n: nat)
    requires n <= U32_MAX
    ensures ParseU32(NatToString(n)) == Some(n)
  {
    NatToStringValue(n);
    var s := NatToString(n);
    assert s[0] != '+';
  }

  // ---------------------------------------------------------------------------
  // Hexadecimal

  function HexChar(d: nat): char
    requires d < 16
  {
    "0123456789abcdef"[d]
  }

  predicate IsLowerHex(c: char) { '0' <= c <= '9' || 'a' <= c <= 'f' }

  function HexValue(c: char): nat
    requires IsLowerHex(c)
  {
    if c <= '9' then c as int - '0' as int else c as int - 'a' as int + 10
  }

  function Pow(b: nat, e: nat): (r: nat)
    requires b > 0
    ensures r >= 1
  {
    if e == 0 then 1 else b * Pow(b, e - 1)
  }

  function Pow2(e: nat): nat { Pow(2, e) }

  /** Exponents add. */
  lemma {:induction false} PowAdd(b: nat, e1: nat, e2: nat)
    requires b > 0
    ensures Pow(b, e1 + e2) == Pow(b, e1) * Pow(b, e2)
  {
    if e1 > 0 {
      PowAdd(b, e1 - 1, e2);
      MulAssociates(b, Pow(b, e1 - 1), Pow(b, e2));
    }
  }

  lemma MulAssociates(x: nat, y: nat, z: nat)
    ensures x * (y * z) == x * y * z
  {
  }

  /** Bit `i` of `bits` is set: `(bits >> i) & 1 == 1`. */
  predicate HasBit(bits: nat, i: nat) {
    (bits / Pow2(i)) % 2 == 1
  }

  /** The number a string of lower-case hexadecimal digits denotes. */
  function HexDigitsValue(s: string): nat
    requires forall i | 0 <= i < |s| :: IsLowerHex(s[i])
  {
    if s == [] then 0 else HexDigitsValue(s[..|s| - 1]) * 16 + HexValue(s[|s| - 1])
  }

  /** `format!("{:0w$x}", n)` for `n < 16^w`: exactly `w` lower-case hex digits. */
  function HexFixed(n: nat, width: nat): (s: string)
    ensures |s| == width
    ensures forall i | 0 <= i < |s| :: IsLowerHex(s[i])
  {
    if width == 0 then "" else HexFixed(n / 16, width - 1) + [HexChar(n % 16)]
  }

  /** The fixed-width rendering keeps the low `width` hex digits of `n`. */
  lemma {:induction false} HexFixedValue(n: nat, width: nat)
    ensures HexDigitsValue(HexFixed(n, width)) == n % Pow(16, width)
  {
    if width > 0 {
      var s := HexFixed(n, width);
      assert s[..|s| - 1] == HexFixed(n / 16, width - 1);
      HexFixedValue(n / 16, width - 1);
      HexCharValue(n % 16);
      DivModShift(n, 16, Pow(16, width - 1));
    }
  }

  lemma HexCharValue(d: nat)
    requires d < 16
    ensures IsLowerHex(HexChar(d)) && HexValue(HexChar(d)) == d
  {
  }

  /** `(n / b) % p * b + n % b == n % (b * p)`. */
  lemma DivModShift(n: nat, b: nat, p: nat)
    requires b > 0 && p > 0
    ensures (n / b) % p * b + n % b == n % (b * p)
  {
    var q, r := n / b, n % b;
    var q2, r2 := q / p, q % p;
    DivMod(n, b);
    DivMod(q, p);
    MulDistributes(q2, p, r2, b);
    assert n == q2 * (b * p) + (r2 * b + r);
    MulBelow(r2, p, r, b);
    LemmaModUnique(n, b * p, q2, r2 * b + r);
  }

  /** Euclidean division of a natural number. */
  lemma DivMod(n: nat, m: nat)
    requires m > 0
    ensures n == n / m * m + n % m && n % m < m
  {
  }

  /** `(x * p + y) * b == x * (b * p) + y * b`. */
  lemma MulDistributes(x: nat, p: nat, y: nat, b: nat)
    ensures (x * p + y) * b == x * (b * p) + y * b
  {
  }

  /** A digit below `p` in base `b` stays below `b * p`. */
  lemma MulBelow(d: nat, p: nat, r: nat, b: nat)
    requires d < p && r < b
    ensures d * b + r < b * p
  {
    assert d * b <= (p - 1) * b;
  }

  /** Quotient and remainder are unique. */
  lemma LemmaModUnique(n: nat, m: nat, q: nat, r: nat)
    requires m > 0 && r < m && n == q * m + r
    ensures n / m == q && n % m == r
  {
    var q2, r2 := n / m, n % m;
    assert q2 * m + r2 == q * m + r;
    if q2 > q {
      assert (q2 - q) * m == r - r2;
      MulAtLeast(q2 - q, m);
    } else if q2 < q {
      assert (q - q2) * m == r2 - r;
      MulAtLeast(q - q2, m);
    }
  }

  lemma MulAtLeast(k: nat, m: nat)
    requires k >= 1
    ensures k * m >= m
  {
  }

  // ---------------------------------------------------------------------------
  // Removing a character

  /** `s.replace(",", "")`: every comma removed, everything else kept in order. */
  function RemoveCommas(s: string): (r: string)
    ensures ',' !in r
    ensures |r| <= |s|
  {
    if s == [] then ""
    else (if s[0] == ',' then "" else [s[0]]) + RemoveCommas(s[1..])
  }

  /** Removing commas keeps every other character and adds none. */
  lemma {:induction false} RemoveCommasMembers(s: string)
    ensures forall c | c in s && c != ',' :: c in RemoveCommas(s)
    ensures forall c | c in RemoveCommas(s) :: c in s
  {
    if s != [] {
      RemoveCommasMembers(s[1..]);
      var h := if s[0] == ',' then "" else [s[0]];
      assert RemoveCommas(s) == h + RemoveCommas(s[1..]);
      assert forall c | c in s :: c == s[0] || c in s[1..];
    }
  }

  /** Removing commas distributes over concatenation. */
  lemma {:induction false} RemoveCommasAppend(a: string, b: string)
    ensures RemoveCommas(a + b) == RemoveCommas(a) + RemoveCommas(b)
  {
    if a == [] {
      assert a + b == b;
    } else {
      assert (a + b)[0] == a[0];
      assert (a + b)[1..] == a[1..] + b;
      RemoveCommasAppend(a[1..], b);
      var h := if a[0] == ',' then "" else [a[0]];
      assert RemoveCommas(a + b) == h + RemoveCommas(a[1..] + b);
      assert RemoveCommas(a) == h + RemoveCommas(a[1..]);
    }
  }

  /** A string without commas is left as it is. */
  lemma {:induction false} RemoveCommasNoop(s: string)
    requires ',' !in s
    ensures RemoveCommas(s) == s
  {
    if s != [] {
      RemoveCommasNoop(s[1..]);
    }
  }

  // ---------------------------------------------------------------------------
  // Joining lines

  /** `lines.join(sep)`. */
  function Join(lines: seq<string>, sep: string): string {
    if |lines| == 0 then ""
    else if |lines| == 1 then lines[0]
    else lines[0] + sep + Join(lines[1..], sep)
  }

  /** A non-empty join starts with its first line. */
  lemma JoinStartsWithFirst(lines: seq<string>, sep: string)
    requires |lines| > 0
    ensures |Join(lines, sep)| >= |lines[0]|
    ensures Join(lines, sep)[..|lines[0]|] == lines[0]
  {
  }

  /** `s.split(sep)`: the pieces between the separators, one more than there are separators. */
  function SplitOn(s: string, sep: char): (parts: seq<string>)
    ensures |parts| >= 1
  {
    if s == [] then [""]
    else if s[0] == sep then [""] + SplitOn(s[1..], sep)
    else
      var rest := SplitOn(s[1..], sep);
      [[s[0]] + rest[0]] + rest[1..]
  }

  /** A text without the separator is one piece. */
  lemma {:induction false} SplitOnNoSep(a: string, sep: char)
    requires sep !in a
    ensures SplitOn(a, sep) == [a]
  {
    if a != [] {
      assert a[0] in a;
      SplitOnNoSep(a[1..], sep);
      assert [a[0]] + a[1..] == a;
    }
  }

  /** A separator-free prefix followed by the separator splits off as the first piece. */
  lemma {:induction false} SplitOnPrefix(a: string, sep: char, t: string)
    requires sep !in a
    ensures SplitOn(a + [sep] + t, sep) == [a] + SplitOn(t, sep)
  {
    var s := a + [sep] + t;
    if a == [] {
      assert s[1..] == t;
    } else {
      assert s[1..] == a[1..] + [sep] + t;
      SplitOnPrefix(a[1..], sep, t);
      assert [a[0]] + a[1..] == a;
    }
  }

  /** Splitting a join of separator-free lines at the separator gives the lines back. */
  lemma {:induction false} SplitOnJoin(lines: seq<string>, sep: char)
    requires |lines| > 0
    requires forall i | 0 <= i < |lines| :: sep !in lines[i]
    ensures SplitOn(Join(lines, [sep]), sep) == lines
    decreases |lines|
  {
    if |lines| == 1 {
      SplitOnNoSep(lines[0], sep);
    } else {
      SplitOnJoin(lines[1..], sep);
      SplitOnPrefix(lines[0], sep, Join(lines[1..], [sep]));
      assert [lines[0]] + lines[1..] == lines;
    }
  }
}
