/**
 * Values shared by every module of the model: Option and Result, the
 * unsigned 64-bit range with Rust's saturating arithmetic, and the string
 * helpers the program relies on (decimal and hexadecimal formatting as done
 * by format!, prefix/suffix tests, ASCII lower-casing, str::find, str::trim).
 */
module Common {

  datatype Option<T> = None | Some(value: T)

  datatype Result<T, E> = Ok(value: T) | Err(error: E)

  const U64_MAX: int := 0xFFFF_FFFF_FFFF_FFFF

  /** Rust's u64. */
  type u64 = x: int | 0 <= x <= U64_MAX

  /** One byte of file content. */
  type byte = x: int | 0 <= x < 256

  /** u64::saturating_add. */
  function SatAdd(a: u64, b: u64): (r: u64)
    ensures r <= a + b && (r == a + b || r == U64_MAX)
  {
    if a + b > U64_MAX then U64_MAX else a + b
  }

  /** u64::saturating_mul. */
  function SatMul(a: u64, b: u64): (r: u64)
    ensures r <= a * b && (r == a * b || r == U64_MAX)
  {
    if a * b > U64_MAX then U64_MAX else a * b
  }

  function Min(a: int, b: int): int { if a <= b then a else b }

  predicate StartsWith(s: string, prefix: string) {
    |prefix| <= |s| && s[..|prefix|] == prefix
  }

  predicate EndsWith(s: string, suffix: string) {
    |suffix| <= |s| && s[|s| - |suffix|..] == suffix
  }

  // ---------------------------------------------------------------------
  // Decimal formatting ({} on an unsigned integer)

  function DigitChar(d: nat): (c: char)
    requires d < 10
    ensures '0' <= c <= '9'
  {
    "0123456789"[d]
  }

  function DigitValue(c: char): nat
  {
    if '0' <= c <= '9' then (c as int - '0' as int) as nat else 0
  }

  predicate AllDigits(s: string) {
    forall i :: 0 <= i < |s| ==> '0' <= s[i] <= '9'
  }

  /** The decimal representation of n, without leading zeros. */
  function Decimal(n: nat): (s: string)
    ensures |s| >= 1 && AllDigits(s)
    decreases n
  {
    if n < 10 then [DigitChar(n)] else Decimal(n / 10) + [DigitChar(n % 10)]
  }

  /** The value of a string of decimal digits. */
  function DecimalValue(s: string): nat
  {
    if s == [] then 0 else DecimalValue(s[..|s| - 1]) * 10 + DigitValue(s[|s| - 1])
  }

  lemma DigitRoundTrip(d: nat)
    requires d < 10
    ensures DigitValue(DigitChar(d)) == d
  {
    var digits := "0123456789";
    assert forall i :: 0 <= i < 10 ==> digits[i] as int == '0' as int + i;
  }

  lemma {:induction false} DecimalRoundTrip(n: nat)
    ensures DecimalValue(Decimal(n)) == n
    decreases n
  {
    if n < 10 {
      DigitRoundTrip(n);
    } else {
      var q, r := n / 10, n % 10;
      DecimalRoundTrip(q);
      DigitRoundTrip(r);
      var s := Decimal(n);
      assert s == Decimal(q) + [DigitChar(r)];
      assert s[..|s| - 1] == Decimal(q);
      assert DecimalValue(s) == q * 10 + r;
    }
  }

  /** Distinct numbers print differently. */
  lemma DecimalInjective(a: nat, b: nat)
    requires a != b
    ensures Decimal(a) != Decimal(b)
  {
    DecimalRoundTrip(a);
    DecimalRoundTrip(b);
  }

  // ---------------------------------------------------------------------
  // Hexadecimal formatting ({:016x})

  function HexChar(d: nat): (c: char)
    requires d < 16
  {
    "0123456789abcdef"[d]
  }

  predicate IsLowerHex(c: char) {
    ('0' <= c <= '9') || ('a' <= c <= 'f')
  }

  function HexCharValue(c: char): nat {
    if '0' <= c <= '9' then (c as int - '0' as int) as nat
    else if 'a' <= c <= 'f' then (c as int - 'a' as int + 10) as nat
    else 0
  }

  function Pow16(k: nat): nat { if k == 0 then 1 else 16 * Pow16(k - 1) }

  /** The last `width` hexadecimal digits of n, zero-padded. */
  function HexPadded(n: nat, width: nat): (s: string)
    ensures |s| == width
    ensures forall i :: 0 <= i < |s| ==> IsLowerHex(s[i])
  {
    if width == 0 then [] else HexPadded(n / 16, width - 1) + [HexChar(n % 16)]
  }

  function HexValue(s: string): nat {
    if s == [] then 0 else HexValue(s[..|s| - 1]) * 16 + HexCharValue(s[|s| - 1])
  }

  lemma HexDigitRoundTrip(d: nat)
    requires d < 16
    ensures HexCharValue(HexChar(d)) == d
  {
    var digits := "0123456789abcdef";
    assert forall i :: 0 <= i < 10 ==> digits[i] as int == '0' as int + i;
    assert forall i :: 10 <= i < 16 ==> digits[i] as int == 'a' as int + i - 10;
  }

  lemma {:induction false} HexPaddedRoundTrip(n: nat, width: nat)
    requires n < Pow16(width)
    ensures HexValue(HexPadded(n, width)) == n
  {
    if width > 0 {
      var q, r := n / 16, n % 16;
      assert q < Pow16(width - 1);
      HexPaddedRoundTrip(q, width - 1);
      HexDigitRoundTrip(r);
      var s := HexPadded(n, width);
      assert s == HexPadded(q, width - 1) + [HexChar(r)];
      assert s[..|s| - 1] == HexPadded(q, width - 1);
      assert HexValue(s) == q * 16 + r;
    }
  }


  // ---------------------------------------------------------------------
  // str::to_ascii_lowercase

  function AsciiLowerChar(c: char): char {
    if 'A' <= c <= 'Z' then (c as int + 32) as char else c
  }

  function AsciiLower(s: string): (r: string)
    ensures |r| == |s|
    ensures forall i :: 0 <= i < |s| ==> r[i] == AsciiLowerChar(s[i])
  {
    if s == [] then [] else [AsciiLowerChar(s[0])] + AsciiLower(s[1..])
  }

  // ---------------------------------------------------------------------
  // str::find

  predicate OccursAt(s: string, pat: string, i: nat) {
    i + |pat| <= |s| && s[i..i + |pat|] == pat
  }

  /** The first index at or after `from` where `pat` occurs in `s`. */
  function FindFrom(s: string, pat: string, from: nat): (r: Option<nat>)
    ensures r.Some? ==> from <= r.value && OccursAt(s, pat, r.value)
    ensures r.Some? ==> forall j :: from <= j < r.value ==> !OccursAt(s, pat, j)
    ensures r.None? ==> forall j :: from <= j ==> !OccursAt(s, pat, j)
    decreases |s| - from
  {
    if from + |pat| > |s| then None
    else if s[from..from + |pat|] == pat then Some(from)
    else FindFrom(s, pat, from + 1)
  }

  /** str::find: the first occurrence of `pat` in `s`. */
  function Find(s: string, pat: string): (r: Option<nat>)
    ensures r.Some? ==> OccursAt(s, pat, r.value)
    ensures r.Some? ==> forall j :: 0 <= j < r.value ==> !OccursAt(s, pat, j)
    ensures r.None? ==> forall j :: 0 <= j ==> !OccursAt(s, pat, j)
  {
    FindFrom(s, pat, 0)
  }

  // ---------------------------------------------------------------------
  // str::trim (Unicode White_Space, as char::is_whitespace)

  predicate IsWhitespace(c: char) {
    var n := c as int;
    (0x09 <= n <= 0x0D) || n == 0x20 || n == 0x85 || n == 0xA0 || n == 0x1680
    || (0x2000 <= n <= 0x200A) || n == 0x2028 || n == 0x2029 || n == 0x202F
    || n == 0x205F || n == 0x3000
  }

  function TrimStart(s: string): (r: string)
    ensures |r| <= |s| && r == s[|s| - |r|..]
    ensures r != [] ==> !IsWhitespace(r[0])
    ensures forall i :: 0 <= i < |s| - |r| ==> IsWhitespace(s[i])
  {
    if s != [] && IsWhitespace(s[0]) then TrimStart(s[1..]) else s
  }

  function TrimEnd(s: string): (r: string)
    ensures |r| <= |s| && r == s[..|r|]
    ensures r != [] ==> !IsWhitespace(r[|r| - 1])
    ensures forall i :: |r| <= i < |s| ==> IsWhitespace(s[i])
  {
    if s != [] && IsWhitespace(s[|s| - 1]) then TrimEnd(s[..|s| - 1]) else s
  }

  function Trim(s: string): (r: string)
    ensures r != [] ==> !IsWhitespace(r[0]) && !IsWhitespace(r[|r| - 1])
  {
    TrimEnd(TrimStart(s))
  }

  /** A string that trims to nothing consists of whitespace only. */
  lemma TrimEmpty(s: string)
    ensures Trim(s) == [] <==> forall i :: 0 <= i < |s| ==> IsWhitespace(s[i])
  {
    var t := TrimStart(s);
    if Trim(s) != [] {
      assert t != [] && !IsWhitespace(t[0]);
      assert s[|s| - |t|] == t[0];
    }
  }
}
