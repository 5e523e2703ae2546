/** The JavaScript built-ins that the modelled code relies on, stated on
    Dafny values: String.prototype.trim, Number.prototype.toString(16),
    padStart(2, "0"), toUpperCase, parseInt(_, 16), the ToInt32 conversion
    behind `>>` and `&`, and Math.round.  A JavaScript string is a `string`
    whose every character stands for one UTF-16 code unit. */
module Js {
  import opened Wrappers

  /** An element of a Uint8ClampedArray. */
  type byte = x: int | 0 <= x < 256

  /** The WhiteSpace and LineTerminator code points of ECMAScript, which
      both `trim` and `parseInt` skip. */
  predicate IsWhiteSpace(c: char) {
    || c == '\t' || c == '\n' || c == '\U{B}' || c == '\U{C}' || c == '\r' || c == ' '
    || c == '\U{A0}' || c == '\U{1680}' || ('\U{2000}' <= c <= '\U{200A}')
    || c == '\U{2028}' || c == '\U{2029}' || c == '\U{202F}' || c == '\U{205F}'
    || c == '\U{3000}' || c == '\U{FEFF}'
  }

  /** Drops the leading white space. */
  function TrimStart(s: string): (r: string)
    ensures |r| <= |s|
  {
    if s != [] && IsWhiteSpace(s[0]) then TrimStart(s[1..]) else s
  }

  /** Drops the trailing white space. */
  function TrimEnd(s: string): (r: string)
    ensures |r| <= |s|
  {
    if s != [] && IsWhiteSpace(s[|s| - 1]) then TrimEnd(s[..|s| - 1]) else s
  }

  /** String.prototype.trim */
  function Trim(s: string): string {
    TrimEnd(TrimStart(s))
  }

  /** TrimStart drops a prefix of white space and stops at a character
      that is not. */
  lemma {:induction false} TrimStartFacts(s: string)
    ensures var r := TrimStart(s);
            r == s[|s| - |r|..] && (r == [] || !IsWhiteSpace(r[0])) &&
            forall i :: 0 <= i < |s| - |r| ==> IsWhiteSpace(s[i])
  {
    if s != [] && IsWhiteSpace(s[0]) {
      TrimStartFacts(s[1..]);
    }
  }

  /** TrimEnd drops a suffix of white space and stops at a character that
      is not. */
  lemma {:induction false} TrimEndFacts(s: string)
    ensures var r := TrimEnd(s);
            r == s[..|r|] && (r == [] || !IsWhiteSpace(r[|r| - 1])) &&
            forall i :: |r| <= i < |s| ==> IsWhiteSpace(s[i])
  {
    if s != [] && IsWhiteSpace(s[|s| - 1]) {
      TrimEndFacts(s[..|s| - 1]);
    }
  }

  /** `r` is the part of `s` from `i` on, with only white space of `s`
      before it and after it. */
  predicate TrimmedAt(s: string, r: string, i: int) {
    && 0 <= i <= |s| - |r| && r == s[i..i + |r|]
    && (forall j :: 0 <= j < i ==> IsWhiteSpace(s[j]))
    && (forall j :: i + |r| <= j < |s| ==> IsWhiteSpace(s[j]))
  }

  /** trim leaves the run of `s` between the white space at its two ends:
      the result starts and ends with a character that is not white space. */
  lemma TrimFacts(s: string)
    ensures var r := Trim(s);
            (r == [] || (!IsWhiteSpace(r[0]) && !IsWhiteSpace(r[|r| - 1]))) &&
            exists i :: TrimmedAt(s, r, i)
  {
    var t := TrimStart(s);
    TrimStartFacts(s);
    TrimEndFacts(t);
    var r := TrimEnd(t);
    var i := |s| - |t|;
    assert r == s[i..i + |r|];
    assert TrimmedAt(s, r, i);
  }

  /** A string that neither starts nor ends with white space is its own trim. */
  lemma TrimUnchanged(s: string)
    requires s != [] && !IsWhiteSpace(s[0]) && !IsWhiteSpace(s[|s| - 1])
    ensures Trim(s) == s
  {
  }

  predicate IsHexDigit(c: char) {
    '0' <= c <= '9' || 'a' <= c <= 'f' || 'A' <= c <= 'F'
  }

  predicate IsLowerHexDigit(c: char) {
    '0' <= c <= '9' || 'a' <= c <= 'f'
  }

  predicate AllHexDigits(s: string) {
    forall i :: 0 <= i < |s| ==> IsHexDigit(s[i])
  }

  function DigitValue(c: char): (d: nat)
    requires IsHexDigit(c)
    ensures d < 16
  {
    if '0' <= c <= '9' then c as int - '0' as int
    else if 'a' <= c <= 'f' then c as int - 'a' as int + 10
    else c as int - 'A' as int + 10
  }

  /** The lower-case digit that `toString(16)` writes for `d`. */
  function LowerDigit(d: nat): (c: char)
    requires d < 16
    ensures IsLowerHexDigit(c) && IsHexDigit(c) && DigitValue(c) == d
  {
    if d < 10 then ('0' as int + d) as char else ('a' as int + d - 10) as char
  }

  /** The value of a string of hex digits, most significant digit first. */
  function HexValue(s: string): nat
    requires AllHexDigits(s)
  {
    if s == [] then 0 else HexValue(s[..|s| - 1]) * 16 + DigitValue(s[|s| - 1])
  }

  /** The value of the two digits of `s` at `i` and `i + 1`. */
  function PairValue(s: string, i: nat): (v: nat)
    requires i + 1 < |s| && IsHexDigit(s[i]) && IsHexDigit(s[i + 1])
    ensures v < 256
  {
    16 * DigitValue(s[i]) + DigitValue(s[i + 1])
  }

  /** The value of six hex digits, as three two-digit pairs. */
  lemma HexValue6(s: string)
    requires |s| == 6 && AllHexDigits(s)
    ensures HexValue(s) == PairValue(s, 0) * 65536 + PairValue(s, 2) * 256 + PairValue(s, 4)
  {
    var d := seq(6, i requires 0 <= i < 6 => DigitValue(s[i]));
    assert s[..1][..0] == [] && s[..1][0] == s[0];
    assert HexValue(s[..1]) == d[0];
    assert s[..2][..1] == s[..1] && s[..2][1] == s[1];
    assert HexValue(s[..2]) == d[0] * 16 + d[1];
    assert s[..3][..2] == s[..2] && s[..3][2] == s[2];
    assert HexValue(s[..3]) == (d[0] * 16 + d[1]) * 16 + d[2];
    assert s[..4][..3] == s[..3] && s[..4][3] == s[3];
    assert HexValue(s[..4]) == ((d[0] * 16 + d[1]) * 16 + d[2]) * 16 + d[3];
    assert s[..5][..4] == s[..4] && s[..5][4] == s[4];
    assert HexValue(s[..5]) == (((d[0] * 16 + d[1]) * 16 + d[2]) * 16 + d[3]) * 16 + d[4];
    assert s[..6] == s && s[..5] == s[..|s| - 1];
  }

  /** The digits of a natural number, lower case, without leading zeros. */
  function NatToHex(n: nat): (s: string)
    ensures s != [] && AllHexDigits(s) && HexValue(s) == n
    ensures forall i :: 0 <= i < |s| ==> IsLowerHexDigit(s[i])
    decreases n
  {
    if n < 16 then [LowerDigit(n)]
    else
      var r := NatToHex(n / 16) + [LowerDigit(n % 16)];
      assert r[..|r| - 1] == NatToHex(n / 16);
      r
  }

  /** Number.prototype.toString(16) on an integral number: lower-case
      digits of the magnitude, after a '-' when the number is negative. */
  function ToString16(v: int): string {
    if v < 0 then "-" + NatToHex(-v) else NatToHex(v)
  }

  /** The digits toString(16) writes spell the magnitude of `v`. */
  lemma ToString16Digits(v: int)
    ensures var r := ToString16(v);
            (v >= 0 ==> r != [] && AllHexDigits(r) && HexValue(r) == v) &&
            (v < 0 ==> |r| >= 2 && r[0] == '-' && AllHexDigits(r[1..]) && HexValue(r[1..]) == -v) &&
            forall i :: 0 <= i < |r| ==> r[i] == '-' || IsLowerHexDigit(r[i])
  {
    if v < 0 {
      assert ToString16(v)[1..] == NatToHex(-v);
    }
  }

  /** parseInt(_, 16) reads back what toString(16) wrote. */
  lemma {:induction false} ParseToString16(v: int)
    ensures ParseIntHex(ToString16(v)) == Some(v)
  {
    var s := ToString16(v);
    ToString16Digits(v);
    assert !IsWhiteSpace(s[0]);
    var digits := if v < 0 then s[1..] else s;
    assert digits == NatToHex(if v < 0 then -v else v);
    assert !(|digits| >= 2 && digits[0] == '0' && (digits[1] == 'x' || digits[1] == 'X'));
    HexPrefixOfDigits(digits);
  }

  /** padStart(2, "0"): `s` behind as many '0's as make it two long. */
  function PadStart2(s: string): string {
    if |s| >= 2 then s else seq(2 - |s|, _ => '0') + s
  }

  /** padStart keeps `s` at the end and fills up to two characters with
      '0' in front. */
  lemma PadStart2Facts(s: string)
    ensures var r := PadStart2(s);
            |r| == (if |s| >= 2 then |s| else 2) && r[|r| - |s|..] == s &&
            forall i :: 0 <= i < |r| - |s| ==> r[i] == '0'
  {
  }

  /** `v.toString(16).padStart(2, "0")`, the per-channel step of every hex
      serialiser in the system. */
  function Hex2(v: int): string {
    PadStart2(ToString16(v))
  }

  /** A channel in 0..255 becomes exactly two lower-case digits, high first. */
  lemma Hex2OfByte(v: int)
    requires 0 <= v < 256
    ensures Hex2(v) == [LowerDigit(v / 16), LowerDigit(v % 16)]
  {
    if v >= 16 {
      assert NatToHex(v / 16) == [LowerDigit(v / 16)];
    }
  }

  function UpperChar(c: char): char {
    if 'a' <= c <= 'z' then (c as int - 32) as char else c
  }

  /** String.prototype.toUpperCase on the ASCII strings the serialisers
      produce. */
  function ToUpperAscii(s: string): (r: string)
    ensures |r| == |s| && forall i :: 0 <= i < |s| ==> r[i] == UpperChar(s[i])
  {
    seq(|s|, i requires 0 <= i < |s| => UpperChar(s[i]))
  }

  /** toUpperCase leaves no lower-case ASCII letter, keeps every hex digit's
      value, and is idempotent. */
  lemma UpperAsciiFacts(s: string)
    ensures var r := ToUpperAscii(s);
            (forall i :: 0 <= i < |s| && IsHexDigit(s[i]) ==> IsHexDigit(r[i]) && DigitValue(r[i]) == DigitValue(s[i])) &&
            (forall i :: 0 <= i < |r| ==> !('a' <= r[i] <= 'z')) &&
            ToUpperAscii(r) == r
  {
  }

  function LowerChar(c: char): char {
    if 'A' <= c <= 'Z' then (c as int + 32) as char else c
  }

  /** The lower-case spelling of an ASCII string. */
  function ToLowerAscii(s: string): (r: string)
    ensures |r| == |s| && forall i :: 0 <= i < |s| ==> r[i] == LowerChar(s[i])
  {
    seq(|s|, i requires 0 <= i < |s| => LowerChar(s[i]))
  }

  /** `s.split("").map((c) => c + c).join("")`: every character twice. */
  function DoubleEach(s: string): (r: string)
    ensures |r| == 2 * |s|
    ensures forall i :: 0 <= i < |r| ==> r[i] == s[i / 2]
  {
    if s == [] then []
    else
      var rest := DoubleEach(s[1..]);
      assert forall i :: 2 <= i < 2 * |s| ==> ([s[0], s[0]] + rest)[i] == rest[i - 2] == s[1..][(i - 2) / 2];
      [s[0], s[0]] + rest
  }

  /** The longest prefix of `s` made of hex digits. */
  function HexPrefix(s: string): (r: string)
    ensures |r| <= |s| && AllHexDigits(r)
  {
    if s != [] && IsHexDigit(s[0]) then [s[0]] + HexPrefix(s[1..]) else []
  }

  /** parseInt(s, 16); None stands for NaN.  Leading white space is
      skipped, one sign and then one "0x"/"0X" prefix are taken, and the
      longest run of hex digits that follows is the value. */
  function ParseIntHex(s: string): (p: Option<int>)
    ensures var t := TrimStart(s);
            t == [] || (!IsHexDigit(t[0]) && t[0] != '-' && t[0] != '+') ==> p.None?
    ensures p.Some? && p.value < 0 ==> TrimStart(s)[0] == '-'
  {
    var t := TrimStart(s);
    var negative := t != [] && t[0] == '-';
    var u := if t != [] && (t[0] == '-' || t[0] == '+') then t[1..] else t;
    var v := if |u| >= 2 && u[0] == '0' && (u[1] == 'x' || u[1] == 'X') then u[2..] else u;
    var z := HexPrefix(v);
    if z == [] then None
    else
      var n: int := HexValue(z);
      if negative then Some(-n) else Some(n)
  }

  /** On a non-empty string of hex digits parseInt reads them all. */
  lemma ParseIntHexOfDigits(s: string)
    requires s != [] && AllHexDigits(s)
    ensures ParseIntHex(s) == Some(HexValue(s))
  {
    assert !IsWhiteSpace(s[0]);
    assert TrimStart(s) == s;
    assert s[0] != '-' && s[0] != '+';
    assert !(|s| >= 2 && s[0] == '0' && (s[1] == 'x' || s[1] == 'X'));
    HexPrefixOfDigits(s);
  }

  lemma HexPrefixOfDigits(s: string)
    requires AllHexDigits(s)
    ensures HexPrefix(s) == s
  {
    if s != [] {
      HexPrefixOfDigits(s[1..]);
    }
  }

  /** The ToInt32 conversion: the integer congruent to `n` modulo 2^32 in
      the signed 32-bit range. */
  function ToInt32(n: int): (r: int)
    ensures -0x8000_0000 <= r < 0x8000_0000
    ensures (n - r) % 0x1_0000_0000 == 0
  {
    var m := n % 0x1_0000_0000;
    if m >= 0x8000_0000 then m - 0x1_0000_0000 else m
  }

  /** `(num >> k) & 255` for a Number `num` (None is NaN, which ToInt32
      turns into 0) and k in {0, 8, 16}.  Dafny's `/` and `%` by a positive
      constant round towards minus infinity, as the arithmetic shift and
      the two's-complement mask do. */
  function ShiftAnd255(num: Option<int>, k: nat): (b: byte)
    requires k == 0 || k == 8 || k == 16
  {
    var v := if num.None? then 0 else ToInt32(num.value);
    var shifted := if k == 16 then v / 65536 else if k == 8 then v / 256 else v;
    shifted % 256
  }

  /** `(num >> k) & 255` is byte k/8 of the low 32 bits of `num`, and 0
      for NaN. */
  lemma ShiftAnd255Byte(num: Option<int>, k: nat)
    requires k == 0 || k == 8 || k == 16
    ensures num.None? ==> ShiftAnd255(num, k) == 0
    ensures num.Some? ==> ShiftAnd255(num, k) == (num.value % 0x1_0000_0000) / Shift(k) % 256
  {
    if num.Some? {
      ByteOfLow32(num.value, k);
    }
  }

  /** 2 to the power `k`, for the shift amounts in use. */
  function Shift(k: nat): (p: nat)
    requires k == 0 || k == 8 || k == 16
  {
    if k == 16 then 65536 else if k == 8 then 256 else 1
  }

  /** ToInt32 moves a number by a multiple of 2^32, which leaves every
      byte of its low 32 bits in place. */
  lemma ByteOfLow32(n: int, k: nat)
    requires k == 0 || k == 8 || k == 16
    ensures ToInt32(n) / Shift(k) % 256 == (n % 0x1_0000_0000) / Shift(k) % 256
  {
    var m := n % 0x1_0000_0000;
    if m >= 0x8000_0000 {
      assert ToInt32(n) == m - 0x1_0000_0000;
      if k == 16 {
        assert (m - 0x1_0000_0000) / 65536 == m / 65536 - 65536;
      } else if k == 8 {
        assert (m - 0x1_0000_0000) / 256 == m / 256 - 0x100_0000;
      }
    }
  }

  /** Math.round: the nearest integer, with halves going up. */
  function Round(v: real): (r: int)
    ensures v - 0.5 < r as real <= v + 0.5
  {
    (v + 0.5).Floor
  }
}
