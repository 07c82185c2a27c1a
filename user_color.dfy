/**
 * getUserColor (src/hooks/useSocket.ts, with an identical copy in
 * src/components/Canvas.tsx): a string hash over the user id's UTF-16 code
 * units, masked to 24 bits and written as "#" and six upper-case hex digits.
 *
 * JavaScript numbers are doubles; the hash is modelled as an exact integer
 * (every intermediate value is an integer well below 2^53 for any realistic
 * id, see HashBound), and the 32-bit operations `<<` and `&` are written out
 * with ToInt32.
 */
module UserColor {
  const Two16: int := 0x1_0000
  const Two24: int := 0x100_0000
  const Two31: int := 0x8000_0000
  const Two32: int := 0x1_0000_0000

  // ---------------------------------------------------------------------------
  // Strings as JavaScript sees them

  /** The UTF-16 code units of one character (what `charCodeAt` reads). */
  function Utf16(c: char): (u: seq<int>)
    ensures 1 <= |u| <= 2
    ensures forall k :: 0 <= k < |u| ==> 0 <= u[k] < Two16
    ensures (c as int < Two16) == (|u| == 1)
    ensures c as int < Two16 ==> u == [c as int]
    ensures c as int >= Two16 ==>
      0xD800 <= u[0] < 0xDC00 <= u[1] < 0xE000 &&
      (u[0] - 0xD800) * 0x400 + (u[1] - 0xDC00) + Two16 == c as int
  {
    var n := c as int;
    if n < Two16 then [n] else [0xD800 + (n - Two16) / 0x400, 0xDC00 + (n - Two16) % 0x400]
  }

  /** The UTF-16 code units of a string, in order. */
  function CodeUnits(s: string): (u: seq<int>)
    ensures |s| <= |u| <= 2 * |s|
    ensures forall k :: 0 <= k < |u| ==> 0 <= u[k] < Two16
    ensures (forall i :: 0 <= i < |s| ==> s[i] as int < Two16) ==>
      u == seq(|s|, i requires 0 <= i < |s| => s[i] as int)
    decreases |s|
  {
    if s == [] then [] else Utf16(s[0]) + CodeUnits(s[1..])
  }

  // ---------------------------------------------------------------------------
  // The hash

  /** ECMAScript ToInt32 on an integer: the signed 32-bit value congruent to x. */
  function ToInt32(x: int): (r: int)
    ensures -Two31 <= r < Two31
    ensures (x - r) % Two32 == 0
    ensures r % Two24 == x % Two24
  {
    var m := x % Two32;
    var q := x / Two32;
    assert x == q * Two32 + m;
    ModMultiple(m, q * 0x100);
    if m >= Two31 then
      ModMultiple(m - Two32, 0x100);
      assert x - (m - Two32) == (q + 1) * Two32;
      ModMultiple32(0, q + 1);
      m - Two32
    else
      assert x - m == q * Two32;
      ModMultiple32(0, q);
      m
  }

  /** JavaScript `x << 5`: the operand and the result are both taken as int32. */
  function ShiftLeft5(x: int): (r: int)
    ensures -Two31 <= r < Two31
    ensures (r - 32 * x) % Two32 == 0
  {
    var t := ToInt32(x);
    var r := ToInt32(t * 32);
    var j := (x - t) / Two32;
    assert x - t == j * Two32;
    var i := (t * 32 - r) / Two32;
    assert t * 32 - r == i * Two32;
    assert r - 32 * x == (-i - 32 * j) * Two32;
    ModMultiple32(0, -i - 32 * j);
    r
  }

  /** One iteration of the loop body: `hash = code + ((hash << 5) - hash)`. */
  function HashStep(hash: int, code: int): (r: int)
    ensures (r - (31 * hash + code)) % Two32 == 0
  {
    code + (ShiftLeft5(hash) - hash)
  }

  /** The value of `hash` after the loop has read all of `units`. */
  function Hash(units: seq<int>): (h: int)
    ensures h % Two24 == Hash24(units)
    decreases |units|
  {
    if units == [] then
      0
    else
      var p, c := units[..|units| - 1], units[|units| - 1];
      var h := Hash(p);
      HashStepMod(h, c);
      var d := (h - Hash24(p)) / Two24;
      assert h == Hash24(p) + d * Two24;
      assert 31 * h + c == 31 * Hash24(p) + c + (31 * d) * Two24;
      ModMultiple(31 * Hash24(p) + c, 31 * d);
      HashStep(h, c)
  }

  /** The reference fold on 24 bits: h := (31 * h + code) mod 2^24, from 0. */
  function Hash24(units: seq<int>): (h: int)
    ensures 0 <= h < Two24
    decreases |units|
  {
    if units == [] then 0 else (31 * Hash24(units[..|units| - 1]) + units[|units| - 1]) % Two24
  }

  /** JavaScript `hash & 0x00FFFFFF`: the low 24 bits of ToInt32(hash). */
  function Mask24(hash: int): (r: int)
    ensures 0 <= r < Two24
    ensures r == hash % Two24
  {
    ToInt32(hash) % Two24
  }

  lemma ModMultiple(a: int, k: int)
    ensures (a + k * Two24) % Two24 == a % Two24
  {
  }

  lemma ModMultiple32(a: int, k: int)
    ensures (a + k * Two32) % Two32 == a % Two32
  {
  }

  /** Modulo 2^24 one JavaScript step is the step 31 * h + code. */
  lemma HashStepMod(h: int, code: int)
    ensures HashStep(h, code) % Two24 == (31 * h + code) % Two24
  {
    var r := HashStep(h, code);
    var k := (r - (31 * h + code)) / Two32;
    assert r == 31 * h + code + (k * 0x100) * Two24;
    ModMultiple(31 * h + code, k * 0x100);
  }

  /** Modulo 2^24 the JavaScript hash follows the 24-bit fold exactly. */
  lemma HashMod24(units: seq<int>)
    ensures Mask24(Hash(units)) == Hash24(units)
  {
  }

  /**
   * The hash grows by less than 2^31 + 2^16 per code unit, so for any id of
   * fewer than 2^21 code units it stays an integer below 2^53, where double
   * arithmetic is exact.
   */
  lemma {:induction false} HashBound(units: seq<int>)
    requires forall k :: 0 <= k < |units| ==> 0 <= units[k] < Two16
    ensures -|units| * (Two31 + Two16) <= Hash(units) <= |units| * (Two31 + Two16)
    decreases |units|
  {
    if units != [] {
      var p := units[..|units| - 1];
      HashBound(p);
    }
  }

  // ---------------------------------------------------------------------------
  // Formatting

  /** The digit toString(16) writes for 0 <= d < 16: 0-9, then a-f. */
  function LowerHexDigit(d: int): char
    requires 0 <= d < 16
  {
    if d < 10 then ('0' as int + d) as char else ('a' as int + d - 10) as char
  }

  predicate IsLowerHexDigit(c: char) {
    '0' <= c <= '9' || 'a' <= c <= 'f'
  }

  /** Number.prototype.toString(16) on a non-negative integer: no leading zeros. */
  function ToHexString(n: nat): (s: string)
    ensures |s| >= 1
    ensures forall i :: 0 <= i < |s| ==> IsLowerHexDigit(s[i])
    ensures s[0] == '0' ==> n == 0
    decreases n
  {
    if n < 16 then [LowerHexDigit(n)] else ToHexString(n / 16) + [LowerHexDigit(n % 16)]
  }

  function ToUpperChar(c: char): char {
    if 'a' <= c <= 'z' then (c as int - 32) as char else c
  }

  /** String.prototype.toUpperCase, on the characters a hex numeral can hold. */
  function UpperCase(s: string): (u: string)
    ensures |u| == |s|
    ensures forall i :: 0 <= i < |s| ==> u[i] == ToUpperChar(s[i])
    decreases |s|
  {
    if s == [] then [] else UpperCase(s[..|s| - 1]) + [ToUpperChar(s[|s| - 1])]
  }

  /** JavaScript's clamp of a substring bound into [0, len]. */
  function ClampIndex(i: int, len: nat): (r: nat)
    ensures r <= len
  {
    if i < 0 then 0 else if i > len then len else i
  }

  /** String.prototype.substring: both bounds clamped, swapped when reversed. */
  function Substring(s: string, start: int, end: int): (r: string)
    ensures |r| <= |s|
    ensures 0 <= start <= end <= |s| ==> r == s[start..end]
  {
    var a := ClampIndex(start, |s|);
    var b := ClampIndex(end, |s|);
    if a <= b then s[a..b] else s[b..a]
  }

  /** The template `#${"00000".substring(0, 6 - c.length) + c}`. */
  function FormatColor(hash: int): (r: string)
    ensures |r| == 7 && r[0] == '#'
  {
    var c := UpperCase(ToHexString(Mask24(hash)));
    MaskedHexLength(hash);
    "#" + Substring("00000", 0, 6 - |c|) + c
  }

  /** The masked hash has between one and six hex digits. */
  lemma MaskedHexLength(hash: int)
    ensures 1 <= |ToHexString(Mask24(hash))| <= 6
  {
    assert Pow16(6) == Two24;
    ToHexStringLength(Mask24(hash), 6);
  }

  // ---------------------------------------------------------------------------
  // What a colour is

  predicate IsUpperHexDigit(c: char) {
    '0' <= c <= '9' || 'A' <= c <= 'F'
  }

  predicate IsUpperHex(s: string) {
    forall i :: 0 <= i < |s| ==> IsUpperHexDigit(s[i])
  }

  function DigitValue(c: char): (d: int)
    requires IsUpperHexDigit(c)
    ensures 0 <= d < 16
  {
    if c <= '9' then c as int - '0' as int else c as int - 'A' as int + 10
  }

  /** The number a string of upper-case hex digits denotes. */
  function HexValue(s: string): (v: int)
    requires IsUpperHex(s)
    ensures v >= 0
    decreases |s|
  {
    if s == [] then 0 else HexValue(s[..|s| - 1]) * 16 + DigitValue(s[|s| - 1])
  }

  /** `#` followed by exactly six upper-case hex digits. */
  predicate IsColor(s: string) {
    |s| == 7 && s[0] == '#' && IsUpperHex(s[1..])
  }

  function Pow16(k: nat): (p: nat)
    ensures p >= 1
  {
    if k == 0 then 1 else 16 * Pow16(k - 1)
  }

  /** A number below 16^k has at most k hex digits. */
  lemma {:induction false} ToHexStringLength(n: nat, k: nat)
    requires 1 <= k && n < Pow16(k)
    ensures |ToHexString(n)| <= k
    decreases n
  {
    if n >= 16 {
      assert k >= 2;
      assert n / 16 < Pow16(k - 1);
      ToHexStringLength(n / 16, k - 1);
    }
  }

  lemma UpperDigit(d: int)
    requires 0 <= d < 16
    ensures IsUpperHexDigit(ToUpperChar(LowerHexDigit(d)))
    ensures DigitValue(ToUpperChar(LowerHexDigit(d))) == d
  {
  }

  lemma UpperCaseSnoc(p: string, ch: char)
    ensures UpperCase(p + [ch]) == UpperCase(p) + [ToUpperChar(ch)]
  {
    assert (p + [ch])[..|p|] == p;
  }

  /** Reading the last digit off a numeral. */
  lemma HexValueSnoc(u: string, d: char)
    requires IsUpperHex(u) && IsUpperHexDigit(d)
    ensures IsUpperHex(u + [d]) && HexValue(u + [d]) == HexValue(u) * 16 + DigitValue(d)
  {
    assert (u + [d])[..|u|] == u;
  }

  /** Upper-casing toString(16) gives upper-case hex digits denoting n. */
  lemma {:induction false} UpperHexValue(n: nat)
    ensures IsUpperHex(UpperCase(ToHexString(n)))
    ensures HexValue(UpperCase(ToHexString(n))) == n
    decreases n
  {
    var d := ToUpperChar(LowerHexDigit(n % 16));
    UpperDigit(n % 16);
    if n < 16 {
      assert UpperCase(ToHexString(n)) == [] + [d];
      HexValueSnoc([], d);
    } else {
      var p := ToHexString(n / 16);
      UpperHexValue(n / 16);
      UpperCaseSnoc(p, LowerHexDigit(n % 16));
      HexValueSnoc(UpperCase(p), d);
      assert HexValue(UpperCase(p) + [d]) == (n / 16) * 16 + n % 16;
    }
  }

  predicate AllZeros(z: string) {
    forall i :: 0 <= i < |z| ==> z[i] == '0'
  }

  /** Leading zeros do not change the value. */
  lemma {:induction false} LeadingZeros(z: string, c: string)
    requires AllZeros(z) && IsUpperHex(c)
    ensures IsUpperHex(z + c) && HexValue(z + c) == HexValue(c)
    decreases |c|
  {
    if c == [] {
      assert z + c == z;
      ZerosValue(z);
    } else {
      var p := c[..|c| - 1];
      LeadingZeros(z, p);
      assert (z + c)[..|z + c| - 1] == z + p;
    }
  }

  lemma {:induction false} ZerosValue(z: string)
    requires AllZeros(z)
    ensures IsUpperHex(z) && HexValue(z) == 0
    decreases |z|
  {
    if z != [] {
      ZerosValue(z[..|z| - 1]);
    }
  }

  /**
   * The formatted hash is always a colour whose digits, read as a number, are
   * hash & 0xFFFFFF: the padding never overflows, as the masked value has at
   * most six digits.
   */
  lemma FormatColorIsColor(hash: int)
    ensures IsColor(FormatColor(hash))
    ensures HexValue(FormatColor(hash)[1..]) == Mask24(hash)
  {
    var n := Mask24(hash);
    var c := UpperCase(ToHexString(n));
    MaskedHexLength(hash);
    UpperHexValue(n);
    ZeroPad(6 - |c|);
    PaddedColor(Substring("00000", 0, 6 - |c|), c);
  }

  /** Six digits after "#", the leading ones zeros, make a colour of the value of the rest. */
  lemma PaddedColor(z: string, c: string)
    requires AllZeros(z) && IsUpperHex(c) && |z| + |c| == 6
    ensures IsColor("#" + z + c) && HexValue(("#" + z + c)[1..]) == HexValue(c)
  {
    LeadingZeros(z, c);
    assert ("#" + z + c)[1..] == z + c;
  }

  /** The first k characters of "00000" are k zeros. */
  lemma ZeroPad(k: int)
    requires 0 <= k <= 5
    ensures |Substring("00000", 0, k)| == k && AllZeros(Substring("00000", 0, k))
  {
    assert Substring("00000", 0, k) == "00000"[0..k];
  }

  /**
   * The colour of a user id: "#" and six upper-case hex digits whose value is
   * the 24-bit fold of the id's code units.  Being a function, it is the same
   * for the same id on every call and every client.
   */
  function UserColor(userId: string): (color: string)
    ensures IsColor(color)
    ensures HexValue(color[1..]) == Hash24(CodeUnits(userId))
  {
    var units := CodeUnits(userId);
    FormatColorIsColor(Hash(units));
    HashMod24(units);
    FormatColor(Hash(units))
  }

  /** The empty id is black. */
  lemma EmptyIdIsBlack()
    ensures UserColor("") == "#000000"
  {
    assert CodeUnits("") == [];
    assert Hash([]) == 0;
    assert ToInt32(0) == 0;
    assert Mask24(0) == 0;
    assert ToHexString(0) == "0";
    assert UpperCase("0") == "0";
    assert Substring("00000", 0, 5) == "00000";
  }

  /** getUserColor's loop over the code units, as written. */
  method GetUserColor(userId: string) returns (color: string)
    ensures color == UserColor(userId)
    ensures IsColor(color) && HexValue(color[1..]) == Hash24(CodeUnits(userId))
  {
    var units := CodeUnits(userId);
    var hash := 0;
    var i := 0;
    while i < |units|
      invariant 0 <= i <= |units|
      invariant hash == Hash(units[..i])
    {
      assert units[..i + 1][..i] == units[..i];
      hash := units[i] + (ShiftLeft5(hash) - hash);
      i := i + 1;
    }
    assert units[..i] == units;
    var c := UpperCase(ToHexString(Mask24(hash)));
    color := "#" + Substring("00000", 0, 6 - |c|) + c;
  }
}
