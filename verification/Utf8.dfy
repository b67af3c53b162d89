/** UTF-8 as RFC 3629 section 3 defines it. A Dafny `char` is a Unicode scalar value, so a `string`
    is a Python `str` without lone surrogates. */
module Utf8 {
  import opened Bytes
  import opened Results

  function EncodeChar(c: char): (bs: seq<byte>)
    ensures 1 <= |bs| <= 4
  {
    var n := c as int;
    if n < 0x80 then [n]
    else if n < 0x800 then [0xC0 + n / 0x40, 0x80 + n % 0x40]
    else if n < 0x10000 then [0xE0 + n / 0x1000, 0x80 + n / 0x40 % 0x40, 0x80 + n % 0x40]
    else [0xF0 + n / 0x40000, 0x80 + n / 0x1000 % 0x40, 0x80 + n / 0x40 % 0x40, 0x80 + n % 0x40]
  }

  function Encode(s: string): (bs: seq<byte>)
    ensures |s| <= |bs|
  {
    if s == "" then [] else EncodeChar(s[0]) + Encode(s[1..])
  }

  predicate IsContinuation(b: byte) {
    0x80 <= b < 0xC0
  }

  predicate IsScalar(n: int) {
    0 <= n < 0xD800 || 0xE000 <= n < 0x110000
  }

  /** The character with value `n`, unless `n` is below the range its form is for or is no scalar value. */
  function Scalar(n: int, least: int): (r: Option<char>) {
    if least <= n && IsScalar(n) then Some(n as char) else None
  }

  function Value2(b: seq<byte>): int
    requires |b| >= 2
  {
    (b[0] as int - 0xC0) * 0x40 + (b[1] as int - 0x80)
  }

  function Value3(b: seq<byte>): int
    requires |b| >= 3
  {
    (b[0] as int - 0xE0) * 0x1000 + (b[1] as int - 0x80) * 0x40 + (b[2] as int - 0x80)
  }

  function Value4(b: seq<byte>): int
    requires |b| >= 4
  {
    (b[0] as int - 0xF0) * 0x40000 + (b[1] as int - 0x80) * 0x1000 + (b[2] as int - 0x80) * 0x40 + (b[3] as int - 0x80)
  }

  predicate Continues(bs: seq<byte>, k: nat) {
    |bs| >= k && forall i | 1 <= i < k :: IsContinuation(bs[i])
  }

  /** The first character of `bs` and its length; `None` where a strict decoder raises: a stray
      continuation byte, a truncated or overlong form, a surrogate, or a value above 0x10FFFF. */
  function DecodeChar(bs: seq<byte>): (r: Option<(char, nat)>)
    requires bs != []
    ensures r.Some? ==> 1 <= r.value.1 <= |bs|
  {
    var b := bs[0];
    var (found, k) :=
      if b < 0x80 then (Scalar(b, 0), 1)
      else if 0xC0 <= b < 0xE0 && Continues(bs, 2) then (Scalar(Value2(bs), 0x80), 2)
      else if 0xE0 <= b < 0xF0 && Continues(bs, 3) then (Scalar(Value3(bs), 0x800), 3)
      else if 0xF0 <= b < 0xF8 && Continues(bs, 4) then (Scalar(Value4(bs), 0x10000), 4)
      else (None, 1);
    if found.Some? then Some((found.value, k)) else None
  }

  /** `bytes.decode("utf-8")`; `None` stands for `UnicodeDecodeError`. */
  function Decode(bs: seq<byte>): (r: Option<string>) {
    if bs == [] then Some("")
    else
      match DecodeChar(bs)
      case None => None
      case Some((c, k)) =>
        match Decode(bs[k..])
        case None => None
        case Some(s) => Some([c] + s)
  }

  lemma Digits2(n: int)
    requires 0x80 <= n < 0x800
    ensures 2 <= n / 0x40 < 0x20
    ensures n / 0x40 * 0x40 + n % 0x40 == n
  {
  }

  lemma Digits3(n: int)
    requires 0x800 <= n < 0x10000
    ensures 0 <= n / 0x1000 < 0x10
    ensures n / 0x1000 * 0x1000 + n / 0x40 % 0x40 * 0x40 + n % 0x40 == n
  {
  }

  lemma Digits4(n: int)
    requires 0x10000 <= n < 0x110000
    ensures 0 <= n / 0x40000 < 8
    ensures n / 0x40000 * 0x40000 + n / 0x1000 % 0x40 * 0x1000 + n / 0x40 % 0x40 * 0x40 + n % 0x40 == n
  {
  }

  lemma Unique3(x: int, y: int, z: int)
    requires 0 <= y < 0x40 && 0 <= z < 0x40
    ensures var n := x * 0x1000 + y * 0x40 + z; n / 0x1000 == x && n / 0x40 % 0x40 == y && n % 0x40 == z
  {
    var n := x * 0x1000 + y * 0x40 + z;
    assert n / 0x40 == x * 0x40 + y;
  }

  lemma Unique4(w: int, x: int, y: int, z: int)
    requires 0 <= x < 0x40 && 0 <= y < 0x40 && 0 <= z < 0x40
    ensures var n := w * 0x40000 + x * 0x1000 + y * 0x40 + z;
            n / 0x40000 == w && n / 0x1000 % 0x40 == x && n / 0x40 % 0x40 == y && n % 0x40 == z
  {
    var n := w * 0x40000 + x * 0x1000 + y * 0x40 + z;
    assert n / 0x40 == w * 0x1000 + x * 0x40 + y;
    assert n / 0x1000 == w * 0x40 + x;
  }

  lemma DecodeEncodeChar(c: char, rest: seq<byte>)
    ensures DecodeChar(EncodeChar(c) + rest) == Some((c, |EncodeChar(c)|))
  {
    var n := c as int;
    var bs := EncodeChar(c) + rest;
    if n < 0x80 {
    } else if n < 0x800 {
      Digits2(n);
      assert Value2(bs) == n;
    } else if n < 0x10000 {
      Digits3(n);
      assert Value3(bs) == n;
    } else {
      Digits4(n);
      assert Value4(bs) == n;
    }
  }

  lemma EncodeDecodeChar(bs: seq<byte>)
    requires bs != [] && DecodeChar(bs).Some?
    ensures var (c, k) := DecodeChar(bs).value; EncodeChar(c) == bs[..k]
  {
    var (c, k) := DecodeChar(bs).value;
    if k == 2 {
      Digits2(c as int);
    } else if k == 3 {
      Unique3(bs[0] as int - 0xE0, bs[1] as int - 0x80, bs[2] as int - 0x80);
    } else if k == 4 {
      Unique4(bs[0] as int - 0xF0, bs[1] as int - 0x80, bs[2] as int - 0x80, bs[3] as int - 0x80);
    }
  }

  /** Every string survives the trip through UTF-8. */
  lemma {:induction false} DecodeEncode(s: string)
    ensures Decode(Encode(s)) == Some(s)
  {
    if s == "" {
      assert Encode(s) == [];
    } else {
      var first, more := EncodeChar(s[0]), Encode(s[1..]);
      DecodeEncodeChar(s[0], more);
      DecodeEncode(s[1..]);
      assert (first + more)[|first|..] == more;
      assert s == [s[0]] + s[1..];
      assert Encode(s) == first + more;
    }
  }

  /** The decoder accepts nothing but what the encoder produces, so a byte string has one reading. */
  lemma {:induction false} EncodeDecode(bs: seq<byte>)
    requires Decode(bs).Some?
    ensures Encode(Decode(bs).value) == bs
  {
    if bs != [] {
      EncodeDecodeChar(bs);
      var k := DecodeChar(bs).value.1;
      EncodeDecode(bs[k..]);
      assert bs == bs[..k] + bs[k..];
    }
  }

  /** One character from each of the four ranges of the RFC 3629 table, and malformed sequences:
      overlong, surrogate, too large, stray continuation, truncated. */
  lemma Rfc3629Examples()
    ensures EncodeChar('A') == [0x41]
    ensures EncodeChar('\U{00FC}') == [0xC3, 0xBC]
    ensures EncodeChar('\U{20AC}') == [0xE2, 0x82, 0xAC]
    ensures EncodeChar('\U{10348}') == [0xF0, 0x90, 0x8D, 0x88]
    ensures Decode([0xC0, 0x80]) == None && Decode([0xED, 0xA0, 0x80]) == None
    ensures Decode([0xF4, 0x90, 0x80, 0x80]) == None && Decode([0x80]) == None && Decode([0xE2, 0x82]) == None
  {
  }
}
