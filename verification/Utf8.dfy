/** UTF-8 as Rust strings use it: shortest forms only, no surrogates, nothing above U+10FFFF. */
module Utf8 {
  import opened Wrappers

  type Byte = b: nat | b < 256

  function EncodeChar(c: char): (bytes: seq<Byte>)
    ensures 1 <= |bytes| <= 4
  {
    var n := c as nat;
    if n < 0x80 then [n]
    else if n < 0x800 then [0xC0 + n / 64, 0x80 + n % 64]
    else if n < 0x1_0000 then [0xE0 + n / 4096, 0x80 + n / 64 % 64, 0x80 + n % 64]
    else [0xF0 + n / 262144, 0x80 + n / 4096 % 64, 0x80 + n / 64 % 64, 0x80 + n % 64]
  }

  function Encode(s: string): seq<Byte> {
    if s == [] then [] else EncodeChar(s[0]) + Encode(s[1..])
  }

  predicate IsContinuation(b: Byte) {
    0x80 <= b < 0xC0
  }

  predicate IsScalar(n: nat) {
    n < 0xD800 || 0xE000 <= n < 0x11_0000
  }

  function Join2(a: nat, b: nat): int {
    (a - 0xC0) * 64 + (b - 0x80)
  }

  function Join3(a: nat, b: nat, c: nat): int {
    (a - 0xE0) * 4096 + (b - 0x80) * 64 + (c - 0x80)
  }

  function Join4(a: nat, b: nat, c: nat, d: nat): int {
    (a - 0xF0) * 262144 + (b - 0x80) * 4096 + (c - 0x80) * 64 + (d - 0x80)
  }

  /** The first character and the number of bytes it takes. */
  function DecodeChar(b: seq<Byte>): (r: Option<(char, nat)>)
    ensures r.Some? ==> 1 <= r.value.1 <= |b|
  {
    if b == [] then None
    else if b[0] < 0x80 then Some((b[0] as char, 1))
    else if 0xC0 <= b[0] < 0xE0 && |b| >= 2 && IsContinuation(b[1]) then
      Scalar(Join2(b[0], b[1]), 0x80, 2)
    else if 0xE0 <= b[0] < 0xF0 && |b| >= 3 && IsContinuation(b[1]) && IsContinuation(b[2]) then
      Scalar(Join3(b[0], b[1], b[2]), 0x800, 3)
    else if 0xF0 <= b[0] < 0xF8 && |b| >= 4 && IsContinuation(b[1]) && IsContinuation(b[2]) && IsContinuation(b[3]) then
      Scalar(Join4(b[0], b[1], b[2], b[3]), 0x1_0000, 4)
    else None
  }

  /** A value is accepted only if it needed this many bytes and is a Unicode scalar value. */
  function Scalar(n: nat, least: nat, width: nat): (r: Option<(char, nat)>)
    ensures r.Some? ==> r.value.1 == width
  {
    if n >= least && IsScalar(n) then Some((n as char, width)) else None
  }

  function Decode(b: seq<Byte>): Option<string> {
    if b == [] then Some([])
    else
      match DecodeChar(b)
      case None => None
      case Some((c, width)) =>
        match Decode(b[width..])
        case None => None
        case Some(rest) => Some([c] + rest)
  }

  lemma SplitIn3(n: nat)
    requires n < 0x1_0000
    ensures Join3(0xE0 + n / 4096, 0x80 + n / 64 % 64, 0x80 + n % 64) == n
  {
  }

  lemma SplitIn4(n: nat)
    requires n < 0x11_0000
    ensures Join4(0xF0 + n / 262144, 0x80 + n / 4096 % 64, 0x80 + n / 64 % 64, 0x80 + n % 64) == n
  {
    var q := n / 64;
    assert n == q * 64 + n % 64 && q == q / 64 * 64 + q % 64 && q / 64 == q / 4096 * 64 + q / 64 % 64;
    assert q / 64 == n / 4096 && q / 4096 == n / 262144;
  }

  lemma DecodeEncodedChar(c: char, rest: seq<Byte>)
    ensures DecodeChar(EncodeChar(c) + rest) == Some((c, |EncodeChar(c)|))
  {
    var n := c as nat;
    var bytes := EncodeChar(c) + rest;
    if n < 0x80 {
      assert bytes[0] == n;
    } else if n < 0x800 {
      assert Join2(bytes[0], bytes[1]) == n;
    } else if n < 0x1_0000 {
      SplitIn3(n);
      assert Join3(bytes[0], bytes[1], bytes[2]) == n;
    } else {
      SplitIn4(n);
      assert Join4(bytes[0], bytes[1], bytes[2], bytes[3]) == n;
    }
  }

  lemma {:induction false} DecodeEncode(s: string)
    ensures Decode(Encode(s)) == Some(s)
  {
    if s != [] {
      var first, rest := EncodeChar(s[0]), Encode(s[1..]);
      DecodeEncodedChar(s[0], rest);
      assert (first + rest)[|first|..] == rest;
      DecodeEncode(s[1..]);
      var all := Encode(s);
      assert all == first + rest && all != [];
      assert DecodeChar(all) == Some((s[0], |first|));
      assert all[|first|..] == rest;
      assert [s[0]] + s[1..] == s;
    }
  }

  lemma Split2(a: nat, b: nat)
    requires 0xC0 <= a < 0xE0 && 0x80 <= b < 0xC0
    ensures Join2(a, b) >= 0 && 0xC0 + Join2(a, b) / 64 == a && 0x80 + Join2(a, b) % 64 == b
  {
  }

  lemma Split3(a: nat, b: nat, c: nat)
    requires 0xE0 <= a < 0xF0 && 0x80 <= b < 0xC0 && 0x80 <= c < 0xC0
    ensures var n := Join3(a, b, c);
            n >= 0 && 0xE0 + n / 4096 == a && 0x80 + n / 64 % 64 == b && 0x80 + n % 64 == c
  {
    var n := Join3(a, b, c);
    assert n / 64 == (a - 0xE0) * 64 + (b - 0x80);
  }

  lemma Split4(a: nat, b: nat, c: nat, d: nat)
    requires 0xF0 <= a < 0xF8 && 0x80 <= b < 0xC0 && 0x80 <= c < 0xC0 && 0x80 <= d < 0xC0
    ensures var n := Join4(a, b, c, d);
            && n >= 0 && 0xF0 + n / 262144 == a && 0x80 + n / 4096 % 64 == b && 0x80 + n / 64 % 64 == c
            && 0x80 + n % 64 == d
  {
    var n := Join4(a, b, c, d);
    assert n / 64 == (a - 0xF0) * 4096 + (b - 0x80) * 64 + (c - 0x80);
    assert n / 4096 == (a - 0xF0) * 64 + (b - 0x80);
  }

  lemma EncodeDecodedChar(b: seq<Byte>, c: char, width: nat)
    requires DecodeChar(b) == Some((c, width))
    ensures width <= |b| && EncodeChar(c) == b[..width]
  {
    if b[0] >= 0x80 {
      if b[0] < 0xE0 {
        Split2(b[0], b[1]);
      } else if b[0] < 0xF0 {
        Split3(b[0], b[1], b[2]);
      } else {
        Split4(b[0], b[1], b[2], b[3]);
      }
    }
  }

  /** Only bytes that some text encodes to are decoded: no longer form, no surrogate, nothing left over. */
  lemma {:induction false} EncodeDecode(b: seq<Byte>, s: string)
    requires Decode(b) == Some(s)
    ensures Encode(s) == b
    decreases |b|
  {
    if b != [] {
      var (c, width) := DecodeChar(b).value;
      EncodeDecodedChar(b, c, width);
      EncodeDecode(b[width..], s[1..]);
      OneMoreChar(b, s[0], width, s[1..], s);
    }
  }

  lemma OneMoreChar(b: seq<Byte>, c: char, width: nat, rest: string, s: string)
    requires width <= |b| && EncodeChar(c) == b[..width] && Encode(rest) == b[width..]
    requires s != "" && s[0] == c && s[1..] == rest
    ensures Encode(s) == b
  {
    assert b == b[..width] + b[width..];
  }

  lemma {:induction false} EncodeConcat(a: string, b: string)
    ensures Encode(a + b) == Encode(a) + Encode(b)
  {
    if a == [] {
      assert a + b == b;
    } else {
      assert (a + b)[1..] == a[1..] + b;
      EncodeConcat(a[1..], b);
    }
  }

  predicate IsAscii(s: string) {
    forall i :: 0 <= i < |s| ==> s[i] as nat < 0x80
  }

  lemma {:induction false} EncodeAscii(s: string)
    requires IsAscii(s)
    ensures |Encode(s)| == |s|
    ensures forall i :: 0 <= i < |s| ==> Encode(s)[i] == s[i] as nat
  {
    if s != [] {
      EncodeAscii(s[1..]);
    }
  }

  /** How many bytes a character takes. */
  function CharLength(c: char): (n: nat)
    ensures 1 <= n <= 4
  {
    if c as nat < 0x80 then 1 else if c as nat < 0x800 then 2 else if c as nat < 0x1_0000 then 3 else 4
  }

  function ByteLength(s: string): nat {
    if s == [] then 0 else CharLength(s[0]) + ByteLength(s[1..])
  }

  lemma {:induction false} EncodedLength(s: string)
    ensures |Encode(s)| == ByteLength(s)
  {
    if s != [] {
      EncodedLength(s[1..]);
    }
  }

  lemma {:induction false} ByteLengthConcat(a: string, b: string)
    ensures ByteLength(a + b) == ByteLength(a) + ByteLength(b)
  {
    if a == [] {
      assert a + b == b;
    } else {
      assert (a + b)[1..] == a[1..] + b;
      ByteLengthConcat(a[1..], b);
    }
  }

  lemma {:induction false} ByteLengthAscii(s: string)
    requires IsAscii(s)
    ensures ByteLength(s) == |s|
  {
    if s != [] {
      ByteLengthAscii(s[1..]);
    }
  }
}
