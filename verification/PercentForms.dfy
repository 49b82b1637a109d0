/**
 * How percent-encoded paths are spelled (RFC 3986, sections 2.1 and 2.3), and
 * which escapes are read.
 */
module PercentForms {
  import opened Wrappers
  import opened Utf8
  import opened PercentPaths

  const UPPER: string := "0123456789ABCDEF"
  const LOWER: string := "0123456789abcdef"

  /** A character that stands for itself in a path. */
  predicate Unescaped(c: char) {
    || 'a' <= c <= 'z' || 'A' <= c <= 'Z' || '0' <= c <= '9'
    || c == '-' || c == '.' || c == '_' || c == '~' || c == '/' || c == ':'
  }

  /** A byte as an encoded path spells it. */
  predicate Spells(b: Byte, text: string) {
    if b < 0x80 && Unescaped(b as char) then text == [b as char]
    else text == "%" + [UPPER[b / 16], UPPER[b % 16]]
  }

  lemma UpperDigit(n: nat)
    requires n < 16
    ensures HexDigit(n) == UPPER[n]
  {
  }

  lemma ByteSpelled(b: Byte)
    ensures Spells(b, EncodeByte(b))
  {
    UpperDigit(b / 16);
    UpperDigit(b % 16);
  }

  /** An encoded path spells the bytes of its text one after the other. */
  lemma EncodedSpells(b: Byte, rest: seq<Byte>)
    ensures EncodeBytes([b] + rest) == EncodeByte(b) + EncodeBytes(rest) && Spells(b, EncodeByte(b))
    ensures EncodeBytes([]) == ""
  {
    ByteSpelled(b);
    assert ([b] + rest)[1..] == rest;
  }

  /** A path that needs no escape is its own encoding. */
  lemma {:induction false} PlainKept(path: string)
    requires forall i :: 0 <= i < |path| ==> Unescaped(path[i])
    ensures EncodeBytes(Utf8.Encode(path)) == path
  {
    if path != "" {
      PlainKept(path[1..]);
      var b := path[0] as nat;
      EncodedSpells(b, Utf8.Encode(path[1..]));
      assert path == [path[0]] + path[1..];
    }
  }

  lemma EscapeBytes(x: Byte, y: Byte, n: nat, m: nat, tail: seq<Byte>, bytes: seq<Byte>)
    requires HexValue(x) == Some(n) && HexValue(y) == Some(m) && n < 16 && m < 16 && bytes == [0x25, x, y] + tail
    ensures DecodeBytes(bytes) == Prefixed([n * 16 + m], DecodeBytes(tail))
  {
    assert bytes[3..] == tail;
  }

  lemma EscapeEncoded(c: char, d: char, rest: string)
    requires c as nat < 0x80 && d as nat < 0x80
    ensures Utf8.Encode(['%', c, d] + rest) == [0x25, c as nat, d as nat] + Utf8.Encode(rest)
  {
    EncodeConcat(['%', c, d], rest);
    EncodeAscii(['%', c, d]);
  }

  /** An escape, with digits in either case, is read as its byte. */
  lemma EscapeRead(n: nat, m: nat, digits: string, rest: string)
    requires n < 16 && m < 16 && (digits == UPPER || digits == LOWER)
    ensures DecodeBytes(Utf8.Encode(['%', digits[n], digits[m]] + rest))
         == Prefixed([n * 16 + m], DecodeBytes(Utf8.Encode(rest)))
  {
    var c, d := digits[n], digits[m];
    DigitValue(n, digits);
    DigitValue(m, digits);
    EscapeEncoded(c, d, rest);
    EscapeBytes(c as nat, d as nat, n, m, Utf8.Encode(rest), Utf8.Encode(['%', c, d] + rest));
  }

  lemma DigitValue(n: nat, digits: string)
    requires n < 16 && (digits == UPPER || digits == LOWER)
    ensures digits[n] as nat < 0x80 && HexValue(digits[n] as nat) == Some(n)
  {
  }

  /** An escape sign without two such digits behind it cannot be read. */
  lemma BrokenEscape(rest: string, i: nat)
    requires i < 2 && (i < |rest| ==> rest[i] !in UPPER && rest[i] !in LOWER)
    ensures DecodeBytes(Utf8.Encode("%" + rest)).None?
  {
    var bytes := Utf8.Encode("%" + rest);
    assert ("%" + rest)[1..] == rest && bytes == [0x25] + Utf8.Encode(rest);
    if |rest| == 0 {
      assert Utf8.Encode(rest) == [];
    } else if |bytes| >= 3 {
      NoValue(rest, i);
    }
  }

  lemma CharValue(c: char)
    ensures HexValue(EncodeChar(c)[0]).Some? ==> |EncodeChar(c)| == 1 && (c in UPPER || c in LOWER)
  {
    if HexValue(EncodeChar(c)[0]).Some? {
      var n := c as nat;
      assert EncodeChar(c) == [n];
      if n <= 0x39 {
        assert UPPER[n - 0x30] == c;
      } else if n >= 0x61 {
        assert LOWER[n - 0x61 + 10] == c;
      } else {
        assert UPPER[n - 0x41 + 10] == c;
      }
    }
  }

  lemma NoValue(rest: string, i: nat)
    requires i < 2 && rest != "" && |Utf8.Encode(rest)| >= 2
    requires i < |rest| ==> rest[i] !in UPPER && rest[i] !in LOWER
    ensures HexValue(Utf8.Encode(rest)[0]).None? || HexValue(Utf8.Encode(rest)[1]).None?
  {
    var bytes := Utf8.Encode(rest);
    CharValue(rest[0]);
    assert bytes[0] == EncodeChar(rest[0])[0];
    if HexValue(bytes[0]).Some? {
      assert |rest| >= 2;
      assert bytes[1..] == Utf8.Encode(rest[1..]);
      CharValue(rest[1]);
      assert bytes[1] == EncodeChar(rest[1])[0];
    }
  }
}
