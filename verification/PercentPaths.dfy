/**
 * File URIs for paths: percent-encoding (RFC 3986, sections 2.1 and 2.3) of every
 * byte that is not unreserved, a slash or a colon, and the way back.
 */
module PercentPaths {
  import opened Wrappers
  import opened Utf8

  predicate IsAlphanumeric(b: Byte) {
    0x30 <= b <= 0x39 || 0x41 <= b <= 0x5A || 0x61 <= b <= 0x7A
  }

  /** Unreserved, or one of the two path characters `/` and `:`. */
  predicate IsPlain(b: Byte) {
    IsAlphanumeric(b) || b == 0x2F || b == 0x3A || b == 0x2D || b == 0x5F || b == 0x2E || b == 0x7E
  }

  function HexDigit(n: nat): char
    requires n < 16
  {
    if n < 10 then '0' + n as char else 'A' + (n - 10) as char
  }

  function HexValue(b: Byte): Option<nat> {
    if 0x30 <= b <= 0x39 then Some(b - 0x30)
    else if 0x61 <= b <= 0x66 then Some(b as nat - 0x61 + 10)
    else if 0x41 <= b <= 0x46 then Some(b as nat - 0x41 + 10)
    else None
  }

  function EncodeByte(b: Byte): string {
    if IsPlain(b) then [b as char] else ['%', HexDigit(b / 16), HexDigit(b % 16)]
  }

  function EncodeBytes(bytes: seq<Byte>): string {
    if bytes == [] then [] else EncodeByte(bytes[0]) + EncodeBytes(bytes[1..])
  }

  function Prefixed(front: seq<Byte>, rest: Option<seq<Byte>>): Option<seq<Byte>> {
    if rest.None? then None else Some(front + rest.value)
  }

  function DecodeBytes(bytes: seq<Byte>): Option<seq<Byte>> {
    if bytes == [] then Some([])
    else if bytes[0] != 0x25 then Prefixed([bytes[0]], DecodeBytes(bytes[1..]))
    else if |bytes| < 3 || HexValue(bytes[1]).None? || HexValue(bytes[2]).None? then None
    else Prefixed([HexValue(bytes[1]).value * 16 + HexValue(bytes[2]).value], DecodeBytes(bytes[3..]))
  }

  method PercentEncodePath(path: string) returns (encoded: string)
    ensures encoded == EncodeBytes(Utf8.Encode(path))
  {
    var bytes := Utf8.Encode(path);
    encoded := "";
    assert bytes[0..] == bytes;
    for i := 0 to |bytes|
      invariant encoded + EncodeBytes(bytes[i..]) == EncodeBytes(bytes)
    {
      var piece;
      if IsPlain(bytes[i]) {
        piece := [bytes[i] as char];
      } else {
        piece := ['%', HexDigit(bytes[i] / 16), HexDigit(bytes[i] % 16)];
      }
      encoded := encoded + piece;
    }
  }

  function PercentDecoded(value: string): Option<string> {
    match DecodeBytes(Utf8.Encode(value))
    case None => None
    case Some(bytes) => Utf8.Decode(bytes)
  }

  lemma PrefixedTwice(a: seq<Byte>, b: seq<Byte>, rest: Option<seq<Byte>>)
    ensures Prefixed(a, Prefixed(b, rest)) == Prefixed(a + b, rest)
  {
    if rest.Some? {
      assert a + (b + rest.value) == a + b + rest.value;
    }
  }

  lemma PrefixedNone(rest: Option<seq<Byte>>)
    ensures Prefixed([], rest) == rest
  {
    if rest.Some? {
      assert [] + rest.value == rest.value;
    }
  }

  method PercentDecodePath(value: string) returns (path: Option<string>)
    ensures path == PercentDecoded(value)
  {
    var bytes := Utf8.Encode(value);
    var decoded: seq<Byte> := [];
    var index := 0;
    assert bytes[0..] == bytes;
    PrefixedNone(DecodeBytes(bytes));
    while index < |bytes|
      invariant index <= |bytes|
      invariant DecodeBytes(bytes) == Prefixed(decoded, DecodeBytes(bytes[index..]))
    {
      assert bytes[index..][1..] == bytes[index + 1..];
      if bytes[index] == 0x25 {
        if |bytes| < index + 3 {
          return None;
        }
        assert bytes[index..][3..] == bytes[index + 3..];
        var high, low := HexValue(bytes[index + 1]), HexValue(bytes[index + 2]);
        if high.None? || low.None? {
          return None;
        }
        PrefixedTwice(decoded, [high.value * 16 + low.value], DecodeBytes(bytes[index + 3..]));
        decoded := decoded + [high.value * 16 + low.value];
        index := index + 3;
      } else {
        PrefixedTwice(decoded, [bytes[index]], DecodeBytes(bytes[index + 1..]));
        decoded := decoded + [bytes[index]];
        index := index + 1;
      }
    }
    assert bytes[|bytes|..] == [];
    assert decoded + [] == decoded;
    path := Utf8.Decode(decoded);
  }

  // ------------------------------------------------------------------ round trips

  lemma {:induction false} EncodedIsAscii(bytes: seq<Byte>)
    ensures IsAscii(EncodeBytes(bytes))
  {
    if bytes != [] {
      EncodedIsAscii(bytes[1..]);
    }
  }

  /** An encoded string as bytes: each of its characters is one byte. */
  function Octets(s: string): seq<Byte>
    requires IsAscii(s)
  {
    seq(|s|, i requires 0 <= i < |s| => s[i] as nat)
  }

  lemma {:induction false} DecodeEncodedBytes(bytes: seq<Byte>)
    ensures IsAscii(EncodeBytes(bytes)) && DecodeBytes(Octets(EncodeBytes(bytes))) == Some(bytes)
  {
    EncodedIsAscii(bytes);
    if bytes != [] {
      var b := bytes[0];
      var first, rest := EncodeByte(b), EncodeBytes(bytes[1..]);
      EncodedIsAscii(bytes[1..]);
      DecodeEncodedBytes(bytes[1..]);
      var all := Octets(first + rest);
      assert all[|first|..] == Octets(rest);
      assert [b] + bytes[1..] == bytes;
      if !IsPlain(b) {
        assert all[0] == 0x25 && all[1] == HexDigit(b / 16) as nat && all[2] == HexDigit(b % 16) as nat;
        assert b / 16 * 16 + b % 16 == b;
      }
    }
  }

  /** Decoding an encoded path gives the path back, for every path. */
  lemma DecodeEncodedPath(path: string)
    ensures PercentDecoded(EncodeBytes(Utf8.Encode(path))) == Some(path)
  {
    var encoded := EncodeBytes(Utf8.Encode(path));
    DecodeEncodedBytes(Utf8.Encode(path));
    EncodeAscii(encoded);
    assert Utf8.Encode(encoded) == Octets(encoded);
    DecodeEncode(path);
  }

  lemma EncodingInjective(a: string, b: string)
    requires EncodeBytes(Utf8.Encode(a)) == EncodeBytes(Utf8.Encode(b))
    ensures a == b
  {
    DecodeEncodedPath(a);
    DecodeEncodedPath(b);
  }

  /** Every character of an encoded path may stand in a URI path as it is, or is the escape sign. */
  predicate InUri(c: char) {
    c == '%' || (c as nat < 256 && IsPlain(c as nat))
  }

  lemma {:induction false} EncodedCharacters(bytes: seq<Byte>)
    ensures forall i :: 0 <= i < |EncodeBytes(bytes)| ==> InUri(EncodeBytes(bytes)[i])
  {
    if bytes != [] {
      EncodedCharacters(bytes[1..]);
    }
  }

  // ---------------------------------------------------------------------- file URIs

  function Slashed(path: string): string {
    if path == [] then [] else [if path[0] == '\\' then '/' else path[0]] + Slashed(path[1..])
  }

  const SCHEME := "file://"

  method PathToFileUri(path: string) returns (uri: string)
    ensures uri == FileUri(path)
  {
    var normalized := Slashed(path);
    var encoded := PercentEncodePath(normalized);
    if normalized != [] && normalized[0] == '/' {
      uri := SCHEME + encoded;
    } else {
      uri := SCHEME + "/" + encoded;
    }
  }

  function FileUri(path: string): string {
    var normalized := Slashed(path);
    SCHEME + (if normalized != [] && normalized[0] == '/' then "" else "/") + EncodeBytes(Utf8.Encode(normalized))
  }

  /** None for another scheme, a broken escape, or bytes that are not UTF-8. */
  function FilePath(uri: string): Option<string> {
    if SCHEME <= uri then PercentDecoded(uri[|SCHEME|..]) else None
  }

  lemma {:induction false} SlashedFacts(path: string)
    ensures |Slashed(path)| == |path|
    ensures forall i :: 0 <= i < |path| ==> Slashed(path)[i] == if path[i] == '\\' then '/' else path[i]
  {
    if path != [] {
      SlashedFacts(path[1..]);
    }
  }

  /** What comes back from a URI is the path with backslashes turned and a slash in front. */
  lemma FileUriRead(path: string)
    ensures FilePath(FileUri(path))
         == Some((if Slashed(path) != [] && Slashed(path)[0] == '/' then "" else "/") + Slashed(path))
  {
    var normalized := Slashed(path);
    var uri := FileUri(path);
    if normalized != [] && normalized[0] == '/' {
      assert uri[|SCHEME|..] == EncodeBytes(Utf8.Encode(normalized));
      DecodeEncodedPath(normalized);
      assert "" + normalized == normalized;
    } else {
      var rooted := "/" + normalized;
      EncodeConcat("/", normalized);
      EncodeAscii("/");
      assert Utf8.Encode(rooted)[1..] == Utf8.Encode(normalized);
      assert Utf8.Encode(rooted)[0] == 0x2F;
      assert EncodeBytes(Utf8.Encode(rooted)) == "/" + EncodeBytes(Utf8.Encode(normalized));
      assert uri[|SCHEME|..] == EncodeBytes(Utf8.Encode(rooted));
      DecodeEncodedPath(rooted);
    }
  }

  /** A path survives the trip through its file URI exactly when it starts with a slash and has no backslash. */
  lemma FileUriRoundTrip(path: string)
    ensures FilePath(FileUri(path)) == Some(path) <==> path != [] && path[0] == '/' && '\\' !in path
  {
    FileUriRead(path);
    SlashedFacts(path);
    var back := FilePath(FileUri(path)).value;
    if path != [] && path[0] == '/' && '\\' !in path {
      assert back == path;
    } else if path == [] || (path[0] != '/' && path[0] != '\\') {
      assert |back| == |path| + 1;
    } else {
      var i :| 0 <= i < |path| && path[i] == '\\';
      assert back == Slashed(path) && back[i] == '/';
    }
  }
}
