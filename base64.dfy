/**
  Base64 as the relay uses it (stream_server.py lines 843 and 870): Python's
  `base64.b64encode`, which writes the padded alphabet of section 4 of RFC 4648,
  and `base64.b64decode` with its default `validate=False`, which refuses a
  string holding a non-ASCII character and otherwise runs CPython's lenient
  decoder (`binascii.a2b_base64` in non-strict mode): characters outside the
  alphabet are skipped, a complete pad ends decoding and the rest of the input
  is ignored, and a group left unfinished is an error.
*/
module Base64 {
  import opened Wrappers
  import opened Bytes

  /** A six-bit group, the value one base64 symbol carries. */
  type Sextet = x: int | 0 <= x < 64

  predicate IsAscii(s: string)
  {
    forall i :: 0 <= i < |s| ==> s[i] as int < 128
  }

  /** The 64 symbols of the alphabet of section 4 of RFC 4648 ('=' is not among them). */
  predicate IsSymbol(c: char)
  {
    ('A' <= c <= 'Z') || ('a' <= c <= 'z') || ('0' <= c <= '9') || c == '+' || c == '/'
  }

  function SymbolValue(c: char): (v: Sextet)
    requires IsSymbol(c)
  {
    if 'A' <= c <= 'Z' then c as int - 'A' as int
    else if 'a' <= c <= 'z' then c as int - 'a' as int + 26
    else if '0' <= c <= '9' then c as int - '0' as int + 52
    else if c == '+' then 62
    else 63
  }

  /** The symbol for a sextet; its value is the sextet again. */
  function Symbol(v: Sextet): (c: char)
    ensures IsSymbol(c) && SymbolValue(c) == v
    ensures c as int < 128 && c != '='
  {
    if v < 26 then ('A' as int + v) as char
    else if v < 52 then ('a' as int + (v - 26)) as char
    else if v < 62 then ('0' as int + (v - 52)) as char
    else if v == 62 then '+'
    else '/'
  }

  /** `base64.b64encode`: every three octets become four symbols; a final one or
      two octets become two or three symbols padded with '=' to four. */
  function Encode(b: seq<byte>): (s: string)
    ensures |s| == 4 * ((|b| + 2) / 3)
    ensures IsAscii(s)
    decreases |b|
  {
    if |b| == 0 then []
    else if |b| == 1 then EncodeSingle(b[0])
    else if |b| == 2 then EncodePair(b[0], b[1])
    else
      var g, rest := EncodeGroup(b[0], b[1], b[2]), Encode(b[3..]);
      AsciiConcat(g, rest);
      g + rest
  }

  /** Three octets as four symbols. */
  function EncodeGroup(x: byte, y: byte, z: byte): (g: string)
    ensures |g| == 4 && IsAscii(g)
  {
    [Symbol(x / 4), Symbol(x % 4 * 16 + y / 16), Symbol(y % 16 * 4 + z / 64), Symbol(z % 64)]
  }

  /** A final pair of octets: three symbols and one pad. */
  function EncodePair(x: byte, y: byte): (g: string)
    ensures |g| == 4 && IsAscii(g)
  {
    [Symbol(x / 4), Symbol(x % 4 * 16 + y / 16), Symbol(y % 16 * 4), '=']
  }

  /** A final single octet: two symbols and two pads. */
  function EncodeSingle(x: byte): (g: string)
    ensures |g| == 4 && IsAscii(g)
  {
    [Symbol(x / 4), Symbol(x % 4 * 16), '=', '=']
  }

  lemma AsciiConcat(s: string, t: string)
    requires IsAscii(s) && IsAscii(t)
    ensures IsAscii(s + t)
  {
    assert forall i :: |s| <= i < |s + t| ==> (s + t)[i] == t[i - |s|];
  }

  /** Why `base64.b64decode` raises. */
  datatype DecodeError =
    | NonAscii          // the string does not encode to ASCII
    | OneExtraSymbol    // a group ends after a single symbol
    | IncorrectPadding  // a group ends after two or three symbols without its pad

  /** The decoder's state between characters: `quad` symbols of the current group
      are read, `left` holds their bits not yet written out. */
  predicate GoodState(quad: nat, left: nat)
  {
    quad < 4
    && (quad == 0 ==> left == 0)
    && (quad == 1 ==> left < 64)
    && (quad == 2 ==> left < 16)
    && (quad == 3 ==> left < 4)
  }

  /** The lenient decoding loop over the rest of the input `s`.  `pads` counts the
      '=' seen since the last symbol, and only once two symbols of the group are in:
      two pads after two symbols, or one after three, finish decoding. */
  function Scan(s: string, quad: nat, left: nat, pads: nat, out: seq<byte>): Result<seq<byte>, DecodeError>
    requires GoodState(quad, left)
    decreases |s|
  {
    if s == [] then
      if quad == 0 then Success(out)
      else if quad == 1 then Failure(OneExtraSymbol)
      else Failure(IncorrectPadding)
    else if s[0] == '=' then
      if quad >= 2 && quad + pads + 1 >= 4 then Success(out)
      else Scan(s[1..], quad, left, if quad >= 2 then pads + 1 else pads, out)
    else if !IsSymbol(s[0]) then
      Scan(s[1..], quad, left, pads, out)
    else
      var v := SymbolValue(s[0]);
      if quad == 0 then Scan(s[1..], 1, v, 0, out)
      else if quad == 1 then Scan(s[1..], 2, v % 16, 0, out + [left * 4 + v / 16])
      else if quad == 2 then Scan(s[1..], 3, v % 4, 0, out + [left * 16 + v / 4])
      else Scan(s[1..], 0, 0, 0, out + [left * 64 + v])
  }

  /** `base64.b64decode(s)` with `validate=False`. */
  function Decode(s: string): Result<seq<byte>, DecodeError>
  {
    if !IsAscii(s) then Failure(NonAscii) else Scan(s, 0, 0, 0, [])
  }

  /** How the three octets of a group are cut into four sextets, and back. */
  lemma GroupBits(x: byte, y: byte, z: byte)
    ensures (x / 4) * 4 + (x % 4 * 16 + y / 16) / 16 == x
    ensures (x % 4 * 16 + y / 16) % 16 * 16 + (y % 16 * 4 + z / 64) / 4 == y
    ensures (y % 16 * 4 + z / 64) % 4 * 64 + z % 64 == z
  {
  }

  /** One symbol read by the decoder, in each of the four states of a group. */
  lemma ScanFirst(c: char, rest: string, out: seq<byte>)
    requires IsSymbol(c)
    ensures Scan([c] + rest, 0, 0, 0, out) == Scan(rest, 1, SymbolValue(c), 0, out)
  {
    assert ([c] + rest)[1..] == rest;
  }

  lemma ScanSecond(c: char, rest: string, left: nat, out: seq<byte>)
    requires IsSymbol(c) && left < 64
    ensures Scan([c] + rest, 1, left, 0, out)
         == Scan(rest, 2, SymbolValue(c) % 16, 0, out + [left * 4 + SymbolValue(c) / 16])
  {
    assert ([c] + rest)[1..] == rest;
  }

  lemma ScanThird(c: char, rest: string, left: nat, out: seq<byte>)
    requires IsSymbol(c) && left < 16
    ensures Scan([c] + rest, 2, left, 0, out)
         == Scan(rest, 3, SymbolValue(c) % 4, 0, out + [left * 16 + SymbolValue(c) / 4])
  {
    assert ([c] + rest)[1..] == rest;
  }

  lemma ScanFourth(c: char, rest: string, left: nat, out: seq<byte>)
    requires IsSymbol(c) && left < 4
    ensures Scan([c] + rest, 3, left, 0, out) == Scan(rest, 0, 0, 0, out + [left * 64 + SymbolValue(c)])
  {
    assert ([c] + rest)[1..] == rest;
  }

  /** Four symbols in a row make three octets out of their 24 bits. */
  lemma ScanFourSymbols(c0: char, c1: char, c2: char, c3: char, rest: string, out: seq<byte>)
    requires IsSymbol(c0) && IsSymbol(c1) && IsSymbol(c2) && IsSymbol(c3)
    ensures var v0: int, v1: int, v2: int, v3: int := SymbolValue(c0), SymbolValue(c1), SymbolValue(c2), SymbolValue(c3);
      Scan([c0] + ([c1] + ([c2] + ([c3] + rest))), 0, 0, 0, out)
      == Scan(rest, 0, 0, 0, out + [v0 * 4 + v1 / 16] + [v1 % 16 * 16 + v2 / 4] + [v2 % 4 * 64 + v3])
  {
    var v0: int, v1: int, v2: int := SymbolValue(c0), SymbolValue(c1), SymbolValue(c2);
    ScanFirst(c0, [c1] + ([c2] + ([c3] + rest)), out);
    ScanSecond(c1, [c2] + ([c3] + rest), v0, out);
    ScanThird(c2, [c3] + rest, v1 % 16, out + [v0 * 4 + v1 / 16]);
    ScanFourth(c3, rest, v2 % 4, out + [v0 * 4 + v1 / 16] + [v1 % 16 * 16 + v2 / 4]);
  }

  /** Scanning one encoded group of three octets writes out those octets and
      leaves the decoder at the start of the next group. */
  lemma ScanFullGroup(x: byte, y: byte, z: byte, rest: string, out: seq<byte>)
    ensures Scan(EncodeGroup(x, y, z) + rest, 0, 0, 0, out) == Scan(rest, 0, 0, 0, out + [x, y, z])
  {
    var c0, c1, c2, c3 := Symbol(x / 4), Symbol(x % 4 * 16 + y / 16), Symbol(y % 16 * 4 + z / 64), Symbol(z % 64);
    assert EncodeGroup(x, y, z) + rest == [c0] + ([c1] + ([c2] + ([c3] + rest)));
    ScanFourSymbols(c0, c1, c2, c3, rest, out);
    GroupBits(x, y, z);
    assert out + [x] + [y] + [z] == out + [x, y, z];
  }

  /** A final single octet decodes to itself. */
  lemma ScanLastOne(x: byte, out: seq<byte>)
    ensures Scan(EncodeSingle(x), 0, 0, 0, out) == Success(out + [x])
  {
    var v0, v1 := x / 4, x % 4 * 16;
    GroupBits(x, 0, 0);
    var c0, c1 := Symbol(v0), Symbol(v1);
    var pad: string := ['=', '='];
    var s1 := [c1] + pad;
    assert EncodeSingle(x) == [c0] + s1;
    ScanFirst(c0, s1, out);
    ScanSecond(c1, pad, v0, out);
    assert pad[1..] == ['='];
  }

  /** A final pair of octets decodes to itself. */
  lemma ScanLastTwo(x: byte, y: byte, out: seq<byte>)
    ensures Scan(EncodePair(x, y), 0, 0, 0, out) == Success(out + [x, y])
  {
    var v0, v1, v2 := x / 4, x % 4 * 16 + y / 16, y % 16 * 4;
    GroupBits(x, y, 0);
    var c0, c1, c2 := Symbol(v0), Symbol(v1), Symbol(v2);
    var pad: string := ['='];
    var s2 := [c2] + pad;
    var s1 := [c1] + s2;
    assert EncodePair(x, y) == [c0] + s1;
    ScanFirst(c0, s1, out);
    ScanSecond(c1, s2, v0, out);
    ScanThird(c2, pad, v1 % 16, out + [x]);
    PadEnds(v2 % 4, out + [x] + [y]);
    assert out + [x] + [y] == out + [x, y];
  }

  /** One pad after three symbols ends decoding. */
  lemma PadEnds(left: nat, out: seq<byte>)
    requires left < 4
    ensures Scan(['='], 3, left, 0, out) == Success(out)
  {
  }

  /** Decoding undoes encoding, whatever the octets. */
  lemma {:induction false} ScanEncoded(b: seq<byte>, out: seq<byte>)
    ensures Scan(Encode(b), 0, 0, 0, out) == Success(out + b)
    decreases |b|
  {
    if |b| == 0 {
      assert out + b == out;
    } else if |b| == 1 {
      assert out + b == out + [b[0]];
      ScanLastOne(b[0], out);
    } else if |b| == 2 {
      assert out + b == out + [b[0], b[1]];
      ScanLastTwo(b[0], b[1], out);
    } else {
      ScanEncoded(b[3..], out + b[..3]);
      ScanFirstGroup(b, out);
    }
  }

  /** The first group of a longer input, given that the rest decodes. */
  lemma ScanFirstGroup(b: seq<byte>, out: seq<byte>)
    requires |b| >= 3
    requires Scan(Encode(b[3..]), 0, 0, 0, out + b[..3]) == Success(out + b[..3] + b[3..])
    ensures Scan(Encode(b), 0, 0, 0, out) == Success(out + b)
  {
    var x, y, z := b[0], b[1], b[2];
    assert b[..3] == [x, y, z];
    assert Encode(b) == EncodeGroup(x, y, z) + Encode(b[3..]);
    ScanFullGroup(x, y, z, Encode(b[3..]), out);
    assert out + b[..3] + b[3..] == out + b;
  }

  lemma RoundTrip(b: seq<byte>)
    ensures Decode(Encode(b)) == Success(b)
  {
    ScanEncoded(b, []);
    assert [] + b == b;
  }

  /** Characters that are neither symbols nor '=' (line breaks, blanks) do not
      change what a string decodes to. */
  function WithoutNoise(s: string): (r: string)
    ensures |r| <= |s|
    ensures forall i :: 0 <= i < |r| ==> r[i] == '=' || IsSymbol(r[i])
    ensures (forall i :: 0 <= i < |s| ==> s[i] == '=' || IsSymbol(s[i])) ==> r == s
  {
    if s == [] then []
    else if s[0] == '=' || IsSymbol(s[0]) then [s[0]] + WithoutNoise(s[1..])
    else WithoutNoise(s[1..])
  }

  lemma {:induction false} ScanIgnoresNoise(s: string, quad: nat, left: nat, pads: nat, out: seq<byte>)
    requires GoodState(quad, left)
    ensures Scan(s, quad, left, pads, out) == Scan(WithoutNoise(s), quad, left, pads, out)
    decreases |s|
  {
    if s != [] {
      var t := WithoutNoise(s[1..]);
      if s[0] == '=' || IsSymbol(s[0]) {
        assert WithoutNoise(s) == [s[0]] + t;
        assert ([s[0]] + t)[1..] == t;
      }
      if s[0] == '=' {
        ScanIgnoresNoise(s[1..], quad, left, if quad >= 2 then pads + 1 else pads, out);
      } else if !IsSymbol(s[0]) {
        ScanIgnoresNoise(s[1..], quad, left, pads, out);
      } else {
        var v := SymbolValue(s[0]);
        if quad == 0 {
          ScanIgnoresNoise(s[1..], 1, v, 0, out);
        } else if quad == 1 {
          ScanIgnoresNoise(s[1..], 2, v % 16, 0, out + [left * 4 + v / 16]);
        } else if quad == 2 {
          ScanIgnoresNoise(s[1..], 3, v % 4, 0, out + [left * 16 + v / 4]);
        } else {
          ScanIgnoresNoise(s[1..], 0, 0, 0, out + [left * 64 + v]);
        }
      }
    }
  }

  lemma DecodeIgnoresNoise(s: string)
    requires IsAscii(s)
    ensures Decode(s) == Decode(WithoutNoise(s))
  {
    ScanIgnoresNoise(s, 0, 0, 0, []);
    assert IsAscii(WithoutNoise(s)) by { WithoutNoiseAscii(s); }
  }

  lemma {:induction false} WithoutNoiseAscii(s: string)
    requires IsAscii(s)
    ensures IsAscii(WithoutNoise(s))
    decreases |s|
  {
    if s != [] {
      assert IsAscii(s[1..]) by { assert forall i :: 0 <= i < |s[1..]| ==> s[1..][i] == s[i + 1]; }
      WithoutNoiseAscii(s[1..]);
    }
  }
}
