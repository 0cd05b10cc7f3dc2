/**
  Unpadded base 64 as Go's `base64.RawStdEncoding` and `base64.RawURLEncoding`
  produce it: the alphabets of section 4 (standard) and section 5 (URL and
  filename safe) of RFC 4648, with the `=` padding omitted as section 3.2 of
  RFC 4648 permits.

  `Encode` is what the handlers use. `Decode` is its inverse; the handlers never
  decode, but the inverse is what lets the model say that a storage key still
  carries all 32 random bytes it was built from.
 */
module Base64 {
  import opened Wrappers

  newtype byte = x: int | 0 <= x < 256

  /** A 6-bit value: the index of one character of an alphabet. */
  type Sextet = x: int | 0 <= x < 64

  datatype Alphabet = Standard | UrlSafe

  /** The two alphabets differ only in the characters for values 62 and 63. */
  function Char62(a: Alphabet): char {
    if a == Standard then '+' else '-'
  }

  function Char63(a: Alphabet): char {
    if a == Standard then '/' else '_'
  }

  /** Membership in the 64-character alphabet of the RFC 4648 table. */
  predicate IsAlphabetChar(a: Alphabet, c: char) {
    || 'A' <= c <= 'Z'
    || 'a' <= c <= 'z'
    || '0' <= c <= '9'
    || c == Char62(a)
    || c == Char63(a)
  }

  /** The character that encodes the 6-bit value `v`: A-Z, a-z, 0-9, then the two special characters. */
  function DigitChar(a: Alphabet, v: Sextet): (c: char)
    ensures IsAlphabetChar(a, c)
  {
    if v < 26 then (65 + v) as char
    else if v < 52 then (97 + (v - 26)) as char
    else if v < 62 then (48 + (v - 52)) as char
    else if v == 62 then Char62(a)
    else Char63(a)
  }

  /** The 6-bit value a character encodes, or None for a character outside the alphabet. */
  function DigitValue(a: Alphabet, c: char): (r: Option<Sextet>)
    ensures r.Some? <==> IsAlphabetChar(a, c)
    ensures r.Some? ==> DigitChar(a, r.value) == c
  {
    if 'A' <= c <= 'Z' then Some(c as int - 65)
    else if 'a' <= c <= 'z' then Some(c as int - 97 + 26)
    else if '0' <= c <= '9' then Some(c as int - 48 + 52)
    else if c == Char62(a) then Some(62)
    else if c == Char63(a) then Some(63)
    else None
  }

  lemma DigitRoundTrip(a: Alphabet, v: Sextet)
    ensures DigitValue(a, DigitChar(a, v)) == Some(v)
  {
  }

  /** Length of the unpadded encoding of n bytes (Go's `EncodedLen` without padding). */
  function EncodedLen(n: nat): nat {
    n / 3 * 4 + (n % 3 * 8 + 5) / 6
  }

  lemma EncodedLenStep(n: nat)
    ensures EncodedLen(n + 3) == EncodedLen(n) + 4
  {
    assert (n + 3) / 3 == n / 3 + 1;
    assert (n + 3) % 3 == n % 3;
  }

  /** Three bytes, 24 bits, become four characters (section 4 of RFC 4648). */
  function EncodeQuantum(a: Alphabet, b0: byte, b1: byte, b2: byte): (r: string)
    ensures |r| == 4 && forall i :: 0 <= i < 4 ==> IsAlphabetChar(a, r[i])
  {
    [ DigitChar(a, b0 as int / 4),
      DigitChar(a, b0 as int % 4 * 16 + b1 as int / 16),
      DigitChar(a, b1 as int % 16 * 4 + b2 as int / 64),
      DigitChar(a, b2 as int % 64) ]
  }

  /** A final group of two bytes becomes three characters, the low two bits zero. */
  function EncodeTwo(a: Alphabet, b0: byte, b1: byte): (r: string)
    ensures |r| == 3 && forall i :: 0 <= i < 3 ==> IsAlphabetChar(a, r[i])
  {
    [ DigitChar(a, b0 as int / 4),
      DigitChar(a, b0 as int % 4 * 16 + b1 as int / 16),
      DigitChar(a, b1 as int % 16 * 4) ]
  }

  /** A final single byte becomes two characters, the low four bits zero. */
  function EncodeOne(a: Alphabet, b0: byte): (r: string)
    ensures |r| == 2 && forall i :: 0 <= i < 2 ==> IsAlphabetChar(a, r[i])
  {
    [ DigitChar(a, b0 as int / 4),
      DigitChar(a, b0 as int % 4 * 16) ]
  }

  function Encode(a: Alphabet, s: seq<byte>): (r: string)
    ensures |r| == EncodedLen(|s|)
    ensures forall i :: 0 <= i < |r| ==> IsAlphabetChar(a, r[i])
    decreases |s|
  {
    if |s| >= 3 then
      var q := EncodeQuantum(a, s[0], s[1], s[2]);
      var rest := Encode(a, s[3..]);
      EncodedLenStep(|s| - 3);
      var r := q + rest;
      assert forall i :: 0 <= i < |r| ==> r[i] == if i < 4 then q[i] else rest[i - 4];
      r
    else if |s| == 2 then EncodeTwo(a, s[0], s[1])
    else if |s| == 1 then EncodeOne(a, s[0])
    else []
  }

  /** Inverse of EncodeQuantum on the 6-bit values of four characters. */
  function DecodeQuantum(d0: Sextet, d1: Sextet, d2: Sextet, d3: Sextet): seq<byte> {
    [ (d0 * 4 + d1 / 16) as byte,
      (d1 % 16 * 16 + d2 / 4) as byte,
      (d2 % 4 * 64 + d3) as byte ]
  }

  /**
    Decodes unpadded base 64. A lone trailing character is never a valid
    encoding; a final group whose unused low bits are not zero is rejected as
    section 3.5 of RFC 4648 allows, so that every string has at most one
    preimage.
   */
  function Decode(a: Alphabet, t: string): (r: Option<seq<byte>>)
    decreases |t|
  {
    if |t| == 0 then Some([])
    else if |t| == 1 then None
    else
      var d0 :- DigitValue(a, t[0]);
      var d1 :- DigitValue(a, t[1]);
      if |t| == 2 then
        if d1 % 16 == 0 then Some([(d0 * 4 + d1 / 16) as byte]) else None
      else
        var d2 :- DigitValue(a, t[2]);
        if |t| == 3 then
          if d2 % 4 == 0 then Some([(d0 * 4 + d1 / 16) as byte, (d1 % 16 * 16 + d2 / 4) as byte]) else None
        else
          var d3 :- DigitValue(a, t[3]);
          var rest :- Decode(a, t[4..]);
          Some(DecodeQuantum(d0, d1, d2, d3) + rest)
  }

  lemma QuantumRoundTrip(b0: byte, b1: byte, b2: byte)
    ensures DecodeQuantum(b0 as int / 4, b0 as int % 4 * 16 + b1 as int / 16,
                          b1 as int % 16 * 4 + b2 as int / 64, b2 as int % 64) == [b0, b1, b2]
  {
  }

  /** Decoding a string that starts with an encoded quantum peels that quantum off. */
  lemma DecodeAfterQuantum(a: Alphabet, b0: byte, b1: byte, b2: byte, rest: string)
    ensures Decode(a, EncodeQuantum(a, b0, b1, b2) + rest)
         == if Decode(a, rest).Some? then Some([b0, b1, b2] + Decode(a, rest).value) else None
  {
    var q := EncodeQuantum(a, b0, b1, b2);
    var t := q + rest;
    assert t[0] == q[0] && t[1] == q[1] && t[2] == q[2] && t[3] == q[3];
    assert t[4..] == rest;
    DigitRoundTrip(a, b0 as int / 4);
    DigitRoundTrip(a, b0 as int % 4 * 16 + b1 as int / 16);
    DigitRoundTrip(a, b1 as int % 16 * 4 + b2 as int / 64);
    DigitRoundTrip(a, b2 as int % 64);
    QuantumRoundTrip(b0, b1, b2);
  }

  /** Decoding undoes encoding, for every byte sequence and both alphabets. */
  lemma {:induction false} DecodeEncode(a: Alphabet, s: seq<byte>)
    ensures Decode(a, Encode(a, s)) == Some(s)
    decreases |s|
  {
    if |s| >= 3 {
      DecodeEncode(a, s[3..]);
      DecodeEncodeQuantum(a, s);
    } else if |s| == 2 {
      assert Encode(a, s) == EncodeTwo(a, s[0], s[1]);
      DecodeEncodeTwo(a, s[0], s[1]);
      assert [s[0], s[1]] == s;
    } else if |s| == 1 {
      assert Encode(a, s) == EncodeOne(a, s[0]);
      DecodeEncodeOne(a, s[0]);
      assert [s[0]] == s;
    }
  }

  /** One step of DecodeEncode: a leading quantum in front of a tail that decodes back. */
  lemma DecodeEncodeQuantum(a: Alphabet, s: seq<byte>)
    requires |s| >= 3 && Decode(a, Encode(a, s[3..])) == Some(s[3..])
    ensures Decode(a, Encode(a, s)) == Some(s)
  {
    var rest := Encode(a, s[3..]);
    EncodeFirstQuantum(a, s);
    DecodeAfterQuantum(a, s[0], s[1], s[2], rest);
    assert [s[0], s[1], s[2]] + s[3..] == s;
  }

  /** Encode takes the first three bytes as one quantum. */
  lemma EncodeFirstQuantum(a: Alphabet, s: seq<byte>)
    requires |s| >= 3
    ensures Encode(a, s) == EncodeQuantum(a, s[0], s[1], s[2]) + Encode(a, s[3..])
  {
  }

  /** A final group of two bytes decodes back from its three characters. */
  lemma DecodeEncodeTwo(a: Alphabet, b0: byte, b1: byte)
    ensures Decode(a, EncodeTwo(a, b0, b1)) == Some([b0, b1])
  {
    var x0, x1 := b0 as int, b1 as int;
    var d0, d1, d2 := x0 / 4, x0 % 4 * 16 + x1 / 16, x1 % 16 * 4;
    DigitRoundTrip(a, d0);
    DigitRoundTrip(a, d1);
    DigitRoundTrip(a, d2);
    assert d1 / 16 == x0 % 4 && d1 % 16 == x1 / 16 && d2 / 4 == x1 % 16 && d2 % 4 == 0;
    assert d0 * 4 + d1 / 16 == x0 && d1 % 16 * 16 + d2 / 4 == x1;
  }

  /** A final single byte decodes back from its two characters. */
  lemma DecodeEncodeOne(a: Alphabet, b0: byte)
    ensures Decode(a, EncodeOne(a, b0)) == Some([b0])
  {
    var x0 := b0 as int;
    var d0, d1 := x0 / 4, x0 % 4 * 16;
    DigitRoundTrip(a, d0);
    DigitRoundTrip(a, d1);
    assert d1 / 16 == x0 % 4 && d1 % 16 == 0;
    assert d0 * 4 + d1 / 16 == x0;
  }

  /** The bit arithmetic of a quantum: splitting the three decoded bytes again gives the four 6-bit values back. */
  lemma QuantumSextets(d0: int, d1: int, d2: int, d3: int)
    requires 0 <= d0 < 64 && 0 <= d1 < 64 && 0 <= d2 < 64 && 0 <= d3 < 64
    ensures (d0 * 4 + d1 / 16) / 4 == d0
    ensures (d0 * 4 + d1 / 16) % 4 * 16 + (d1 % 16 * 16 + d2 / 4) / 16 == d1
    ensures (d1 % 16 * 16 + d2 / 4) % 16 * 4 + (d2 % 4 * 64 + d3) / 64 == d2
    ensures (d2 % 4 * 64 + d3) % 64 == d3
  {
    assert (d0 * 4 + d1 / 16) % 4 == d1 / 16;
    assert (d1 % 16 * 16 + d2 / 4) / 16 == d1 % 16;
    assert (d1 % 16 * 16 + d2 / 4) % 16 == d2 / 4;
    assert (d2 % 4 * 64 + d3) / 64 == d2 % 4;
  }

  /** Re-encoding the bytes of four decoded characters gives the characters back. */
  lemma QuantumInverse(a: Alphabet, d0: Sextet, d1: Sextet, d2: Sextet, d3: Sextet)
    ensures var q := DecodeQuantum(d0, d1, d2, d3);
            EncodeQuantum(a, q[0], q[1], q[2])
            == [DigitChar(a, d0), DigitChar(a, d1), DigitChar(a, d2), DigitChar(a, d3)]
  {
    var q := DecodeQuantum(d0, d1, d2, d3);
    var b0, b1, b2 := q[0] as int, q[1] as int, q[2] as int;
    assert b0 == d0 * 4 + d1 / 16 && b1 == d1 % 16 * 16 + d2 / 4 && b2 == d2 % 4 * 64 + d3;
    QuantumSextets(d0, d1, d2, d3);
    assert b0 / 4 == d0 && b0 % 4 * 16 + b1 / 16 == d1;
    assert b1 % 16 * 4 + b2 / 64 == d2 && b2 % 64 == d3;
  }

  /** Re-encoding the byte of a canonical two-character tail gives the tail back. */
  lemma OneInverse(a: Alphabet, d0: Sextet, d1: Sextet)
    requires d1 % 16 == 0
    ensures EncodeOne(a, (d0 * 4 + d1 / 16) as byte) == [DigitChar(a, d0), DigitChar(a, d1)]
  {
    var b0 := d0 * 4 + d1 / 16;
    assert b0 / 4 == d0 && b0 % 4 == d1 / 16;
  }

  /** Re-encoding the bytes of a canonical three-character tail gives the tail back. */
  lemma TwoInverse(a: Alphabet, d0: Sextet, d1: Sextet, d2: Sextet)
    requires d2 % 4 == 0
    ensures EncodeTwo(a, (d0 * 4 + d1 / 16) as byte, (d1 % 16 * 16 + d2 / 4) as byte)
         == [DigitChar(a, d0), DigitChar(a, d1), DigitChar(a, d2)]
  {
    QuantumSextets(d0, d1, d2, 0);
  }

  /** The bytes of a decoded string of four or more characters: one quantum, then the rest. */
  lemma DecodeLong(a: Alphabet, t: string)
    requires |t| >= 4 && Decode(a, t).Some?
    ensures DigitValue(a, t[0]).Some? && DigitValue(a, t[1]).Some?
    ensures DigitValue(a, t[2]).Some? && DigitValue(a, t[3]).Some?
    ensures Decode(a, t[4..]).Some?
    ensures Decode(a, t).value
         == DecodeQuantum(DigitValue(a, t[0]).value, DigitValue(a, t[1]).value,
                          DigitValue(a, t[2]).value, DigitValue(a, t[3]).value)
            + Decode(a, t[4..]).value
  {
  }

  /** One step of EncodeDecode: a quantum in front of a string that re-encodes correctly. */
  lemma EncodeDecodeStep(a: Alphabet, t: string)
    requires |t| >= 4 && Decode(a, t).Some?
    requires Decode(a, t[4..]).Some? && Encode(a, Decode(a, t[4..]).value) == t[4..]
    ensures Encode(a, Decode(a, t).value) == t
  {
    DecodeLong(a, t);
    var d0, d1 := DigitValue(a, t[0]).value, DigitValue(a, t[1]).value;
    var d2, d3 := DigitValue(a, t[2]).value, DigitValue(a, t[3]).value;
    var rest := Decode(a, t[4..]).value;
    var q := DecodeQuantum(d0, d1, d2, d3);
    QuantumInverse(a, d0, d1, d2, d3);
    var s := q + rest;
    assert s[0] == q[0] && s[1] == q[1] && s[2] == q[2] && s[3..] == rest;
    assert Encode(a, s) == EncodeQuantum(a, q[0], q[1], q[2]) + Encode(a, rest);
    assert t == [t[0], t[1], t[2], t[3]] + t[4..];
  }

  /** Encoding undoes decoding: a string that decodes at all is the encoding of what it decodes to. */
  lemma {:induction false} EncodeDecode(a: Alphabet, t: string)
    requires Decode(a, t).Some?
    ensures Encode(a, Decode(a, t).value) == t
    decreases |t|
  {
    if |t| >= 4 {
      DecodeLong(a, t);
      EncodeDecode(a, t[4..]);
      EncodeDecodeStep(a, t);
    } else if |t| == 3 {
      EncodeDecodeThree(a, t);
    } else if |t| == 2 {
      EncodeDecodeTwo(a, t);
    }
  }

  /** The three characters of a decodable three-character string, and the two bytes they give. */
  lemma DecodeThree(a: Alphabet, t: string) returns (d0: Sextet, d1: Sextet, d2: Sextet)
    requires |t| == 3 && Decode(a, t).Some?
    ensures DigitValue(a, t[0]) == Some(d0) && DigitValue(a, t[1]) == Some(d1) && DigitValue(a, t[2]) == Some(d2)
    ensures d2 % 4 == 0
    ensures Decode(a, t).value == [(d0 * 4 + d1 / 16) as byte, (d1 % 16 * 16 + d2 / 4) as byte]
  {
    d0, d1, d2 := DigitValue(a, t[0]).value, DigitValue(a, t[1]).value, DigitValue(a, t[2]).value;
  }

  /** EncodeDecode for a three-character string. */
  lemma EncodeDecodeThree(a: Alphabet, t: string)
    requires |t| == 3 && Decode(a, t).Some?
    ensures Encode(a, Decode(a, t).value) == t
  {
    var d0, d1, d2 := DecodeThree(a, t);
    ThreeCharTail(a, t, d0, d1, d2);
  }

  /** Re-encoding the two bytes of a canonical three-character tail gives the tail back. */
  lemma ThreeCharTail(a: Alphabet, t: string, d0: Sextet, d1: Sextet, d2: Sextet)
    requires |t| == 3 && d2 % 4 == 0
    requires DigitValue(a, t[0]) == Some(d0) && DigitValue(a, t[1]) == Some(d1) && DigitValue(a, t[2]) == Some(d2)
    ensures Encode(a, [(d0 * 4 + d1 / 16) as byte, (d1 % 16 * 16 + d2 / 4) as byte]) == t
  {
    var s: seq<byte> := [(d0 * 4 + d1 / 16) as byte, (d1 % 16 * 16 + d2 / 4) as byte];
    TwoInverse(a, d0, d1, d2);
    assert Encode(a, s) == EncodeTwo(a, s[0], s[1]);
    assert t == [t[0], t[1], t[2]];
  }

  /** The two characters of a decodable two-character string, and the byte they give. */
  lemma DecodeTwo(a: Alphabet, t: string) returns (d0: Sextet, d1: Sextet)
    requires |t| == 2 && Decode(a, t).Some?
    ensures DigitValue(a, t[0]) == Some(d0) && DigitValue(a, t[1]) == Some(d1)
    ensures d1 % 16 == 0
    ensures Decode(a, t).value == [(d0 * 4 + d1 / 16) as byte]
  {
    d0, d1 := DigitValue(a, t[0]).value, DigitValue(a, t[1]).value;
  }

  /** EncodeDecode for a two-character string. */
  lemma EncodeDecodeTwo(a: Alphabet, t: string)
    requires |t| == 2 && Decode(a, t).Some?
    ensures Encode(a, Decode(a, t).value) == t
  {
    var d0, d1 := DecodeTwo(a, t);
    TwoCharTail(a, t, d0, d1);
  }

  /** Re-encoding the byte of a canonical two-character tail gives the tail back. */
  lemma TwoCharTail(a: Alphabet, t: string, d0: Sextet, d1: Sextet)
    requires |t| == 2 && d1 % 16 == 0
    requires DigitValue(a, t[0]) == Some(d0) && DigitValue(a, t[1]) == Some(d1)
    ensures Encode(a, [(d0 * 4 + d1 / 16) as byte]) == t
  {
    var s: seq<byte> := [(d0 * 4 + d1 / 16) as byte];
    OneInverse(a, d0, d1);
    assert Encode(a, s) == EncodeOne(a, s[0]);
    assert t == [t[0], t[1]];
  }

  /** The first full quantum of the RFC 4648 test vectors, "foo". */
  lemma VectorQuantumFoo()
    ensures EncodeQuantum(Standard, 0x66, 0x6f, 0x6f) == "Zm9v"
  {
    var b0, b1, b2: byte := 0x66, 0x6f, 0x6f;
    assert b0 as int / 4 == 25 && b0 as int % 4 * 16 + b1 as int / 16 == 38;
    assert b1 as int % 16 * 4 + b2 as int / 64 == 61 && b2 as int % 64 == 47;
    assert DigitChar(Standard, 25) == 'Z' && DigitChar(Standard, 38) == 'm';
    assert DigitChar(Standard, 61) == '9' && DigitChar(Standard, 47) == 'v';
  }

  /** The second full quantum of the RFC 4648 test vectors, "bar". */
  lemma VectorQuantumBar()
    ensures EncodeQuantum(Standard, 0x62, 0x61, 0x72) == "YmFy"
  {
    var b0, b1, b2: byte := 0x62, 0x61, 0x72;
    assert b0 as int / 4 == 24 && b0 as int % 4 * 16 + b1 as int / 16 == 38;
    assert b1 as int % 16 * 4 + b2 as int / 64 == 5 && b2 as int % 64 == 50;
    assert DigitChar(Standard, 24) == 'Y' && DigitChar(Standard, 38) == 'm';
    assert DigitChar(Standard, 5) == 'F' && DigitChar(Standard, 50) == 'y';
  }

  /** The short final groups of the RFC 4648 test vectors: "f", "fo", "b", "ba". */
  lemma VectorTails()
    ensures EncodeOne(Standard, 0x66) == "Zg"
    ensures EncodeTwo(Standard, 0x66, 0x6f) == "Zm8"
    ensures EncodeOne(Standard, 0x62) == "Yg"
    ensures EncodeTwo(Standard, 0x62, 0x61) == "YmE"
  {
    assert DigitChar(Standard, 25) == 'Z' && DigitChar(Standard, 32) == 'g';
    assert DigitChar(Standard, 38) == 'm' && DigitChar(Standard, 60) == '8';
    assert DigitChar(Standard, 24) == 'Y' && DigitChar(Standard, 4) == 'E';
  }

  /** The test vectors of section 10 of RFC 4648, "" to "foobar", without their padding. */
  lemma RfcVectors()
    ensures Encode(Standard, []) == ""
    ensures Encode(Standard, [0x66]) == "Zg"
    ensures Encode(Standard, [0x66, 0x6f]) == "Zm8"
    ensures Encode(Standard, [0x66, 0x6f, 0x6f]) == "Zm9v"
    ensures Encode(Standard, [0x66, 0x6f, 0x6f, 0x62]) == "Zm9vYg"
    ensures Encode(Standard, [0x66, 0x6f, 0x6f, 0x62, 0x61]) == "Zm9vYmE"
    ensures Encode(Standard, [0x66, 0x6f, 0x6f, 0x62, 0x61, 0x72]) == "Zm9vYmFy"
  {
    VectorQuantumFoo();
    VectorQuantumBar();
    VectorTails();
    var foo, bar: seq<byte> := [0x66, 0x6f, 0x6f], [0x62, 0x61, 0x72];
    assert Encode(Standard, foo) == "Zm9v" by {
      assert Encode(Standard, foo) == EncodeQuantum(Standard, 0x66, 0x6f, 0x6f) + Encode(Standard, []);
    }
    assert Encode(Standard, foo + [0x62]) == "Zm9v" + "Yg" by {
      QuantumThenTail(foo, [0x62]);
    }
    assert Encode(Standard, foo + [0x62, 0x61]) == "Zm9v" + "YmE" by {
      QuantumThenTail(foo, [0x62, 0x61]);
    }
    assert Encode(Standard, foo + bar) == "Zm9v" + "YmFy" by {
      QuantumThenTail(foo, bar);
      assert Encode(Standard, bar) == EncodeQuantum(Standard, 0x62, 0x61, 0x72) + Encode(Standard, []);
    }
    assert foo + [0x62] == [0x66, 0x6f, 0x6f, 0x62];
    assert foo + [0x62, 0x61] == [0x66, 0x6f, 0x6f, 0x62, 0x61];
    assert foo + bar == [0x66, 0x6f, 0x6f, 0x62, 0x61, 0x72];
  }

  /** A full quantum in front is encoded on its own, then the rest. */
  lemma QuantumThenTail(q: seq<byte>, rest: seq<byte>)
    requires |q| == 3
    ensures Encode(Standard, q + rest) == EncodeQuantum(Standard, q[0], q[1], q[2]) + Encode(Standard, rest)
  {
    var s := q + rest;
    assert s[0] == q[0] && s[1] == q[1] && s[2] == q[2] && s[3..] == rest;
  }

  /** The two alphabets differ only in the characters for 62 and 63. */
  lemma AlphabetVectors()
    ensures Encode(Standard, [0xfb, 0xff]) == "+/8"
    ensures Encode(UrlSafe, [0xfb, 0xff]) == "-_8"
  {
  }

  /** The URL-safe alphabet never produces a path separator. */
  lemma UrlSafeHasNoSlash(s: seq<byte>)
    ensures '/' !in Encode(UrlSafe, s)
  {
  }
}
