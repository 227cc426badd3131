/** Octets. */
module Bytes {
  newtype byte = x: int | 0 <= x < 256
}

/**
 The base 64 encoding of section 4 of RFC 4648: the standard alphabet
 A-Z a-z 0-9 + /, each group of three octets written as four characters,
 and a final partial group padded with '='. `Decode` is the inverse used
 to state the round trip.
 */
module Base64 {
  import opened Wrappers
  import opened Bytes

  const Pad: char := '='

  /** The character for the 6-bit value `v`: A-Z, a-z, 0-9, '+', '/'. */
  function CharOf(v: int): (c: char)
    requires 0 <= v < 64
    ensures c != Pad
  {
    if v < 26 then ('A' as int + v) as char
    else if v < 52 then ('a' as int + (v - 26)) as char
    else if v < 62 then ('0' as int + (v - 52)) as char
    else if v == 62 then '+'
    else '/'
  }

  /** The alphabet index of `c`, if `c` belongs to the alphabet. */
  function IndexOfChar(c: char): (r: Option<nat>)
    ensures r.Some? ==> r.value < 64 && CharOf(r.value) == c
  {
    if 'A' <= c <= 'Z' then Some(c as int - 'A' as int)
    else if 'a' <= c <= 'z' then Some(c as int - 'a' as int + 26)
    else if '0' <= c <= '9' then Some(c as int - '0' as int + 52)
    else if c == '+' then Some(62)
    else if c == '/' then Some(63)
    else None
  }

  lemma IndexOfCharOf(v: int)
    requires 0 <= v < 64
    ensures IndexOfChar(CharOf(v)) == Some(v as nat)
  {
  }

  predicate IsEncodingChar(c: char) {
    IndexOfChar(c).Some? || c == Pad
  }

  /** Three octets as four 6-bit values, most significant bits first. */
  function Sextets(b0: byte, b1: byte, b2: byte): (r: (int, int, int, int))
    ensures 0 <= r.0 < 64 && 0 <= r.1 < 64 && 0 <= r.2 < 64 && 0 <= r.3 < 64
  {
    var x0 := b0 as int;
    var x1 := b1 as int;
    var x2 := b2 as int;
    (x0 / 4, (x0 % 4) * 16 + x1 / 16, (x1 % 16) * 4 + x2 / 64, x2 % 64)
  }

  function Block(b: seq<byte>): (block: string)
    requires |b| > 0
  {
    var q := Sextets(b[0], if |b| > 1 then b[1] else 0, if |b| > 2 then b[2] else 0);
    [CharOf(q.0), CharOf(q.1),
     if |b| > 1 then CharOf(q.2) else Pad,
     if |b| > 2 then CharOf(q.3) else Pad]
  }

  function Encode(b: seq<byte>): (r: string)
    ensures |r| == 4 * ((|b| + 2) / 3)
    decreases |b|
  {
    if |b| == 0 then ""
    else if |b| <= 3 then Block(b)
    else Block(b) + Encode(b[3..])
  }

  /** "f" of the test vectors of section 10 of RFC 4648: one octet, two characters and two pads. */
  lemma OneOctet()
    ensures Encode([0x66]) == "Zg=="
  {
    var b0: byte := 0x66;
    LastOctet(b0);
    assert b0 as int / 4 == 25 && (b0 as int % 4) * 16 == 32;
    assert CharOf(25) == 'Z' && CharOf(32) == 'g';
    assert [CharOf(25), CharOf(32), Pad, Pad] == "Zg==";
  }

  /** A lone final octet gives two characters and two pads. */
  lemma LastOctet(b0: byte)
    ensures Encode([b0]) == [CharOf(b0 as int / 4), CharOf((b0 as int % 4) * 16), Pad, Pad]
  {
  }

  /** "fo" of the test vectors of section 10 of RFC 4648: two octets, three characters and one pad. */
  lemma TwoOctets()
    ensures Encode([0x66, 0x6f]) == "Zm8="
  {
    var b: seq<byte> := [0x66, 0x6f];
    var q := Sextets(0x66, 0x6f, 0);
    assert q == (25, 38, 60, 0);
    assert Encode(b) == Block(b) == [CharOf(q.0), CharOf(q.1), CharOf(q.2), Pad];
    assert CharOf(25) == 'Z' && CharOf(38) == 'm' && CharOf(60) == '8';
  }

  /** "foo" of the test vectors of section 10 of RFC 4648: one full group, most significant bits first. */
  lemma ThreeOctets()
    ensures Encode([0x66, 0x6f, 0x6f]) == "Zm9v"
  {
    var b: seq<byte> := [0x66, 0x6f, 0x6f];
    var q := Sextets(0x66, 0x6f, 0x6f);
    assert q == (25, 38, 61, 47);
    assert Encode(b) == Block(b) == [CharOf(q.0), CharOf(q.1), CharOf(q.2), CharOf(q.3)];
    assert CharOf(25) == 'Z' && CharOf(38) == 'm' && CharOf(61) == '9' && CharOf(47) == 'v';
  }

  /** "foobar" of the test vectors of section 10 of RFC 4648: two groups in order. */
  lemma SixOctets()
    ensures Encode([0x66, 0x6f, 0x6f, 0x62, 0x61, 0x72]) == "Zm9vYmFy"
  {
    var b: seq<byte> := [0x66, 0x6f, 0x6f, 0x62, 0x61, 0x72];
    var bar: seq<byte> := [0x62, 0x61, 0x72];
    assert Sextets(0x66, 0x6f, 0x6f) == (25, 38, 61, 47);
    assert Sextets(0x62, 0x61, 0x72) == (24, 38, 5, 50);
    assert CharOf(25) == 'Z' && CharOf(38) == 'm' && CharOf(61) == '9' && CharOf(47) == 'v';
    assert CharOf(24) == 'Y' && CharOf(5) == 'F' && CharOf(50) == 'y';
    assert b[3..] == bar;
    assert Block(b) == "Zm9v";
    assert Encode(bar) == "YmFy";
  }

  lemma BlockAlphabet(b: seq<byte>)
    requires |b| > 0
    ensures forall i :: 0 <= i < 4 ==> IsEncodingChar(Block(b)[i])
  {
    var q := Sextets(b[0], if |b| > 1 then b[1] else 0, if |b| > 2 then b[2] else 0);
    IndexOfCharOf(q.0);
    IndexOfCharOf(q.1);
    IndexOfCharOf(q.2);
    IndexOfCharOf(q.3);
  }

  /** An encoding is made of alphabet characters and padding only. */
  lemma {:induction false} EncodeAlphabet(b: seq<byte>)
    ensures forall i :: 0 <= i < |Encode(b)| ==> IsEncodingChar(Encode(b)[i])
    decreases |b|
  {
    if |b| > 0 {
      BlockAlphabet(b);
      if |b| > 3 {
        EncodeAlphabet(b[3..]);
        var e := Encode(b);
        forall i | 0 <= i < |e| ensures IsEncodingChar(e[i]) {
          if i >= 4 {
            assert e[i] == Encode(b[3..])[i - 4];
          } else {
            assert e[i] == Block(b)[i];
          }
        }
      }
    }
  }

  /** Four 6-bit values back to three octets. */
  function Octets(c0: nat, c1: nat, c2: nat, c3: nat): (r: (byte, byte, byte))
    requires c0 < 64 && c1 < 64 && c2 < 64 && c3 < 64
  {
    ((c0 * 4 + c1 / 16) as byte, ((c1 % 16) * 16 + c2 / 4) as byte, ((c2 % 4) * 64 + c3) as byte)
  }

  /**
   Decodes a padded encoding; `None` for text that no encoding produces.
   Only text in whole groups of four decodes, to at most three octets a group
   and at least one for each group after the first.
   */
  function Decode(s: string): (r: Option<seq<byte>>)
    ensures r.Some? ==> |s| % 4 == 0
    ensures r.Some? ==> |r.value| <= 3 * (|s| / 4)
    ensures r.Some? && |s| > 0 ==> |r.value| > 3 * (|s| / 4 - 1)
    decreases |s|
  {
    if |s| == 0 then Some([])
    else if |s| < 4 then None
    else
      var i0 := IndexOfChar(s[0]);
      var i1 := IndexOfChar(s[1]);
      var i2 := IndexOfChar(s[2]);
      var i3 := IndexOfChar(s[3]);
      if i0.None? || i1.None? then None
      else if |s| == 4 && s[2] == Pad && s[3] == Pad then
        Some([Octets(i0.value, i1.value, 0, 0).0])
      else if |s| == 4 && i2.Some? && s[3] == Pad then
        var o := Octets(i0.value, i1.value, i2.value, 0);
        Some([o.0, o.1])
      else if i2.None? || i3.None? then None
      else
        var o := Octets(i0.value, i1.value, i2.value, i3.value);
        assert |s[4..]| / 4 == |s| / 4 - 1 && |s[4..]| % 4 == |s| % 4;
        match Decode(s[4..])
        case None => None
        case Some(rest) => Some([o.0, o.1, o.2] + rest)
  }

  lemma OctetsOfSextets(b0: byte, b1: byte, b2: byte)
    ensures var q := Sextets(b0, b1, b2);
      Octets(q.0, q.1, q.2, q.3) == (b0, b1, b2)
  {
    var x0 := b0 as int;
    var x1 := b1 as int;
    var x2 := b2 as int;
    assert (x0 % 4) * 16 + x1 / 16 == ((x0 % 4) * 16 + x1 / 16) / 16 * 16 + x1 / 16 % 16;
    assert ((x0 % 4) * 16 + x1 / 16) / 16 == x0 % 4;
    assert ((x0 % 4) * 16 + x1 / 16) % 16 == x1 / 16;
    assert ((x1 % 16) * 4 + x2 / 64) / 4 == x1 % 16;
    assert ((x1 % 16) * 4 + x2 / 64) % 4 == x2 / 64;
    assert x0 == (x0 / 4) * 4 + x0 % 4;
    assert x1 == (x1 / 16) * 16 + x1 % 16;
    assert x2 == (x2 / 64) * 64 + x2 % 64;
  }

  function Group(c0: int, c1: int, c2: int, c3: int): string
    requires 0 <= c0 < 64 && 0 <= c1 < 64 && 0 <= c2 < 64 && 0 <= c3 < 64
  {
    [CharOf(c0), CharOf(c1), CharOf(c2), CharOf(c3)]
  }

  lemma DecodeGroup(c0: int, c1: int, c2: int, c3: int, rest: string)
    requires 0 <= c0 < 64 && 0 <= c1 < 64 && 0 <= c2 < 64 && 0 <= c3 < 64
    requires Decode(rest).Some?
    ensures var o := Octets(c0 as nat, c1 as nat, c2 as nat, c3 as nat);
      Decode(Group(c0, c1, c2, c3) + rest) == Some([o.0, o.1, o.2] + Decode(rest).value)
  {
    var s := Group(c0, c1, c2, c3) + rest;
    IndexOfCharOf(c0);
    IndexOfCharOf(c1);
    IndexOfCharOf(c2);
    IndexOfCharOf(c3);
    assert s[4..] == rest;
    assert s[0] == CharOf(c0) && s[1] == CharOf(c1) && s[2] == CharOf(c2) && s[3] == CharOf(c3);
  }

  lemma DecodeEncodeOne(b: seq<byte>)
    requires |b| == 1
    ensures Decode(Encode(b)) == Some(b)
  {
    var q := Sextets(b[0], 0, 0);
    OctetsOfSextets(b[0], 0, 0);
    IndexOfCharOf(q.0);
    IndexOfCharOf(q.1);
    var e := Encode(b);
    assert e == [CharOf(q.0), CharOf(q.1), Pad, Pad];
    assert IndexOfChar(e[0]) == Some(q.0 as nat) && IndexOfChar(e[1]) == Some(q.1 as nat);
    var o := Octets(q.0 as nat, q.1 as nat, 0, 0);
    assert o.0 == b[0];
    assert Decode(e) == Some([o.0]);
    assert [o.0] == b;
  }

  lemma DecodeEncodeTwo(b: seq<byte>)
    requires |b| == 2
    ensures Decode(Encode(b)) == Some(b)
  {
    var q := Sextets(b[0], b[1], 0);
    OctetsOfSextets(b[0], b[1], 0);
    IndexOfCharOf(q.0);
    IndexOfCharOf(q.1);
    IndexOfCharOf(q.2);
    var e := Encode(b);
    assert e == [CharOf(q.0), CharOf(q.1), CharOf(q.2), Pad];
    assert IndexOfChar(e[0]) == Some(q.0 as nat) && IndexOfChar(e[1]) == Some(q.1 as nat);
    assert IndexOfChar(e[2]) == Some(q.2 as nat);
    var o := Octets(q.0 as nat, q.1 as nat, q.2 as nat, 0);
    assert o.0 == b[0] && o.1 == b[1];
    assert Decode(e) == Some([o.0, o.1]);
    assert [o.0, o.1] == b;
  }

  lemma EncodeFull(b: seq<byte>)
    requires |b| >= 3
    ensures var q := Sextets(b[0], b[1], b[2]);
      Encode(b) == Group(q.0, q.1, q.2, q.3) + Encode(b[3..])
  {
    var q := Sextets(b[0], b[1], b[2]);
    assert Block(b) == Group(q.0, q.1, q.2, q.3);
    if |b| == 3 {
      assert Encode(b[3..]) == "";
      assert Block(b) + "" == Block(b);
    }
  }

  lemma HeadThree<T>(b: seq<T>)
    requires |b| >= 3
    ensures [b[0], b[1], b[2]] + b[3..] == b
  {
    assert forall i :: 3 <= i < |b| ==> ([b[0], b[1], b[2]] + b[3..])[i] == b[i];
  }

  /** The group that encodes three octets decodes to them, in front of whatever the rest decodes to. */
  lemma DecodeOwnGroup(b: seq<byte>, rest: string)
    requires |b| >= 3 && Decode(rest).Some?
    ensures var q := Sextets(b[0], b[1], b[2]);
      Decode(Group(q.0, q.1, q.2, q.3) + rest) == Some([b[0], b[1], b[2]] + Decode(rest).value)
  {
    var q := Sextets(b[0], b[1], b[2]);
    OctetsOfSextets(b[0], b[1], b[2]);
    DecodeGroup(q.0, q.1, q.2, q.3, rest);
  }

  /** One full group: decoding the encoding of `b` extends the decoding of the rest. */
  lemma DecodeEncodeStep(b: seq<byte>)
    requires |b| >= 3
    requires Decode(Encode(b[3..])) == Some(b[3..])
    ensures Decode(Encode(b)) == Some(b)
  {
    EncodeFull(b);
    DecodeOwnGroup(b, Encode(b[3..]));
    HeadThree(b);
  }

  /** Decoding an encoding gives back the original octets. */
  lemma {:induction false} DecodeEncode(b: seq<byte>)
    ensures Decode(Encode(b)) == Some(b)
    decreases |b|
  {
    if |b| == 1 {
      DecodeEncodeOne(b);
    } else if |b| == 2 {
      DecodeEncodeTwo(b);
    } else if |b| >= 3 {
      DecodeEncode(b[3..]);
      DecodeEncodeStep(b);
    }
  }
}
