/** Base64 with the standard alphabet and `=` padding (section 4 of RFC 4648),
    for canonical input: the length is a multiple of four and padding appears
    only at the end of the last quantum. Like Python's `base64.b64decode`, the
    decoder ignores the unused low bits of a padded quantum. */
module Base64 {
  import opened Common

  type byte = b: int | 0 <= b < 256

  /** A 6-bit group: one character of encoded text. */
  type sextet = v: int | 0 <= v < 64

  /** The alphabet of Table 1 of RFC 4648: A-Z, a-z, 0-9, '+', '/'. */
  function SextetChar(v: sextet): char
  {
    if v < 26 then ('A' as int + v) as char
    else if v < 52 then ('a' as int + (v - 26)) as char
    else if v < 62 then ('0' as int + (v - 52)) as char
    else if v == 62 then '+'
    else '/'
  }

  /** The value of an alphabet character; `None` for '=' and every other character. */
  function SextetValue(c: char): (r: Option<sextet>)
    ensures r.Some? ==> SextetChar(r.value) == c
  {
    if 'A' <= c <= 'Z' then Some(c as int - 'A' as int)
    else if 'a' <= c <= 'z' then Some(c as int - 'a' as int + 26)
    else if '0' <= c <= '9' then Some(c as int - '0' as int + 52)
    else if c == '+' then Some(62)
    else if c == '/' then Some(63)
    else None
  }

  lemma SextetRoundTrip(v: sextet)
    ensures SextetValue(SextetChar(v)) == Some(v)
  {
  }

  /** The bytes of one 4-character quantum. Only the last quantum of the text
      may be padded: "xy==" carries one byte and "xyz=" two. */
  function DecodeQuantum(q: string, isLast: bool): (r: Option<seq<byte>>)
    requires |q| == 4
    ensures r.Some? ==> 1 <= |r.value| <= 3 && (!isLast ==> |r.value| == 3)
  {
    var a, b, c, d := SextetValue(q[0]), SextetValue(q[1]), SextetValue(q[2]), SextetValue(q[3]);
    if a.None? || b.None? then None
    else
      var x := a.value * 4 + b.value / 16;
      if c.Some? && d.Some? then
        Some([x, (b.value % 16) * 16 + c.value / 4, (c.value % 4) * 64 + d.value])
      else if isLast && c.Some? && q[3] == '=' then
        Some([x, (b.value % 16) * 16 + c.value / 4])
      else if isLast && q[2] == '=' && q[3] == '=' then
        Some([x])
      else None
  }

  /** `base64.b64decode(s)` on canonical text; `None` on text that is not
      canonical (see `DecodeSomeIff`). Python's non-strict decoder raises
      `binascii.Error` on some of that text but accepts the rest: it discards
      characters outside the alphabet and tolerates some padding errors. */
  function Decode(s: string): (r: Option<seq<byte>>)
    ensures r.Some? ==> 4 * |r.value| <= 3 * |s|
    decreases |s|
  {
    if s == [] then Some([])
    else if |s| < 4 then None
    else
      var q := DecodeQuantum(s[..4], |s| == 4);
      if q.None? || |s| == 4 then q
      else
        match Decode(s[4..])
        case None => None
        case Some(rest) => Some(q.value + rest)
  }

  /** Canonical base64 text: whole quanta of alphabet characters, except that
      the last quantum may end in "=" or "==" (an '=' at the second-to-last
      position must be followed by another). */
  predicate Canonical(s: string)
  {
    && |s| % 4 == 0
    && (forall i :: 0 <= i < |s| ==> SextetValue(s[i]).Some? || (s[i] == '=' && i >= |s| - 2))
    && (|s| >= 2 && s[|s| - 2] == '=' ==> s[|s| - 1] == '=')
  }

  /** The shape of one quantum `Canonical` allows: padding only in the last one. */
  predicate QuantumShape(q: string, isLast: bool)
    requires |q| == 4
  {
    && (forall i :: 0 <= i < 4 ==> SextetValue(q[i]).Some? || (isLast && i >= 2 && q[i] == '='))
    && (q[2] == '=' ==> q[3] == '=')
  }

  lemma DecodeQuantumSome(q: string, isLast: bool)
    requires |q| == 4
    ensures DecodeQuantum(q, isLast).Some? <==> QuantumShape(q, isLast)
  {
    if QuantumShape(q, isLast) {
      assert SextetValue(q[0]).Some? && SextetValue(q[1]).Some?;
    }
  }

  /** Text of more than one quantum is canonical exactly when its first
      quantum is unpadded and the rest is canonical. */
  lemma CanonicalCons(s: string)
    requires |s| > 4
    ensures Canonical(s) <==> QuantumShape(s[..4], false) && Canonical(s[4..])
  {
    var q, t := s[..4], s[4..];
    assert forall i :: 0 <= i < 4 ==> q[i] == s[i];
    assert forall i :: 0 <= i < |t| ==> t[i] == s[i + 4];
    if Canonical(s) {
      assert |s| >= 8;
      assert Canonical(t) by {
        forall i | 0 <= i < |t| ensures SextetValue(t[i]).Some? || (t[i] == '=' && i >= |t| - 2) {
          assert t[i] == s[i + 4];
        }
      }
    }
    if QuantumShape(q, false) && Canonical(t) {
      forall i | 0 <= i < |s| ensures SextetValue(s[i]).Some? || (s[i] == '=' && i >= |s| - 2) {
        if i >= 4 {
          assert s[i] == t[i - 4];
        }
      }
    }
  }

  /** `Decode` accepts exactly the canonical text: it rejects a length that is
      not a multiple of four, a character outside the alphabet other than '=',
      and '=' anywhere but at the end of the last quantum. */
  lemma {:induction false} DecodeSomeIff(s: string)
    ensures Decode(s).Some? <==> Canonical(s)
    decreases |s|
  {
    if s == [] {
    } else if |s| < 4 {
      assert |s| % 4 != 0;
    } else {
      DecodeQuantumSome(s[..4], |s| == 4);
      if |s| == 4 {
        assert s[..4] == s;
      } else {
        DecodeSomeIff(s[4..]);
        CanonicalCons(s);
      }
    }
  }

  /** The four characters for three bytes. */
  function EncodeTriple(x: byte, y: byte, z: byte): string
  {
    [SextetChar(x / 4), SextetChar((x % 4) * 16 + y / 16), SextetChar((y % 16) * 4 + z / 64), SextetChar(z % 64)]
  }

  /** `base64.b64encode(bs)`: the canonical text for a byte sequence. */
  function Encode(bs: seq<byte>): (s: string)
    ensures |bs| > 0 ==> |s| >= 4
  {
    if |bs| == 0 then ""
    else if |bs| == 1 then
      [SextetChar(bs[0] / 4), SextetChar((bs[0] % 4) * 16), '=', '=']
    else if |bs| == 2 then
      [SextetChar(bs[0] / 4), SextetChar((bs[0] % 4) * 16 + bs[1] / 16), SextetChar((bs[1] % 16) * 4), '=']
    else EncodeTriple(bs[0], bs[1], bs[2]) + Encode(bs[3..])
  }

  lemma TripleRoundTrip(x: byte, y: byte, z: byte, isLast: bool)
    ensures DecodeQuantum(EncodeTriple(x, y, z), isLast) == Some([x, y, z])
  {
    var a, b, c, d := x / 4, (x % 4) * 16 + y / 16, (y % 16) * 4 + z / 64, z % 64;
    SextetRoundTrip(a);
    SextetRoundTrip(b);
    SextetRoundTrip(c);
    SextetRoundTrip(d);
    assert b / 16 == x % 4 && b % 16 == y / 16;
    assert c / 4 == y % 16 && c % 4 == z / 64;
    assert a * 4 + b / 16 == x;
    assert (b % 16) * 16 + c / 4 == y;
    assert (c % 4) * 64 + d == z;
  }

  /** A full quantum followed by more text decodes to its three bytes followed
      by the bytes of the rest. */
  lemma DecodeCons(head: string, tail: string)
    requires |head| == 4 && |tail| > 0
    requires DecodeQuantum(head, false).Some? && Decode(tail).Some?
    ensures Decode(head + tail) == Some(DecodeQuantum(head, false).value + Decode(tail).value)
  {
    var s := head + tail;
    assert s[..4] == head && s[4..] == tail;
  }

  lemma PaddedRoundTrip1(x: byte)
    ensures Decode(Encode([x])) == Some([x])
  {
    var q := Encode([x]);
    SextetRoundTrip(x / 4);
    SextetRoundTrip((x % 4) * 16);
    assert DecodeQuantum(q, true) == Some([x]);
  }

  lemma PaddedRoundTrip2(x: byte, y: byte)
    ensures Decode(Encode([x, y])) == Some([x, y])
  {
    var q := Encode([x, y]);
    SextetRoundTrip(x / 4);
    SextetRoundTrip((x % 4) * 16 + y / 16);
    SextetRoundTrip((y % 16) * 4);
    assert DecodeQuantum(q, true) == Some([x, y]);
  }

  /** Three bytes and nothing after them. */
  lemma LastTripleRoundTrip(bs: seq<byte>)
    requires |bs| == 3
    ensures Decode(Encode(bs)) == Some(bs)
  {
    TripleRoundTrip(bs[0], bs[1], bs[2], true);
    assert bs[3..] == [];
    assert Encode(bs) == EncodeTriple(bs[0], bs[1], bs[2]);
    assert bs == [bs[0], bs[1], bs[2]];
  }

  /** The encoding of more than three bytes: the first quantum, then the rest. */
  lemma EncodeCons(bs: seq<byte>)
    requires |bs| > 3
    ensures Encode(bs) == EncodeTriple(bs[0], bs[1], bs[2]) + Encode(bs[3..])
  {
  }

  /** Three bytes in front of text that decodes. */
  lemma RoundTripStep(x: byte, y: byte, z: byte, tail: string, rest: seq<byte>)
    requires |tail| > 0 && Decode(tail) == Some(rest)
    ensures Decode(EncodeTriple(x, y, z) + tail) == Some([x, y, z] + rest)
  {
    TripleRoundTrip(x, y, z, false);
    DecodeCons(EncodeTriple(x, y, z), tail);
  }

  /** At most three bytes: a single quantum, padded when short. */
  lemma ShortRoundTrip(bs: seq<byte>)
    requires |bs| <= 3
    ensures Decode(Encode(bs)) == Some(bs)
  {
    if |bs| == 1 {
      PaddedRoundTrip1(bs[0]);
      assert bs == [bs[0]];
    } else if |bs| == 2 {
      PaddedRoundTrip2(bs[0], bs[1]);
      assert bs == [bs[0], bs[1]];
    } else if |bs| == 3 {
      LastTripleRoundTrip(bs);
    }
  }

  lemma SplitThree<T>(s: seq<T>)
    requires |s| >= 3
    ensures s == [s[0], s[1], s[2]] + s[3..]
  {
  }

  /** Three more bytes in front of bytes that round-trip. */
  lemma RoundTripCons(bs: seq<byte>)
    requires |bs| > 3 && Decode(Encode(bs[3..])) == Some(bs[3..])
    ensures Decode(Encode(bs)) == Some(bs)
  {
    var x, y, z, rest := bs[0], bs[1], bs[2], bs[3..];
    EncodeCons(bs);
    assert |Encode(rest)| > 0;
    RoundTripStep(x, y, z, Encode(rest), rest);
    assert Decode(EncodeTriple(x, y, z) + Encode(rest)) == Some([x, y, z] + rest);
    SplitThree(bs);
  }

  /** Decoding what was encoded gives back the bytes. */
  lemma {:induction false} RoundTrip(bs: seq<byte>)
    ensures Decode(Encode(bs)) == Some(bs)
  {
    if |bs| <= 3 {
      ShortRoundTrip(bs);
    } else {
      RoundTrip(bs[3..]);
      RoundTripCons(bs);
    }
  }
}
