/** `to_readable_lock_id` (app.py): a lock's physical id arrives as base64 text;
    its first two bytes are a length prefix, and the rest is shown as lowercase
    hex pairs separated by dashes. */
module LockId {
  import opened Common
  import opened Base64

  /** A lowercase hexadecimal digit. */
  function HexDigit(n: int): char
    requires 0 <= n < 16
  {
    if n < 10 then ('0' as int + n) as char else ('a' as int + (n - 10)) as char
  }

  /** The value of a lowercase hexadecimal digit; `None` for any other character. */
  function HexValue(c: char): (r: Option<int>)
    ensures r.Some? ==> 0 <= r.value < 16 && HexDigit(r.value) == c
  {
    if '0' <= c <= '9' then Some(c as int - '0' as int)
    else if 'a' <= c <= 'f' then Some(c as int - 'a' as int + 10)
    else None
  }

  /** `format(b, '02x')`. */
  function ByteHex(b: byte): (s: string)
    ensures |s| == 2
  {
    [HexDigit(b / 16), HexDigit(b % 16)]
  }

  /** The `02x` rendering of every byte, in order. */
  function HexPairs(bs: seq<byte>): (ps: seq<string>)
    ensures |ps| == |bs|
  {
    seq(|bs|, i requires 0 <= i < |bs| => ByteHex(bs[i]))
  }

  /** `'-'.join(format(b, '02x') for b in bs)`. */
  function DashHex(bs: seq<byte>): string
  {
    Join("-", HexPairs(bs))
  }

  /** Python's `bs[2:]`: everything after the two-byte prefix, and empty when
      there are at most two bytes (a slice past the end does not fail). */
  function DropPrefix(bs: seq<byte>): (r: seq<byte>)
    ensures |r| == if |bs| <= 2 then 0 else |bs| - 2
    ensures forall i :: 0 <= i < |r| ==> r[i] == bs[i + 2]
  {
    if |bs| <= 2 then [] else bs[2..]
  }

  /** `to_readable_lock_id(physical_lock_id)`; `None` when `b64decode` raises. */
  function ToReadableLockId(physicalLockId: string): (r: Option<string>)
    ensures r.Some? <==> Decode(physicalLockId).Some?
    ensures r.Some? ==> ParseDashHex(r.value) == Some(DropPrefix(Decode(physicalLockId).value))
  {
    match Decode(physicalLockId)
    case None => None
    case Some(bytes) =>
      var id := DashHex(DropPrefix(bytes));
      ParseDashHexRoundTrip(DropPrefix(bytes));
      Some(id)
  }

  /** The byte that two characters spell in lowercase hex. */
  function ParseByte(hi: char, lo: char): (r: Option<byte>)
    ensures r.Some? ==> ByteHex(r.value) == [hi, lo]
  {
    var h, l := HexValue(hi), HexValue(lo);
    if h.Some? && l.Some? then Some(h.value * 16 + l.value) else None
  }

  /** Splits `s` on '-' and reads every piece as one lowercase hex pair; `None`
      unless `s` has exactly that shape. */
  function ParseDashHex(s: string): Option<seq<byte>>
  {
    if s == "" then Some([]) else ParsePairs(s)
  }

  /** One or more hex pairs separated by single dashes. */
  function ParsePairs(s: string): Option<seq<byte>>
    decreases |s|
  {
    if |s| < 2 then None
    else
      var b := ParseByte(s[0], s[1]);
      if b.None? then None
      else if |s| == 2 then Some([b.value])
      else if |s| > 3 && s[2] == '-' then
        match ParsePairs(s[3..])
        case None => None
        case Some(rest) => Some([b.value] + rest)
      else None
  }

  lemma ByteHexParses(b: byte)
    ensures ParseByte(ByteHex(b)[0], ByteHex(b)[1]) == Some(b)
  {
  }

  /** The dash-separated hex of a non-empty byte sequence: the first pair,
      then a dash and the rest. */
  lemma DashHexCons(bs: seq<byte>)
    requires |bs| >= 2
    ensures DashHex(bs) == ByteHex(bs[0]) + "-" + DashHex(bs[1..])
  {
    assert HexPairs(bs)[1..] == HexPairs(bs[1..]);
  }

  /** Reading the rendered text back gives exactly the bytes. */
  lemma {:induction false} ParseDashHexRoundTrip(bs: seq<byte>)
    ensures ParseDashHex(DashHex(bs)) == Some(bs)
  {
    if |bs| == 0 {
    } else if |bs| == 1 {
      ByteHexParses(bs[0]);
      assert DashHex(bs) == ByteHex(bs[0]);
      assert bs == [bs[0]];
    } else {
      var s := DashHex(bs);
      DashHexCons(bs);
      ByteHexParses(bs[0]);
      ParseDashHexRoundTrip(bs[1..]);
      var tail := DashHex(bs[1..]);
      DashHexLength(bs[1..]);
      assert s[..2] == ByteHex(bs[0]) && s[2] == '-' && s[3..] == tail;
      assert tail != "";
      assert [bs[0]] + bs[1..] == bs;
    }
  }

  /** Only the rendering of some byte sequence parses: the text a successful
      parse accepts is exactly the rendering of what it returns. */
  lemma {:induction false} ParseDashHexOnlyRenderings(s: string)
    requires ParseDashHex(s).Some?
    ensures DashHex(ParseDashHex(s).value) == s
  {
    if s != "" {
      ParsePairsOnlyRenderings(s);
    }
  }

  lemma {:induction false} ParsePairsOnlyRenderings(s: string)
    requires ParsePairs(s).Some?
    ensures DashHex(ParsePairs(s).value) == s
    decreases |s|
  {
    var b := ParseByte(s[0], s[1]).value;
    if |s| == 2 {
      assert DashHex([b]) == ByteHex(b);
    } else {
      var rest := ParsePairs(s[3..]).value;
      ParsePairsOnlyRenderings(s[3..]);
      var bs := [b] + rest;
      assert ParsePairs(s) == Some(bs);
      assert bs[1..] == rest;
      assert |rest| >= 1 by {
        assert DashHex([]) == "";
        assert s[3..] != "";
      }
      DashHexCons(bs);
      assert s == s[..2] + "-" + s[3..];
    }
  }

  /** With k bytes to show the text has 3k - 1 characters (two digits per byte,
      one dash between neighbours), and none for no bytes. */
  lemma {:induction false} DashHexLength(bs: seq<byte>)
    ensures |DashHex(bs)| == if bs == [] then 0 else 3 * |bs| - 1
  {
    if |bs| >= 2 {
      DashHexCons(bs);
      DashHexLength(bs[1..]);
    }
  }

  /** Byte i sits at characters 3i and 3i + 1 as two lowercase hex digits, and a
      dash follows it unless it is the last byte. */
  lemma {:induction false} DashHexAt(bs: seq<byte>, i: nat)
    requires i < |bs|
    ensures |DashHex(bs)| == 3 * |bs| - 1
    ensures DashHex(bs)[3 * i] == HexDigit(bs[i] / 16)
    ensures DashHex(bs)[3 * i + 1] == HexDigit(bs[i] % 16)
    ensures i + 1 < |bs| ==> DashHex(bs)[3 * i + 2] == '-'
  {
    DashHexLength(bs);
    if |bs| >= 2 {
      DashHexCons(bs);
      if i > 0 {
        DashHexAt(bs[1..], i - 1);
      }
    }
  }

  /** The readable id of a decoded physical id of more than two bytes shows every
      byte after the first two; one of at most two bytes reads as "". */
  lemma ReadableLockIdShape(physicalLockId: string)
    requires Decode(physicalLockId).Some?
    ensures var bytes := Decode(physicalLockId).value;
            var r := ToReadableLockId(physicalLockId).value;
            && (|bytes| <= 2 ==> r == "")
            && (|bytes| > 2 ==> |r| == 3 * (|bytes| - 2) - 1)
            && (forall i :: 2 <= i < |bytes| ==>
                  r[3 * (i - 2)] == HexDigit(bytes[i] / 16) && r[3 * (i - 2) + 1] == HexDigit(bytes[i] % 16))
  {
    var bytes := Decode(physicalLockId).value;
    var rest := DropPrefix(bytes);
    DashHexLength(rest);
    forall i | 2 <= i < |bytes|
      ensures DashHex(rest)[3 * (i - 2)] == HexDigit(bytes[i] / 16)
      ensures DashHex(rest)[3 * (i - 2) + 1] == HexDigit(bytes[i] % 16)
    {
      DashHexAt(rest, i - 2);
    }
  }

  lemma EncodeExample()
    ensures Encode([0, 1, 2, 3, 4, 5, 6]) == "AAECAwQFBg=="
  {
    var bytes: seq<byte> := [0, 1, 2, 3, 4, 5, 6];
    assert bytes[3..] == [3, 4, 5, 6] && bytes[3..][3..] == [6];
    assert EncodeTriple(0, 1, 2) == "AAEC";
    assert EncodeTriple(3, 4, 5) == "AwQF";
    assert Encode([6]) == "Bg==";
  }

  lemma DashHexExampleTail()
    ensures DashHex([4, 5, 6]) == "04-05-06"
  {
    assert DashHex([5, 6]) == "05-06" by {
      DashHexCons([5, 6]);
      assert [5, 6][1..] == [6];
      assert ByteHex(5) == "05";
      assert DashHex([6]) == "06";
    }
    DashHexCons([4, 5, 6]);
    assert [4, 5, 6][1..] == [5, 6];
    assert ByteHex(4) == "04";
  }

  lemma DashHexExample()
    ensures DashHex([2, 3, 4, 5, 6]) == "02-03-04-05-06"
  {
    assert DashHex([3, 4, 5, 6]) == "03-04-05-06" by {
      DashHexExampleTail();
      DashHexCons([3, 4, 5, 6]);
      assert [3, 4, 5, 6][1..] == [4, 5, 6];
      assert ByteHex(3) == "03";
    }
    DashHexCons([2, 3, 4, 5, 6]);
    assert [2, 3, 4, 5, 6][1..] == [3, 4, 5, 6];
    assert ByteHex(2) == "02";
  }

  /** The example vector: "AAECAwQFBg==" is the bytes 00 01 02 03 04 05 06, and
      its readable id drops 00 01. */
  lemma ReadableLockIdExample()
    ensures ToReadableLockId("AAECAwQFBg==") == Some("02-03-04-05-06")
  {
    var bytes: seq<byte> := [0, 1, 2, 3, 4, 5, 6];
    EncodeExample();
    RoundTrip(bytes);
    assert DropPrefix(bytes) == [2, 3, 4, 5, 6];
    DashHexExample();
  }
}
