/** Padded base64 as defined in section 4 of RFC 4648 (Foundation's `base64EncodedString()`). */
module Base64 {
  import opened Wrappers
  import Utf8

  type Byte = Utf8.Byte

  /** The 6-bit value `i` as a character of the base64 alphabet (Table 1 of RFC 4648). */
  function IndexChar(i: int): (c: char)
    requires 0 <= i < 64
    ensures c != '='
  {
    if i < 26 then ('A' as int + i) as char
    else if i < 52 then ('a' as int + (i - 26)) as char
    else if i < 62 then ('0' as int + (i - 52)) as char
    else if i == 62 then '+'
    else '/'
  }

  /** The 6-bit value of a base64 alphabet character. */
  function CharIndex(c: char): (r: Option<int>)
    ensures r.Some? ==> 0 <= r.value < 64
  {
    if 'A' <= c <= 'Z' then Some(c as int - 'A' as int)
    else if 'a' <= c <= 'z' then Some(c as int - 'a' as int + 26)
    else if '0' <= c <= '9' then Some(c as int - '0' as int + 52)
    else if c == '+' then Some(62)
    else if c == '/' then Some(63)
    else None
  }

  lemma CharIndexOfIndexChar(i: int)
    requires 0 <= i < 64
    ensures CharIndex(IndexChar(i)) == Some(i)
  {
  }

  /** Three octets as four characters. */
  function EncodeGroup(b0: Byte, b1: Byte, b2: Byte): (s: string)
    ensures |s| == 4
  {
    var x, y, z: int := b0, b1, b2;
    [IndexChar(x / 4), IndexChar((x % 4) * 16 + y / 16), IndexChar((y % 16) * 4 + z / 64), IndexChar(z % 64)]
  }

  /** Two final octets: three characters and one '='. */
  function EncodeTwo(b0: Byte, b1: Byte): (s: string)
    ensures |s| == 4
  {
    var x, y: int := b0, b1;
    [IndexChar(x / 4), IndexChar((x % 4) * 16 + y / 16), IndexChar((y % 16) * 4), '=']
  }

  /** One final octet: two characters and "==". */
  function EncodeOne(b0: Byte): (s: string)
    ensures |s| == 4
  {
    var x: int := b0;
    [IndexChar(x / 4), IndexChar((x % 4) * 16), '=', '=']
  }

  /** The encoding: whole groups of three octets, then a final group padded with '='. */
  function Encode(bs: seq<Byte>): (s: string)
    ensures |s| % 4 == 0
    ensures |s| == 0 <==> |bs| == 0
    decreases |bs|
  {
    if |bs| >= 3 then EncodeGroup(bs[0], bs[1], bs[2]) + Encode(bs[3..])
    else if |bs| == 2 then EncodeTwo(bs[0], bs[1])
    else if |bs| == 1 then EncodeOne(bs[0])
    else []
  }

  /** Four alphabet characters as three octets. */
  function DecodeGroup(q: string): Option<seq<Byte>>
    requires |q| == 4
  {
    match (CharIndex(q[0]), CharIndex(q[1]), CharIndex(q[2]), CharIndex(q[3]))
    case (Some(c0), Some(c1), Some(c2), Some(c3)) =>
      Some([c0 * 4 + c1 / 16, (c1 % 16) * 16 + c2 / 4, (c2 % 4) * 64 + c3])
    case _ => None
  }

  /** The final quantum, which may end in one or two padding characters. */
  function DecodeLast(q: string): Option<seq<Byte>>
    requires |q| == 4
  {
    if q[2] == '=' && q[3] == '=' then
      match (CharIndex(q[0]), CharIndex(q[1]))
      case (Some(c0), Some(c1)) => Some([c0 * 4 + c1 / 16])
      case _ => None
    else if q[3] == '=' then
      match (CharIndex(q[0]), CharIndex(q[1]), CharIndex(q[2]))
      case (Some(c0), Some(c1), Some(c2)) => Some([c0 * 4 + c1 / 16, (c1 % 16) * 16 + c2 / 4])
      case _ => None
    else DecodeGroup(q)
  }

  /** Decoding: quanta of four characters; only the last may carry padding. */
  function Decode(s: string): Option<seq<Byte>>
    decreases |s|
  {
    if |s| == 0 then Some([])
    else if |s| < 4 then None
    else if |s| == 4 then DecodeLast(s)
    else
      match DecodeGroup(s[..4])
      case None => None
      case Some(g) =>
        match Decode(s[4..])
        case None => None
        case Some(rest) => Some(g + rest)
  }

  lemma DecodeEncodeGroup(b0: Byte, b1: Byte, b2: Byte)
    ensures DecodeGroup(EncodeGroup(b0, b1, b2)) == Some([b0, b1, b2])
  {
    var x, y, z: int := b0, b1, b2;
    var c0, c1, c2, c3 := x / 4, (x % 4) * 16 + y / 16, (y % 16) * 4 + z / 64, z % 64;
    CharIndexOfIndexChar(c0);
    CharIndexOfIndexChar(c1);
    CharIndexOfIndexChar(c2);
    CharIndexOfIndexChar(c3);
    assert c1 / 16 == x % 4 && c1 % 16 == y / 16;
    assert c2 / 4 == y % 16 && c2 % 4 == z / 64;
  }

  lemma DecodeEncodeOne(b0: Byte)
    ensures DecodeLast(EncodeOne(b0)) == Some([b0])
  {
    var x: int := b0;
    var c0, c1 := x / 4, (x % 4) * 16;
    CharIndexOfIndexChar(c0);
    CharIndexOfIndexChar(c1);
    assert c1 / 16 == x % 4;
  }

  lemma DecodeEncodeTwo(b0: Byte, b1: Byte)
    ensures DecodeLast(EncodeTwo(b0, b1)) == Some([b0, b1])
  {
    var x, y: int := b0, b1;
    var c0, c1, c2 := x / 4, (x % 4) * 16 + y / 16, (y % 16) * 4;
    CharIndexOfIndexChar(c0);
    CharIndexOfIndexChar(c1);
    CharIndexOfIndexChar(c2);
    assert c1 / 16 == x % 4 && c1 % 16 == y / 16 && c2 / 4 == y % 16;
  }

  /** Decoding the encoding of any octet string gives the octets back. */
  lemma {:induction false} RoundTrip(bs: seq<Byte>)
    ensures Decode(Encode(bs)) == Some(bs)
    decreases |bs|
  {
    if |bs| >= 3 {
      var g := EncodeGroup(bs[0], bs[1], bs[2]);
      var rest := Encode(bs[3..]);
      var s := Encode(bs);
      assert s == g + rest;
      DecodeEncodeGroup(bs[0], bs[1], bs[2]);
      assert bs == [bs[0], bs[1], bs[2]] + bs[3..];
      if |rest| == 0 {
        assert s == g;
        assert bs[3..] == [];
        assert g[2] != '=' && g[3] != '=';
        assert DecodeLast(g) == DecodeGroup(g);
        assert bs == [bs[0], bs[1], bs[2]];
      } else {
        assert s[..4] == g && s[4..] == rest;
        RoundTrip(bs[3..]);
      }
    } else if |bs| == 2 {
      DecodeEncodeTwo(bs[0], bs[1]);
      assert bs == [bs[0], bs[1]];
    } else if |bs| == 1 {
      DecodeEncodeOne(bs[0]);
      assert bs == [bs[0]];
    }
  }
}
