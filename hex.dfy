/** Python's `bytes.hex()` (lower-case, two digits per byte) and
    `bytes.fromhex` (either case, ASCII whitespace allowed between pairs). */
module HexCodec {
  import opened Values

  /** The lower-case digit of a nibble: `0`-`9`, then `a`-`f`. */
  function Digit(d: int): (c: char)
    requires 0 <= d < 16
    ensures DigitValue(c) == Some(d)
  {
    if d < 10 then ('0' as int + d) as char else ('a' as int + d - 10) as char
  }

  /** Lower-case hex of one byte, high nibble first. */
  function ByteHex(x: byte): (r: string)
    ensures |r| == 2
  {
    [Digit(x as int / 16), Digit(x as int % 16)]
  }

  /** `bytes.hex()` */
  function Hex(bs: seq<byte>): (r: string)
    ensures |r| == 2 * |bs|
  {
    if bs == [] then "" else ByteHex(bs[0]) + Hex(bs[1..])
  }

  /** The whitespace CPython skips in `bytes.fromhex`: tab, newline,
      vertical tab, form feed, carriage return and space. */
  predicate IsAsciiSpace(c: char)
  {
    c == ' ' || 9 <= c as int <= 13
  }

  /** The value of one hex digit of either case. */
  function DigitValue(c: char): (r: Option<int>)
    ensures r.Some? ==> 0 <= r.value < 16
  {
    if '0' <= c <= '9' then Some(c as int - '0' as int)
    else if 'a' <= c <= 'f' then Some(c as int - 'a' as int + 10)
    else if 'A' <= c <= 'F' then Some(c as int - 'A' as int + 10)
    else None
  }

  /** `bytes.fromhex`: None where Python raises ValueError. Whitespace may
      separate pairs but not split one. */
  function FromHex(s: string): (r: Option<seq<byte>>)
    ensures r.Some? ==> 2 * |r.value| <= |s|
    decreases |s|
  {
    if s == [] then Some([])
    else if IsAsciiSpace(s[0]) then FromHex(s[1..])
    else if |s| < 2 then None
    else
      match (DigitValue(s[0]), DigitValue(s[1]), FromHex(s[2..]))
      case (Some(hi), Some(lo), Some(rest)) => Some([(hi * 16 + lo) as byte] + rest)
      case _ => None
  }

  lemma ByteHexRoundTrip(x: byte)
    ensures DigitValue(ByteHex(x)[0]).Some? && DigitValue(ByteHex(x)[1]).Some?
    ensures (DigitValue(ByteHex(x)[0]).value * 16 + DigitValue(ByteHex(x)[1]).value) as byte == x
  {
  }

  /** Decoding the hex of a byte string gives it back. */
  lemma {:induction false} FromHexHex(bs: seq<byte>)
    ensures FromHex(Hex(bs)) == Some(bs)
  {
    if bs != [] {
      var s := Hex(bs);
      assert s == ByteHex(bs[0]) + Hex(bs[1..]);
      assert s[2..] == Hex(bs[1..]);
      ByteHexRoundTrip(bs[0]);
      assert !IsAsciiSpace(s[0]) by {
        assert s[0] == ByteHex(bs[0])[0];
      }
      FromHexHex(bs[1..]);
      assert s[0] == ByteHex(bs[0])[0] && s[1] == ByteHex(bs[0])[1];
      assert [bs[0]] + bs[1..] == bs;
    }
  }

  lemma {:induction false} HexConcat(a: seq<byte>, b: seq<byte>)
    ensures Hex(a + b) == Hex(a) + Hex(b)
  {
    if a != [] {
      assert (a + b)[1..] == a[1..] + b;
      assert (a + b)[0] == a[0];
      HexConcat(a[1..], b);
    } else {
      assert a + b == b;
    }
  }

  /** The first 2k hex digits are the hex of the first k bytes, and the
      digits after them the hex of the remaining bytes. */
  lemma HexSplit(bs: seq<byte>, k: nat)
    requires k <= |bs|
    ensures Hex(bs)[..2 * k] == Hex(bs[..k])
    ensures Hex(bs)[2 * k..] == Hex(bs[k..])
  {
    assert bs == bs[..k] + bs[k..];
    HexConcat(bs[..k], bs[k..]);
  }
}
