/** Lower-case hexadecimal rendering of byte arrays, as each variant's
    FormatBytes builds it with `AppendFormat("{0:x2}", b)`, and its inverse. */
module Hex {
  import opened Wrappers

  newtype byte = x: int | 0 <= x < 256

  /** The hex digit of a nibble, as the "x2" format writes it. */
  function HexDigit(n: nat): (c: char)
    requires n < 16
  {
    if n < 10 then ('0' as int + n) as char else ('a' as int + n - 10) as char
  }

  predicate IsLowerHexChar(c: char) {
    '0' <= c <= '9' || 'a' <= c <= 'f'
  }

  /** The nibble a hex digit stands for; None for any other character. */
  function NibbleValue(c: char): (r: Option<nat>)
    ensures r.Some? <==> IsLowerHexChar(c)
    ensures r.Some? ==> r.value < 16 && HexDigit(r.value) == c
  {
    if '0' <= c <= '9' then Some(c as int - '0' as int)
    else if 'a' <= c <= 'f' then Some(c as int - 'a' as int + 10)
    else None
  }

  /** "{0:x2}" of one byte: high nibble, then low nibble. */
  function ByteHex(b: byte): string {
    [HexDigit(b as int / 16), HexDigit(b as int % 16)]
  }

  /** The concatenation of every byte's two digits, in order. */
  function LowerHex(bs: seq<byte>): (s: string)
    ensures |s| == 2 * |bs|
  {
    if bs == [] then "" else LowerHex(bs[..|bs| - 1]) + ByteHex(bs[|bs| - 1])
  }

  /** Reads pairs of lower-case hex digits back into bytes. */
  function UnHex(s: string): Option<seq<byte>>
    decreases |s|
  {
    if |s| == 0 then Some([])
    else if |s| == 1 then None
    else
      match (UnHex(s[..|s| - 2]), NibbleValue(s[|s| - 2]), NibbleValue(s[|s| - 1]))
      case (Some(prefix), Some(hi), Some(lo)) => Some(prefix + [(hi * 16 + lo) as byte])
      case _ => None
  }

  /** Characters 2i and 2i+1 are the high and low nibbles of byte i. */
  lemma {:induction false} LowerHexAt(bs: seq<byte>, i: nat)
    requires i < |bs|
    ensures LowerHex(bs)[2 * i] == HexDigit(bs[i] as int / 16)
    ensures LowerHex(bs)[2 * i + 1] == HexDigit(bs[i] as int % 16)
  {
    var n := |bs| - 1;
    if i < n {
      LowerHexAt(bs[..n], i);
      assert bs[..n][i] == bs[i];
    }
  }

  /** Every character of the rendering is a lower-case hex digit. */
  lemma LowerHexIsLowerCase(bs: seq<byte>)
    ensures forall j :: 0 <= j < |LowerHex(bs)| ==> IsLowerHexChar(LowerHex(bs)[j])
  {
    forall j | 0 <= j < |LowerHex(bs)|
      ensures IsLowerHexChar(LowerHex(bs)[j])
    {
      LowerHexAt(bs, j / 2);
    }
  }

  /** A digit reads back as the nibble it was written for. */
  lemma NibbleOfDigit(n: nat)
    requires n < 16
    ensures NibbleValue(HexDigit(n)) == Some(n)
  {
  }

  /** The rendering loses nothing: the bytes can be recovered from it. */
  lemma {:induction false} UnHexLowerHex(bs: seq<byte>)
    ensures UnHex(LowerHex(bs)) == Some(bs)
  {
    if bs != [] {
      var n := |bs| - 1;
      var b := bs[n] as int;
      var s := LowerHex(bs);
      assert s == LowerHex(bs[..n]) + ByteHex(bs[n]);
      assert s[..|s| - 2] == LowerHex(bs[..n]);
      NibbleOfDigit(b / 16);
      NibbleOfDigit(b % 16);
      UnHexLowerHex(bs[..n]);
      assert (b / 16 * 16 + b % 16) as byte == bs[n];
      assert bs[..n] + [bs[n]] == bs;
    }
  }

  /** The StringBuilder loop: one "{0:x2}" per byte, appended in order. */
  method AppendHex(data: seq<byte>) returns (sb: string)
    ensures sb == LowerHex(data)
  {
    sb := "";
    var i := 0;
    while i < |data|
      invariant 0 <= i <= |data|
      invariant sb == LowerHex(data[..i])
    {
      var b := data[i];
      assert data[..i + 1][..i] == data[..i];
      sb := sb + [HexDigit(b as int / 16), HexDigit(b as int % 16)];
      i := i + 1;
    }
    assert data[..i] == data;
  }
}
