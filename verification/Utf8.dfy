/** UTF-8 as section 3 of RFC 3629 defines it, with a decoder that undoes it. */
module Utf8 {
  import opened Common

  type Byte = b: int | 0 <= b < 256

  function EncodeChar(c: char): (bs: seq<Byte>)
    ensures 1 <= |bs| <= 4
  {
    var n := c as int;
    if n < 0x80 then [n]
    else if n < 0x800 then [0xC0 + n / 64, 0x80 + n % 64]
    else if n < 0x10000 then [0xE0 + n / 4096, 0x80 + n / 64 % 64, 0x80 + n % 64]
    else
      Planes(n);
      [0xF0 + n / 262144, 0x80 + n / 4096 % 64, 0x80 + n / 64 % 64, 0x80 + n % 64]
  }

  lemma Planes(n: int)
    requires 0 <= n < 0x110000
    ensures 0 <= n / 262144 <= 4
  {
  }

  function Encode(s: string): seq<Byte> {
    if s == "" then [] else EncodeChar(s[0]) + Encode(s[1..])
  }

  predicate IsScalar(n: int) {
    0 <= n < 0xD800 || 0xE000 <= n < 0x110000
  }

  /** How many bytes a leading byte announces; zero when it cannot lead. */
  function Width(lead: Byte): nat {
    if lead < 0x80 then 1 else if lead < 0xC0 then 0 else if lead < 0xE0 then 2 else if lead < 0xF0 then 3
    else if lead < 0xF5 then 4 else 0
  }

  function CodePoint(bs: seq<Byte>): int
    requires 1 <= |bs| <= 4
  {
    var lead: int := bs[0];
    if |bs| == 1 then lead
    else if |bs| == 2 then (lead - 0xC0) * 64 + Payload(bs[1])
    else if |bs| == 3 then (lead - 0xE0) * 4096 + Payload(bs[1]) * 64 + Payload(bs[2])
    else (lead - 0xF0) * 262144 + Payload(bs[1]) * 4096 + Payload(bs[2]) * 64 + Payload(bs[3])
  }

  /** The six bits a continuation byte carries. */
  function Payload(b: int): int {
    b - 0x80
  }

  /** A sequence of the announced width: continuation bytes follow, and the code point is a
      scalar value that needs all of them. */
  predicate WellFormed(bs: seq<Byte>)
    requires 1 <= |bs| <= 4
  {
    && (forall i | 1 <= i < |bs| :: 0x80 <= bs[i] < 0xC0)
    && IsScalar(CodePoint(bs))
    && CodePoint(bs) >= match |bs| case 1 => 0 case 2 => 0x80 case 3 => 0x800 case _ => 0x10000
  }

  function Decode(bs: seq<Byte>): Option<string> {
    if bs == [] then Some("")
    else
      var w := Width(bs[0]);
      if w == 0 || |bs| < w || !WellFormed(bs[..w]) then None
      else
        match Decode(bs[w..])
        case None => None
        case Some(rest) => Some([CodePoint(bs[..w]) as char] + rest)
  }

  lemma ScalarValue(c: char)
    ensures IsScalar(c as int)
  {
  }

  lemma CharRoundTrip(c: char)
    ensures Width(EncodeChar(c)[0]) == |EncodeChar(c)|
    ensures WellFormed(EncodeChar(c)) && CodePoint(EncodeChar(c)) == c as int
  {
    ScalarValue(c);
    var n := c as int;
    if 0x10000 <= n {
      Planes(n);
      assert n / 262144 == n / 64 / 64 / 64 && n / 4096 == n / 64 / 64;
    } else if 0x800 <= n {
      assert n / 4096 == n / 64 / 64;
    }
  }

  lemma {:induction false} RoundTrip(s: string)
    ensures Decode(Encode(s)) == Some(s)
  {
    if s != "" {
      var head, tail := EncodeChar(s[0]), Encode(s[1..]);
      CharRoundTrip(s[0]);
      RoundTrip(s[1..]);
      assert (head + tail)[..|head|] == head && (head + tail)[|head|..] == tail;
      hide EncodeChar, CodePoint, Width, WellFormed;
      assert s == [s[0]] + s[1..];
    }
  }
}
