/**
 * UTF-8 (RFC 3629) encoding of Unicode scalar values, which is what Python's
 * `str.encode('utf-8')` produces before percent-encoding, and a strict decoder
 * that accepts exactly the encodings the encoder produces.
 */
module Utf8 {
  import opened Wrappers

  type byte = b: int | 0 <= b < 256

  predicate IsContinuation(b: byte) { 0x80 <= b < 0xC0 }

  /** The one to four bytes of a scalar value; only ASCII characters take a single byte below 0x80. */
  function EncodeScalar(c: char): (bs: seq<byte>)
    ensures 1 <= |bs| <= 4
    ensures |bs| == 1 <==> c as int < 0x80
    ensures |bs| == 1 ==> bs[0] == c as int
    ensures forall i :: 0 <= i < |bs| && |bs| > 1 ==> bs[i] >= 0x80
  {
    var n := c as int;
    if n < 0x80 then [n]
    else if n < 0x800 then [0xC0 + n / 0x40, 0x80 + n % 0x40]
    else if n < 0x10000 then [0xE0 + n / 0x1000, 0x80 + (n / 0x40) % 0x40, 0x80 + n % 0x40]
    else [0xF0 + n / 0x40000, 0x80 + (n / 0x1000) % 0x40, 0x80 + (n / 0x40) % 0x40, 0x80 + n % 0x40]
  }

  function Encode(s: string): seq<byte> {
    if s == [] then [] else EncodeScalar(s[0]) + Encode(s[1..])
  }

  /**
   * Decodes the scalar value at the start of `bs` and says how many bytes it
   * took; overlong forms, surrogates and values above U+10FFFF are refused.
   */
  function DecodeScalar(bs: seq<byte>): Option<(char, nat)> {
    if |bs| == 0 then None
    else
      var b0: int := bs[0];
      if b0 < 0x80 then Some((b0 as char, 1))
      else if 0xC2 <= b0 < 0xE0 then
        if |bs| >= 2 && IsContinuation(bs[1]) then
          Some((((b0 - 0xC0) * 0x40 + (bs[1] as int - 0x80)) as char, 2))
        else None
      else if 0xE0 <= b0 < 0xF0 then
        if |bs| >= 3 && IsContinuation(bs[1]) && IsContinuation(bs[2]) then
          var n := (b0 - 0xE0) * 0x1000 + (bs[1] as int - 0x80) * 0x40 + (bs[2] as int - 0x80);
          if 0x800 <= n && !(0xD800 <= n < 0xE000) then Some((n as char, 3)) else None
        else None
      else if 0xF0 <= b0 < 0xF5 then
        if |bs| >= 4 && IsContinuation(bs[1]) && IsContinuation(bs[2]) && IsContinuation(bs[3]) then
          var n := (b0 - 0xF0) * 0x40000 + (bs[1] as int - 0x80) * 0x1000
                   + (bs[2] as int - 0x80) * 0x40 + (bs[3] as int - 0x80);
          if 0x10000 <= n < 0x110000 then Some((n as char, 4)) else None
        else None
      else None
  }

  function Decode(bs: seq<byte>): Option<string>
    decreases |bs|
  {
    if bs == [] then Some([])
    else
      match DecodeScalar(bs)
      case None => None
      case Some((c, k)) =>
        if 0 < k <= |bs| then
          var rest :- Decode(bs[k..]);
          Some([c] + rest)
        else None
  }

  // Arithmetic of the bit fields, on plain integers.

  lemma Fields2(n: int)
    requires 0x80 <= n < 0x800
    ensures 0xC2 <= 0xC0 + n / 0x40 < 0xE0
    ensures (n / 0x40) * 0x40 + n % 0x40 == n
  {
  }

  lemma Fields3(n: int)
    requires 0x800 <= n < 0x10000
    ensures (n / 0x1000) * 0x1000 + ((n / 0x40) % 0x40) * 0x40 + n % 0x40 == n
  {
  }

  lemma Fields4(n: int)
    requires 0x10000 <= n < 0x110000
    ensures 0xF0 <= 0xF0 + n / 0x40000 < 0xF5
    ensures (n / 0x40000) * 0x40000 + ((n / 0x1000) % 0x40) * 0x1000 + ((n / 0x40) % 0x40) * 0x40 + n % 0x40 == n
  {
  }

  lemma Unfields2(a: int, b: int)
    requires 2 <= a < 0x20 && 0 <= b < 0x40
    ensures var n := a * 0x40 + b; 0x80 <= n < 0x800 && n / 0x40 == a && n % 0x40 == b
  {
  }

  lemma Unfields3(a: int, b: int, c: int)
    requires 0 <= a < 0x10 && 0 <= b < 0x40 && 0 <= c < 0x40
    ensures var n := a * 0x1000 + b * 0x40 + c;
      n / 0x1000 == a && (n / 0x40) % 0x40 == b && n % 0x40 == c
  {
    var n := a * 0x1000 + b * 0x40 + c;
    assert n / 0x40 == a * 0x40 + b;
    assert n / 0x1000 == a;
  }

  lemma Unfields4(a: int, b: int, c: int, d: int)
    requires 0 <= a < 0x08 && 0 <= b < 0x40 && 0 <= c < 0x40 && 0 <= d < 0x40
    ensures var n := a * 0x40000 + b * 0x1000 + c * 0x40 + d;
      n / 0x40000 == a && (n / 0x1000) % 0x40 == b && (n / 0x40) % 0x40 == c && n % 0x40 == d
  {
    var n := a * 0x40000 + b * 0x1000 + c * 0x40 + d;
    assert n / 0x40000 == a;
    assert n / 0x1000 == a * 0x40 + b;
    assert n / 0x40 == a * 0x1000 + b * 0x40 + c;
  }

  /** Decoding the encoding of a scalar value, whatever follows it, gives it back with its length. */
  lemma DecodeEncodeScalar(c: char, rest: seq<byte>)
    ensures DecodeScalar(EncodeScalar(c) + rest) == Some((c, |EncodeScalar(c)|))
  {
    var n := c as int;
    var e := EncodeScalar(c);
    var bs := e + rest;
    if n < 0x80 {
      assert bs[0] == n;
    } else if n < 0x800 {
      Fields2(n);
      assert bs[0] == 0xC0 + n / 0x40 && bs[1] == 0x80 + n % 0x40;
    } else if n < 0x10000 {
      Fields3(n);
      assert bs[0] == 0xE0 + n / 0x1000 && bs[1] == 0x80 + (n / 0x40) % 0x40 && bs[2] == 0x80 + n % 0x40;
    } else {
      Fields4(n);
      assert bs[0] == 0xF0 + n / 0x40000 && bs[1] == 0x80 + (n / 0x1000) % 0x40;
      assert bs[2] == 0x80 + (n / 0x40) % 0x40 && bs[3] == 0x80 + n % 0x40;
    }
  }

  /** Decoding undoes encoding. */
  lemma {:induction false} DecodeEncode(s: string)
    ensures Decode(Encode(s)) == Some(s)
  {
    if s != [] {
      var head := EncodeScalar(s[0]);
      DecodeEncodeScalar(s[0], Encode(s[1..]));
      assert Encode(s)[|head|..] == Encode(s[1..]);
      DecodeEncode(s[1..]);
      assert [s[0]] + s[1..] == s;
    }
  }

  /** Whatever the decoder accepts at the start of `bs` is the encoding of the scalar value it returns. */
  lemma EncodeDecodeScalar(bs: seq<byte>)
    requires DecodeScalar(bs).Some?
    ensures 0 < DecodeScalar(bs).value.1 <= |bs|
    ensures bs[..DecodeScalar(bs).value.1] == EncodeScalar(DecodeScalar(bs).value.0)
  {
    var (c, k) := DecodeScalar(bs).value;
    var b0: int := bs[0];
    if b0 < 0x80 {
      assert bs[..k] == [bs[0]];
    } else if b0 < 0xE0 {
      Unfields2(b0 - 0xC0, bs[1] as int - 0x80);
      assert bs[..k] == [bs[0], bs[1]];
    } else if b0 < 0xF0 {
      Unfields3(b0 - 0xE0, bs[1] as int - 0x80, bs[2] as int - 0x80);
      assert bs[..k] == [bs[0], bs[1], bs[2]];
    } else {
      Unfields4(b0 - 0xF0, bs[1] as int - 0x80, bs[2] as int - 0x80, bs[3] as int - 0x80);
      assert bs[..k] == [bs[0], bs[1], bs[2], bs[3]];
    }
  }

  /** The decoder accepts nothing but encodings: decoding `bs` to `s` means `bs` is the encoding of `s`. */
  lemma {:induction false} EncodeDecode(bs: seq<byte>, s: string)
    requires Decode(bs) == Some(s)
    ensures Encode(s) == bs
    decreases |bs|
  {
    if bs != [] {
      var p := DecodeScalar(bs).value;
      var c, k := p.0, p.1;
      EncodeDecodeScalar(bs);
      var rest := Decode(bs[k..]).value;
      assert s == [c] + rest;
      EncodeDecode(bs[k..], rest);
      calc {
        Encode(s);
        EncodeScalar(c) + Encode(rest);
        { assert s[1..] == rest; }
        bs[..k] + bs[k..];
        bs;
      }
    }
  }

  /** An ASCII character occurs in a text exactly when its byte occurs in the text's encoding. */
  lemma {:induction false} AsciiByteOccurs(s: string, c: char)
    requires c as int < 0x80
    ensures c in s <==> c as int in Encode(s)
  {
    if s != [] {
      AsciiByteOccurs(s[1..], c);
      assert Encode(s) == EncodeScalar(s[0]) + Encode(s[1..]);
      assert c in s <==> c == s[0] || c in s[1..];
      var head := EncodeScalar(s[0]);
      assert c as int in head <==> c == s[0] by {
        if |head| == 1 {
          assert head == [s[0] as int];
        }
      }
    }
  }
}
