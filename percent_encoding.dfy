/**
 * Percent-encoding as Python's `urllib.parse.quote` and `quote_plus` do it:
 * the text is encoded as UTF-8, every byte that is an RFC 3986 section 2.3
 * unreserved character or one of the caller's safe ASCII characters is kept,
 * and every other byte becomes `%XX` with upper-case hex digits (RFC 3986
 * section 2.1). `quote_plus` also turns spaces into `+`, as in
 * `application/x-www-form-urlencoded`. A strict decoder is given as the
 * partner of the encoder.
 */
module PercentEncoding {
  import opened Wrappers
  import Utf8

  type byte = Utf8.byte

  /** The bytes `quote` never escapes: ASCII letters and digits and `_ . - ~`. */
  predicate AlwaysSafe(b: byte) {
    || ('A' as int <= b <= 'Z' as int)
    || ('a' as int <= b <= 'z' as int)
    || ('0' as int <= b <= '9' as int)
    || b == '_' as int || b == '.' as int || b == '-' as int || b == '~' as int
  }

  /** Whether `quote(..., safe)` keeps byte `b`; the non-ASCII characters of `safe` are ignored. */
  predicate IsSafe(b: byte, safe: string) {
    AlwaysSafe(b) || (b < 0x80 && (b as char) in safe)
  }

  predicate IsUpperHex(c: char) {
    ('0' <= c <= '9') || ('A' <= c <= 'F')
  }

  function HexValue(c: char): (d: int)
    requires IsUpperHex(c)
    ensures 0 <= d < 16
  {
    if c <= '9' then c as int - '0' as int else c as int - 'A' as int + 10
  }

  /** The upper-case hex digit of `d`, which reads back as `d`. */
  function HexDigit(d: int): (c: char)
    requires 0 <= d < 16
    ensures IsUpperHex(c) && HexValue(c) == d
  {
    if d < 10 then ('0' as int + d) as char else ('A' as int + d - 10) as char
  }

  // ---------------------------------------------------------------------------
  // The encoder, following the library's own steps

  /** One byte as `quote` writes it: itself when safe, `%XX` otherwise. */
  function QuoteByte(b: byte, safe: string): string {
    if IsSafe(b, safe) then [b as char] else ['%', HexDigit(b / 16), HexDigit(b % 16)]
  }

  function QuoteBytes(bs: seq<byte>, safe: string): string {
    if bs == [] then [] else QuoteByte(bs[0], safe) + QuoteBytes(bs[1..], safe)
  }

  /** `quote(s, safe)`: percent-encoding of the UTF-8 bytes of `s`. */
  function Quote(s: string, safe: string): string {
    QuoteBytes(Utf8.Encode(s), safe)
  }

  /** `s.replace(' ', '+')`. */
  function ReplaceSpaces(s: string): string {
    if s == [] then [] else [if s[0] == ' ' then '+' else s[0]] + ReplaceSpaces(s[1..])
  }

  /**
   * `quote_plus(s, safe)`: a text without spaces is quoted as it is; otherwise
   * the space is added to the safe characters and every kept space becomes `+`.
   */
  function QuotePlus(s: string, safe: string): string {
    if ' ' !in s then Quote(s, safe) else ReplaceSpaces(Quote(s, safe + " "))
  }

  // ---------------------------------------------------------------------------
  // The same encoding stated byte by byte

  /** One byte of form encoding: a space is `+`, every other byte as `quote` writes it. */
  function FormByte(b: byte, safe: string): string {
    if b == 0x20 then "+" else QuoteByte(b, safe)
  }

  function FormBytes(bs: seq<byte>, safe: string): string {
    if bs == [] then [] else FormByte(bs[0], safe) + FormBytes(bs[1..], safe)
  }

  lemma {:induction false} ReplaceSpacesAppend(a: string, b: string)
    ensures ReplaceSpaces(a + b) == ReplaceSpaces(a) + ReplaceSpaces(b)
  {
    if a != [] {
      assert (a + b)[1..] == a[1..] + b;
      ReplaceSpacesAppend(a[1..], b);
    } else {
      assert a + b == b;
    }
  }

  lemma {:induction false} ReplaceSpacesKeeps(s: string)
    requires ' ' !in s
    ensures ReplaceSpaces(s) == s
  {
    if s != [] {
      ReplaceSpacesKeeps(s[1..]);
    }
  }

  /** Quoting with the space made safe and then replacing spaces is form encoding. */
  lemma {:induction false} ReplacedQuoteIsForm(bs: seq<byte>, safe: string)
    ensures ReplaceSpaces(QuoteBytes(bs, safe + " ")) == FormBytes(bs, safe)
  {
    if bs != [] {
      var b := bs[0];
      ReplaceSpacesAppend(QuoteByte(b, safe + " "), QuoteBytes(bs[1..], safe + " "));
      ReplacedQuoteIsForm(bs[1..], safe);
      if b == 0x20 {
        assert ' ' in safe + " ";
        assert QuoteByte(b, safe + " ") == " ";
      } else {
        assert b < 0x80 ==> ((b as char) in safe + " " <==> (b as char) in safe);
        assert QuoteByte(b, safe + " ") == QuoteByte(b, safe);
        ReplaceSpacesKeeps(QuoteByte(b, safe));
      }
    }
  }

  /** Without a space byte, quoting is form encoding. */
  lemma {:induction false} QuoteIsFormWithoutSpace(bs: seq<byte>, safe: string)
    requires 0x20 !in bs
    ensures QuoteBytes(bs, safe) == FormBytes(bs, safe)
  {
    if bs != [] {
      assert bs[0] != 0x20;
      assert 0x20 !in bs[1..];
      QuoteIsFormWithoutSpace(bs[1..], safe);
    }
  }

  /** `quote_plus` encodes each UTF-8 byte on its own: a space as `+`, every other byte as `quote` does. */
  lemma QuotePlusIsForm(s: string, safe: string)
    ensures QuotePlus(s, safe) == FormBytes(Utf8.Encode(s), safe)
  {
    if ' ' in s {
      ReplacedQuoteIsForm(Utf8.Encode(s), safe);
    } else {
      Utf8.AsciiByteOccurs(s, ' ');
      QuoteIsFormWithoutSpace(Utf8.Encode(s), safe);
    }
  }

  lemma {:induction false} FormBytesAppend(a: seq<byte>, b: seq<byte>, safe: string)
    ensures FormBytes(a + b, safe) == FormBytes(a, safe) + FormBytes(b, safe)
  {
    if a != [] {
      assert (a + b)[1..] == a[1..] + b;
      FormBytesAppend(a[1..], b, safe);
    } else {
      assert a + b == b;
    }
  }

  // ---------------------------------------------------------------------------
  // Output alphabet

  /** The characters form encoding may produce: safe ASCII characters, `+` and `%`. */
  predicate InFormAlphabet(c: char, safe: string) {
    (c as int < 0x80 && IsSafe(c as int, safe)) || c == '+' || c == '%'
  }

  lemma {:induction false} FormBytesAlphabet(bs: seq<byte>, safe: string)
    ensures forall c :: c in FormBytes(bs, safe) ==> InFormAlphabet(c, safe)
  {
    if bs != [] {
      FormBytesAlphabet(bs[1..], safe);
      var b := bs[0];
      forall c | c in FormByte(b, safe) ensures InFormAlphabet(c, safe) {
        if b != 0x20 && !IsSafe(b, safe) {
          assert c == '%' || c == HexDigit(b / 16) || c == HexDigit(b % 16);
        }
      }
    }
  }

  /**
   * Everything `quote_plus` writes is an ASCII letter or digit, one of `_ . - ~`,
   * an ASCII character of `safe`, `+` or `%`.
   */
  lemma QuotePlusAlphabet(s: string, safe: string)
    ensures forall c :: c in QuotePlus(s, safe) ==> InFormAlphabet(c, safe)
  {
    QuotePlusIsForm(s, safe);
    FormBytesAlphabet(Utf8.Encode(s), safe);
  }

  /** A text made only of safe ASCII characters other than the space is left as it is. */
  lemma {:induction false} QuotePlusKeepsSafeText(s: string, safe: string)
    requires forall i :: 0 <= i < |s| ==> s[i] != ' ' && s[i] as int < 0x80 && IsSafe(s[i] as int, safe)
    ensures QuotePlus(s, safe) == s
  {
    QuotePlusIsForm(s, safe);
    if s != [] {
      QuotePlusKeepsSafeText(s[1..], safe);
      QuotePlusIsForm(s[1..], safe);
      assert Utf8.EncodeScalar(s[0]) == [s[0] as int];
      assert Utf8.Encode(s) == [s[0] as int] + Utf8.Encode(s[1..]);
      assert [s[0]] + s[1..] == s;
    }
  }

  /** An ASCII character is kept when safe, written `+` when it is the space, and `%XX` otherwise. */
  lemma QuotePlusAscii(c: char, safe: string)
    requires c as int < 0x80
    ensures QuotePlus([c], safe) ==
      if c == ' ' then "+"
      else if IsSafe(c as int, safe) then [c]
      else ['%', HexDigit(c as int / 16), HexDigit(c as int % 16)]
  {
    QuotePlusIsForm([c], safe);
    assert Utf8.Encode([c]) == [c as int];
  }

  // ---------------------------------------------------------------------------
  // The strict decoder

  /**
   * Reads back form-encoded bytes: `%` with two upper-case hex digits, `+` for
   * the space, or a safe ASCII character; anything else is refused.
   */
  function FormDecodeBytes(t: string, safe: string): Option<seq<byte>>
    decreases |t|
  {
    if t == [] then Some([])
    else if t[0] == '%' then
      if |t| >= 3 && IsUpperHex(t[1]) && IsUpperHex(t[2]) then
        var rest :- FormDecodeBytes(t[3..], safe);
        Some([HexValue(t[1]) * 16 + HexValue(t[2])] + rest)
      else None
    else if t[0] == '+' then
      var rest :- FormDecodeBytes(t[1..], safe);
      Some([0x20] + rest)
    else if t[0] as int < 0x80 && IsSafe(t[0] as int, safe) then
      var rest :- FormDecodeBytes(t[1..], safe);
      Some([t[0] as int] + rest)
    else None
  }

  /** Reads back a form-encoded text: its bytes, then UTF-8 decoding. */
  function FormDecode(t: string, safe: string): Option<string> {
    var bs :- FormDecodeBytes(t, safe);
    Utf8.Decode(bs)
  }

  lemma FormDecodeByte(b: byte, rest: string, safe: string)
    requires '%' !in safe && '+' !in safe
    ensures FormDecodeBytes(FormByte(b, safe) + rest, safe) ==
      match FormDecodeBytes(rest, safe)
      case None => None
      case Some(r) => Some([b] + r)
  {
    var t := FormByte(b, safe) + rest;
    if b == 0x20 {
      assert t[0] == '+' && t[1..] == rest;
    } else if IsSafe(b, safe) {
      assert t[0] == b as char && t[1..] == rest;
      assert b != '%' as int && b != '+' as int;
    } else {
      assert t[0] == '%' && t[3..] == rest;
      assert HexValue(t[1]) * 16 + HexValue(t[2]) == b;
    }
  }

  lemma {:induction false} FormDecodeBytesRoundTrip(bs: seq<byte>, safe: string)
    requires '%' !in safe && '+' !in safe
    ensures FormDecodeBytes(FormBytes(bs, safe), safe) == Some(bs)
  {
    if bs != [] {
      FormDecodeByte(bs[0], FormBytes(bs[1..], safe), safe);
      FormDecodeBytesRoundTrip(bs[1..], safe);
      assert [bs[0]] + bs[1..] == bs;
    }
  }

  /**
   * Decoding recovers the text `quote_plus` encoded, provided `%` and `+`
   * are not among the safe characters (they would then be ambiguous).
   */
  lemma DecodeQuotePlus(s: string, safe: string)
    requires '%' !in safe && '+' !in safe
    ensures FormDecode(QuotePlus(s, safe), safe) == Some(s)
  {
    QuotePlusIsForm(s, safe);
    FormDecodeBytesRoundTrip(Utf8.Encode(s), safe);
    Utf8.DecodeEncode(s);
  }
}
