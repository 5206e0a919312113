/** The UTF-8 form (RFC 3629) in which Go strings, JSON documents and URLs hold text. */
module Utf8 {
  import opened Common

  type Byte = n: nat | n < 256

  function EncodeChar(c: char): (bytes: seq<Byte>)
    ensures 1 <= |bytes| <= 4
  {
    var n := c as int;
    if n < 0x80 then [n]
    else if n < 0x800 then [0xC0 + n / 0x40, 0x80 + n % 0x40]
    else if n < 0x1_0000 then [0xE0 + n / 0x1000, 0x80 + n / 0x40 % 0x40, 0x80 + n % 0x40]
    else [0xF0 + n / 0x4_0000, 0x80 + n / 0x1000 % 0x40, 0x80 + n / 0x40 % 0x40, 0x80 + n % 0x40]
  }

  function Encode(text: string): seq<Byte>
  {
    if text == [] then [] else EncodeChar(text[0]) + Encode(text[1..])
  }

  predicate Scalar(n: int) { 0 <= n < 0xD800 || 0xE000 <= n < 0x11_0000 }

  /** Length of the sequence a lead byte announces; 0 for a byte that cannot lead. */
  function LeadLength(b: Byte): nat
  {
    if b < 0x80 then 1 else if b < 0xC0 then 0 else if b < 0xE0 then 2 else if b < 0xF0 then 3
    else if b < 0xF8 then 4 else 0
  }

  /** The code point that `n` bytes spell, without any check. */
  function CodePoint(bytes: seq<int>, n: nat): int
    requires 1 <= n <= 4 && n <= |bytes|
  {
    if n == 1 then bytes[0]
    else if n == 2 then (bytes[0] - 0xC0) * 0x40 + (bytes[1] - 0x80)
    else if n == 3 then (bytes[0] - 0xE0) * 0x1000 + (bytes[1] - 0x80) * 0x40 + (bytes[2] - 0x80)
    else (bytes[0] - 0xF0) * 0x4_0000 + (bytes[1] - 0x80) * 0x1000 + (bytes[2] - 0x80) * 0x40 + (bytes[3] - 0x80)
  }

  /** The first character; overlong and otherwise malformed forms are refused. */
  function DecodeFirst(bytes: seq<Byte>): (r: Option<(char, seq<Byte>)>)
    requires bytes != []
    ensures r.Some? ==> |r.value.1| < |bytes|
    ensures r.Some? ==> EncodeChar(r.value.0) + r.value.1 == bytes
  {
    var n := LeadLength(bytes[0]);
    if n == 0 || |bytes| < n then None
    else
      var code := CodePoint(bytes, n);
      if Scalar(code) && EncodeChar(code as char) == bytes[..n] then Some((code as char, bytes[n..])) else None
  }

  function Decode(bytes: seq<Byte>): Option<string>
    decreases |bytes|
  {
    if bytes == [] then Some([])
    else
      var (c, rest) :- DecodeFirst(bytes);
      var text :- Decode(rest);
      Some([c] + text)
  }

  lemma SixBitGroups(n: nat)
    requires n < 0x11_0000
    ensures n == n / 0x40 * 0x40 + n % 0x40
    ensures n / 0x40 == n / 0x1000 * 0x40 + n / 0x40 % 0x40
    ensures n / 0x1000 == n / 0x4_0000 * 0x40 + n / 0x1000 % 0x40
    ensures n / 0x40 < 0x4400 && n / 0x1000 < 0x110 && n / 0x4_0000 < 5
  {
    assert n / 0x40 / 0x40 == n / 0x1000;
    assert n / 0x1000 / 0x40 == n / 0x4_0000;
  }

  lemma CodePointEncoded(c: char, rest: seq<Byte>)
    ensures LeadLength((EncodeChar(c) + rest)[0]) == |EncodeChar(c)|
    ensures CodePoint(EncodeChar(c) + rest, |EncodeChar(c)|) == c as int
  {
    var n, bytes := c as int, EncodeChar(c) + rest;
    SixBitGroups(n);
    assert forall i :: 0 <= i < |EncodeChar(c)| ==> bytes[i] == EncodeChar(c)[i];
  }

  lemma DecodeFirstEncoded(c: char, rest: seq<Byte>)
    ensures DecodeFirst(EncodeChar(c) + rest) == Some((c, rest))
  {
    var bytes := EncodeChar(c) + rest;
    CodePointEncoded(c, rest);
    assert bytes[..|EncodeChar(c)|] == EncodeChar(c);
    assert bytes[|EncodeChar(c)|..] == rest;
  }

  /** Decoding undoes encoding, and accepts nothing that encoding does not produce. */
  lemma {:induction false} RoundTrip(text: string)
    ensures Decode(Encode(text)) == Some(text)
  {
    if text != [] {
      DecodeFirstEncoded(text[0], Encode(text[1..]));
      RoundTrip(text[1..]);
      assert text == [text[0]] + text[1..];
    }
  }

  lemma {:induction false} DecodedIsEncoding(bytes: seq<Byte>)
    requires Decode(bytes).Some?
    ensures Encode(Decode(bytes).value) == bytes
    decreases |bytes|
  {
    if bytes != [] {
      var (c, rest) := DecodeFirst(bytes).value;
      DecodedIsEncoding(rest);
      var text := Decode(rest).value;
      assert ([c] + text)[1..] == text;
    }
  }

  /** Comparing encoded bytes is comparing texts. */
  lemma Injective(a: string, b: string)
    ensures Encode(a) == Encode(b) <==> a == b
  {
    RoundTrip(a);
    RoundTrip(b);
  }

  /** The examples of section 7 of RFC 3629: the sequences of their characters. */
  lemma Examples()
    ensures EncodeChar('A') == [0x41] && EncodeChar('\U{391}') == [0xCE, 0x91]
    ensures EncodeChar('\U{2262}') == [0xE2, 0x89, 0xA2] && EncodeChar('\U{233B4}') == [0xF0, 0xA3, 0x8E, 0xB4]
  {
  }

  /** The text that Go reads out of a byte string: each byte that starts no character becomes U+FFFD. */
  function Text(bytes: seq<Byte>): string
    decreases |bytes|
  {
    if bytes == [] then []
    else
      match DecodeFirst(bytes)
      case Some((c, rest)) => [c] + Text(rest)
      case None => ['\U{FFFD}'] + Text(bytes[1..])
  }

  lemma {:induction false} TextDecodes(bytes: seq<Byte>)
    ensures Decode(bytes).Some? ==> Text(bytes) == Decode(bytes).value
    ensures Text(bytes) == [] <==> bytes == []
    decreases |bytes|
  {
    if bytes != [] {
      var first := DecodeFirst(bytes);
      if first.Some? {
        TextDecodes(first.value.1);
      }
    }
  }

  lemma TextStep(c: char, rest: seq<Byte>)
    ensures Text(EncodeChar(c) + rest) == [c] + Text(rest)
  {
    DecodeFirstEncoded(c, rest);
    hide EncodeChar;
  }

  lemma TextStop(b: Byte, rest: seq<Byte>)
    requires LeadLength(b) == 0
    ensures Text([b] + rest) == ['\U{FFFD}'] + Text(rest)
  {
    hide EncodeChar, CodePoint;
    assert ([b] + rest)[1..] == rest;
  }

  /** A byte that cannot start a character becomes U+FFFD, and the text before and after it is read as usual. */
  lemma {:induction false} TextReplaces(before: string, b: Byte, after: seq<Byte>)
    requires 0x80 <= b < 0xC0 || b >= 0xF8
    ensures Text(Encode(before) + [b] + after) == before + ['\U{FFFD}'] + Text(after)
  {
    hide EncodeChar, Text;
    var bytes := Encode(before) + [b] + after;
    if before == [] {
      assert bytes == [b] + after;
      TextStop(b, after);
    } else {
      var rest := Encode(before[1..]) + [b] + after;
      assert bytes == EncodeChar(before[0]) + rest;
      TextStep(before[0], rest);
      TextReplaces(before[1..], b, after);
      assert before == [before[0]] + before[1..];
    }
  }
}
