/** Hexadecimal text as the codec handles it: `binascii.b2a_hex` and
    `binascii.a2b_hex`, Python 2 `str.upper()` on byte strings, and the
    normalisation that `hex_content_element` applies to its content. */
module HexText {
  import opened BigEndian

  predicate IsHexDigit(c: char) {
    '0' <= c <= '9' || 'a' <= c <= 'f' || 'A' <= c <= 'F'
  }

  predicate IsUpperHexDigit(c: char) {
    '0' <= c <= '9' || 'A' <= c <= 'F'
  }

  /** Text that `a2b_hex` accepts after padding: hex digits of either case. */
  predicate IsHexText(s: string) {
    forall i :: 0 <= i < |s| ==> IsHexDigit(s[i])
  }

  /** The form a hex element always stores: an even number of upper-case digits. */
  predicate IsNormalHex(s: string) {
    |s| % 2 == 0 && forall i :: 0 <= i < |s| ==> IsUpperHexDigit(s[i])
  }

  /** `str.upper()` on a Python 2 byte string: only ASCII letters change. */
  function UpperChar(c: char): char {
    if 'a' <= c <= 'z' then (c as int - 32) as char else c
  }

  function Upper(s: string): (r: string)
    ensures |r| == |s|
    ensures forall i :: 0 <= i < |r| ==> !('a' <= r[i] <= 'z')
    ensures forall i :: 0 <= i < |s| && !('a' <= s[i] <= 'z') ==> r[i] == s[i]
  {
    seq(|s|, i requires 0 <= i < |s| => UpperChar(s[i]))
  }

  /** The lower-case digit `b2a_hex` writes for a nibble. */
  function LowerDigit(k: nat): (c: char)
    requires k < 16
    ensures IsHexDigit(c) && !('A' <= c <= 'Z')
  {
    if k < 10 then ('0' as int + k) as char else ('a' as int + k - 10) as char
  }

  function DigitValue(c: char): (v: nat)
    requires IsHexDigit(c)
    ensures v < 16
  {
    if '0' <= c <= '9' then c as int - '0' as int
    else if 'a' <= c <= 'f' then c as int - 'a' as int + 10
    else c as int - 'A' as int + 10
  }

  /** `binascii.b2a_hex`: two lower-case digits per byte, high nibble first. */
  function B2aHex(bs: seq<Byte>): (t: string)
    ensures |t| == 2 * |bs|
    ensures forall i :: 0 <= i < |t| ==> IsHexDigit(t[i]) && !('A' <= t[i] <= 'Z')
  {
    if bs == [] then []
    else [LowerDigit(bs[0] / 16), LowerDigit(bs[0] % 16)] + B2aHex(bs[1..])
  }

  /** `binascii.a2b_hex`: one byte per pair of digits, of either case. */
  function A2bHex(t: string): (bs: seq<Byte>)
    requires |t| % 2 == 0 && IsHexText(t)
    ensures |bs| == |t| / 2
  {
    if t == [] then []
    else [DigitValue(t[0]) * 16 + DigitValue(t[1])] + A2bHex(t[2..])
  }

  /** The content `hex_content_element` stores: upper-cased, and prefixed with
      exactly one "0" when the given text has odd length. */
  function NormaliseHex(text: string): (r: string)
    ensures |r| % 2 == 0
    ensures |r| == |text| + |text| % 2
    ensures |text| % 2 == 1 ==> r[0] == '0'
    ensures r[|text| % 2..] == Upper(text)
    ensures forall i :: 0 <= i < |r| ==> !('a' <= r[i] <= 'z')
    ensures IsNormalHex(r) <==> IsHexText(text)
  {
    var r := if |text| % 2 == 0 then Upper(text) else "0" + Upper(text);
    NormalisedForm(text, r);
    r
  }

  lemma NormalisedForm(text: string, r: string)
    requires r == if |text| % 2 == 0 then Upper(text) else "0" + Upper(text)
    ensures |r| % 2 == 0 && |r| == |text| + |text| % 2
    ensures |text| % 2 == 1 ==> r[0] == '0'
    ensures r[|text| % 2..] == Upper(text)
    ensures forall i :: 0 <= i < |r| ==> !('a' <= r[i] <= 'z')
    ensures IsNormalHex(r) <==> IsHexText(text)
  {
    UpperHexText(text);
    if |text| % 2 == 1 {
      ZeroThen(Upper(text));
    }
  }

  /** Upper-casing turns exactly the hex texts into upper-case hex digits. */
  lemma UpperHexText(text: string)
    ensures (forall i :: 0 <= i < |Upper(text)| ==> IsUpperHexDigit(Upper(text)[i])) <==> IsHexText(text)
  {
    forall i | 0 <= i < |text|
      ensures IsUpperHexDigit(Upper(text)[i]) <==> IsHexDigit(text[i])
    {
    }
  }

  /** A leading "0" keeps text upper-case hex, adds no lower-case letter, and
      is all that dropping the first character removes. */
  lemma ZeroThen(u: string)
    ensures ("0" + u)[1..] == u
    ensures (forall i :: 0 <= i < |"0" + u| ==> IsUpperHexDigit(("0" + u)[i]))
            <==> (forall i :: 0 <= i < |u| ==> IsUpperHexDigit(u[i]))
    ensures (forall i :: 0 <= i < |u| ==> !('a' <= u[i] <= 'z'))
            ==> forall i :: 0 <= i < |"0" + u| ==> !('a' <= ("0" + u)[i] <= 'z')
  {
    assert forall i :: 0 <= i < |u| ==> ("0" + u)[i + 1] == u[i];
  }

  /** Upper-casing leaves text without lower-case letters alone. */
  lemma UpperOfUpper(s: string)
    requires forall i :: 0 <= i < |s| ==> !('a' <= s[i] <= 'z')
    ensures Upper(s) == s
  {
  }

  /** Normalising twice is normalising once; in particular text that is
      already even-length and upper-case is stored unchanged. */
  lemma NormaliseHexIdempotent(text: string)
    ensures NormaliseHex(NormaliseHex(text)) == NormaliseHex(text)
    ensures IsNormalHex(text) ==> NormaliseHex(text) == text
  {
    var once := NormaliseHex(text);
    UpperOfUpper(once);
    if IsNormalHex(text) {
      UpperOfUpper(text);
    }
  }

  /** What the decoder renders content bytes as is already normal hex text. */
  lemma RenderedHexIsNormal(bs: seq<Byte>)
    ensures IsNormalHex(Upper(B2aHex(bs)))
    ensures IsHexText(Upper(B2aHex(bs)))
  {
  }

  /** Rendering bytes as upper-case hex and converting back gives the bytes. */
  lemma {:induction false} A2bHexOfRendered(bs: seq<Byte>)
    ensures |Upper(B2aHex(bs))| % 2 == 0 && IsHexText(Upper(B2aHex(bs)))
    ensures A2bHex(Upper(B2aHex(bs))) == bs
  {
    RenderedHexIsNormal(bs);
    if bs != [] {
      var t := Upper(B2aHex(bs));
      A2bHexOfRendered(bs[1..]);
      RenderedFirst(bs);
      A2bHexCons(t);
      assert bs == [bs[0]] + bs[1..];
    }
  }

  /** The first two digits of the rendering read back as the first byte's
      nibbles, and the rest of the rendering is that of the remaining bytes. */
  lemma {:induction false} RenderedFirst(bs: seq<Byte>)
    requires bs != []
    ensures IsNormalHex(Upper(B2aHex(bs)))
    ensures Upper(B2aHex(bs))[2..] == Upper(B2aHex(bs[1..]))
    ensures DigitValue(Upper(B2aHex(bs))[0]) == bs[0] / 16
    ensures DigitValue(Upper(B2aHex(bs))[1]) == bs[0] % 16
  {
    RenderedHexIsNormal(bs);
    UpperAppend([LowerDigit(bs[0] / 16), LowerDigit(bs[0] % 16)], B2aHex(bs[1..]));
    NibbleRoundTrip(bs[0] / 16);
    NibbleRoundTrip(bs[0] % 16);
  }

  /** A nibble written as a digit and upper-cased reads back as the nibble. */
  lemma NibbleRoundTrip(k: nat)
    requires k < 16
    ensures IsHexDigit(UpperChar(LowerDigit(k))) && DigitValue(UpperChar(LowerDigit(k))) == k
  {
  }

  /** An upper-case digit survives reading it as a nibble and writing it back. */
  lemma DigitRoundTrip(c: char)
    requires IsUpperHexDigit(c)
    ensures UpperChar(LowerDigit(DigitValue(c))) == c
  {
  }

  lemma SplitByte(hi: nat, lo: nat)
    requires hi < 16 && lo < 16
    ensures (hi * 16 + lo) / 16 == hi && (hi * 16 + lo) % 16 == lo
  {
  }

  lemma UpperAppend(a: string, b: string)
    ensures Upper(a + b) == Upper(a) + Upper(b)
  {
  }

  /** Converting normal hex text to bytes and rendering them again gives the
      text back, so every normal hex text is the rendering of its bytes. */
  lemma {:induction false} RenderedOfA2bHex(t: string)
    requires IsNormalHex(t)
    ensures Upper(B2aHex(A2bHex(t))) == t
  {
    if t != [] {
      RenderedPair(t);
      assert IsNormalHex(t[2..]);
      RenderedOfA2bHex(t[2..]);
      assert t == t[..2] + t[2..];
    }
  }

  /** The first two digits of normal hex text come back from their byte. */
  lemma {:induction false} RenderedPair(t: string)
    requires IsNormalHex(t) && t != []
    ensures Upper(B2aHex(A2bHex(t))) == t[..2] + Upper(B2aHex(A2bHex(t[2..])))
  {
    RenderedHead(t);
    UpperHead(t);
    UpperThen(B2aHex(A2bHex(t)), [LowerDigit(DigitValue(t[0])), LowerDigit(DigitValue(t[1]))],
              B2aHex(A2bHex(t[2..])), t[..2]);
  }

  /** The lower-case rendering of the first byte of normal hex text. */
  lemma {:induction false} RenderedHead(t: string)
    requires IsNormalHex(t) && t != []
    ensures B2aHex(A2bHex(t))
            == [LowerDigit(DigitValue(t[0])), LowerDigit(DigitValue(t[1]))] + B2aHex(A2bHex(t[2..]))
  {
    A2bHexCons(t);
    B2aHexPair(A2bHex(t), DigitValue(t[0]), DigitValue(t[1]), A2bHex(t[2..]));
  }

  /** Upper-casing that rendering gives the first two digits back. */
  lemma {:induction false} UpperHead(t: string)
    requires IsNormalHex(t) && t != []
    ensures Upper([LowerDigit(DigitValue(t[0])), LowerDigit(DigitValue(t[1]))]) == t[..2]
  {
    DigitRoundTrip(t[0]);
    DigitRoundTrip(t[1]);
  }

  lemma UpperThen(x: string, head: string, tail: string, p: string)
    requires x == head + tail && Upper(head) == p
    ensures Upper(x) == p + Upper(tail)
  {
    UpperAppend(head, tail);
  }

  lemma A2bHexCons(t: string)
    requires IsNormalHex(t) && t != []
    ensures A2bHex(t) == [DigitValue(t[0]) * 16 + DigitValue(t[1])] + A2bHex(t[2..])
  {
  }

  lemma B2aHexPair(bs: seq<Byte>, hi: nat, lo: nat, rest: seq<Byte>)
    requires hi < 16 && lo < 16 && bs == [hi * 16 + lo] + rest
    ensures B2aHex(bs) == [LowerDigit(hi), LowerDigit(lo)] + B2aHex(rest)
  {
    SplitByte(hi, lo);
    assert bs[1..] == rest;
  }
}
