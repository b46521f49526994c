/** What the decoder and the encoder promise about each other: exact
    framing, the classification order, the failure cases, and the round
    trip in both directions. */
module RoundTrip {
  import opened BigEndian
  import opened HexText
  import opened Elements
  import opened Parser

  /** A tree whose names and lengths the decoder classifies back into the
      same variants: parents under node names, strings under string names,
      numbers and hex under names in neither table, and hex content that is
      not 1, 2, 4 or 8 bytes long (which would read as a number). */
  predicate Reclassifiable(e: Element) {
    match e
    case ParentElement(name, children) =>
      name in NodeTags && forall c :: c in children ==> Reclassifiable(c)
    case StringElement(name, _) => name in StringTags
    case NumberElement(name, _, _) => name !in NodeTags && name !in StringTags
    case HexElement(name, text) =>
      name !in NodeTags && name !in StringTags && TypeOfLength(|text| / 2).None?
  }

  /** No name is both a node name and a string name, so the priority between
      the first two rules never matters for a name in a table. */
  lemma TagTablesDisjoint()
    ensures NodeTags !! StringTags
  {
  }

  // Framing

  /** A region that starts with a header and its content is read as one step
      on that content, followed by whatever the bytes after it give. */
  lemma DecodeFrameThen(name: Tag, content: seq<Byte>, tail: seq<Byte>)
    requires |content| < LengthLimit
    ensures Classify(name, content).Ok? ==>
              DecodeScope(Header(name, |content|) + content + tail)
              == Prepend([Classify(name, content).value], DecodeScope(tail))
    ensures Classify(name, content).Err? ==>
              DecodeScope(Header(name, |content|) + content + tail) == Err(Classify(name, content).error)
  {
    FrameSlices(Header(name, |content|), content, tail);
  }

  /** Where the fields of a header, a content and a tail sit once they are
      written back to back. */
  lemma FrameSlices(h: seq<Byte>, content: seq<Byte>, tail: seq<Byte>)
    requires |h| == HeaderSize
    ensures (h + content + tail)[..4] == h[..4] && (h + content + tail)[4..8] == h[4..8]
    ensures (h + content + tail)[8..8 + |content|] == content
    ensures (h + content + tail)[8 + |content|..] == tail
  {
  }

  /** A region whose first declared length fits is that header, that much
      content, and the rest. */
  lemma FrameOf(data: seq<Byte>)
    requires |data| >= HeaderSize && FromBE(data[4..8]) <= |data| - HeaderSize
    ensures FromBE(data[4..8]) < LengthLimit
    ensures data == Header(TagOfBytes(data[..4]), FromBE(data[4..8]))
                    + data[8..8 + FromBE(data[4..8])] + data[8 + FromBE(data[4..8])..]
  {
    HeaderPrefix(data);
    SplitAt(data[8..], FromBE(data[4..8]));
  }

  lemma SplitAt(s: seq<Byte>, i: nat)
    requires i <= |s|
    ensures s == s[..i] + s[i..]
  {
  }

  // Classification

  /** Under a name in neither table, content of a number width reads as the
      number of that width holding the content's big-endian value. */
  lemma ClassifyNumber(name: Tag, content: seq<Byte>)
    requires name !in NodeTags && name !in StringTags
    requires TypeOfLength(|content|).Some?
    ensures Classify(name, content) == Ok(NumberElement(name, FromBE(content), TypeOfLength(|content|).value))
    ensures FromBE(content) <= MaxValue(TypeOfLength(|content|).value)
    ensures ToBE(FromBE(content), |content|) == content
  {
    var t := TypeOfLength(|content|).value;
    assert TypeOfCode(t.Code()) == Some(t);
    ToBEFromBE(content);
  }

  /** Under a name in neither table, content of any other length reads as
      its normal hex rendering, which converts back to the content. */
  lemma ClassifyHex(name: Tag, content: seq<Byte>)
    requires name !in NodeTags && name !in StringTags
    requires TypeOfLength(|content|).None?
    ensures Classify(name, content) == Ok(HexElement(name, Upper(B2aHex(content))))
    ensures IsNormalHex(Upper(B2aHex(content)))
    ensures A2bHex(Upper(B2aHex(content))) == content
  {
    RenderedHexIsNormal(content);
    NormaliseHexIdempotent(Upper(B2aHex(content)));
    A2bHexOfRendered(content);
  }

  /** Classification in its fixed priority order. A node name always gives a
      parent of whatever its content decodes to (no children for no content);
      otherwise a string name gives the raw bytes; otherwise a length of 1, 2,
      4 or 8 (the widths `TypeOfLength` knows) gives the in-range number of
      that width holding the big-endian value of the bytes; otherwise the
      bytes become their normal hex rendering, which converts back to them. */
  lemma Classification(name: Tag, content: seq<Byte>)
    ensures name in NodeTags ==>
              && (Classify(name, content).Ok? <==> DecodeScope(content).Ok?)
              && (Classify(name, content).Ok? ==>
                    Classify(name, content).value == ParentElement(name, DecodeScope(content).value))
              && (content == [] ==> Classify(name, content) == Ok(ParentElement(name, [])))
    ensures name !in NodeTags && name in StringTags ==>
              Classify(name, content) == Ok(StringElement(name, content))
    ensures name !in NodeTags && name !in StringTags && TypeOfLength(|content|).Some? ==>
              && Classify(name, content) == Ok(NumberElement(name, FromBE(content), TypeOfLength(|content|).value))
              && FromBE(content) <= MaxValue(TypeOfLength(|content|).value)
              && ToBE(FromBE(content), |content|) == content
    ensures name !in NodeTags && name !in StringTags && TypeOfLength(|content|).None? ==>
              && Classify(name, content) == Ok(HexElement(name, Upper(B2aHex(content))))
              && IsNormalHex(Upper(B2aHex(content)))
              && A2bHex(Upper(B2aHex(content))) == content
  {
    if name in NodeTags {
      ClassifyNode(name, content);
    } else if name in StringTags {
    } else if TypeOfLength(|content|).Some? {
      ClassifyNumber(name, content);
    } else {
      ClassifyHex(name, content);
    }
  }

  /** Under a node name the content is decoded as a scope of its own. */
  lemma ClassifyNode(name: Tag, content: seq<Byte>)
    requires name in NodeTags
    ensures Classify(name, content).Ok? <==> DecodeScope(content).Ok?
    ensures Classify(name, content).Ok? ==>
              Classify(name, content).value == ParentElement(name, DecodeScope(content).value)
    ensures content == [] ==> Classify(name, content) == Ok(ParentElement(name, []))
  {
    if content == [] {
      assert DecodeScope(content) == Ok([]);
    }
  }

  /** The only ways decoding fails are a short header and a length that runs
      past the region: the number constructor never rejects what the decoder
      reads, at any depth. */
  lemma {:induction false} DecodeFailsOnlyOnFraming(data: seq<Byte>)
    ensures DecodeScope(data).Err? ==>
              DecodeScope(data).error.TruncatedHeader? || DecodeScope(data).error.LengthOverrun?
    decreases |data|, 1
  {
    if |data| >= HeaderSize {
      var length := FromBE(data[4..8]);
      if length <= |data| - HeaderSize {
        ClassifyFailsOnlyOnFraming(TagOfBytes(data[..4]), data[8..8 + length]);
        DecodeFailsOnlyOnFraming(data[8 + length..]);
      }
    }
  }

  lemma {:induction false} ClassifyFailsOnlyOnFraming(name: Tag, content: seq<Byte>)
    ensures Classify(name, content).Err? ==>
              Classify(name, content).error.TruncatedHeader? || Classify(name, content).error.LengthOverrun?
    decreases |content|, 2
  {
    if name in NodeTags {
      DecodeFailsOnlyOnFraming(content);
    } else if name !in StringTags && TypeOfLength(|content|).Some? {
      ClassifyNumber(name, content);
    }
  }

  // Decoding then encoding

  /** Decoding then re-encoding gives back exactly the bytes decoded: every
      decoded element is well formed, the elements come out in buffer order,
      and each step consumed exactly 8 + length bytes. */
  lemma {:induction false} DecodeThenEncode(data: seq<Byte>)
    requires DecodeScope(data).Ok?
    ensures forall e :: e in DecodeScope(data).value ==> WellFormed(e)
    ensures EncodeAll(DecodeScope(data).value) == data
    decreases |data|, 1
  {
    if |data| > 0 {
      var length := FromBE(data[4..8]);
      var name := TagOfBytes(data[..4]);
      var content, rest := data[8..8 + length], data[8 + length..];
      FrameOf(data);
      DecodeFrameThen(name, content, rest);
      ClassifyThenEncode(name, content);
      DecodeThenEncode(rest);
      var e := Classify(name, content).value;
      var tailElements := DecodeScope(rest).value;
      assert DecodeScope(data).value == [e] + tailElements;
      EncodeAllCons(e, tailElements);
    }
  }

  /** An element decoded from a name and content re-encodes to its header
      followed by exactly that content. */
  lemma {:induction false} ClassifyThenEncode(name: Tag, content: seq<Byte>)
    requires |content| < LengthLimit
    requires Classify(name, content).Ok?
    ensures WellFormed(Classify(name, content).value)
    ensures Classify(name, content).value.name == name
    ensures Encode(Classify(name, content).value) == Header(name, |content|) + content
    decreases |content|, 2
  {
    if name in NodeTags {
      var children := DecodeScope(content).value;
      DecodeThenEncode(content);
      EncodeParent(name, children);
    } else if name in StringTags {
    } else if TypeOfLength(|content|).Some? {
      ClassifyNumber(name, content);
    } else {
      ClassifyHex(name, content);
      var text := Upper(B2aHex(content));
      assert Encode(HexElement(name, text)) == HexBytes(name, text);
    }
  }

  /** Reading a region that starts with a complete decodable region gives
      that region's elements followed by whatever the rest gives. */
  lemma {:induction false} DecodeAppend(a: seq<Byte>, b: seq<Byte>)
    requires DecodeScope(a).Ok?
    ensures DecodeScope(a + b) == Prepend(DecodeScope(a).value, DecodeScope(b))
    decreases |a|
  {
    if a == [] {
      assert a + b == b;
      PrependAssociative([], [], DecodeScope(b));
    } else {
      var length := FromBE(a[4..8]);
      var name := TagOfBytes(a[..4]);
      var content, rest := a[8..8 + length], a[8 + length..];
      assert Classify(name, content).Ok? && DecodeScope(rest).Ok?;
      var e := Classify(name, content).value;
      assert DecodeScope(a).value == [e] + DecodeScope(rest).value;
      assert DecodeScope(a + b) == Prepend([e], DecodeScope(rest + b)) by {
        AppendSlices(a, b, length);
      }
      DecodeAppend(rest, b);
      PrependAssociative([e], DecodeScope(rest).value, DecodeScope(b));
    }
  }

  /** The fields of a frame at the front of `a` are where they were in `a + b`. */
  lemma AppendSlices(a: seq<Byte>, b: seq<Byte>, length: nat)
    requires HeaderSize + length <= |a|
    ensures (a + b)[..4] == a[..4] && (a + b)[4..8] == a[4..8]
    ensures (a + b)[8..8 + length] == a[8..8 + length]
    ensures (a + b)[8 + length..] == a[8 + length..] + b
  {
  }

  /** A proper, non-empty prefix of a byte string that holds exactly one
      frame fails to decode: short of eight bytes the header is truncated,
      otherwise the declared length runs past what is left. */
  lemma TruncatedFrameFails(bs: seq<Byte>, k: nat)
    requires |bs| >= HeaderSize && |bs| == HeaderSize + FromBE(bs[4..8])
    requires 0 < k < |bs|
    ensures k < HeaderSize ==> DecodeScope(bs[..k]) == Err(TruncatedHeader(k))
    ensures k >= HeaderSize ==>
              DecodeScope(bs[..k]) == Err(LengthOverrun(FromBE(bs[4..8]), k - HeaderSize))
  {
    if k >= HeaderSize {
      assert bs[..k][4..8] == bs[4..8];
    }
  }

  /** Every proper, non-empty prefix of an element's encoding fails to decode. */
  lemma TruncatedEncodingFails(e: Element, k: nat)
    requires WellFormed(e)
    requires 0 < k < |Encode(e)|
    ensures k < HeaderSize ==> DecodeScope(Encode(e)[..k]) == Err(TruncatedHeader(k))
    ensures k >= HeaderSize ==>
              DecodeScope(Encode(e)[..k]) == Err(LengthOverrun(ContentLength(e), k - HeaderSize))
  {
    TruncatedFrameFails(Encode(e), k);
  }

  // Encoding then decoding

  /** Encoding a sequence of reclassifiable trees and decoding the bytes gives
      the same sequence back. */
  lemma {:induction false} EncodeThenDecodeAll(es: seq<Element>)
    requires forall e :: e in es ==> WellFormed(e) && Reclassifiable(e)
    ensures DecodeScope(EncodeAll(es)) == Ok(es)
    decreases es, 1
  {
    if es != [] {
      var e := es[0];
      var content := Encode(e)[8..];
      ClassifyEncoded(e);
      EncodeThenDecodeAll(es[1..]);
      EncodeAllFront(es);
      DecodeFrameThen(e.name, content, EncodeAll(es[1..]));
      ConsTail(es);
    }
  }

  lemma ConsTail(es: seq<Element>)
    requires es != []
    ensures [es[0]] + es[1..] == es
  {
  }

  /** The bytes of a non-empty sequence: the first element's header and
      content, then the rest. */
  lemma EncodeAllFront(es: seq<Element>)
    requires es != [] && forall e :: e in es ==> WellFormed(e)
    ensures |Encode(es[0])[8..]| < LengthLimit
    ensures EncodeAll(es) == Header(es[0].name, |Encode(es[0])[8..]|) + Encode(es[0])[8..] + EncodeAll(es[1..])
  {
    var e := es[0];
    var bs := Encode(e);
    ContentFits(e);
    assert |bs[8..]| == ContentLength(e);
    Regroup(EncodeAll(es), bs, Header(e.name, |bs[8..]|), bs[8..], EncodeAll(es[1..]));
  }

  lemma Regroup(all: seq<Byte>, bs: seq<Byte>, h: seq<Byte>, c: seq<Byte>, r: seq<Byte>)
    requires all == bs + r && bs == h + c
    ensures all == h + c + r
  {
  }

  /** The content bytes of a reclassifiable element classify back into it. */
  lemma {:induction false} ClassifyEncoded(e: Element)
    requires WellFormed(e) && Reclassifiable(e)
    ensures Classify(e.name, Encode(e)[8..]) == Ok(e)
    decreases e, 0
  {
    var content := Encode(e)[8..];
    TagTablesDisjoint();
    match e
    case ParentElement(name, children) =>
      EncodeParent(name, children);
      assert content == EncodeAll(children);
      EncodeThenDecodeAll(children);
    case StringElement(name, bytes) =>
      assert content == bytes;
    case NumberElement(name, value, t) =>
      assert |content| == t.Width() && FromBE(content) == value;
      WidthHasType(t);
      ClassifyNumber(name, content);
    case HexElement(name, text) =>
      assert Upper(B2aHex(content)) == text;
      ClassifyHex(name, content);
  }

  /** Round trip: a reclassifiable tree decodes from its own encoding. */
  lemma EncodeThenDecode(e: Element)
    requires WellFormed(e) && Reclassifiable(e)
    ensures DecodeScope(Encode(e)) == Ok([e])
  {
    ClassifyEncoded(e);
    EncodeSingle(e);
  }

  /** The length heuristic at work: hex content of 1, 2, 4 or 8 bytes under a
      name in neither table comes back as a number of that width holding the
      big-endian value of the bytes, so such a tree does not round-trip. */
  lemma HexOfNumberWidthReadsAsNumber(e: Element)
    requires e.HexElement? && WellFormed(e)
    requires e.name !in NodeTags && e.name !in StringTags
    requires TypeOfLength(|e.text| / 2).Some?
    ensures DecodeScope(Encode(e)) ==
              Ok([NumberElement(e.name, FromBE(A2bHex(e.text)), TypeOfLength(|e.text| / 2).value)])
    ensures DecodeScope(Encode(e)) != Ok([e])
  {
    var content := Encode(e)[8..];
    assert Upper(B2aHex(content)) == e.text;
    A2bHexOfRendered(content);
    ClassifyNumber(e.name, content);
    EncodeSingle(e);
  }

  /** A byte string holding exactly one frame decodes to the one element
      its header and content classify to. */
  lemma SingleFrame(bs: seq<Byte>)
    requires |bs| >= HeaderSize && |bs| == HeaderSize + FromBE(bs[4..8])
    ensures Classify(TagOfBytes(bs[..4]), bs[8..]).Ok? ==>
              DecodeScope(bs) == Ok([Classify(TagOfBytes(bs[..4]), bs[8..]).value])
  {
    var length := FromBE(bs[4..8]);
    var rest := bs[8 + length..];
    assert bs[8..8 + length] == bs[8..];
    assert rest == [] && DecodeScope(rest) == Ok([]);
    if Classify(TagOfBytes(bs[..4]), bs[8..]).Ok? {
      var x := Classify(TagOfBytes(bs[..4]), bs[8..]).value;
      assert DecodeScope(bs) == Prepend([x], DecodeScope(rest));
      assert [x] + [] == [x];
    }
  }

  /** An element's bytes, read on their own, give the one element their
      header and content classify to. */
  lemma EncodeSingle(e: Element)
    requires WellFormed(e)
    ensures Classify(e.name, Encode(e)[8..]).Ok? ==>
              DecodeScope(Encode(e)) == Ok([Classify(e.name, Encode(e)[8..]).value])
  {
    SingleFrame(Encode(e));
  }

  // The top-level gate

  /** `parse` returns the root of the encoding of a reclassifiable tree
      unchanged whenever its status gate, if asserted, passes. */
  lemma ParseEncoded(root: Element, assertStatus: bool, allowNull: bool)
    requires WellFormed(root) && Reclassifiable(root)
    requires assertStatus ==> StatusPasses(root)
    ensures Parse(Encode(root), assertStatus, allowNull) == Ok(Some(root))
  {
    EncodeThenDecode(root);
  }

  /** The status gate: a root whose first `mstt` child is anything but the
      number 200 is refused, carrying that child, when the status is asserted,
      and returned unchanged when it is not. */
  lemma StatusGate(root: Element, status: Element, allowNull: bool)
    requires WellFormed(root) && Reclassifiable(root)
    requires ChildNamed(root, StatusName) == Ok(status)
    requires !(status.NumberElement? && status.value == StatusOk)
    ensures Parse(Encode(root), true, allowNull) == Err(BadStatus(status))
    ensures Parse(Encode(root), false, allowNull) == Ok(Some(root))
  {
    EncodeThenDecode(root);
  }

  /** Nothing to parse is absent only when allowed; two roots are always refused. */
  lemma ParseCountsRoots(a: Element, b: Element, assertStatus: bool, allowNull: bool)
    requires WellFormed(a) && Reclassifiable(a) && WellFormed(b) && Reclassifiable(b)
    ensures Parse([], assertStatus, true) == Ok(None)
    ensures Parse([], assertStatus, false) == Err(NoElements)
    ensures Parse(Encode(a) + Encode(b), assertStatus, allowNull) == Err(TooManyElements(2))
  {
    EncodeThenDecode(a);
    EncodeThenDecode(b);
    DecodeAppend(Encode(a), Encode(b));
  }
}
