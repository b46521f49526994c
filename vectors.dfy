/** Concrete cases of the codec's behaviour: byte-exact encodings, the
    range boundary of every number width, hex normalisation and first-match
    child lookup. */
module Vectors {
  import opened BigEndian
  import opened HexText
  import opened Elements
  import opened Parser
  import opened RoundTrip

  /** The bytes of an `mstt` status of type I whose value fits in one byte. */
  function StatusBytes(value: Byte): seq<Byte> {
    [0x6D, 0x73, 0x74, 0x74, 0x00, 0x00, 0x00, 0x04, 0x00, 0x00, 0x00, value]
  }

  /** The status element `mstt` of type I, byte for byte: the name, a length
      of 4, then the value big-endian in four bytes (`00 00 00 C8` for 200). */
  lemma StatusEncoding(value: Byte)
    ensures MaxValue(I) == 0xFFFF_FFFF
    ensures Encode(NumberElement("mstt", value, I)) == StatusBytes(value)
  {
    MaxValues();
    ShortHeader("mstt", 4);
    MsttTag();
    BigEndianWord(value);
    NumberEncoding("mstt", value, I);
  }

  /** The status element wrapped in a `cmst` parent: an outer length of 12. */
  lemma StatusResponseEncoding(value: Byte)
    ensures MaxValue(I) == 0xFFFF_FFFF
    ensures WellFormed(ParentElement("cmst", [NumberElement("mstt", value, I)]))
    ensures Encode(ParentElement("cmst", [NumberElement("mstt", value, I)]))
            == [0x63, 0x6D, 0x73, 0x74, 0x00, 0x00, 0x00, 0x0C] + StatusBytes(value)
  {
    StatusEncoding(value);
    ShortHeader("cmst", 12);
    CmstTag();
    OnlyChild("cmst", NumberElement("mstt", value, I));
  }

  lemma MsttTag()
    ensures TagBytes("mstt") == [0x6D, 0x73, 0x74, 0x74]
  {
  }

  lemma CmstTag()
    ensures TagBytes("cmst") == [0x63, 0x6D, 0x73, 0x74]
  {
  }

  /** A number is its header, then its value in the type's width. */
  lemma NumberEncoding(name: Tag, value: nat, t: NumberType)
    requires value <= MaxValue(t)
    ensures Encode(NumberElement(name, value, t)) == Header(name, t.Width()) + ToBE(value, t.Width())
  {
  }

  /** A parent of one child is its header, then that child's bytes. */
  lemma OnlyChild(name: Tag, child: Element)
    requires WellFormed(child) && 8 + ContentLength(child) < LengthLimit
    ensures WellFormed(ParentElement(name, [child]))
    ensures Encode(ParentElement(name, [child])) == Header(name, |Encode(child)|) + Encode(child)
  {
    assert EncodeAll([child]) == Encode(child) + EncodeAll([]);
    assert Encode(child) + [] == Encode(child);
    EncodeParent(name, [child]);
  }

  /** A header whose length fits in the last byte. */
  lemma ShortHeader(name: Tag, n: nat)
    requires n < 256
    ensures n < LengthLimit
    ensures Header(name, n) == TagBytes(name) + [0x00, 0x00, 0x00, n]
  {
    BigEndianWord(n);
  }

  /** A value below 256 written in four bytes. */
  lemma BigEndianWord(n: nat)
    requires n < 256
    ensures Pow2(32) == 0x1_0000_0000
    ensures ToBE(n, 4) == [0, 0, 0, n]
  {
    Pow2Widths();
    var s: seq<Byte> := [0, 0, 0, n];
    var zero: seq<Byte> := [0];
    assert FromBE(zero) == 0 by {
      assert zero[..0] == [];
    }
    assert FromBE(zero + [0]) == 0 by {
      assert (zero + [0])[..1] == zero;
    }
    assert FromBE(zero + [0] + [0]) == 0 by {
      assert (zero + [0] + [0])[..2] == zero + [0];
    }
    assert s == zero + [0] + [0] + [n];
    assert s[..3] == zero + [0] + [0];
    ToBEFromBE(s);
  }

  /** For every width the largest value of the type is accepted, one more is
      refused with the type's maximum, and so is any negative value. */
  lemma WidthBoundary(name: Tag, t: NumberType)
    ensures NewNumber(name, Pow2(8 * t.Width()) - 1, t.Code()) == Ok(NumberElement(name, Pow2(8 * t.Width()) - 1, t))
    ensures NewNumber(name, Pow2(8 * t.Width()), t.Code()) == Err(OutOfRange(Pow2(8 * t.Width()), MaxValue(t)))
    ensures NewNumber(name, -1, t.Code()) == Err(OutOfRange(-1, MaxValue(t)))
  {
    assert TypeOfCode(t.Code()) == Some(t);
  }

  /** The maxima of the four widths. */
  lemma MaxValues()
    ensures MaxValue(B) == 0xFF && MaxValue(H) == 0xFFFF
    ensures MaxValue(I) == 0xFFFF_FFFF && MaxValue(Q) == 0xFFFF_FFFF_FFFF_FFFF
  {
    Pow2Widths();
  }

  /** A type code outside B, H, I and Q is refused whatever the value. */
  lemma UnknownTypeCode(name: Tag, content: int)
    ensures NewNumber(name, content, "L") == Err(BadTypeCode("L"))
    ensures NewNumber(name, content, "b") == Err(BadTypeCode("b"))
  {
  }

  /** Odd-length text gets one leading zero and is upper-cased; normal text is
      kept as it is. */
  lemma HexNormalisation()
    ensures NormaliseHex("abc") == "0ABC"
    ensures NormaliseHex("ABC") == "0ABC"
    ensures NormaliseHex("0ABC") == "0ABC"
    ensures NormaliseHex("0a1B") == "0A1B"
  {
    assert Upper("abc") == "ABC";
    assert Upper("ABC") == "ABC";
    assert Upper("0ABC") == "0ABC";
    assert Upper("0a1B") == "0A1B";
  }

  /** Two children with the same name: the first one is the one returned. */
  lemma FirstChildWins(first: seq<Byte>, second: seq<Byte>)
    ensures ChildNamed(ParentElement("mlit", [StringElement("cann", first), StringElement("cann", second)]), "cann")
            == Ok(StringElement("cann", first))
    ensures ChildNamed(ParentElement("mlit", [StringElement("cann", first)]), "cana")
            == Err(NoSuchChild("cana", "mlit"))
    ensures ChildNamed(StringElement("cann", first), "cann") == Err(NotAParent("cann"))
  {
    var p := ParentElement("mlit", [StringElement("cann", first), StringElement("cann", second)]);
    assert p.children[0].name == "cann";
  }

  /** `assert_self` returns the element under its own name and refuses any other. */
  lemma SelfCheck()
    ensures AssertSelf(ParentElement("cmst", []), "cmst") == Ok(ParentElement("cmst", []))
    ensures AssertSelf(ParentElement("cmst", []), "mlog") == Err(NameMismatch("mlog", "cmst"))
  {
  }

  /** A `cmst` response whose status is 500 is refused with that status when
      the status is asserted and returned unchanged when it is not. */
  lemma ErrorStatusResponse()
    ensures Parse(Encode(ParentElement("cmst", [NumberElement("mstt", 500, I)])), true, false)
            == Err(BadStatus(NumberElement("mstt", 500, I)))
    ensures Parse(Encode(ParentElement("cmst", [NumberElement("mstt", 500, I)])), false, false)
            == Ok(Some(ParentElement("cmst", [NumberElement("mstt", 500, I)])))
  {
    var status := NumberElement("mstt", 500, I);
    var root := ParentElement("cmst", [status]);
    assert "mstt" !in NodeTags && "mstt" !in StringTags && "cmst" in NodeTags;
    BigEndianWord(4);
    assert ChildNamed(root, StatusName) == Ok(status);
    StatusGate(root, status, false);
  }
}
