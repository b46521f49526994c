/** The four DACP element classes of `src/dacp_serialisation.py`
    (`string_content_element`, `number_content_element`,
    `hex_content_element`, `parent_element`): their validating constructors,
    their `get_bytes` encoders and the `assert_self` / `assert_child`
    navigation helpers. */
module Elements {
  import opened BigEndian
  import opened HexText

  /** Every byte of a Python 2 `str` is a character below 256. */
  predicate IsByteString(s: string) {
    forall i :: 0 <= i < |s| ==> s[i] as int < 256
  }

  /** A four-byte element name such as "mstt" or "cmst". */
  type Tag = s: string | |s| == 4 && IsByteString(s) witness "    "

  /** The number type codes of `struct`, with their widths in bytes. */
  datatype NumberType = B | H | I | Q {
    function Width(): nat {
      match this
      case B => 1
      case H => 2
      case I => 4
      case Q => 8
    }

    function Code(): string {
      match this
      case B => "B"
      case H => "H"
      case I => "I"
      case Q => "Q"
    }
  }

  /** The table `number_types_by_type` of `number_content_element`. */
  function TypeOfCode(code: string): (r: Option<NumberType>)
    ensures r.Some? <==> code in {"B", "H", "I", "Q"}
    ensures r.Some? ==> r.value.Code() == code
  {
    if code == "B" then Some(B)
    else if code == "H" then Some(H)
    else if code == "I" then Some(I)
    else if code == "Q" then Some(Q)
    else None
  }

  /** The largest value a number of the given type can hold. */
  function MaxValue(t: NumberType): nat {
    Pow2(8 * t.Width()) - 1
  }

  datatype Element =
    | StringElement(name: Tag, content: seq<Byte>)
    | NumberElement(name: Tag, value: nat, numberType: NumberType)
    | HexElement(name: Tag, text: string)
    | ParentElement(name: Tag, children: seq<Element>)

  /** The ways the codec fails; each stands for the exception the Python
      code raises at that point. */
  datatype Error =
    | BadTypeCode(code: string)                     // ValueError: unknown number type
    | OutOfRange(number: int, max: nat)             // ValueError: number outside the type's range
    | NameMismatch(expected: Tag, actual: Tag)      // AssertionError from assert_self
    | NoSuchChild(childName: Tag, parentName: Tag)  // AssertionError from assert_child
    | NotAParent(leafName: Tag)                     // navigation on a leaf, which has no such method
    | TruncatedHeader(available: nat)               // struct.error: fewer than 8 header bytes
    | LengthOverrun(declared: nat, available: nat)  // struct.error: content runs past the region
    | NoElements                                    // parser_exception: nothing decoded
    | TooManyElements(count: nat)                   // more than one top-level element
    | BadStatus(status: Element)                    // the root's mstt child is not 200

  datatype Option<+T> = None | Some(value: T)

  datatype Result<+T> = Ok(value: T) | Err(error: Error) {
    predicate IsFailure() {
      Err?
    }

    function PropagateFailure<U>(): Result<U>
      requires Err?
    {
      Err(error)
    }

    function Extract(): T
      requires Ok?
    {
      value
    }
  }

  /** `number_content_element(name, content, number_type)`: the type code is
      checked first, then the range of the value. */
  function NewNumber(name: Tag, content: int, code: string): (r: Result<Element>)
    ensures TypeOfCode(code).None? ==> r == Err(BadTypeCode(code))
    ensures r.Ok? <==> TypeOfCode(code).Some? && 0 <= content <= MaxValue(TypeOfCode(code).value)
    ensures TypeOfCode(code).Some? && !(0 <= content <= MaxValue(TypeOfCode(code).value)) ==>
              r == Err(OutOfRange(content, MaxValue(TypeOfCode(code).value)))
    ensures r.Ok? ==> r.value.NumberElement? && r.value.name == name && r.value.value == content
                      && r.value.numberType.Code() == code && WellFormed(r.value)
  {
    match TypeOfCode(code)
    case None => Err(BadTypeCode(code))
    case Some(t) =>
      var maxSize := MaxValue(t);
      if content < 0 || content > maxSize then Err(OutOfRange(content, maxSize))
      else Ok(NumberElement(name, content, t))
  }

  /** `hex_content_element(name, content)`. The constructor does not check
      the digits; an element whose text is not hex is not well formed, since
      `a2b_hex` in `get_bytes` rejects it. */
  function NewHex(name: Tag, content: string): (r: Element)
    ensures r.HexElement? && r.name == name && r.text == NormaliseHex(content)
    ensures WellFormed(r) <==> IsHexText(content) && |r.text| / 2 < LengthLimit
  {
    HexElement(name, NormaliseHex(content))
  }

  /** The value of the length field an element is written with. */
  function ContentLength(e: Element): nat
    decreases e, 1
  {
    match e
    case StringElement(_, content) => |content|
    case NumberElement(_, _, t) => t.Width()
    case HexElement(_, text) => |text| / 2
    case ParentElement(_, children) => TotalSize(children)
  }

  /** The number of bytes a sequence of elements is written in. */
  function TotalSize(es: seq<Element>): nat
    decreases es, 0
  {
    if es == [] then 0 else 8 + ContentLength(es[0]) + TotalSize(es[1..])
  }

  /** What the constructors guarantee, plus the 32-bit limit `struct.pack`
      puts on every length field. */
  predicate WellFormed(e: Element) {
    match e
    case StringElement(_, content) => |content| < LengthLimit
    case NumberElement(_, value, t) => value <= MaxValue(t)
    case HexElement(_, text) => IsNormalHex(text) && |text| / 2 < LengthLimit
    case ParentElement(_, children) =>
      && TotalSize(children) < LengthLimit
      && forall c :: c in children ==> WellFormed(c)
  }

  /** The `4s` field: the name's characters as bytes. */
  function TagBytes(name: Tag): (bs: seq<Byte>)
    ensures |bs| == 4 && TagOfBytes(bs) == name
  {
    [name[0] as int, name[1] as int, name[2] as int, name[3] as int]
  }

  /** Reading four bytes back as a name. */
  function TagOfBytes(bs: seq<Byte>): Tag
    requires |bs| == 4
  {
    [bs[0] as char, bs[1] as char, bs[2] as char, bs[3] as char]
  }

  lemma TagBytesOfTag(bs: seq<Byte>)
    requires |bs| == 4
    ensures TagBytes(TagOfBytes(bs)) == bs
  {
  }

  /** One more than the largest length the 4-byte `I` field holds. */
  const LengthLimit: nat := 0x1_0000_0000

  /** Every well-formed element's content fits the length field. */
  lemma ContentFits(e: Element)
    requires WellFormed(e)
    ensures ContentLength(e) < LengthLimit
  {
    match e
    case NumberElement(_, _, t) =>
      assert t.Width() <= 8;
    case _ =>
  }

  /** The `>4sI` prefix every element starts with. */
  function Header(name: Tag, length: nat): (h: seq<Byte>)
    requires length < LengthLimit
    ensures |h| == 8 && TagOfBytes(h[..4]) == name && FromBE(h[4..8]) == length
  {
    Pow2Widths();
    var h := TagBytes(name) + ToBE(length, 4);
    assert h[..4] == TagBytes(name) && h[4..8] == ToBE(length, 4);
    h
  }

  /** A header announcing the payload's length, then the payload: the shape
      every `get_bytes` returns. */
  function Frame(name: Tag, payload: seq<Byte>): (bs: seq<Byte>)
    requires |payload| < LengthLimit
    ensures |bs| == 8 + |payload|
    ensures TagOfBytes(bs[..4]) == name && FromBE(bs[4..8]) == |payload| && bs[8..] == payload
    ensures bs == Header(name, |payload|) + bs[8..]
  {
    HeaderThen(Header(name, |payload|), payload);
    Header(name, |payload|) + payload
  }

  /** `string_content_element.get_bytes`: the raw content. */
  function StringBytes(name: Tag, content: seq<Byte>): (bs: seq<Byte>)
    requires |content| < LengthLimit
    ensures |bs| == 8 + |content| && bs[8..] == content
  {
    Frame(name, content)
  }

  /** `number_content_element.get_bytes`: the value, big-endian, in the
      type's width. */
  function NumberBytes(name: Tag, value: nat, t: NumberType): (bs: seq<Byte>)
    requires value <= MaxValue(t)
    ensures |bs| == 8 + t.Width() && FromBE(bs[8..]) == value
  {
    Frame(name, ToBE(value, t.Width()))
  }

  /** `hex_content_element.get_bytes`: the bytes the text stands for. */
  function HexBytes(name: Tag, text: string): (bs: seq<Byte>)
    requires IsNormalHex(text) && |text| / 2 < LengthLimit
    ensures |bs| == 8 + |text| / 2
    ensures Upper(B2aHex(bs[8..])) == text
  {
    RenderedOfA2bHex(text);
    Frame(name, A2bHex(text))
  }

  /** The bytes of an element, as its class's `get_bytes` writes them. */
  function Encode(e: Element): (bs: seq<Byte>)
    requires WellFormed(e)
    ensures |bs| == 8 + ContentLength(e)
    ensures TagOfBytes(bs[..4]) == e.name && FromBE(bs[4..8]) == ContentLength(e)
    ensures bs == Header(e.name, ContentLength(e)) + bs[8..]
    decreases e, 1
  {
    match e
    case StringElement(name, content) => StringBytes(name, content)
    case NumberElement(name, value, t) => NumberBytes(name, value, t)
    case HexElement(name, text) => HexBytes(name, text)
    case ParentElement(name, children) => Frame(name, EncodeAll(children))
  }

  /** Where a header's fields sit once bytes follow it. */
  lemma HeaderThen(h: seq<Byte>, rest: seq<Byte>)
    requires |h| == 8
    ensures (h + rest)[..4] == h[..4] && (h + rest)[4..8] == h[4..8] && (h + rest)[8..] == rest
  {
  }

  /** The first eight bytes of any byte string are the header they read as. */
  lemma HeaderPrefix(bs: seq<Byte>)
    requires |bs| >= 8
    ensures FromBE(bs[4..8]) < LengthLimit
    ensures bs == Header(TagOfBytes(bs[..4]), FromBE(bs[4..8])) + bs[8..]
  {
    Pow2Widths();
    TagBytesOfTag(bs[..4]);
    ToBEFromBE(bs[4..8]);
    assert bs == bs[..4] + bs[4..8] + bs[8..];
  }

  /** Elements written back to back, in order. */
  function EncodeAll(es: seq<Element>): (bs: seq<Byte>)
    requires forall e :: e in es ==> WellFormed(e)
    ensures |bs| == TotalSize(es)
    decreases es, 0
  {
    if es == [] then [] else Encode(es[0]) + EncodeAll(es[1..])
  }

  lemma ConcatAssociative(a: seq<Byte>, b: seq<Byte>, c: seq<Byte>)
    ensures a + (b + c) == (a + b) + c
  {
  }

  lemma EncodeAllCons(e: Element, es: seq<Element>)
    requires WellFormed(e) && forall c :: c in es ==> WellFormed(c)
    ensures EncodeAll([e] + es) == Encode(e) + EncodeAll(es)
  {
    assert ([e] + es)[1..] == es;
  }

  /** A parent is written as its header followed by its children's bytes. */
  lemma EncodeParent(name: Tag, children: seq<Element>)
    requires WellFormed(ParentElement(name, children))
    ensures Encode(ParentElement(name, children)) == Header(name, |EncodeAll(children)|) + EncodeAll(children)
  {
    HeaderThen(Header(name, |EncodeAll(children)|), EncodeAll(children));
  }

  /** The bytes of a suffix: its first element's, then the rest's. */
  lemma EncodeAllFrom(es: seq<Element>, i: nat)
    requires forall c :: c in es ==> WellFormed(c)
    requires i < |es|
    ensures EncodeAll(es[i..]) == Encode(es[i]) + EncodeAll(es[i + 1..])
  {
    assert es[i..][1..] == es[i + 1..];
  }

  /** `get_bytes`, dispatched on the element's class. */
  method GetBytes(e: Element) returns (bs: seq<Byte>)
    requires WellFormed(e)
    ensures bs == Encode(e)
    decreases e, 1
  {
    match e
    case StringElement(name, content) =>
      bs := StringBytes(name, content);
    case NumberElement(name, value, t) =>
      bs := NumberBytes(name, value, t);
    case HexElement(name, text) =>
      bs := HexBytes(name, text);
    case ParentElement(name, children) =>
      bs := ParentBytes(name, children);
  }

  /** `parent_element.get_bytes`: the loop that accumulates the children's
      bytes in order, then the header with their total length. */
  method ParentBytes(name: Tag, children: seq<Element>) returns (bs: seq<Byte>)
    requires WellFormed(ParentElement(name, children))
    ensures bs == Encode(ParentElement(name, children))
    decreases children, 0
  {
    var childBytes: seq<Byte> := [];
    assert children[0..] == children;
    for i := 0 to |children|
      invariant EncodeAll(children) == childBytes + EncodeAll(children[i..])
    {
      var more := GetBytes(children[i]);
      EncodeAllFrom(children, i);
      ConcatAssociative(childBytes, more, EncodeAll(children[i + 1..]));
      childBytes := childBytes + more;
    }
    assert childBytes + [] == childBytes;
    bs := Frame(name, childBytes);
  }

  /** `parent_element.assert_self(name)`; leaves have no such method. */
  function AssertSelf(e: Element, name: Tag): (r: Result<Element>)
    ensures r.Ok? <==> e.ParentElement? && e.name == name
    ensures r.Ok? ==> r.value == e
    ensures e.ParentElement? && e.name != name ==> r == Err(NameMismatch(name, e.name))
  {
    if !e.ParentElement? then Err(NotAParent(e.name))
    else if e.name == name then Ok(e)
    else Err(NameMismatch(name, e.name))
  }

  /** The position of the first element named `name`, if any. */
  function FirstNamed(es: seq<Element>, name: Tag): (r: Option<nat>)
    ensures r.Some? ==> r.value < |es| && es[r.value].name == name
    ensures r.Some? ==> forall j :: 0 <= j < r.value ==> es[j].name != name
    ensures r.None? ==> forall j :: 0 <= j < |es| ==> es[j].name != name
  {
    if es == [] then None
    else if es[0].name == name then Some(0)
    else match FirstNamed(es[1..], name)
      case None => None
      case Some(k) => Some(k + 1)
  }

  /** What `parent_element.assert_child(name)` returns: the first child in
      list order with that name; later duplicates are never visible. */
  function ChildNamed(e: Element, name: Tag): (r: Result<Element>)
    ensures r.Ok? <==> e.ParentElement? && exists i :: 0 <= i < |e.children| && e.children[i].name == name
    ensures r.Ok? ==> exists i :: 0 <= i < |e.children| && e.children[i] == r.value && r.value.name == name
                                  && forall j :: 0 <= j < i ==> e.children[j].name != name
    ensures e.ParentElement? && r.Err? ==> r.error == NoSuchChild(name, e.name)
  {
    if !e.ParentElement? then Err(NotAParent(e.name))
    else match FirstNamed(e.children, name)
      case None => Err(NoSuchChild(name, e.name))
      case Some(i) => Ok(e.children[i])
  }

  /** `parent_element.assert_child(name)`: a scan of the children that
      returns at the first match. */
  method AssertChild(e: Element, name: Tag) returns (r: Result<Element>)
    ensures r == ChildNamed(e, name)
  {
    if !e.ParentElement? {
      return Err(NotAParent(e.name));
    }
    var children := e.children;
    for i := 0 to |children|
      invariant forall j :: 0 <= j < i ==> children[j].name != name
    {
      if children[i].name == name {
        return Ok(children[i]);
      }
    }
    return Err(NoSuchChild(name, e.name));
  }
}
