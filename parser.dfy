/** The `parser` class of `src/dacp_serialisation.py`: its classification
    tables, the recursive-descent `_parse` over one byte region, and the
    top-level `parse` gate. */
module Parser {
  import opened BigEndian
  import opened HexText
  import opened Elements

  /** Names whose content is itself a sequence of elements (`self.nodes`). */
  const NodeTags: set<string> := {
    "arsv", "mupd", "msrv", "mdcl", "mccr", "cmst", "mlog", "agal", "mlcl", "mshl",
    "mlit", "abro", "abar", "apso", "caci", "avdb", "cmgt", "aply", "adbs", "cmpa"
  }

  /** Names whose content is text (`self.strings`). */
  const StringTags: set<string> := {
    "mcnm", "mcna", "minm", "cann", "cana", "canl", "asaa", "asal", "asar", "cmty", "cmnm"
  }

  /** `struct.calcsize("4sI")`: the name and the length field. */
  const HeaderSize: nat := 8

  const StatusName: Tag := "mstt"
  const StatusOk: nat := 200

  /** The table `number_types_by_length`. */
  function TypeOfLength(length: nat): (r: Option<NumberType>)
    ensures r.Some? <==> length in {1, 2, 4, 8}
    ensures r.Some? ==> r.value.Width() == length
  {
    if length == 1 then Some(B)
    else if length == 2 then Some(H)
    else if length == 4 then Some(I)
    else if length == 8 then Some(Q)
    else None
  }

  /** Every number type is the one its own width selects. */
  lemma WidthHasType(t: NumberType)
    ensures TypeOfLength(t.Width()) == Some(t)
  {
  }

  /** Prepends the elements already read to the outcome of reading the rest. */
  function Prepend(es: seq<Element>, r: Result<seq<Element>>): Result<seq<Element>> {
    match r
    case Ok(rest) => Ok(es + rest)
    case Err(e) => Err(e)
  }

  lemma PrependAssociative(a: seq<Element>, b: seq<Element>, r: Result<seq<Element>>)
    ensures Prepend(a + b, r) == Prepend(a, Prepend(b, r))
    ensures Prepend([], r) == r
  {
    if r.Ok? {
      assert (a + b) + r.value == a + (b + r.value);
      assert [] + r.value == r.value;
    }
  }

  /** The elements of one region, read front to back: the meaning of `_parse`. */
  function DecodeScope(data: seq<Byte>): Result<seq<Element>>
    decreases |data|, 1
  {
    if |data| == 0 then Ok([])
    else if |data| < HeaderSize then Err(TruncatedHeader(|data|))
    else
      var length := FromBE(data[4..8]);
      if length > |data| - HeaderSize then Err(LengthOverrun(length, |data| - HeaderSize))
      else
        var e :- Classify(TagOfBytes(data[..4]), data[8..8 + length]);
        Prepend([e], DecodeScope(data[8 + length..]))
  }

  /** The element an element's name and content bytes decode to, by the
      fixed priority: node names, string names, number widths, hex. */
  function Classify(name: Tag, content: seq<Byte>): Result<Element>
    decreases |content|, 2
  {
    if name in NodeTags then
      var children :- DecodeScope(content);
      Ok(ParentElement(name, children))
    else if name in StringTags then
      Ok(StringElement(name, content))
    else match TypeOfLength(|content|)
      case Some(t) => NewNumber(name, FromBE(content), t.Code())
      case None => Ok(NewHex(name, Upper(B2aHex(content))))
  }

  /** `parser._parse`: the loop that reads one element at a time from the
      remaining bytes. */
  method ParseElements(data: seq<Byte>) returns (r: Result<seq<Element>>)
    ensures r == DecodeScope(data)
    decreases |data|, 1
  {
    var elements: seq<Element> := [];
    var remaining := data;
    PrependAssociative([], [], DecodeScope(data));
    while |remaining| > 0
      invariant |remaining| <= |data|
      invariant DecodeScope(data) == Prepend(elements, DecodeScope(remaining))
      decreases |remaining|
    {
      if |remaining| < HeaderSize {
        return Err(TruncatedHeader(|remaining|));
      }
      var dataLength := |remaining| - HeaderSize;
      var name := TagOfBytes(remaining[..4]);
      var length := FromBE(remaining[4..8]);
      if length > dataLength {
        return Err(LengthOverrun(length, dataLength));
      }
      var content := remaining[8..8 + length];
      var element := ReadElement(name, content);
      if element.Err? {
        return Err(element.error);
      }
      PrependAssociative(elements, [element.value], DecodeScope(remaining[8 + length..]));
      elements := elements + [element.value];
      remaining := remaining[8 + length..];
    }
    assert elements + [] == elements;
    return Ok(elements);
  }

  /** The body of that loop for one element: node content is parsed
      recursively, string content kept, and anything else read as a number
      when its length is a number width and as hex otherwise. */
  method ReadElement(name: Tag, content: seq<Byte>) returns (r: Result<Element>)
    ensures r == Classify(name, content)
    decreases |content|, 2
  {
    if name in NodeTags {
      var children := ParseElements(content);
      if children.Err? {
        return Err(children.error);
      }
      return Ok(ParentElement(name, children.value));
    } else if name in StringTags {
      return Ok(StringElement(name, content));
    } else if TypeOfLength(|content|).Some? {
      return NewNumber(name, FromBE(content), TypeOfLength(|content|).value.Code());
    } else {
      return Ok(NewHex(name, Upper(B2aHex(content))));
    }
  }

  /** The status gate: the first `mstt` child of the root is the number 200. */
  predicate StatusPasses(root: Element) {
    var status := ChildNamed(root, StatusName);
    status.Ok? && status.value.NumberElement? && status.value.value == StatusOk
  }

  /** `parser.parse(data, assert_status, allow_null)`: exactly one root, whose
      `mstt` child must be the number 200 when the status is asserted. */
  function Parse(data: seq<Byte>, assertStatus: bool, allowNull: bool): (r: Result<Option<Element>>)
    ensures DecodeScope(data).Err? ==> r == Err(DecodeScope(data).error)
    ensures r == Ok(None) <==> DecodeScope(data) == Ok([]) && allowNull
    ensures DecodeScope(data) == Ok([]) && !allowNull ==> r == Err(NoElements)
    ensures DecodeScope(data).Ok? && |DecodeScope(data).value| > 1 ==>
              r == Err(TooManyElements(|DecodeScope(data).value|))
    ensures r.Ok? && r.value.Some? ==> DecodeScope(data) == Ok([r.value.value])
    ensures r.Ok? && r.value.Some? && assertStatus ==> StatusPasses(r.value.value)
    ensures forall root :: DecodeScope(data) == Ok([root]) && (!assertStatus || StatusPasses(root)) ==>
              r == Ok(Some(root))
  {
    var roots :- DecodeScope(data);
    assert |roots| == 1 ==> roots == [roots[0]];
    if |roots| == 0 then
      if allowNull then Ok(None) else Err(NoElements)
    else if |roots| > 1 then Err(TooManyElements(|roots|))
    else if assertStatus then
      var status :- ChildNamed(roots[0], StatusName);
      if status.NumberElement? && status.value == StatusOk then Ok(Some(roots[0]))
      else Err(BadStatus(status))
    else Ok(Some(roots[0]))
  }
}
