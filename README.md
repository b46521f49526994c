# DACP element codec

This project models the DACP serialisation module of an iTunes remote
control client (`src/dacp_serialisation.py`). DACP responses are trees of
tag-length-value elements. Each element is a four-byte name, a four-byte
big-endian length and that many content bytes.

The module has four element classes:

- a string element keeps raw bytes;
- a number element keeps an unsigned integer of type `B`, `H`, `I` or `Q`
  (1, 2, 4 or 8 bytes);
- a hex element keeps upper-case, even-length hex text;
- a parent element keeps a list of children.

Every class has a `get_bytes` encoder. Parents also have the `assert_self`
and `assert_child` navigation helpers. The `parser` class decodes a buffer.
It reads elements front to back. It picks each element's class by a fixed
priority:

1. a name in the node table gives a parent, and its content is decoded
   recursively;
2. a name in the string table gives a string;
3. a content length of 1, 2, 4 or 8 gives a number of that width;
4. anything else gives hex text.

`parse` then requires exactly one root. It can also require the root's
`mstt` status child to be the number 200.

The model has six modules:

- `BigEndian`: `struct` packing and unpacking of unsigned integers.
- `HexText`: `b2a_hex`, `a2b_hex`, ASCII upper-casing, and the
  normalisation the hex constructor applies.
- `Elements`: the element tree as a datatype.
  - The validating constructors are functions that return a `Result`.
  - `get_bytes` is the method `GetBytes` and its loop `ParentBytes`. Both
    are proved equal to the function `Encode`.
  - `assert_child` is the scanning method `AssertChild`, proved equal to the
    first-match function `ChildNamed`.
- `Parser`: the tag tables and the specification function `DecodeScope`.
  - The `_parse` loop is the method `ParseElements`, with the per-element
    step `ReadElement`. Both are proved equal to `DecodeScope` and
    `Classify`.
  - `parse` is the function `Parse`.
- `RoundTrip`: what decoding and encoding promise about each other.
  - Decoding then re-encoding gives back the exact bytes.
  - A tree whose names fit the tag tables decodes from its own encoding.
  - Truncated input fails.
  - Hex content of a number width comes back as a number.
  - The status gate behaves as described above.
- `Vectors`: concrete cases:
  - byte-exact status encodings;
  - the range boundary of every number width;
  - hex normalisation;
  - the first-match rule;
  - a 500 status response.

Each exception that the constructors, the decoder, `parse` and the navigation
helpers raise is an `Error` variant in a `Result`. The exceptions of
`a2b_hex` and `struct.pack` inside `get_bytes` are preconditions instead
(see "Left out").

## Model

| member | source | states |
|---|---|---|
| BigEndian.FromBE | src/dacp_serialisation.py:168 | the unsigned big-endian value of `k` bytes is below 2^(8k) |
| BigEndian.ToBE | src/dacp_serialisation.py:64-65 | packing a value that fits in `w` bytes gives exactly `w` bytes that read back as the value |
| BigEndian.ToBEFromBE | src/dacp_serialisation.py:197 | reading bytes and packing the value in the same width gives the bytes back (the reading is one-to-one) |
| BigEndian.Pow2Widths | src/dacp_serialisation.py:59 | the ranges of the 1-, 2-, 4- and 8-byte widths are 2^8, 2^16, 2^32 and 2^64 |
| HexText.B2aHex | src/dacp_serialisation.py:203 | `b2a_hex` writes two lower-case hex digits per byte |
| HexText.A2bHex | src/dacp_serialisation.py:89 | `a2b_hex` gives one byte per pair of digits |
| HexText.Upper | src/dacp_serialisation.py:80 | ASCII `upper()` keeps the length, leaves no lower-case letter, and leaves every other character as it was (also used at lines 85 and 203) |
| HexText.NormaliseHex | src/dacp_serialisation.py:79-85 | stored text is even-length and upper-case, with exactly one leading "0" added to odd-length input; it is normal hex exactly when the input is hex |
| HexText.NormaliseHexIdempotent | src/dacp_serialisation.py:79-85 | normalising twice is normalising once, and normal hex text is stored unchanged |
| HexText.UpperOfUpper | src/dacp_serialisation.py:80 | `upper()` leaves text without lower-case letters alone |
| HexText.RenderedHexIsNormal | src/dacp_serialisation.py:203-204 | the decoder's upper-cased `b2a_hex` text is always normal hex |
| HexText.A2bHexOfRendered | src/dacp_serialisation.py:202-204 | converting the rendered hex text back gives the original bytes |
| HexText.RenderedOfA2bHex | src/dacp_serialisation.py:87-90 | rendering the bytes of normal hex text again gives the text back |
| Elements.TypeOfCode | src/dacp_serialisation.py:54-57 | a type code is known exactly when it is B, H, I or Q, and it maps to the type with that code |
| Elements.MaxValue | src/dacp_serialisation.py:59 | the largest value of a type, 2^(8·width)−1; its four values are stated by `Vectors.MaxValues` and the boundary it draws by `Vectors.WidthBoundary` (no contract of its own) |
| Elements.NewNumber | src/dacp_serialisation.py:51-61 | an unknown code fails with BadTypeCode; otherwise a value outside 0..2^(8·width)−1 fails with OutOfRange carrying the maximum; success holds exactly when both checks pass, and then the element keeps the name, value and code and is well formed |
| Elements.NewHex | src/dacp_serialisation.py:77-85 | the element stores the normalised text; it can be encoded exactly when the given text is hex and its byte length fits the length field |
| Elements.Header | src/dacp_serialisation.py:38 | the `>4sI` prefix is 8 bytes whose name and length fields read back as the given name and length |
| Elements.HeaderPrefix | src/dacp_serialisation.py:167-168 | the first 8 bytes of any buffer are the header of the name and length they read as |
| Elements.Frame | src/dacp_serialisation.py:111 | a frame is 8 + \|payload\| bytes: the header announcing the payload's length, then the payload |
| Elements.StringBytes | src/dacp_serialisation.py:36-38 | a string's content bytes are its raw content |
| Elements.NumberBytes | src/dacp_serialisation.py:63-65 | a number's content is the type's width in bytes and reads back big-endian as the value |
| Elements.HexBytes | src/dacp_serialisation.py:87-90 | a hex element's content is half as long as its text and renders back as that text |
| Elements.Encode | src/dacp_serialisation.py:36-111 | every element's bytes are 8 + its content length, with the name and that length in the header |
| Elements.EncodeAll | src/dacp_serialisation.py:107-109 | the children's bytes total the sum of their encoded sizes |
| Elements.EncodeAllCons | src/dacp_serialisation.py:108-109 | the bytes of a sequence are the first element's bytes, then the rest's |
| Elements.EncodeAllFrom | src/dacp_serialisation.py:108-109 | the bytes of a suffix are its first element's bytes, then the rest's |
| Elements.EncodeParent | src/dacp_serialisation.py:106-111 | a parent's length field is the total size of its children's bytes, and those bytes follow it in order |
| Elements.GetBytes | src/dacp_serialisation.py:36-111 | `get_bytes`, dispatched on the class, returns exactly `Encode` of the element |
| Elements.ParentBytes | src/dacp_serialisation.py:106-111 | the accumulation loop over the children returns exactly `Encode` of the parent |
| Elements.AssertSelf | src/dacp_serialisation.py:113-117 | succeeds, returning the element itself, exactly when it is a parent of that name; a parent of another name gives NameMismatch |
| Elements.FirstNamed | src/dacp_serialisation.py:120-122 | the index found holds the name and no earlier one does; no index means no element has the name |
| Elements.ChildNamed | src/dacp_serialisation.py:119-123 | succeeds exactly when the element is a parent with a child of that name; returns the first such child; otherwise fails with NoSuchChild |
| Elements.AssertChild | src/dacp_serialisation.py:119-123 | the scan returning at the first match computes exactly `ChildNamed` |
| Parser.TypeOfLength | src/dacp_serialisation.py:141 | a length selects a number type exactly when it is 1, 2, 4 or 8, and the type has that width |
| Parser.WidthHasType | src/dacp_serialisation.py:141 | each number type is the one its own width selects |
| Parser.DecodeScope | src/dacp_serialisation.py:163-206 | the meaning of `_parse`: empty input gives no elements, fewer than 8 bytes fail with TruncatedHeader, a length past the end fails with LengthOverrun, otherwise the classified element comes first and the rest of the buffer follows; its properties are the `RoundTrip` lemmas (no contract of its own) |
| Parser.Classify | src/dacp_serialisation.py:181-204 | the class chosen for one name and content: node table, then string table, then number width, then hex; its properties are stated by `RoundTrip.Classification` and the lemmas after it (no contract of its own) |
| Parser.StatusPasses | src/dacp_serialisation.py:159 | the root passes when its first `mstt` child is a number element holding 200; a hex `mstt`, a missing one or a leaf root does not pass; stated by `RoundTrip.StatusGate` (no contract of its own) |
| Parser.ParseElements | src/dacp_serialisation.py:163-206 | the `_parse` loop computes exactly `DecodeScope` of the buffer, including its failures |
| Parser.ReadElement | src/dacp_serialisation.py:181-204 | the per-element body of the loop computes exactly `Classify` of the name and content |
| Parser.Parse | src/dacp_serialisation.py:143-161 | a decode failure propagates; no elements gives None when allowed and NoElements otherwise; more than one gives TooManyElements; a returned root is the only element and passes the status gate when asked; every sole root that passes is returned |
| RoundTrip.TagTablesDisjoint | src/dacp_serialisation.py:139-140 | no name is in both the node and the string table (the constants `Parser.NodeTags`, 20 names, and `Parser.StringTags`, 11 names, copy those tables) |
| RoundTrip.DecodeFrameThen | src/dacp_serialisation.py:166-186 | a buffer that starts with a header and its content decodes as that element followed by the decoding of the rest, or fails with the element's failure |
| RoundTrip.FrameOf | src/dacp_serialisation.py:167-169 | a buffer whose first length fits splits into that header, that much content and the rest |
| RoundTrip.ClassifyNode | src/dacp_serialisation.py:182-186 | under a node name, the content decodes as a nested scope, and empty content gives no children |
| RoundTrip.ClassifyNumber | src/dacp_serialisation.py:195-199 | under a name in neither table, content of a number width gives the in-range number holding its big-endian value |
| RoundTrip.ClassifyHex | src/dacp_serialisation.py:201-204 | under a name in neither table, content of any other length gives its normal hex rendering, which converts back to the content |
| RoundTrip.Classification | src/dacp_serialisation.py:181-204 | classification follows the priority node name, then string name, then number width, then hex, with what each rule yields |
| RoundTrip.DecodeFailsOnlyOnFraming | src/dacp_serialisation.py:163-206 | decoding fails only with a truncated header or a length overrun; the number constructor never rejects what the decoder reads |
| RoundTrip.ClassifyFailsOnlyOnFraming | src/dacp_serialisation.py:181-204 | classifying content fails only through a framing failure inside nested content |
| RoundTrip.DecodeThenEncode | src/dacp_serialisation.py:163-206 | every decoded element is well formed, and re-encoding the decoded elements gives exactly the decoded bytes |
| RoundTrip.ClassifyThenEncode | src/dacp_serialisation.py:181-204 | the element read from a name and content re-encodes as that name's header followed by exactly that content |
| RoundTrip.DecodeAppend | src/dacp_serialisation.py:163-206 | a buffer that starts with a decodable region decodes as that region's elements, then the rest's |
| RoundTrip.TruncatedFrameFails | src/dacp_serialisation.py:167-169 | a proper non-empty prefix of one frame fails: with TruncatedHeader below 8 bytes, with LengthOverrun otherwise |
| RoundTrip.TruncatedEncodingFails | src/dacp_serialisation.py:167-169 | every proper non-empty prefix of an element's encoding fails to decode, with the matching error |
| RoundTrip.EncodeThenDecodeAll | src/dacp_serialisation.py:163-206 | the encoding of a sequence of trees whose names fit the tag tables decodes to that sequence |
| RoundTrip.ClassifyEncoded | src/dacp_serialisation.py:181-204 | the content bytes of such an element classify back into that element |
| RoundTrip.EncodeThenDecode | src/dacp_serialisation.py:106-111 | such a tree decodes from its own encoding |
| RoundTrip.SingleFrame | src/dacp_serialisation.py:166-206 | a buffer holding exactly one frame decodes to that one element |
| RoundTrip.EncodeSingle | src/dacp_serialisation.py:166-206 | an element's own bytes decode to the one element its header and content classify to |
| RoundTrip.HexOfNumberWidthReadsAsNumber | src/dacp_serialisation.py:194-199 | hex content of 1, 2, 4 or 8 bytes under a name in neither table comes back as the number of that width, so it does not round-trip |
| RoundTrip.ParseEncoded | src/dacp_serialisation.py:143-161 | `parse` returns such a root unchanged whenever the status gate, if asked for, passes |
| RoundTrip.StatusGate | src/dacp_serialisation.py:158-161 | a root whose first `mstt` child is not the number 200 is refused with BadStatus when the status is asserted, and returned unchanged when it is not |
| RoundTrip.ParseCountsRoots | src/dacp_serialisation.py:150-157 | an empty buffer gives None only when allowed and NoElements otherwise; two roots give TooManyElements(2) |
| Vectors.StatusEncoding | src/dacp_serialisation.py:63-65 | `mstt` of type I with a one-byte value encodes as `6D 73 74 74 00 00 00 04 00 00 00 v` |
| Vectors.StatusResponseEncoding | src/dacp_serialisation.py:106-111 | the same status inside a `cmst` parent has an outer length of 12 |
| Vectors.NumberEncoding | src/dacp_serialisation.py:63-65 | a number is its header with the type's width, then its value in that width |
| Vectors.OnlyChild | src/dacp_serialisation.py:106-111 | a parent of one child is its header, then that child's bytes |
| Vectors.ShortHeader | src/dacp_serialisation.py:38 | a length below 256 is written `00 00 00 n` |
| Vectors.BigEndianWord | src/dacp_serialisation.py:64-65 | a value below 256 packed as `I` is `00 00 00 n` |
| Vectors.WidthBoundary | src/dacp_serialisation.py:59-61 | for every type the maximum value is accepted, and one more or −1 is refused with the type's maximum |
| Vectors.MaxValues | src/dacp_serialisation.py:59 | the maxima are 0xFF, 0xFFFF, 0xFFFFFFFF and 0xFFFFFFFFFFFFFFFF |
| Vectors.UnknownTypeCode | src/dacp_serialisation.py:55-57 | the codes "L" and "b" are refused whatever the value |
| Vectors.HexNormalisation | src/dacp_serialisation.py:79-85 | "abc" and "ABC" store "0ABC", "0ABC" is kept, and "0a1B" becomes "0A1B" |
| Vectors.FirstChildWins | src/dacp_serialisation.py:119-123 | with two `cann` children the first is returned; a missing name fails with NoSuchChild; a leaf fails with NotAParent |
| Vectors.SelfCheck | src/dacp_serialisation.py:113-117 | `assert_self` returns a parent under its own name and refuses any other name |
| Vectors.ErrorStatusResponse | src/dacp_serialisation.py:158-161 | a `cmst` root with status 500 is refused with that status when asserted, and returned unchanged when not |

## Left out

- `to_string` on every class is not modelled. It only prints to the console.
- Exception messages are not modelled.
  - Each exception is an `Error` variant holding the values the message would show.
  - The message for more than one root (line 157) adds an `int` to a `str`, so Python raises a `TypeError` instead of the `parser_exception`. The model records this only as a failure: `TooManyElements` carries the count.
  - The message for a bad status (line 160) does the same when the `mstt` child is a number element, whose content is an `int`. A decoded `mstt` whose content is not 1, 2, 4 or 8 bytes is a hex element whose content is a `str`, and then the `parser_exception` is raised as written. The model records both cases as the same failure: `BadStatus` carries the status element.
- Element names are always exactly four bytes (the `Tag` type). The `4s` format's padding of shorter names and truncation of longer ones is not modelled.
- Elements.Encode requires every length field to be below 2^32, because `struct.pack` raises on a larger `I`. GetBytes, ParentBytes, Frame and Header carry the same precondition (through `WellFormed` or directly).
- Elements.Encode also requires a number's value to be within its type's range, and a hex element's text to be even-length, upper-case hex digits. `NewNumber` and `NewHex` establish both. On other text, `a2b_hex` in `get_bytes` raises, and the model does not describe that failure.
- Nesting depth is not bounded. The Python code has no depth limit and recurses once per nesting level; CPython's own recursion limit is not modelled.
- `parse` takes `assertStatus` and `allowNull` as explicit parameters. In the Python code they default to true and false.
- Only the codec module is modelled. `trunk/src/itunes-remote-applet.py` is not part of this model: it does HTTP, the menu front end and settings. `src/pairing_service.py` is not part of this model either: it does the mDNS advertisement and the pairing socket. Both only build trees and call `get_bytes`, `parse` and the navigation helpers.
