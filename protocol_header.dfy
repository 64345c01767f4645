/** Header framing of the test-server protocol
    (services/lib/kali/protocol_header.py): an outer `E0` TLV whose value is a
    `DF01` TLV holding the payload length and a `DF02` TLV holding the payload
    format code. */
module ProtocolHeader {
  import opened Wrappers
  import opened Bytes
  import opened Text
  import opened Tlv

  const TagOuter: Bytes := [0xE0]
  const TagLength: Bytes := [0xDF, 0x01]
  const TagFormat: Bytes := [0xDF, 0x02]

  /** `valid_tags` */
  const ValidTags: seq<Bytes> := [TagOuter, TagLength, TagFormat]

  /** The only format with a code. */
  const JsonCode: Bytes := [0x00]

  /** `format_to_bytes`: the code of a format name, compared without case. */
  function FormatToBytes(format: string): (r: Option<Bytes>)
    ensures r.Some? ==> r.value == JsonCode
  {
    if Lower(format) == "json" then Some(JsonCode) else None
  }

  /** Python's `==` between a `bytes` object and a `str` object: never equal. */
  predicate BytesEqualsStr(b: Bytes, s: string)
  {
    false
  }

  /** `bytes_to_format`: compares the code with the text `'b\x00'` (two
      characters, `b` and NUL) rather than with the bytes `b'\x00'`, so no
      code is ever recognised. */
  function BytesToFormat(code: Bytes): (r: Option<string>)
    ensures r == None
  {
    if BytesEqualsStr(code, ['b', '\0']) then Some("json") else None
  }

  /** `create_header(length, _format)`: the dump of the `E0` TLV around the
      length TLV (minimal big-endian form of `length`) and the format TLV.
      A format without a code leaves the format TLV empty. */
  function CreateHeader(length: int, format: string): (r: Result<Bytes, Exc>)
    ensures length < 0 ==> r == Err(OverflowError)
  {
    // `int.to_bytes` refuses a negative number
    if length < 0 then Err(OverflowError)
    else
      match NewTlv(Some(TagLength), Some(MinimalBE(length)), None)
      case Err(e) => Err(e)
      case Ok(lenTlv) =>
        match NewTlv(Some(TagFormat), FormatToBytes(format), None)
        case Err(e) => Err(e)
        case Ok(formatTlv) =>
          match NewTlv(Some(TagOuter), Some(HexDump(lenTlv) + HexDump(formatTlv)), None)
          case Err(e) => Err(e)
          case Ok(tlv) => Ok(HexDump(tlv))
  }

  /** `parse_header`: the first TLV of the header, then the first two TLVs
      of its value, read as (length, format).  An index the decoder did not
      produce is an IndexError.  (`TLV(t, v, l)` with an explicit length
      keeps the three fields as they are, see `NewTlv`.) */
  function ParseHeader(header: Bytes): (r: Result<(nat, Option<string>), Exc>)
    ensures r.Ok? ==> r.value.1 == None
  {
    match Apdu2TlvSpec(header, 0)
    case Err(e) => Err(e)
    case Ok(outer) =>
      if |outer| == 0 then Err(IndexError)
      else
        match Apdu2TlvSpec(outer[0].val, 0)
        case Err(e) => Err(e)
        case Ok(inner) =>
          if |inner| < 2 then Err(IndexError)
          else Ok((FromBE(inner[0].val), BytesToFormat(inner[1].val)))
  }

  /** `check_header`: the tag is one of the three header tags; for the
      format tag the value must moreover be the JSON code. */
  function CheckHeader(t: TlvFields): (r: bool)
    ensures r <==> t.tag == TagOuter || t.tag == TagLength || (t.tag == TagFormat && t.val == JsonCode)
  {
    var result := t.tag in ValidTags;
    if t.tag == TagFormat then t.val == JsonCode else result
  }

  // ---------------------------------------------------------------------------
  // Properties

  /** Only the letters' case of the format name matters. */
  lemma FormatToBytesIgnoresCase(format: string)
    ensures FormatToBytes(format) == FormatToBytes(Lower(format))
    ensures FormatToBytes("JSON") == Some(JsonCode) && FormatToBytes("Json") == Some(JsonCode)
    ensures FormatToBytes("xml") == None
  {
    LowerIdempotent(format);
    assert Lower("JSON") == "json";
    assert Lower("Json") == "json";
    assert Lower("xml")[0] == 'x';
  }

  /** The three TLVs of a header with a coded format. */
  function LengthTlv(length: nat): TlvFields
    requires ByteLength(length) <= 120
  {
    TlvFields(TagLength, [ByteLength(length)], MinimalBE(length))
  }

  const FormatTlv := TlvFields(TagFormat, [1], JsonCode)

  lemma BuildLengthTlv(length: nat)
    requires ByteLength(length) <= 120
    ensures NewTlv(Some(TagLength), Some(MinimalBE(length)), None) == Ok(LengthTlv(length))
    ensures HexDump(LengthTlv(length)) == [0xDF, 0x01, ByteLength(length)] + MinimalBE(length)
  {
  }

  /** The outer TLV built around a short value, and its dump. */
  lemma BuildOuterTlv(inner: Bytes)
    requires 1 <= |inner| <= 127
    ensures NewTlv(Some(TagOuter), Some(inner), None) == Ok(TlvFields(TagOuter, [|inner|], inner))
    ensures HexDump(TlvFields(TagOuter, [|inner|], inner)) == [0xE0, |inner|] + inner
  {
    assert CalcLen(inner) == Ok([|inner|]);
  }

  /** For a coded format the header is `E0 (7 + k) DF 01 k m DF 02 01 00`,
      where `m` is the `k`-byte minimal big-endian form of the length. */
  lemma CreateHeaderCoded(length: nat, format: string)
    requires FormatToBytes(format).Some?
    requires ByteLength(length) <= 120
    ensures var m := MinimalBE(length);
      CreateHeader(length, format) == Ok([0xE0, 7 + |m|, 0xDF, 0x01, |m|] + m + [0xDF, 0x02, 0x01, 0x00])
  {
    var m := MinimalBE(length);
    BuildLengthTlv(length);
    assert FormatToBytes(format) == Some(JsonCode);
    assert CalcLen(JsonCode) == Ok([1]);
    assert NewTlv(Some(TagFormat), FormatToBytes(format), None) == Ok(FormatTlv);
    var inner := HexDump(LengthTlv(length)) + HexDump(FormatTlv);
    assert inner == [0xDF, 0x01, |m|] + m + [0xDF, 0x02, 0x01, 0x00];
    BuildOuterTlv(inner);
    assert [0xE0, |inner|] + inner == [0xE0, 7 + |m|, 0xDF, 0x01, |m|] + m + [0xDF, 0x02, 0x01, 0x00];
  }

  /** For a format without a code the format TLV adds nothing:
      the header is `E0 (3 + k) DF 01 k m`. */
  lemma CreateHeaderUncoded(length: nat, format: string)
    requires FormatToBytes(format).None?
    requires ByteLength(length) <= 120
    ensures var m := MinimalBE(length);
      CreateHeader(length, format) == Ok([0xE0, 3 + |m|, 0xDF, 0x01, |m|] + m)
  {
    var m := MinimalBE(length);
    BuildLengthTlv(length);
    assert NewTlv(Some(TagFormat), FormatToBytes(format), None) == Ok(EmptyTlv);
    var inner := HexDump(LengthTlv(length)) + HexDump(EmptyTlv);
    assert inner == [0xDF, 0x01, |m|] + m;
    BuildOuterTlv(inner);
    assert [0xE0, |inner|] + inner == [0xE0, 3 + |m|, 0xDF, 0x01, |m|] + m;
  }

  lemma CreateHeaderExample()
    ensures CreateHeader(42, "json") == Ok([0xE0, 0x08, 0xDF, 0x01, 0x01, 0x2A, 0xDF, 0x02, 0x01, 0x00])
    ensures CreateHeader(0, "json") == Ok([0xE0, 0x07, 0xDF, 0x01, 0x00, 0xDF, 0x02, 0x01, 0x00])
  {
    assert Lower("json") == "json";
    MinimalBESmall(42);
    MinimalBESmall(0);
    CreateHeaderCoded(42, "json");
    assert [0xE0, 7 + 1, 0xDF, 0x01, 1] + [42] + [0xDF, 0x02, 0x01, 0x00]
      == [0xE0, 0x08, 0xDF, 0x01, 0x01, 0x2A, 0xDF, 0x02, 0x01, 0x00];
    CreateHeaderCoded(0, "json");
    assert [0xE0, 7 + 0, 0xDF, 0x01, 0] + [] + [0xDF, 0x02, 0x01, 0x00]
      == [0xE0, 0x07, 0xDF, 0x01, 0x00, 0xDF, 0x02, 0x01, 0x00];
  }

  lemma ShortTags()
    ensures WellTag(TagOuter) && WellTag(TagLength) && WellTag(TagFormat)
  {
  }

  /** A header's dump is its outer TLV in short form. */
  lemma OuterTlv(inner: Bytes)
    requires 1 <= |inner| <= 127
    ensures Apdu2TlvSpec([0xE0, |inner|] + inner, 0) == Ok([TlvFields(TagOuter, [|inner|], inner)])
  {
    var f := TlvFields(TagOuter, [|inner|], inner);
    ShortTags();
    assert Encode([f]) == [0xE0, |inner|] + inner by {
      assert Encode([f]) == HexDump(f) + Encode([]);
    }
    Apdu2TlvShortForm([], [f]);
    assert [] + Encode([f]) == Encode([f]);
    assert DecodedAll([f]) == [f];
  }

  /** The length round-trips through the header and the format does not:
      `parse_header(create_header(n, 'json')) == (n, None)`. */
  lemma ParseCreateHeader(length: nat, format: string)
    requires FormatToBytes(format).Some?
    requires ByteLength(length) <= 120
    ensures ParseHeader(CreateHeader(length, format).value) == Ok((length, None))
  {
    var m := MinimalBE(length);
    var lt := LengthTlv(length);
    CreateHeaderCoded(length, format);
    BuildLengthTlv(length);
    var inner := HexDump(lt) + HexDump(FormatTlv);
    assert CreateHeader(length, format).value == [0xE0, |inner|] + inner;
    OuterTlv(inner);
    ShortTags();
    assert Encode([lt, FormatTlv]) == inner by {
      assert Encode([lt, FormatTlv]) == HexDump(lt) + Encode([FormatTlv]);
      assert Encode([FormatTlv]) == HexDump(FormatTlv) + Encode([]);
    }
    Apdu2TlvShortForm([], [lt, FormatTlv]);
    assert [] + inner == inner;
    var decoded := DecodedAll([lt, FormatTlv]);
    assert decoded[0].val == m;
    MinimalBERoundTrip(length);
  }

  /** The dump of the length TLV alone decodes to exactly one TLV. */
  lemma LengthTlvDecodes(length: nat)
    requires ByteLength(length) <= 120
    ensures var d := Apdu2TlvSpec(HexDump(LengthTlv(length)), 0); d.Ok? && |d.value| == 1
  {
    var lt := LengthTlv(length);
    BuildLengthTlv(length);
    ShortTags();
    assert Encode([lt]) == HexDump(lt) by {
      assert Encode([lt]) == HexDump(lt) + Encode([]);
    }
    Apdu2TlvShortForm([], [lt]);
    assert [] + HexDump(lt) == HexDump(lt);
  }

  /** Without a coded format the header holds a single inner TLV, so
      `parse_header` fails on the missing second one. */
  lemma ParseUncodedHeader(length: nat, format: string)
    requires FormatToBytes(format).None?
    requires ByteLength(length) <= 120
    ensures ParseHeader(CreateHeader(length, format).value) == Err(IndexError)
  {
    CreateHeaderUncoded(length, format);
    BuildLengthTlv(length);
    var inner := HexDump(LengthTlv(length));
    assert CreateHeader(length, format).value == [0xE0, |inner|] + inner;
    OuterTlv(inner);
    LengthTlvDecodes(length);
  }

  /** The three TLVs of a header with a coded format pass `check_header`;
      a format TLV with another code does not. */
  lemma HeaderTlvsPass(length: nat, inner: Bytes)
    ensures CheckHeader(TlvFields(TagOuter, [|inner| % 256], inner))
    requires ByteLength(length) <= 120
    ensures CheckHeader(LengthTlv(length))
    ensures CheckHeader(FormatTlv)
    ensures forall code :: code != JsonCode ==> !CheckHeader(TlvFields(TagFormat, [|code| % 256], code))
  {
  }
}
