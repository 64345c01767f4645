# kali client core in Dafny

This project models the core of the kali hardware-test client: the Python
package `services/lib/kali` that drives test cases against a remote test
server ("OTS"). The model covers these parts:

- **TLV codec** (`tlv.dfy`, `tlv_stream.dfy`). Tags follow ITU-T X.690
  section 8.1.2.4. Lengths follow sections 8.1.3.4 (short form) and 8.1.3.5
  (long form). The codec has three parts:
  - the one-shot encoder (`calc_len`, the `TLV` constructor, `hexdump`);
  - the list decoder `APDU2TLV`;
  - the `TLVs` collection.

  The byte-at-a-time `populate` state machine is the class `TlvUnit`. A pure
  step function `Step` specifies it.
- **Header framing** (`protocol_header.dfy`). This is the `E0` outer TLV
  around a `DF01` length TLV and a `DF02` format TLV: its construction,
  parsing and tag checks.
- **Server client** (`ots_client.dfy`). `ConnectionHandler` is modelled over
  an abstract byte link. `communicate` frames a command and parses the reply
  header. `OtsClient` keeps a label → connection map and builds and unpacks
  the JSON command envelopes.
- **Bit-pattern matcher** (`output_regex.dfy`). `VerifyOutputRegex` parses
  `B`/`n`/`b` blocks into an unrolled string of `0`, `1` and `*`, and matches
  byte strings against it.
- **Test bookkeeping** (`test_case.dfy`, `kali.dfy`). This covers:
  - the step-result manager;
  - test-case tags, destructive modes and compatibilities;
  - the addon reload computation;
  - the test-case lifecycle and the addon registry in `Kali`;
  - the tag filters;
  - the fixed-width results table.
- **Log line buffer** (`loglib.dfy`). `append_line` splits text into lines,
  carries a partial last line over and enforces a size limit. It also
  covers `LogLib`'s `backup`, `dump`, `clear` and `get_size`.
- **Comparators** (`checkers.dfy`). `Checker` has `check`, `equal`,
  `different`, `list_compare`, `dict_compare` and `find`, with `None`
  wildcards and the reset on failure.
- **Version selection** (`utils.dfy`). `bitmask`, `set_env` and `check_env`
  take the environment as an explicit map. The table of
  `COMMON/config.py` serves as data.

Shared pieces:

- `wrappers.dfy`: the exception kinds and `Option`/`Result`. `Dyn<T>` stands
  for a Python argument that may have the wrong type.
- `bytes.dfy`: big-endian integers.
- `text.dfy`: `str.split`/`join`, `strip`, `int()`, `lower`, UTF-8 length.
- `values.dfy`: JSON values with Python's `==`, and dict lookup and
  iteration.

Where the source mutates state the model is a class. Most of their methods
are proved against a pure step function: `Step`, `Exchange`, `CheckStep`,
`DictStep`, `CloseStep`, `Segments`/`CarryAfter` and others. The properties
are then proved about those functions. The methods of `Kali`, `LogLib` and
`Handler` state their new state directly in their own `ensures`, and the
invariants they keep (`Valid`) are proved there.

## Model

| member | source | states |
|---|---|---|
| Tlv.CalcLen | services/lib/kali/COMMON/TLV.py:180-191 | Up to 127 the result is the single length byte. Above that it is `0x80+n` followed by n big-endian bytes whose value is the length, with a non-zero first byte. It is a ValueError exactly when n exceeds 127. |
| Tlv.CalcLenDecodes | services/lib/kali/COMMON/TLV.py:180-191 | Every length field `calc_len` produces decodes, under the X.690 length rules, to exactly the value's length. |
| Tlv.LongLength | services/lib/kali/COMMON/TLV.py:186-190 | The long form `0x80|n ‖ length.to_bytes(n)` starts with its own byte count and carries the length. |
| Tlv.NewTlv | services/lib/kali/COMMON/TLV.py:131-158 | With tag or value missing the object stays empty. An explicit length is kept as given. Otherwise the length is `calc_len(value)`, and its ValueError propagates. |
| Tlv.NewTlvDump | services/lib/kali/COMMON/TLV.py:202-229 | For a TLV built from a tag and a value, `hexdump() == getTLV()`. It starts with the tag and ends with the value, the middle decodes to the value's length, and `getSize()` is the dump's length. |
| Tlv.HexDumpFields | services/lib/kali/COMMON/TLV.py:225-229 | `hexdump` is the tag, then the length field, then the value, each whole: cutting the dump at their lengths gives them back. |
| Tlv.GetSize | services/lib/kali/COMMON/TLV.py:205-206 | `getSize` is the length of the dump. |
| Tlv.CompareTlv | services/lib/kali/COMMON/TLV.py:231-242 | Raises TypeError exactly for a non-TLV argument. Otherwise it is true iff tag, length and value are all equal. |
| Tlv.FirstWithTag | services/lib/kali/COMMON/TLV.py:81-85 | Returns the first element carrying the tag, or None iff no element carries it. |
| Tlv.PresentIsMembership | services/lib/kali/COMMON/TLV.py:87-91 | The `TLVisPresent` loop is membership by field equality. |
| Tlv.CoversIsInclusion | services/lib/kali/COMMON/TLV.py:93-99 | The `compare_tlvs` loop is inclusion of the argument's TLVs in self's. |
| Tlv.CompareSeqsMeaning | services/lib/kali/COMMON/TLV.py:93-102 | `compare_tlvs` is inclusion. With `indentity` it is inclusion in both directions. |
| Tlv.TlvList.constructor | services/lib/kali/COMMON/TLV.py:52-58 | The attribute part of `__init__`: a list of TLVs becomes the collection's contents. |
| Tlv.TlvList.Create | services/lib/kali/COMMON/TLV.py:52-58 | The whole `__init__`: an argument that is not a list gives an empty collection. A list with a non-TLV element raises TypeError. Otherwise the collection holds exactly the list's TLVs, in order. |
| Tlv.TlvValues | services/lib/kali/COMMON/TLV.py:55-58 | A list all of whose elements are TLVs is read as those TLVs, one for one and in order. |
| Tlv.TlvList.AddTlv | services/lib/kali/COMMON/TLV.py:66-69 | Appends a TLV at the end. A non-TLV gives TypeError and leaves the list unchanged. |
| Tlv.TlvList.GetTlv | services/lib/kali/COMMON/TLV.py:81-85 | Gives a member with the requested tag, or None exactly when no member has that tag. |
| Tlv.TlvList.TlvIsPresent | services/lib/kali/COMMON/TLV.py:87-91 | An empty collection answers False without looking at the argument. Otherwise a non-TLV raises TypeError. A TLV is present iff it is a member. |
| Tlv.TlvList.CompareTlvs | services/lib/kali/COMMON/TLV.py:93-102 | A non-`TLVs` argument gives TypeError. Otherwise the result is true iff every TLV of the argument is in self, and with identity also the reverse. |
| Tlv.SkipHighSpec | services/lib/kali/COMMON/TLV.py:19-21 | The tag-continuation loop stops at the first byte with bit 8 clear. It runs off the buffer (IndexError) exactly when no such byte follows. |
| Tlv.TagEnd | services/lib/kali/COMMON/TLV.py:17-24 | A tag whose low five bits are not all set is one byte long. A longer tag ends inside the buffer, past its first byte. |
| Tlv.ReadOne | services/lib/kali/COMMON/TLV.py:17-39 | Each decoded TLV moves the index strictly forward, so the decoder loop ends. |
| Tlv.ShortLenIsMinimal | services/lib/kali/COMMON/TLV.py:25-28 | The decoder's short-form `L` is the minimal big-endian form of the byte, so 0 gives the empty `L`. |
| Tlv.ReadTag | services/lib/kali/COMMON/TLV.py:17-24 | The loop that reads one tag gives the tag end the reference `TagEnd` defines, IndexError included. |
| Tlv.ReadAt | services/lib/kali/COMMON/TLV.py:17-39 | One iteration of the decoder loop yields the `[T, L, V]` triple and the next index that `ReadOne` defines. |
| Tlv.Apdu2Tlv | services/lib/kali/COMMON/TLV.py:12-39 | The index-advancing decoder loop computes `Apdu2TlvSpec`, the decoder's reference definition. |
| Tlv.Apdu2TlvShortForm | services/lib/kali/COMMON/TLV.py:12-39 | After the `cmdLen` command bytes, a concatenation of short-form TLVs with X.690 tags decodes to exactly those TLVs, in order. |
| Tlv.Apdu2TlvZeroLength | services/lib/kali/COMMON/TLV.py:25-29 | A zero short-form length decodes with an empty `L`, not with `00`. |
| Tlv.Apdu2TlvLongFormEndsScan | services/lib/kali/COMMON/TLV.py:30-38 | A long-form TLV is decoded with its value. The index then advances by `int(L)` including the `0x8N` prefix, which ends the scan and drops any bytes that follow. |
| Tlv.Apdu2TlvSpec | services/lib/kali/COMMON/TLV.py:12-39 | When the command prefix covers the whole input there is nothing to decode and the result is the empty list. |
| TlvStream.Step | services/lib/kali/COMMON/TLV.py:290-302 | A complete TLV ignores further bytes. The only exceptions `populate` can raise are TypeError and AttributeError. |
| TlvStream.Feed | services/lib/kali/COMMON/TLV.py:290-302 | Feeding bytes one by one only ever raises TypeError or AttributeError. |
| TlvStream.CheckTag | services/lib/kali/COMMON/TLV.py:304-308 | `__check_tag` appends the byte to the tag and changes nothing else but the tag-complete flag, which never goes back to False. |
| TlvStream.CheckLen | services/lib/kali/COMMON/TLV.py:310-325 | `__check_len` keeps tag, value and tag flag. A complete length stays complete. Its only errors are TypeError and AttributeError. |
| TlvStream.GetValue | services/lib/kali/COMMON/TLV.py:327-333 | `__get_value` keeps tag and length, and either keeps the value or appends the byte. It raises TypeError, changing nothing, exactly when `length` is still None, as `None > 0` does. |
| TlvStream.FeedAfterComplete | services/lib/kali/COMMON/TLV.py:291-292 | Once `complete` is set, any further sequence of bytes changes nothing. |
| TlvStream.FeedSnoc | services/lib/kali/COMMON/TLV.py:290-302 | Feeding `p + [x]` is feeding `p` and then one more `populate`, stopping at the first exception. |
| TlvStream.StepInTag | services/lib/kali/COMMON/TLV.py:304-308 | Inside the tag, a byte is appended to the tag and moves the state one position on. |
| TlvStream.StepAtLength | services/lib/kali/COMMON/TLV.py:310-325 | A short-form length byte completes the length in one step. |
| TlvStream.StepInValue | services/lib/kali/COMMON/TLV.py:327-333 | Each value byte is appended and the remaining count decreases. |
| TlvStream.FeedPrefix | services/lib/kali/COMMON/TLV.py:290-333 | Every prefix of `tag ‖ len ‖ value` leads to the expected intermediate state, without exceptions. |
| TlvStream.IncrementalMatchesOneShot | services/lib/kali/COMMON/TLV.py:290-333 | Feeding `tag ‖ short length ‖ value` byte by byte (value of 1..127 bytes) sets `complete` exactly at the last byte. The fields are then those of the TLV the constructor builds. |
| TlvStream.HeaderTagsAreIncTags | services/lib/kali/protocol_header.py:4 | The three header tags `E0`, `DF01` and `DF02` are tags the byte-wise reader reads whole. |
| TlvStream.IncrementalTagEndsEarly | services/lib/kali/COMMON/TLV.py:304-308 | Because `_first_tag_byte` is never set, the tag `1F 81` ends after its second byte, although X.690 would continue it. |
| TlvStream.TagFeed | services/lib/kali/COMMON/TLV.py:304-308 | Feeding a tag whose last byte has low bits other than `1F` completes exactly the tag. |
| TlvStream.ZeroLengthSwallowsByte | services/lib/kali/COMMON/TLV.py:310-333 | After `tag ‖ 00` the TLV is not complete. One more byte completes it with an empty value, and that byte is discarded. |
| TlvStream.ZeroLengthCompletesAt | services/lib/kali/COMMON/TLV.py:310-333 | `tag ‖ 00 ‖ x` completes exactly at `x`, with fields `(tag, 00, empty)`. |
| TlvStream.LongFormLengthFails | services/lib/kali/COMMON/TLV.py:317-322 | A long-form first length byte followed by any byte raises TypeError, because a bytes object is decremented. |
| TlvStream.FreshWf | services/lib/kali/COMMON/TLV.py:131-142 | A new `TLV()` satisfies the state invariant. |
| TlvStream.StepProgress | services/lib/kali/COMMON/TLV.py:290-333 | Without an exception a step keeps the state invariant and decreases a rank. So a reader fed from a finite buffer padded with empty reads stops. |
| TlvStream.TlvUnit.constructor | services/lib/kali/COMMON/TLV.py:131-142 | A fresh object is in the initial state. |
| TlvStream.TlvUnit.Fields | services/lib/kali/COMMON/TLV.py:193-200 | `getTag`, `getLen` and `getVal` are the object's three fields. |
| TlvStream.TlvUnit.Populate | services/lib/kali/COMMON/TLV.py:290-302 | Updating the fields in place has exactly the effect `Step` gives the old state, exception included. |
| TlvStream.TlvUnit.CheckTagBytes | services/lib/kali/COMMON/TLV.py:304-308 | `__check_tag` changes the object as `CheckTag` says. |
| TlvStream.TlvUnit.CheckLenBytes | services/lib/kali/COMMON/TLV.py:310-325 | `__check_len` changes the object as `CheckLen` says, including the TypeError of the long form. |
| TlvStream.TlvUnit.GetValueBytes | services/lib/kali/COMMON/TLV.py:327-333 | `__get_value` changes the object as `GetValue` says. |
| ProtocolHeader.FormatToBytes | services/lib/kali/protocol_header.py:7-17 | The only code ever produced is `00`. |
| ProtocolHeader.FormatToBytesIgnoresCase | services/lib/kali/protocol_header.py:15-17 | The mapping ignores case: `JSON` and `Json` give `00`, while `xml` gives None. |
| ProtocolHeader.BytesToFormat | services/lib/kali/protocol_header.py:20-28 | Comparing bytes with the text `'b\x00'` never succeeds, so no code, `00` included, is recognised. |
| ProtocolHeader.CreateHeader | services/lib/kali/protocol_header.py:31-45 | A negative length is refused by `int.to_bytes` (OverflowError). |
| ProtocolHeader.BuildLengthTlv | services/lib/kali/protocol_header.py:41-42 | The length TLV has tag `DF01`, a one-byte length and the minimal big-endian length as its value. |
| ProtocolHeader.BuildOuterTlv | services/lib/kali/protocol_header.py:44-45 | The outer TLV dumps as `E0 ‖ len ‖ inner`. |
| ProtocolHeader.CreateHeaderCoded | services/lib/kali/protocol_header.py:31-45 | For a coded format the header is `E0 (7+k) DF 01 k m DF 02 01 00`, where `m` is the k-byte minimal big-endian length. |
| ProtocolHeader.CreateHeaderUncoded | services/lib/kali/protocol_header.py:43-44 | For a format without a code the format TLV contributes nothing: `E0 (3+k) DF 01 k m`. |
| ProtocolHeader.CreateHeaderExample | services/lib/kali/protocol_header.py:31-45 | Length 42 gives `E0 08 DF 01 01 2A DF 02 01 00`. Length 0 gives `E0 07 DF 01 00 DF 02 01 00`. |
| ProtocolHeader.OuterTlv | services/lib/kali/protocol_header.py:57 | A short outer TLV decodes back to itself. |
| ProtocolHeader.ParseHeader | services/lib/kali/protocol_header.py:48-65 | A parsed header never names a format. |
| ProtocolHeader.ParseCreateHeader | services/lib/kali/protocol_header.py:48-65 | `parse_header(create_header(n, 'json')) == (n, None)`: the length round-trips and the format does not. |
| ProtocolHeader.LengthTlvDecodes | services/lib/kali/protocol_header.py:60-63 | The length TLV's dump decodes to exactly one TLV. |
| ProtocolHeader.ParseUncodedHeader | services/lib/kali/protocol_header.py:63 | For a format without a code, parsing the header fails with IndexError on the missing second inner TLV. |
| ProtocolHeader.CheckHeader | services/lib/kali/protocol_header.py:68-79 | True iff the tag is `E0` or `DF01`, or the tag is `DF02` and the value is exactly `00`. |
| ProtocolHeader.HeaderTlvsPass | services/lib/kali/protocol_header.py:68-79 | The three TLVs of a coded header pass the check. A format TLV with any other value fails it. |
| Ots.PortValue | services/lib/kali/ots_client.py:61-64 | An integer port is used as is. A text port is accepted exactly when the model of `int()` (ASCII digits and white space) parses it. Otherwise it is a ValueError. |
| Ots.ConnectStep | services/lib/kali/ots_client.py:56-67 | Connecting an already connected link changes nothing. Otherwise it succeeds iff the link ends up connected, and on failure the link is unchanged. A successful connect had a port in 0–65535 and a reachable server. A port number outside 0–65535 raises OverflowError, as `socket.connect` does. |
| Ots.ConnectIdempotent | services/lib/kali/ots_client.py:56-57 | A second connect after a successful one is a no-op, whatever the server would do. |
| Ots.ReconnectFresh | services/lib/kali/ots_client.py:76-79 | Reconnecting to a reachable server with a port in 0–65535 gives a new connected link with nothing written yet. |
| Ots.ReconnectStep | services/lib/kali/ots_client.py:76-79 | Without an error the link is connected with the server's bytes and nothing written. With an error the link is the old one, disconnected. |
| Ots.ReceiveTlv | services/lib/kali/ots_client.py:112-114 | Reading the outer header consumes a prefix of the incoming bytes. On success the TLV is complete. A failed step raises only TypeError or AttributeError. |
| Ots.ReceiveTlvFeed | services/lib/kali/ots_client.py:112-114 | When the incoming bytes start with a TLV, the read stops exactly after it and leaves the rest unread. |
| Ots.ReadPadded | services/lib/kali/ots_client.py:116-128 | Reading a TLV from the header value by slices, which are empty past the end, terminates. On success the TLV is complete. |
| Ots.ReadPaddedFeed | services/lib/kali/ots_client.py:116-128 | When the value holds a TLV from offset `i`, the slice reader yields exactly that TLV. |
| Ots.ReceivePayload | services/lib/kali/ots_client.py:135-138 | The payload loop moves bytes from the link into `data` without loss or reordering. Unless the link runs dry, it reads exactly up to the announced length. |
| Ots.PayloadArrives | services/lib/kali/ots_client.py:135-138 | When enough bytes are available, exactly the announced number is read and the rest stays on the link. |
| Ots.Exchange | services/lib/kali/ots_client.py:90-146 | A connection error leaves the link disconnected, and only a connected link can end connected. A successful reply is non-empty, on a link that is still connected. A disconnected link is left alone. |
| Ots.ExchangeReply | services/lib/kali/ots_client.py:112-146 | The reply decides the outcome. A valid header and a non-empty payload give the payload, consuming exactly it. A zero length disconnects with a connection error. A bad format code raises the invalid-header error without disconnecting. |
| Ots.ExchangeRoundTrip | services/lib/kali/ots_client.py:105-143 | A reply framed with `create_header(len(payload), 'json')` gives back exactly the payload and leaves the following bytes unread. |
| Ots.ExchangeEmptyReply | services/lib/kali/ots_client.py:139-146 | A reply announcing length 0 disconnects and raises the connection error. |
| Ots.ExchangeNotConnected | services/lib/kali/ots_client.py:109-110 | Sending on a closed socket raises, and the link stays as it was. |
| Ots.ExchangeSilentServer | services/lib/kali/ots_client.py:112-114 | A server that sends nothing makes the receive time out, which disconnects with a connection error. |
| Ots.FrameAnnouncesCharacters | services/lib/kali/ots_client.py:105 | The outgoing frame is `create_header(len(json_)) ‖ json_.encode()`. Its header announces the character count, which equals the byte count exactly for ASCII text. |
| Ots.Frame | services/lib/kali/ots_client.py:105 | A built frame ends with the UTF-8 encoding of the JSON text. |
| Ots.HeaderFieldsRead | services/lib/kali/ots_client.py:112-128 | In a coded header, the outer, length and format TLVs are read at offsets 0 and `len(len_tlv.hexdump())`. |
| Ots.HeaderFieldsPass | services/lib/kali/ots_client.py:130-133 | The outer and length TLVs of such a header pass `check_header`. The format TLV passes iff its code is `00`. |
| Ots.JsonPack | services/lib/kali/ots_client.py:196-226 | An envelope exists iff both interface and method are given. |
| Ots.JsonPackReadBack | services/lib/kali/ots_client.py:209-226 | The envelope names the interface and the method, and carries the arguments exactly when they are truthy. |
| Ots.SendEnvelope | services/lib/kali/ots_client.py:175-181 | `send` builds an envelope that carries the argument dict only when it is truthy. |
| Ots.CheckConnectionSendsPing | services/lib/kali/ots_client.py:330-339 | `check_connection`'s `{}` yields the bare `{"run":[{"dbus":["ping"]}]}`. |
| Ots.FirstOk | services/lib/kali/ots_client.py:245-254 | The value of the first answer whose execution is `ok`. It is None iff there is no such answer. |
| Ots.UnpackAnswers | services/lib/kali/ots_client.py:249-253 | Scanning one method's answers returns the first `ok` value. |
| Ots.UnpackBlocks | services/lib/kali/ots_client.py:245-253 | Scanning the `return` list block by block returns the first `ok` value over all blocks. |
| Ots.UnpackResponse | services/lib/kali/ots_client.py:228-254 | `json_unpack` of a response is the first `ok` value, or False when there is none. |
| Ots.FirstOkAppend | services/lib/kali/ots_client.py:245-254 | The first `ok` answer of a concatenation comes from the first part whenever that part has one. |
| Ots.NoReturnKey | services/lib/kali/ots_client.py:243-254 | When no key of the response is `return`, the key loop falls through to False. |
| Ots.UnpackWithoutReturn | services/lib/kali/ots_client.py:243-254 | A dict without a `return` key unpacks to False. A number raises TypeError. |
| Ots.JsonUnpack | services/lib/kali/ots_client.py:228-254 | A response that is neither a dict, a list nor a text raises TypeError. |
| Ots.UnpackText | services/lib/kali/ots_client.py:243-254 | A text response iterates over its one-character keys, none of which is `return`, so it unpacks to False. |
| Ots.SendSwallowsLinkErrors | services/lib/kali/ots_client.py:184-192 | The connection and invalid-header errors of `communicate` become the result False. |
| Ots.SendResult | services/lib/kali/ots_client.py:184-194 | A connection or invalid-header error of `communicate` gives False; any other error propagates unchanged. |
| Ots.ConnectionHandler.constructor | services/lib/kali/ots_client.py:34-38 | The attribute part of `__init__`: stores ip and port, on a disconnected link. |
| Ots.ConnectionHandler.Create | services/lib/kali/ots_client.py:34-39 | The whole `__init__`, including its `connect`: the error is the one `ConnectStep` gives on a fresh link. There is a handler iff there is no error, and it is connected to the server's bytes with the given ip and port. |
| Ots.ConnectionHandler.Connect | services/lib/kali/ots_client.py:41-67 | The link changes exactly as `ConnectStep` says, and ip and port are kept. |
| Ots.ConnectionHandler.Disconnect | services/lib/kali/ots_client.py:69-74 | Clears `connected` and keeps everything else. |
| Ots.ConnectionHandler.Reconnect | services/lib/kali/ots_client.py:76-79 | Disconnects if needed, then connects to the stored port, as `ReconnectStep` says. |
| Ots.ConnectionHandler.Communicate | services/lib/kali/ots_client.py:90-146 | The send, header-read and payload loops change the link and give the reply exactly as `Exchange` says. |
| Ots.ConnectionHandler.ReceiveHeader | services/lib/kali/ots_client.py:112-114 | The `recv(1)`/`populate` loop agrees with `ReceiveTlv`. |
| Ots.ConnectionHandler.ReceiveData | services/lib/kali/ots_client.py:135-138 | The payload loop agrees with `ReceivePayload`. |
| Ots.ReadHeaderField | services/lib/kali/ots_client.py:116-128 | The slice-feeding loop agrees with `ReadPadded`. |
| Ots.OtsClient.constructor | services/lib/kali/ots_client.py:158-160 | The attribute part of `__init__`: starts with no connections. |
| Ots.OtsClient.Create | services/lib/kali/ots_client.py:158-161 | The whole `__init__`, which connects its first label: the error is the one `ConnectStep` gives on a fresh link. Without an error the client maps exactly that label to a fresh connected handler with the given ip and port. |
| Ots.OtsClient.Connect | services/lib/kali/ots_client.py:256-277 | A known label reconnects its own handler and the map is unchanged. A new label is added, with a fresh connected handler, only when the connection succeeds. |
| Ots.OtsClient.Disconnect | services/lib/kali/ots_client.py:279-292 | Disconnects the labelled handler. An unknown label changes nothing. |
| Ots.OtsClient.Close | services/lib/kali/ots_client.py:294-303 | Disconnects the handler and deletes the label. An unknown label gives KeyError. |
| Ots.OtsClient.Reconnect | services/lib/kali/ots_client.py:305-313 | Reconnects the labelled handler. An unknown label gives KeyError. |
| Ots.OtsClient.IsConnected | services/lib/kali/ots_client.py:315-328 | True iff the label exists and its handler is connected. |
| Ots.OtsClient.Send | services/lib/kali/ots_client.py:163-194 | An unknown label gives KeyError. Otherwise the envelope is exchanged on the handler's link and the reply unpacked, with link errors turned into False. |
| Ots.OtsClient.CheckConnection | services/lib/kali/ots_client.py:330-344 | Sends the `dbus` `ping` and answers whether the reply is truthy. |
| Ots.OtsClient.CloseAll | services/lib/kali/ots_client.py:346-352 | Disconnects every handler, empties the map and returns True. |
| OutputRegex.FormatOf | services/lib/kali/COMMON/VerifyOutputRegex.py:90-93 | A block's first character names a format iff it is `B`, `n` or `b`. |
| OutputRegex.ParseBlock | services/lib/kali/COMMON/VerifyOutputRegex.py:85-118 | An empty block or an unknown format is a ValueError, as is a bad, odd-nibble, non-octet or too-short length or a second `_`. A missing `/` is an IndexError. An accepted block is valid and keeps its format. |
| OutputRegex.LStrip | services/lib/kali/COMMON/VerifyOutputRegex.py:97 | `lstrip` removes a prefix and stops at the first character outside the set. |
| OutputRegex.DigitBits | services/lib/kali/COMMON/VerifyOutputRegex.py:132-148 | An accepted digit unrolls to 8, 4 or 1 symbols for `B`, `n` or `b`. |
| OutputRegex.DigitBitsValue | services/lib/kali/COMMON/VerifyOutputRegex.py:132-148 | The unrolled bits read back as the character's code, its hex value, or the binary digit. |
| OutputRegex.Binary | services/lib/kali/COMMON/VerifyOutputRegex.py:136 | `format(x, '08b')` has the requested width and only binary digits. |
| OutputRegex.BinaryRoundTrip | services/lib/kali/COMMON/VerifyOutputRegex.py:136-142 | The binary digits of a number that fits read back as that number. |
| OutputRegex.Stars | services/lib/kali/COMMON/VerifyOutputRegex.py:199 | `n * b'*'` is n stars, or nothing for n ≤ 0. |
| OutputRegex.CharWidth | services/lib/kali/COMMON/VerifyOutputRegex.py:178-199 | `*` unrolls to one digit's width. `_` unrolls to `w × (L − len(value) + 1)` symbols. |
| OutputRegex.BlockWidth | services/lib/kali/COMMON/VerifyOutputRegex.py:117-148 | A block with `_` unrolls to exactly `w × L` symbols, and one without unrolls to `w × len(value)`. So `n4/C_3` and `n4/C**3` have the same length. |
| OutputRegex.ValueWidth | services/lib/kali/COMMON/VerifyOutputRegex.py:120-148 | The unrolled length after n characters, in terms of the number of `_` among them. |
| OutputRegex.ValueErrorSticks | services/lib/kali/COMMON/VerifyOutputRegex.py:120-148 | An invalid character anywhere in the value makes the whole block fail with ValueError. |
| OutputRegex.BlocksErrorSticks | services/lib/kali/COMMON/VerifyOutputRegex.py:85-148 | An error in any block is the parser's result. |
| OutputRegex.UnrollBlockValue | services/lib/kali/COMMON/VerifyOutputRegex.py:120-148 | The character loop appends the block's unrolled value, or fails with ValueError exactly when the reference does. |
| OutputRegex.Compile | services/lib/kali/COMMON/VerifyOutputRegex.py:57-148 | The constructor's loops over blocks and characters fail exactly when `Unroll` does, with the same exception. Otherwise they keep the regex and its unrolled form. |
| OutputRegex.Unroll | services/lib/kali/COMMON/VerifyOutputRegex.py:57-148 | A non-bytes pattern and the empty pattern raise ValueError. The only errors are ValueError and IndexError. |
| OutputRegex.SkipSequence | services/lib/kali/COMMON/VerifyOutputRegex.py:178-199 | `_skip_sequence` produces only stars. With the default block it gives one star per digit of the format's width. |
| OutputRegex.BitString | services/lib/kali/COMMON/VerifyOutputRegex.py:160-163 | The value's bit string has eight symbols per byte. |
| OutputRegex.BitStringInjective | services/lib/kali/COMMON/VerifyOutputRegex.py:160-163 | Different values have different bit strings. |
| OutputRegex.CheckValue | services/lib/kali/COMMON/VerifyOutputRegex.py:156-176 | A non-bytes value is a ValueError. Otherwise the result is true iff the pattern accepts the value's bits: with `len_check` the lengths must agree, and over the common prefix every symbol is `*` or the same bit. |
| OutputRegex.PrefixMatch | services/lib/kali/COMMON/VerifyOutputRegex.py:165-176 | Without `len_check` the match is an exact match of the common-length prefixes. |
| OutputRegex.StarsAcceptAll | services/lib/kali/COMMON/VerifyOutputRegex.py:168-170 | A pattern of 8·n stars accepts every n-byte value. |
| OutputRegex.ExactPattern | services/lib/kali/COMMON/VerifyOutputRegex.py:165-176 | A star-free pattern equal to a value's bits accepts exactly that value. |
| OutputRegex.Accepts | services/lib/kali/COMMON/VerifyOutputRegex.py:165-176 | An all-star pattern accepts iff the length check is off or the lengths agree. |
| TestResult.Verdict | services/lib/kali/test_case.py:59-77 | The verdict is true iff every step passed. |
| TestResult.Register | services/lib/kali/test_case.py:35-57 | A closed manager refuses with KaliKeyError. Otherwise the step is appended. |
| TestResult.CloseStep | services/lib/kali/test_case.py:59-77 | Closing fails iff the manager is closed or has no steps. On success the steps are kept and the manager is closed, with result False iff some step failed. |
| TestResult.StepsKeepWf | services/lib/kali/test_case.py:20-86 | Adding and closing keep the manager's invariant, and a closed manager refuses both. |
| TestResult.Lifecycle | services/lib/kali/test_case.py:28-86 | A fresh manager records steps in order. Closing succeeds iff there is a step, and records the verdict. Afterwards no step is accepted. |
| TestResult.RegisterAllAppends | services/lib/kali/test_case.py:35-57 | Registering steps on an open manager appends them in order. |
| TestResult.ResultManager.constructor | services/lib/kali/test_case.py:28-33 | A new manager is open, with no steps and no result. |
| TestResult.ResultManager.AddPassed | services/lib/kali/test_case.py:35-45 | Appends True when open. When closed it raises and changes nothing. |
| TestResult.ResultManager.AddFailed | services/lib/kali/test_case.py:47-57 | Appends False when open. When closed it raises and changes nothing. |
| TestResult.ResultManager.Close | services/lib/kali/test_case.py:59-77 | Changes the manager exactly as `CloseStep` says, or raises and leaves it unchanged. |
| TestResult.ResultManager.IsClosed | services/lib/kali/test_case.py:79-86 | True iff the result is set; a closed manager has steps and its result is their verdict. |
| TestCase.KaliTestCase.constructor | services/lib/kali/test_case.py:92-112 | Starts with no tags, no destructive modes and no compatibilities, and keeps the keyword arguments. |
| TestCase.KaliTestCase.SetTags | services/lib/kali/test_case.py:128-136 | A list of str replaces the tags. Anything else leaves them. |
| TestCase.KaliTestCase.AddTags | services/lib/kali/test_case.py:138-146 | A list of str extends the tags. Anything else leaves them. |
| TestCase.KaliTestCase.SetDestructiveLan | services/lib/kali/test_case.py:162-164 | Appends `'Lan'`. |
| TestCase.KaliTestCase.SetDestructiveMedia | services/lib/kali/test_case.py:166-168 | Appends `'Media'`. |
| TestCase.KaliTestCase.SetDestructiveCloud | services/lib/kali/test_case.py:170-172 | Appends `'Cloud'`. |
| TestCase.KaliTestCase.IsDestructive | services/lib/kali/test_case.py:174-190 | With a mode the answer is list membership. Without one it is the whole list. |
| TestCase.Compatibilities | services/lib/kali/test_case.py:442-469 | Only valid keys are ever added. |
| TestCase.CompatibilitiesUntouched | services/lib/kali/test_case.py:442-469 | A key that is never set keeps its old entry, or stays absent. |
| TestCase.CompatibilitiesLastWins | services/lib/kali/test_case.py:442-469 | A valid key holds the value of its last assignment. |
| TestCase.KaliTestCase.SetCompatibility | services/lib/kali/test_case.py:442-458 | Stores the pair only for a valid key, and nothing else changes. |
| TestCase.KaliTestCase.SetCompatibilities | services/lib/kali/test_case.py:460-469 | Applies `set_compatibility` to each pair in order. |
| TestCase.KaliTestCase.IsCompatibleWith | services/lib/kali/test_case.py:471-483 | Reading the missing attribute `compatibility` raises AttributeError. With a dict that lacks the key the answer is True. |
| TestCase.ReloadArgs | services/lib/kali/test_case.py:426-432 | The reload map holds every keyword argument whose key is an attribute of the addon, whether or not its value changed. |
| TestCase.ReloadRepeats | services/lib/kali/test_case.py:426-436 | A reload keeps the attribute names and installs the arguments, and repeating it computes the same reload map. |
| TestCase.KaliTestCase.AddAddon | services/lib/kali/test_case.py:416-436 | A new addon is registered only when its setup succeeds. An existing one is reloaded with the difference map, and only when that map is non-empty. |
| Kali.Kali.constructor | services/lib/kali/kali.py:46-55 | Starts with no addons, cases, current case or filters. |
| Kali.Kali.SetAcceptedTags | services/lib/kali/kali.py:60-63 | A list of str replaces the accepted tags. Anything else is ignored. |
| Kali.Kali.SetRefusedTags | services/lib/kali/kali.py:69-72 | A list of str replaces the refused tags. Anything else is ignored. |
| Kali.FiltersAreSetTests | services/lib/kali/kali.py:715-731 | The refused check is true iff the filter is unset or empty, or disjoint from the tags. The accepted check is true iff the filter is unset or empty, or included in the tags. |
| Kali.Kali.CheckRefusedTags | services/lib/kali/kali.py:715-722 | True iff no refused filter is set, it is empty, or it shares no tag with the case. |
| Kali.Kali.CheckAcceptedTags | services/lib/kali/kali.py:724-731 | True iff no accepted filter is set, it is empty, or all its tags are the case's tags. |
| Kali.FiltersMonotone | services/lib/kali/kali.py:715-731 | More tags never break the accepted check and never repair the refused check. |
| Kali.Kali.StartTestCase | services/lib/kali/kali.py:612-638 | An open current case raises. A closed current case makes the call do nothing: no error and no new case. With no current case, a duplicate `(number, title)` raises, and otherwise a fresh manager is appended and becomes current. The registry invariant is kept. |
| Kali.Kali.EndTestCase | services/lib/kali/kali.py:640-657 | No current case, or a closed one, raises. Otherwise the case is closed and the current case cleared, so `test_case_result` raises next. |
| Kali.Kali.TestCaseResult | services/lib/kali/kali.py:659-677 | Raises iff there is no current case or it is still open. Otherwise it gives the case's result. |
| Kali.Kali.GetResult | services/lib/kali/kali.py:572-599 | An unknown addon raises. Otherwise the answer's truth is recorded on the current case, only if that case exists and is open. |
| Kali.Kali.NewAddon | services/lib/kali/kali.py:259-299 | A duplicate key raises. A failed `setup()` raises and stores nothing. Otherwise the addon is stored. |
| Kali.Kali.RemoveAddon | services/lib/kali/kali.py:301-336 | An unknown key raises, as does a missing `close`. A failed `close()` keeps the addon. Otherwise it is deleted. |
| Kali.Kali.ReloadAddon | services/lib/kali/kali.py:746-750 | An unknown addon raises KeyError. Otherwise its attributes are updated with the arguments. |
| Kali.NumWidthBounds | services/lib/kali/kali.py:795-802 | The number column is `max(3, len number)`: at least 3, at least every number, and attained. |
| Kali.NameWidthBounds | services/lib/kali/kali.py:795-802 | The title column is `max(5, len title)`, in the same sense. |
| Kali.RowWidth | services/lib/kali/kali.py:805-829 | A row whose fields fit the columns is as long as the separator line. |
| Kali.TableWidths | services/lib/kali/kali.py:805-829 | Every data row is as long as the separator. The header row is one character longer, because `'TITLE'` is padded by `len('name')`. |
| Kali.DecimalStringValue | services/lib/kali/kali.py:830-832 | The total count is printed as a decimal string with that value. |
| Kali.DecimalString | services/lib/kali/kali.py:830-832 | `str(n)` is a non-empty string of digits. |
| Kali.Repeat | services/lib/kali/kali.py:806-808 | `c * n` is n copies of c, and empty for n ≤ 0. |
| Kali.Kali.PrettyPrint | services/lib/kali/kali.py:766-834 | No cases, or an open current case, raises. Otherwise the text is the table of all registered cases with their verdicts. |
| Kali.TableText | services/lib/kali/kali.py:792-834 | The width and row loops build exactly the reference `Table`. |
| Kali.ColumnWidths | services/lib/kali/kali.py:795-802 | The width loop computes both column widths. |
| Kali.AppendRows | services/lib/kali/kali.py:819-829 | The row loop appends each case's block in order. |
| Kali.RowsOf | services/lib/kali/kali.py:819-829 | Each registered case appears once, in order, as passed iff its result is True. |
| Loglib.Segments | services/lib/kali/COMMON/Loglib/Loglib.py:37-40 | The segments, joined with `\n`, give back the carry followed by the text. |
| Loglib.CarryAfter | services/lib/kali/COMMON/Loglib/Loglib.py:44-45 | The new carry holds the last segment, and is never an empty string. |
| Loglib.AppendKeepsText | services/lib/kali/COMMON/Loglib/Loglib.py:34-46 | The cached lines, each followed by `\n`, plus the carry, grow by exactly the appended text. |
| Loglib.TerminatedJoin | services/lib/kali/COMMON/Loglib/Loglib.py:37-45 | Writing every segment but the last with a trailing `\n`, then the last one, gives the joined text. |
| Loglib.SegmentsLengths | services/lib/kali/COMMON/Loglib/Loglib.py:35-45 | The segments together are as long as the carry plus the text without its newlines. |
| Loglib.SizeGrowth | services/lib/kali/COMMON/Loglib/Loglib.py:35-45 | The cached segments plus the new carry are as long as the old carry plus the text without its newlines. This is the quantity the limit test uses. |
| Loglib.AppendValid | services/lib/kali/COMMON/Loglib/Loglib.py:34-46 | One accepted append keeps the handler invariant: the lines and carry spell out all accepted input, and `size` is the length of the cached lines. |
| Loglib.LineCache.constructor | services/lib/kali/COMMON/Loglib/Loglib.py:168 | The shared cache starts empty. |
| Loglib.Handler.constructor | services/lib/kali/COMMON/Loglib/Loglib.py:15-21 | A handler starts with size 0, no limit and no carry, on the given cache. |
| Loglib.Handler.SetLimit | services/lib/kali/COMMON/Loglib/Loglib.py:28-29 | Sets the limit and nothing else. |
| Loglib.Handler.GetSize | services/lib/kali/COMMON/Loglib/Loglib.py:31-32 | The size is the total length of the lines this handler cached. |
| Loglib.Handler.AppendLine | services/lib/kali/COMMON/Loglib/Loglib.py:34-46 | Refuses iff a limit is set and the size plus the text without newlines exceeds it, changing nothing. Otherwise all segments but the last are appended to the cache, the size grows by their length, and the carry becomes `CarryAfter`. |
| Loglib.Handler.Accept | services/lib/kali/COMMON/Loglib/Loglib.py:37-46 | The accepted branch of `append_line`, keeping the invariant. |
| Loglib.Handler.CacheLines | services/lib/kali/COMMON/Loglib/Loglib.py:41-43 | The loop appends every segment but the last and adds their lengths to `size`. |
| Loglib.BackupStep | services/lib/kali/COMMON/Loglib/Loglib.py:202-205 | The backup is extended by the cache. When it reaches the limit, the first `len(cache)` entries are dropped. |
| Loglib.BackupWindow | services/lib/kali/COMMON/Loglib/Loglib.py:202-206 | The new backup is a suffix of old backup plus cache, of the stated length. It ends with the cache when that is not longer than the old backup. |
| Loglib.LogLib.constructor | services/lib/kali/COMMON/Loglib/Loglib.py:166-172 | Starts with an empty cache, backup and handler list. |
| Loglib.LogLib.AddHandler | services/lib/kali/COMMON/Loglib/Loglib.py:194-197 | Appends a fresh handler that shares the cache. |
| Loglib.LogLib.Clear | services/lib/kali/COMMON/Loglib/Loglib.py:199-200 | Empties the shared cache in place. |
| Loglib.LogLib.Backup | services/lib/kali/COMMON/Loglib/Loglib.py:202-206 | Updates the backup as `BackupStep` says and returns its new length. |
| Loglib.LogLib.Dump | services/lib/kali/COMMON/Loglib/Loglib.py:214-215 | An empty cache dumps as `""`. Lines without newlines are recovered by splitting the dump at `\n`. |
| Loglib.LogLib.GetSize | services/lib/kali/COMMON/Loglib/Loglib.py:208-212 | The sum of the handler sizes. |
| Loglib.TotalSizeCounts | services/lib/kali/COMMON/Loglib/Loglib.py:208-212 | With valid handlers that sum is never negative. |
| Loglib.TotalSize | services/lib/kali/COMMON/Loglib/Loglib.py:208-212 | A sum of non-negative sizes is non-negative, and zero when every size is zero. |
| Checkers.FixTimeout | services/lib/kali/addons/checkers.py:57-58 | A falsy timeout becomes 1.0, and a truthy one is kept. |
| Checkers.CheckStep | services/lib/kali/addons/checkers.py:37-74 | After `check` the timeout is truthy. An exception or a True answer keeps the fields. Any other answer applies the reset. A successful check had both fields set. |
| Checkers.EqualDifferent | services/lib/kali/addons/checkers.py:173-207 | `equal` answers `expected == returned` and `different` answers its negation. |
| Checkers.Checker.constructor | services/lib/kali/addons/checkers.py:21-26 | Both fields None, no timeout. |
| Checkers.Checker.SetTimeout | services/lib/kali/addons/checkers.py:28-35 | Sets the timeout only. |
| Checkers.Checker.SetExpected | services/lib/kali/addons/checkers.py:76-83 | Sets the expected value only. |
| Checkers.Checker.SetReturned | services/lib/kali/addons/checkers.py:85-92 | Sets the returned value only. |
| Checkers.Checker.Reset | services/lib/kali/addons/checkers.py:94-99 | Sets both fields to None. |
| Checkers.Checker.Check | services/lib/kali/addons/checkers.py:37-74 | Changes the state and answers as `CheckStep` says. |
| Checkers.Checker.Equal | services/lib/kali/addons/checkers.py:173-189 | `check` with the equality callback. |
| Checkers.Checker.Different | services/lib/kali/addons/checkers.py:191-207 | `check` with the inequality callback. |
| Checkers.ListCompareMatches | services/lib/kali/addons/checkers.py:101-134 | True iff the lists have the same length and each non-None expected item equals the returned item at its position, with returned None never matching. |
| Checkers.ListScanMatches | services/lib/kali/addons/checkers.py:112-134 | From position i on, the item loop answers True iff every non-None expected item has a non-None, equal returned item. |
| Checkers.ListScanUnpolled | services/lib/kali/addons/checkers.py:112-134 | When the answer is not polled, every pair counts as matching. |
| Checkers.Checker.ListCompare | services/lib/kali/addons/checkers.py:101-134 | The loop over item pairs changes the state and answers as `ListStep` says. |
| Checkers.ListStep | services/lib/kali/addons/checkers.py:101-134 | A value that is not a list raises and keeps the state. Lists of different sizes answer False and keep the state. |
| Checkers.DictStep | services/lib/kali/addons/checkers.py:136-171 | A value that is not a dict raises and keeps the state. Dicts with different key sets answer False and keep the state. |
| Checkers.DictCompareFlat | services/lib/kali/addons/checkers.py:136-171 | For a dict without nested containers the result is true iff sizes and key sets agree and each non-None expected value is found, equal, under its key. |
| Checkers.DictScanFlat | services/lib/kali/addons/checkers.py:152-171 | Over flat returned entries, the key loop never touches the state. It answers True iff every non-None expected value from key i on is found equal under its key. |
| Checkers.NestedDecides | services/lib/kali/addons/checkers.py:157-165 | The first nested dict or list decides the result. Later keys are never examined. |
| Checkers.Checker.DictCompare | services/lib/kali/addons/checkers.py:136-171 | Changes the state and answers as `DictStep` says. |
| Checkers.Checker.ScanKeys | services/lib/kali/addons/checkers.py:152-171 | The key loop agrees with `DictScan`. |
| Checkers.Checker.CompareNested | services/lib/kali/addons/checkers.py:157-165 | A nested value replaces both fields and delegates to the dict or list comparison. |
| Checkers.OccursAt | services/lib/kali/addons/checkers.py:224-225 | The substring test holds iff the text occurs at some position. |
| Checkers.FindInLinesSpec | services/lib/kali/addons/checkers.py:227-233 | Over a list of str, the search is true iff some element contains the expected text. |
| Checkers.ScanLines | services/lib/kali/addons/checkers.py:227-233 | The element loop agrees with `FindInLines`. |
| Checkers.FindInLines | services/lib/kali/addons/checkers.py:227-233 | The only errors are AttributeError and TypeError. True means the expected value is text found inside one of the text lines. |
| Checkers.FindInValuesSpec | services/lib/kali/addons/checkers.py:209-215 | Over a dict, the search is true iff the expected value occurs in some value. |
| Checkers.FindStep | services/lib/kali/addons/checkers.py:209-222 | A returned value that is not a dict, list or text raises and keeps the state. A dict keeps the state. A failed search over a list clears the returned list and keeps the expected value. A True answer keeps the returned value. |
| Checkers.Checker.Find | services/lib/kali/addons/checkers.py:209-233 | Changes the state and answers as `FindStep` says. |
| Utils.BitAndSingleBit | services/lib/kali/COMMON/utils.py:17 | `value & 2^k` is non-zero iff bit k is set. |
| Utils.SelectedNames | services/lib/kali/COMMON/utils.py:15-19 | A name is selected iff its mask has a bit in common with the value. There are at most as many as entries. |
| Utils.Bitmask | services/lib/kali/COMMON/utils.py:5-19 | The loop returns, in mask order, the names `Selected` gives. |
| Utils.Labels | services/lib/kali/COMMON/utils.py:69 | The release labels of a platform's table, in table order: the keys the selection loop walks through. |
| Utils.SetEnv | services/lib/kali/COMMON/utils.py:22-40 | A wrong platform or version type gives TypeError. Otherwise the platform's entry is the version and every other entry is unchanged. |
| Utils.ReleaseLongest | services/lib/kali/COMMON/utils.py:66-73 | The selected key is empty or a prefix of the version from the table, and no prefix key is longer. |
| Utils.PrefixUnique | services/lib/kali/COMMON/utils.py:69-73 | Two prefix keys of the same length are equal, so the longest one is unique. |
| Utils.Lookup | services/lib/kali/COMMON/utils.py:79 | The selected key's list is found iff the key is in the table. |
| Utils.CheckEnvCases | services/lib/kali/COMMON/utils.py:43-79 | With the platform unset the answer is True. With no prefix key it is False. Otherwise it is membership in the longest key's list. |
| Utils.SetThenCheck | services/lib/kali/COMMON/utils.py:22-79 | After `set_env(p, v)`, `check_env(p, c)` answers from the longest key that is a prefix of v. |
| Utils.PickRelease | services/lib/kali/COMMON/utils.py:66-73 | The selection loop computes `Release`. |
| Utils.Release | services/lib/kali/COMMON/utils.py:66-73 | The selected release is empty or one of the labels, a prefix of the set version and no longer than it. |
| Utils.CheckEnv | services/lib/kali/COMMON/utils.py:43-79 | The method computes `CheckEnvSpec`. |
| Utils.CheckEnvSpec | services/lib/kali/COMMON/utils.py:43-79 | The only errors are TypeError and KeyError; KeyError comes from a set platform missing from the configuration table. |
| Utils.IncrementalExample | services/lib/kali/COMMON/config.py:12-22 | With keys `12.34`, `12.56`, `12.34.56`, the versions `12.34.56.78`, `12.56`, `12.34` and `13.0` select `12.34.56`, `12.56`, `12.34` and nothing. |
| Utils.OmniaExample | services/lib/kali/COMMON/config.py:39-42 | Omnia has no keys, so any set version answers False. |
| Text.JoinSplit | services/lib/kali/COMMON/Loglib/Loglib.py:37 | Joining the pieces of `str.split` with the separator gives the text back. |
| Text.Split | services/lib/kali/COMMON/Loglib/Loglib.py:37 | `str.split(sep)` always yields at least one piece. |
| Text.StripLeft | services/lib/kali/ots_client.py:61 | `int()` skips leading whitespace: what remains is a suffix of the text that does not start with whitespace. |
| Text.StripRight | services/lib/kali/ots_client.py:61 | `int()` skips trailing whitespace: what remains is a prefix of the text that does not end with whitespace. |
| Text.ParseInt | services/lib/kali/ots_client.py:61 | `int()` accepts only text containing a digit. |
| Text.ParseCore | services/lib/kali/ots_client.py:61 | On stripped text, `int()` succeeds only when there is a digit. |
| Text.StripPadded | services/lib/kali/ots_client.py:61 | Stripping white space around a text that neither starts nor ends with white space gives that text back. |
| Text.ParsePadded | services/lib/kali/ots_client.py:61 | White space around a text does not change what `int()` makes of it. |
| Text.ParseSigned | services/lib/kali/ots_client.py:61 | An optional `+` or `-` followed by plain digits parses to the signed decimal value of the digits. |
| Text.ParseIntPadded | services/lib/kali/ots_client.py:61 | `int()` of white space, an optional sign, ASCII digits and white space is the signed decimal value of the digits. |
| Text.Lower | services/lib/kali/protocol_header.py:15 | ASCII lower-casing: `A`–`Z` become `a`–`z` and the length is kept. Python's `str.lower` also maps non-ASCII letters and can change the length; that is not modelled. |
| Text.LowerIdempotent | services/lib/kali/protocol_header.py:15 | Lower-casing twice is lower-casing once. |
| Text.SplitJoin | services/lib/kali/COMMON/Loglib/Loglib.py:215 | Splitting a join of separator-free parts gives the parts back. |
| Text.SplitLengths | services/lib/kali/COMMON/Loglib/Loglib.py:35-37 | The pieces of a split total the text's length without separators. |
| Text.ParseIntExamples | services/lib/kali/ots_client.py:61 | `int("12")` is 12 and `int("x")` fails. |
| Text.Utf8Length | services/lib/kali/ots_client.py:105 | The UTF-8 encoding is at least as long as the text, and equally long iff the text is ASCII. |
| Values.Index | services/lib/kali/ots_client.py:243-250 | Subscripting a dict by a missing key is KeyError, and anything that is not a dict is TypeError. |
| Values.Iter | services/lib/kali/ots_client.py:245-250 | Iterating works for lists, dicts and strings and is a TypeError otherwise. A list yields its items and a dict one key per entry. |
| Values.PyEqRefl | services/lib/kali/addons/checkers.py:182-189 | Python's `==` on JSON values is reflexive. |
| Values.GetDistinct | services/lib/kali/addons/checkers.py:152-165 | With distinct keys, looking up an entry's key finds that entry's value. |
| Values.StrItems | services/lib/kali/test_case.py:128-136 | A value is a list of str exactly when every item is a str, and the texts are those items. |
| Values.Get | services/lib/kali/addons/checkers.py:152-165 | Lookup finds nothing iff the key is absent, and otherwise finds an entry under that key. |
| Values.StrItemsTexts | services/lib/kali/test_case.py:128-136 | A list of str is recognised as such, with the same items. |
| Bytes.MinimalBERoundTrip | services/lib/kali/protocol_header.py:41-42 | `n.to_bytes(ceil(bit_length/8))` read back big-endian is n. |
| Bytes.FromToBE | services/lib/kali/COMMON/TLV.py:190 | Big-endian encoding to k bytes reads back as the number when it fits. |

## Left out

- Socket I/O is replaced by the `Link` value. It holds the connected flag,
  the bytes the server will deliver, and the bytes written so far. Creating
  a socket, its timeout and `recv`/`send` are not modelled. A drained
  incoming sequence stands for the receive timeout (an OSError).
- The send loop of `communicate` assigns rather than accumulates `sent`
  (ots_client.py:109-110). The model writes the whole frame at once.
- An empty `recv` from a closed peer would loop forever in the payload loop
  (ots_client.py:137-138). The model has no such read.
- Ots.Exchange: the reply is returned as bytes. `data.decode()` and
  `json.loads` together are the `loads` parameter of `Send`, and
  `json.dumps` is its `dumps` parameter.
- Logging in every class (`set_logger` and the message helpers) is left
  out, and so is `Checker.callback`.
- Kali's OTS connection wrappers (`start_connection_ots` and similar) are
  not modelled. They forward to `OtsClient`.
- TLV parts not modelled:
  - `TLV.read` with `__readTag`/`__readLen`/`__readVal` is str-era code
    that calls `ord` on ints;
  - `calculate_len` raises for lengths ≥ 128;
  - `TLV2APDU` returns tags only, because of operator precedence;
  - `toStr`, `pretty_dump`, `pretty_hex`, `print_TLVs` and `copy` only
    format or copy.
- Tlv.Apdu2TlvShortForm: the decoder result is proved for concatenations
  of short-form TLVs with X.690 tags. Other inputs are covered by
  `Apdu2TlvSpec` but by no closed statement, apart from the long-form lemma.
- TlvStream.IncrementalMatchesOneShot is stated for values of 1 to 127
  bytes. The zero-length case has its own lemmas, and long forms fail.
- ProtocolHeader.ParseCreateHeader and Ots.ExchangeRoundTrip assume the
  length fits in at most 120 bytes. This keeps the outer TLV in short form.
- `LogLib.set_limit` adds a handler object to an int and divides by the
  handler count (Loglib.py:177-182). It raises before doing anything
  useful, so it is not modelled.
- Loglib threads are not modelled: the TCP, serial and stdin readers, `run`,
  `add_tcp_handler`, `add_serial_handler`, `write` and `close`. Handlers
  are created by `AddHandler`, the model of `add_input_handler` without its
  thread.
- Checkers.Checker.Check: the wall-clock polling loop is one evaluation of a
  deterministic callback. The parameter `polled` says whether that
  evaluation happened inside the time window.
- Checkers.FindStep: the reset `returned.clear` empties the list the
  caller passed in. The model replaces the field with an empty list, so
  aliasing with the caller's list is not captured.
- Dict keys of JSON values are text only.
- Text.ParseInt: ASCII digits and ASCII white space only. Python's `int()`
  also accepts other Unicode decimal digits and white space, for example
  Arabic-Indic digits.
- Ots.PortValue: a text port is read by `Text.ParseInt`, so a port written
  in non-ASCII digits is a ValueError in the model but a number in Python.
- Tlv.TlvList.Create: the collection keeps the caller's list object in
  Python, so later changes through either name show in both. The model
  copies the list, so this aliasing is not captured.
- Utils.Bitmask: values and masks are non-negative integers. Python's `&` on
  negative numbers is not modelled.
- Utils.SetEnv returns the updated environment map instead of writing
  `os.environ` in place.
- The `Platforms` and `ConfigUpdate` enums have only the members the
  configuration table uses. The Spot table from `config.py` is data
  (`SpotTable`) without a worked example.
- Addons are attribute maps. Their `setup` and `close` results are
  parameters. The `add_*_addon` factories, `do_addon_method`,
  `get_addon_attr`, `set_check` and `set_check_timeout` are not modelled.
- test_case.py parts not modelled: `run`, `setup`, the `required_*`
  helpers, `add_required_addons`, notes, duration, attended, `__add_otsc`,
  and the setters for addon name and title.
- TestCase.KaliTestCase.constructor takes `VALID_KEYS_COMPATIBILIES` as a
  parameter. It does not model keyword arguments overriding attributes.
- Kali.Kali.TestCaseResult raises whenever the current case is missing or
  open.
- Not part of this model: `cfgUtils.py`, `Logger.py`, the launcher, the
  loading scripts, the network and D-Bus wrappers, and the addon modules.
