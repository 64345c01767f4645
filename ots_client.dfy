/** Client of the test server (services/lib/kali/ots_client.py).

    A `ConnectionHandler` owns one connection.  The socket is abstracted as a
    `Link`: whether it is connected, the bytes the server will deliver on it
    (`rx`; a drained `rx` is the receive timeout) and the bytes written to it
    (`tx`).  Whether the server accepts a connection, and what it will send
    on it, are parameters of `Connect`.  An `OtsClient` keeps the handlers
    under text labels and exchanges JSON commands through them; JSON text
    (`json.dumps`, `bytes.decode` with `json.loads`) is a pair of function
    parameters, and documents are `Values.Json`. */
module Ots {
  import opened Wrappers
  import opened Bytes
  import opened Text
  import opened Values
  import opened Tlv
  import opened TlvStream
  import opened ProtocolHeader

  /** The `port` argument: an integer or a text that `int()` may convert. */
  datatype Port = PortInt(n: int) | PortText(s: string)

  /** `int(port)` */
  function PortValue(p: Port): (r: Result<int, Exc>)
    ensures p.PortInt? ==> r == Ok(p.n)
    ensures p.PortText? ==> (r.Ok? <==> ParseInt(p.s).Some?)
    ensures r.Err? ==> r.error == ValueError
  {
    match p
    case PortInt(n) => Ok(n)
    case PortText(s) =>
      match ParseInt(s)
      case Some(n) => Ok(n)
      case None => Err(ValueError)
  }

  datatype Link = Link(connected: bool, rx: Bytes, tx: Bytes)

  // ---------------------------------------------------------------------------
  // Connection state

  /** A port `socket.connect` takes: one `int()` accepts, in 0..65535. */
  predicate ValidPort(port: Port)
  {
    PortValue(port).Ok? && 0 <= PortValue(port).value <= 65535
  }

  /** `ConnectionHandler.connect`: nothing to do when connected; otherwise a
      new socket, which fails with a value error for a port `int()` refuses,
      with an OverflowError (caught by neither handler) for a number outside
      the port range, and with a connection error when the server does not
      accept. */
  function ConnectStep(link: Link, port: Port, reachable: bool, incoming: Bytes): (r: (Link, Option<Exc>))
    ensures link.connected ==> r == (link, None)
    ensures r.1.None? <==> r.0.connected
    ensures r.1.Some? ==> r.0 == link
    ensures !link.connected && r.1.None? ==> ValidPort(port) && reachable
    ensures !link.connected && PortValue(port).Ok? && !ValidPort(port) ==> r.1 == Some(OverflowError)
  {
    if link.connected then (link, None)
    else if PortValue(port).Err? then (link, Some(KaliValueError))
    else if !(0 <= PortValue(port).value <= 65535) then (link, Some(OverflowError))
    else if !reachable then (link, Some(OtsConnectionError))
    else (Link(true, incoming, []), None)
  }

  /** `ConnectionHandler.reconnect`: disconnect if connected, then connect to
      the stored address. */
  function ReconnectStep(link: Link, port: Port, reachable: bool, incoming: Bytes): (r: (Link, Option<Exc>))
    ensures r.1.None? ==> r.0 == Link(true, incoming, [])
    ensures r.1.Some? ==> r.0 == link.(connected := false)
  {
    ConnectStep(link.(connected := false), port, reachable, incoming)
  }

  /** A connection that is up stays as it is when connected again. */
  lemma ConnectIdempotent(link: Link, port: Port, reachable: bool, incoming: Bytes,
                          reachable2: bool, incoming2: Bytes)
    requires ConnectStep(link, port, reachable, incoming).1.None?
    ensures var up := ConnectStep(link, port, reachable, incoming).0;
      ConnectStep(up, port, reachable2, incoming2) == (up, None)
  {
  }

  /** A reconnect to a server that accepts always gives a fresh connection,
      whatever the state before, provided the port is valid. */
  lemma ReconnectFresh(link: Link, port: Port, incoming: Bytes)
    requires ValidPort(port)
    ensures ReconnectStep(link, port, true, incoming) == (Link(true, incoming, []), None)
  {
  }

  // ---------------------------------------------------------------------------
  // Framing of one exchange

  /** The outgoing frame: a header announcing `len(json_)` (a number of
      characters), then the UTF-8 bytes of the text. */
  function Frame(json: string): (r: Result<Bytes, Exc>)
    ensures r.Ok? ==> |Utf8(json)| <= |r.value| && r.value[|r.value| - |Utf8(json)|..] == Utf8(json)
  {
    match CreateHeader(|json|, "json")
    case Err(e) => Err(e)
    case Ok(h) => Ok(h + Utf8(json))
  }

  datatype Received = Done | TimedOut | Raised(e: Exc)

  /** The header loop: a `recv(1)` and a `populate` per iteration until the
      TLV is complete; a drained stream is the receive timeout. */
  function ReceiveTlv(s: TlvState, rx: Bytes): (r: (TlvState, Bytes, Received))
    ensures |r.1| <= |rx| && r.1 == rx[|rx| - |r.1|..]
    ensures r.2.Done? ==> r.0.complete
    ensures r.2.Raised? ==> r.2.e == TypeError || r.2.e == AttributeError
    decreases |rx|
  {
    if s.complete then (s, rx, Done)
    else if rx == [] then (s, rx, TimedOut)
    else
      var (t, e) := Step(s, [rx[0]]);
      if e.Some? then (t, rx[1..], Raised(e.value)) else ReceiveTlv(t, rx[1..])
  }

  /** Non-empty bytes left in `hv` from index `i`. */
  function Avail(hv: Bytes, i: nat): nat
  {
    if i < |hv| then |hv| - i else 0
  }

  /** The loops over the header value: `populate(val[i:i + 1])` with `i`
      advancing until the TLV is complete; past the end of the value the
      slice is empty. */
  function ReadPadded(s: TlvState, hv: Bytes, i: nat): (r: (TlvState, Option<Exc>))
    requires Wf(s)
    ensures r.1.None? ==> r.0.complete && Wf(r.0)
    ensures r.1.Some? ==> r.1.value == TypeError || r.1.value == AttributeError
    decreases Rank(s), Budget(s, Avail(hv, i))
  {
    if s.complete then (s, None)
    else
      var b := Slice(hv, i, i + 1);
      StepProgress(s, b, Avail(hv, i));
      var (t, e) := Step(s, b);
      if e.Some? then (t, e) else ReadPadded(t, hv, i + 1)
  }

  /** The payload loop: `recv(1)` until `need` bytes are in; the flag is the
      receive timeout. */
  function ReceivePayload(data: Bytes, need: nat, rx: Bytes): (r: (Bytes, Bytes, bool))
    ensures !r.2 ==> |r.0| == if |data| >= need then |data| else need
    ensures r.0 + r.1 == data + rx
    decreases |rx|
  {
    if |data| >= need then (data, rx, false)
    else if rx == [] then (data, rx, true)
    else
      assert data + rx == (data + [rx[0]]) + rx[1..];
      ReceivePayload(data + [rx[0]], need, rx[1..])
  }

  /** `ConnectionHandler.communicate(json_)`: the link afterwards and the
      payload received or the exception raised.  Every OSError (a send on a
      socket that is not connected, a receive timeout, an empty payload)
      disconnects and becomes a connection error; a header that fails
      `check_header` or an exception of `populate` leaves the link up. */
  function Exchange(link: Link, json: string): (r: (Link, Result<Bytes, Exc>))
    ensures r.1 == Err(OtsConnectionError) ==> !r.0.connected
    ensures r.0.connected ==> link.connected
    ensures r.1.Ok? ==> r.0.connected && |r.1.value| >= 1
    ensures !link.connected ==> r.0 == link
  {
    match Frame(json)
    case Err(e) => (link, Err(e))
    case Ok(frame) =>
      if !link.connected then (link, Err(OtsConnectionError))
      else
        var (header, rx1, got) := ReceiveTlv(Fresh, link.rx);
        var link1 := Link(true, rx1, link.tx + frame);
        match got
        case TimedOut => (link1.(connected := false), Err(OtsConnectionError))
        case Raised(e) => (link1, Err(e))
        case Done =>
          FreshWf();
          var hv := header.val;
          var (lenS, e2) := ReadPadded(Fresh, hv, 0);
          if e2.Some? then (link1, Err(e2.value))
          else
            var (fmtS, e3) := ReadPadded(Fresh, hv, |HexDump(FieldsOf(lenS))|);
            if e3.Some? then (link1, Err(e3.value))
            else if !(CheckHeader(FieldsOf(header)) && CheckHeader(FieldsOf(lenS)) && CheckHeader(FieldsOf(fmtS))) then
              (link1, Err(OtsInvalidHeader))
            else
              var (data, rx2, timedOut) := ReceivePayload([], FromBE(lenS.val), rx1);
              if timedOut || |data| == 0 then (Link(false, rx2, link1.tx), Err(OtsConnectionError))
              else (Link(true, rx2, link1.tx), Ok(data))
  }

  // ---------------------------------------------------------------------------
  // What an exchange delivers

  lemma CompletesAtStep(s: TlvState, input: Bytes)
    requires CompletesAt(s, input) && |input| > 0
    ensures !s.complete
    ensures Step(s, [input[0]]).1.None?
    ensures CompletesAt(Step(s, [input[0]]).0, input[1..])
    ensures Feed(Step(s, [input[0]]).0, input[1..]) == Feed(s, input)
  {
    assert input[..0] == [];
    var t := Step(s, [input[0]]).0;
    assert input[..1] == [input[0]] && [input[0]][1..] == [];
    forall k | 0 <= k < |input| - 1
      ensures Feed(t, input[1..][..k]) == Feed(s, input[..k + 1])
    {
      assert input[..k + 1][0] == input[0];
      assert input[..k + 1][1..] == input[1..][..k];
    }
  }

  /** The header loop reads a TLV that completes on its last byte and leaves
      the rest of the stream in place. */
  lemma {:induction false} ReceiveTlvFeed(s: TlvState, input: Bytes, more: Bytes)
    requires CompletesAt(s, input)
    ensures ReceiveTlv(s, input + more) == (Feed(s, input).0, more, Done)
    decreases |input|
  {
    if input == [] {
      assert input + more == more;
    } else {
      CompletesAtStep(s, input);
      assert (input + more)[0] == input[0];
      assert (input + more)[1..] == input[1..] + more;
      ReceiveTlvFeed(Step(s, [input[0]]).0, input[1..], more);
    }
  }

  /** The loops over the header value read a TLV lying at `hv[i..j]`. */
  lemma {:induction false} ReadPaddedFeed(s: TlvState, hv: Bytes, i: nat, j: nat)
    requires Wf(s) && i <= j <= |hv| && CompletesAt(s, hv[i..j])
    ensures ReadPadded(s, hv, i) == (Feed(s, hv[i..j]).0, None)
    decreases j - i
  {
    var input := hv[i..j];
    if i == j {
      assert input == [];
    } else {
      CompletesAtStep(s, input);
      assert Slice(hv, i, i + 1) == [input[0]];
      StepProgress(s, [input[0]], Avail(hv, i));
      assert input[1..] == hv[i + 1..j];
      ReadPaddedFeed(Step(s, [input[0]]).0, hv, i + 1, j);
    }
  }

  lemma {:induction false} PayloadArrives(data: Bytes, need: nat, p: Bytes, rest: Bytes)
    requires |data| + |p| == need
    ensures ReceivePayload(data, need, p + rest) == (data + p, rest, false)
    decreases |p|
  {
    if p == [] {
      assert p + rest == rest && data + p == data;
    } else {
      assert (p + rest)[0] == p[0] && (p + rest)[1..] == p[1..] + rest;
      assert data + p == (data + [p[0]]) + p[1..];
      PayloadArrives(data + [p[0]], need, p[1..], rest);
    }
  }

  /** A short-form TLV with a non-empty value, fed byte by byte from a fresh
      `TLV()`, completes on its last byte with the written fields. */
  lemma OneShotFeed(t: Bytes, v: Bytes)
    requires IncTag(t) && 1 <= |v| <= 127
    ensures CompletesAt(Fresh, t + [|v|] + v)
    ensures FieldsOf(Feed(Fresh, t + [|v|] + v).0) == TlvFields(t, [|v|], v)
  {
    IncrementalMatchesOneShot(t, v);
    assert CalcLen(v) == Ok([|v|]);
  }

  /** The value of a header with a `k`-byte length field and format code
      `code`. */
  function HeaderValue(m: Bytes, code: Byte): (r: Bytes)
    requires |m| <= 120
    ensures |r| == 7 + |m|
  {
    [0xDF, 0x01, |m|] + m + [0xDF, 0x02, 0x01, code]
  }

  /** An outer `E0` TLV in short form around `inner`. */
  function Framed(inner: Bytes): Bytes
    requires |inner| <= 127
  {
    var n: Byte := |inner|;
    [0xE0, n] + inner
  }

  lemma HeaderFieldsRead(m: Bytes, code: Byte, tail: Bytes)
    requires 1 <= |m| <= 120
    ensures var inner := HeaderValue(m, code);
      var (h, rx1, got) := ReceiveTlv(Fresh, Framed(inner) + tail);
      && got == Done && rx1 == tail && FieldsOf(h) == TlvFields([0xE0], [|inner|], inner)
    ensures var inner := HeaderValue(m, code);
      && ReadPadded(Fresh, inner, 0).1.None?
      && FieldsOf(ReadPadded(Fresh, inner, 0).0) == TlvFields([0xDF, 0x01], [|m|], m)
      && ReadPadded(Fresh, inner, 3 + |m|).1.None?
      && FieldsOf(ReadPadded(Fresh, inner, 3 + |m|).0) == TlvFields([0xDF, 0x02], [1], [code])
  {
    HeaderOuterRead(m, code, tail);
    var inner := HeaderValue(m, code);
    HeaderTagsAreIncTags();
    FreshWf();
    OneShotFeed([0xDF, 0x01], m);
    assert inner[0..3 + |m|] == [0xDF, 0x01] + [|m|] + m;
    ReadPaddedFeed(Fresh, inner, 0, 3 + |m|);
    OneShotFeed([0xDF, 0x02], [code]);
    assert inner[3 + |m|..7 + |m|] == [0xDF, 0x02] + [|[code]|] + [code];
    ReadPaddedFeed(Fresh, inner, 3 + |m|, 7 + |m|);
  }

  lemma HeaderOuterRead(m: Bytes, code: Byte, tail: Bytes)
    requires 1 <= |m| <= 120
    ensures var inner := HeaderValue(m, code);
      var (h, rx1, got) := ReceiveTlv(Fresh, Framed(inner) + tail);
      && got == Done && rx1 == tail && FieldsOf(h) == TlvFields([0xE0], [|inner|], inner)
  {
    var inner := HeaderValue(m, code);
    HeaderTagsAreIncTags();
    FreshWf();
    OneShotFeed([0xE0], inner);
    assert Framed(inner) + tail == ([0xE0] + [|inner|] + inner) + tail;
    ReceiveTlvFeed(Fresh, [0xE0] + [|inner|] + inner, tail);
  }

  /** A reply with a well-formed header: its payload is delivered when the
      format code is JSON's and the announced length is not zero; another
      format code is an invalid header, which leaves the link up and the
      payload unread; a zero length (even written on one byte) disconnects. */
  lemma ExchangeReply(link: Link, json: string, m: Bytes, code: Byte, payload: Bytes, rest: Bytes)
    requires link.connected && Frame(json).Ok?
    requires 1 <= |m| <= 120 && FromBE(m) == |payload|
    ensures var inner := HeaderValue(m, code);
      var r := Exchange(link.(rx := Framed(inner) + payload + rest), json);
      var tx := link.tx + Frame(json).value;
      && (code == 0 && |payload| >= 1 ==> r == (Link(true, rest, tx), Ok(payload)))
      && (code == 0 && |payload| == 0 ==> r == (Link(false, rest, tx), Err(OtsConnectionError)))
      && (code != 0 ==> r == (Link(true, payload + rest, tx), Err(OtsInvalidHeader)))
  {
    var inner := HeaderValue(m, code);
    ReplyFacts(m, code, payload, rest);
    ExchangeHeaderRead(link.(rx := Framed(inner) + payload + rest), json, inner,
      TlvFields([0xDF, 0x01], [|m|], m), TlvFields([0xDF, 0x02], [1], [code]), payload + rest);
  }

  /** What `communicate` reads from a reply with a well-formed header. */
  lemma ReplyFacts(m: Bytes, code: Byte, payload: Bytes, rest: Bytes)
    requires 1 <= |m| <= 120 && FromBE(m) == |payload|
    ensures var inner := HeaderValue(m, code);
      var (h, rx1, got) := ReceiveTlv(Fresh, Framed(inner) + payload + rest);
      && got == Done && rx1 == payload + rest && FieldsOf(h) == TlvFields([0xE0], [|inner|], inner)
    ensures var inner := HeaderValue(m, code);
      var lenF := TlvFields([0xDF, 0x01], [|m|], m);
      && ReadPadded(Fresh, inner, 0).1.None? && FieldsOf(ReadPadded(Fresh, inner, 0).0) == lenF
      && ReadPadded(Fresh, inner, |HexDump(lenF)|).1.None?
      && FieldsOf(ReadPadded(Fresh, inner, |HexDump(lenF)|).0) == TlvFields([0xDF, 0x02], [1], [code])
      && CheckHeader(TlvFields([0xE0], [|inner|], inner)) && CheckHeader(lenF)
      && (CheckHeader(TlvFields([0xDF, 0x02], [1], [code])) <==> code == 0)
    ensures ReceivePayload([], FromBE(m), payload + rest) == (payload, rest, false)
  {
    var inner := HeaderValue(m, code);
    assert Framed(inner) + payload + rest == Framed(inner) + (payload + rest);
    HeaderFieldsRead(m, code, payload + rest);
    HeaderFieldsPass(m, code);
    PayloadArrives([], |payload|, payload, rest);
    assert [] + payload == payload;
  }

  /** The header fields of `HeaderValue(m, code)` as `check_header` sees them. */
  lemma HeaderFieldsPass(m: Bytes, code: Byte)
    requires 1 <= |m| <= 120
    ensures var inner := HeaderValue(m, code);
      && CheckHeader(TlvFields([0xE0], [|inner|], inner))
      && CheckHeader(TlvFields([0xDF, 0x01], [|m|], m))
      && (CheckHeader(TlvFields([0xDF, 0x02], [1], [code])) <==> code == 0)
      && |HexDump(TlvFields([0xDF, 0x01], [|m|], m))| == 3 + |m|
  {
  }

  /** `communicate` once the outer header TLV has arrived whole and both
      inner TLVs were read from its value without error, the outer and
      length TLVs passing `check_header`. */
  lemma ExchangeHeaderRead(link: Link, json: string, inner: Bytes, lenF: TlvFields, fmtF: TlvFields, tail: Bytes)
    requires link.connected && Frame(json).Ok? && |inner| <= 127
    requires var (h, rx1, got) := ReceiveTlv(Fresh, link.rx);
      && got == Done && rx1 == tail && FieldsOf(h) == TlvFields([0xE0], [|inner|], inner)
    requires ReadPadded(Fresh, inner, 0).1.None? && FieldsOf(ReadPadded(Fresh, inner, 0).0) == lenF
    requires var k := |HexDump(lenF)|;
      ReadPadded(Fresh, inner, k).1.None? && FieldsOf(ReadPadded(Fresh, inner, k).0) == fmtF
    requires CheckHeader(TlvFields([0xE0], [|inner|], inner)) && CheckHeader(lenF)
    ensures var tx := link.tx + Frame(json).value;
      var (data, rx2, timedOut) := ReceivePayload([], FromBE(lenF.val), tail);
      Exchange(link, json) ==
        if !CheckHeader(fmtF) then (Link(true, tail, tx), Err(OtsInvalidHeader))
        else if timedOut || |data| == 0 then (Link(false, rx2, tx), Err(OtsConnectionError))
        else (Link(true, rx2, tx), Ok(data))
  {
  }

  /** What the server frames with `create_header(len(p), 'json') ‖ p` is
      what `communicate` returns, and the rest of the stream stays unread. */
  lemma ExchangeRoundTrip(link: Link, json: string, payload: Bytes, rest: Bytes)
    requires link.connected && Frame(json).Ok?
    requires |payload| >= 1 && ByteLength(|payload|) <= 120
    ensures Exchange(link.(rx := CreateHeader(|payload|, "json").value + payload + rest), json)
         == (Link(true, rest, link.tx + Frame(json).value), Ok(payload))
  {
    var m := CodedHeader(|payload|);
    ExchangeReply(link, json, m, 0, payload, rest);
  }

  /** The header `create_header(n, 'json')` for `n >= 1`, and its length field. */
  lemma CodedHeader(n: nat) returns (m: Bytes)
    requires n >= 1 && ByteLength(n) <= 120
    ensures 1 <= |m| <= 120 && FromBE(m) == n
    ensures CreateHeader(n, "json") == Ok(Framed(HeaderValue(m, 0)))
  {
    m := MinimalBE(n);
    MinimalBEOfPositive(n);
    JsonIsCoded();
    CreateHeaderCoded(n, "json");
    var hv := [0xDF, 0x01, |m|] + m + [0xDF, 0x02, 0x01, 0x00];
    assert HeaderValue(m, 0) == hv;
    assert [0xE0, 7 + |m|, 0xDF, 0x01, |m|] + m + [0xDF, 0x02, 0x01, 0x00] == Framed(hv);
  }

  lemma MinimalBEOfPositive(n: nat)
    requires n >= 1
    ensures |MinimalBE(n)| >= 1 && FromBE(MinimalBE(n)) == n
  {
    ByteLengthBounds(n);
    MinimalBERoundTrip(n);
  }

  lemma JsonIsCoded()
    ensures FormatToBytes("json") == Some(JsonCode)
  {
    assert Lower("json") == "json";
  }

  /** A server that announces an empty payload the way `create_header(0,
      'json')` writes it (`DF01 00`) gets the connection closed: the length
      TLV swallows the next header byte, the format TLV is still read at the
      right offset, and the empty payload counts as a dropped socket. */
  lemma ExchangeEmptyReply(link: Link, json: string, rest: Bytes)
    requires link.connected && Frame(json).Ok?
    ensures Exchange(link.(rx := CreateHeader(0, "json").value + rest), json)
         == (Link(false, rest, link.tx + Frame(json).value), Err(OtsConnectionError))
  {
    var inner := EmptyHeaderRead(rest);
    var lenS := ReadPadded(Fresh, inner, 0).0;
    assert |HexDump(FieldsOf(lenS))| == 3;
    assert CheckHeader(TlvFields([0xE0], [|inner|], inner));
    assert CheckHeader(TlvFields([0xDF, 0x01], [0], []));
    assert CheckHeader(TlvFields([0xDF, 0x02], [1], [0]));
    FromBEEmpty();
    PayloadArrives([], 0, [], rest);
    assert [] + rest == rest;
  }

  /** The three TLVs of `create_header(0, 'json')` as `communicate` reads them. */
  lemma EmptyHeaderRead(tail: Bytes) returns (inner: Bytes)
    ensures |inner| == 7 && CreateHeader(0, "json").value + tail == Framed(inner) + tail
    ensures var (h, rx1, got) := ReceiveTlv(Fresh, Framed(inner) + tail);
      && got == Done && rx1 == tail && FieldsOf(h) == TlvFields([0xE0], [|inner|], inner)
    ensures
      && ReadPadded(Fresh, inner, 0).1.None?
      && FieldsOf(ReadPadded(Fresh, inner, 0).0) == TlvFields([0xDF, 0x01], [0], [])
      && ReadPadded(Fresh, inner, 3).1.None?
      && FieldsOf(ReadPadded(Fresh, inner, 3).0) == TlvFields([0xDF, 0x02], [1], [0])
  {
    inner := [0xDF, 0x01, 0x00, 0xDF, 0x02, 0x01, 0x00];
    HeaderOfZero();
    assert [0xE0, 0x07] + inner + tail == Framed(inner) + tail;
    OuterReceived(inner, tail);
    LengthZeroRead(inner);
    FormatAfterEmptyLength(inner);
  }

  /** The outer TLV of a header is received whole, the rest left unread. */
  lemma OuterReceived(inner: Bytes, tail: Bytes)
    requires 1 <= |inner| <= 127
    ensures var (h, rx1, got) := ReceiveTlv(Fresh, Framed(inner) + tail);
      && got == Done && rx1 == tail && FieldsOf(h) == TlvFields([0xE0], [|inner|], inner)
  {
    HeaderTagsAreIncTags();
    FreshWf();
    OneShotFeed([0xE0], inner);
    assert Framed(inner) + tail == ([0xE0] + [|inner|] + inner) + tail;
    ReceiveTlvFeed(Fresh, [0xE0] + [|inner|] + inner, tail);
  }

  lemma FormatAfterEmptyLength(inner: Bytes)
    requires inner == [0xDF, 0x01, 0x00, 0xDF, 0x02, 0x01, 0x00]
    ensures ReadPadded(Fresh, inner, 3).1.None?
    ensures FieldsOf(ReadPadded(Fresh, inner, 3).0) == TlvFields([0xDF, 0x02], [1], [0])
  {
    HeaderTagsAreIncTags();
    FreshWf();
    OneShotFeed([0xDF, 0x02], [0]);
    assert inner[3..7] == [0xDF, 0x02] + [|[0]|] + [0];
    ReadPaddedFeed(Fresh, inner, 3, 7);
  }

  lemma HeaderOfZero()
    ensures CreateHeader(0, "json") == Ok([0xE0, 0x07] + [0xDF, 0x01, 0x00, 0xDF, 0x02, 0x01, 0x00])
  {
    CreateHeaderExample();
    assert [0xE0, 0x07] + [0xDF, 0x01, 0x00, 0xDF, 0x02, 0x01, 0x00]
      == [0xE0, 0x07, 0xDF, 0x01, 0x00, 0xDF, 0x02, 0x01, 0x00];
  }

  /** `DF01 00` followed by a byte: the length TLV completes on that byte,
      with an empty value. */
  lemma LengthZeroRead(inner: Bytes)
    requires |inner| >= 4 && inner[..4] == [0xDF, 0x01, 0x00, inner[3]]
    ensures ReadPadded(Fresh, inner, 0).1.None?
    ensures FieldsOf(ReadPadded(Fresh, inner, 0).0) == TlvFields([0xDF, 0x01], [0], [])
  {
    HeaderTagsAreIncTags();
    FreshWf();
    ZeroLengthCompletesAt([0xDF, 0x01], inner[3]);
    assert inner[0..4] == [0xDF, 0x01] + [0, inner[3]];
    ReadPaddedFeed(Fresh, inner, 0, 4);
  }

  /** No exchange without a connection: nothing is sent. */
  lemma ExchangeNotConnected(link: Link, json: string)
    requires !link.connected && Frame(json).Ok?
    ensures Exchange(link, json) == (link, Err(OtsConnectionError))
  {
  }

  /** A server that sends nothing makes the receive time out, which closes
      the connection. */
  lemma ExchangeSilentServer(link: Link, json: string)
    requires link.connected && link.rx == [] && Frame(json).Ok?
    ensures Exchange(link, json) == (Link(false, [], link.tx + Frame(json).value), Err(OtsConnectionError))
  {
  }

  /** The frame announces the number of characters of the text, which is
      the number of bytes sent after the header only for ASCII text. */
  lemma FrameAnnouncesCharacters(json: string)
    requires ByteLength(|json|) <= 120
    ensures Frame(json).Ok?
    ensures Frame(json).value == CreateHeader(|json|, "json").value + Utf8(json)
    ensures ParseHeader(CreateHeader(|json|, "json").value) == Ok((|json|, None))
    ensures |Utf8(json)| == |json| <==> IsAscii(json)
  {
    assert Lower("json") == "json";
    CreateHeaderCoded(|json|, "json");
    ParseCreateHeader(|json|, "json");
    Utf8Length(json);
  }

  // ---------------------------------------------------------------------------
  // JSON envelopes

  /** The keyword arguments of `json_pack`; a missing one is `None`. */
  datatype PackArgs = PackArgs(interface: Option<string>, methodName: Option<string>, argumentDic: Option<Json>)

  /** `json_pack(**kwargs)`: the document `json.dumps` serialises, `None`
      when `interface` or `method` is missing (the KeyError is caught).  The
      method call is the bare method name unless the argument dict is truthy. */
  function JsonPack(args: PackArgs): (r: Option<Json>)
    ensures r.Some? <==> args.interface.Some? && args.methodName.Some?
  {
    if args.methodName.None? || args.interface.None? then None
    else
      var call :=
        if args.argumentDic.Some? && Truthy(args.argumentDic.value)
        then Obj([(args.methodName.value, args.argumentDic.value)])
        else Str(args.methodName.value);
      Some(Obj([("run", Arr([Obj([(args.interface.value, Arr([call]))])]))]))
  }

  /** How the server reads a command envelope back: the interface, the method
      and its arguments, if any. */
  function ReadCommand(doc: Json): Option<(string, string, Option<Json>)>
  {
    if doc.Obj? && |doc.entries| == 1 && doc.entries[0].0 == "run" then
      var run := doc.entries[0].1;
      if run.Arr? && |run.items| == 1 && run.items[0].Obj? && |run.items[0].entries| == 1 then
        var (interface, calls) := run.items[0].entries[0];
        if calls.Arr? && |calls.items| == 1 then
          match calls.items[0]
          case Str(m) => Some((interface, m, None))
          case Obj(es) => if |es| == 1 then Some((interface, es[0].0, Some(es[0].1))) else None
          case _ => None
        else None
      else None
    else None
  }

  /** The envelope names the interface and the method, and carries the
      arguments exactly when they are truthy. */
  lemma JsonPackReadBack(interface: string, methodName: string, arguments: Option<Json>)
    ensures ReadCommand(JsonPack(PackArgs(Some(interface), Some(methodName), arguments)).value)
         == Some((interface, methodName,
                  if arguments.Some? && Truthy(arguments.value) then arguments else None))
  {
  }

  /** The envelope `send` builds: the argument dict is passed on only when
      truthy. */
  function SendEnvelope(interface: string, methodName: string, argumentDic: Json): (r: Json)
    ensures ReadCommand(r) == Some((interface, methodName, if Truthy(argumentDic) then Some(argumentDic) else None))
  {
    JsonPackReadBack(interface, methodName, if Truthy(argumentDic) then Some(argumentDic) else None);
    JsonPack(PackArgs(Some(interface), Some(methodName), if Truthy(argumentDic) then Some(argumentDic) else None)).value
  }

  /** `check_connection` sends the bare method `"ping"` to `"dbus"`: its `{}`
      is falsy. */
  lemma CheckConnectionSendsPing()
    ensures SendEnvelope("dbus", "ping", Obj([])) == Obj([("run", Arr([Obj([("dbus", Arr([Str("ping")]))])]))])
  {
  }

  /** `json_unpack` on the decoded document: the `value` of the first answer
      of `interface`/`method` whose `execution` is `"ok"`, found under the key
      `"return"`; `False` when there is none.  Indexing or iterating a value
      of the wrong shape raises as Python does. */
  function JsonUnpack(doc: Json, interface: string, methodName: string): (r: Result<Json, Exc>)
    ensures !(doc.Arr? || doc.Obj? || doc.Str?) ==> r == Err(TypeError)
  {
    match Iter(doc)
    case Err(e) => Err(e)
    case Ok(keys) => UnpackKeys(doc, keys, interface, methodName)
  }

  /** A reply that decodes to a text is iterated character by character,
      and no single character is the key `"return"`: the answer is False. */
  lemma UnpackText(s: string, interface: string, methodName: string)
    ensures JsonUnpack(Str(s), interface, methodName) == Ok(Bool(false))
  {
    var keys := Iter(Str(s)).value;
    assert forall k :: 0 <= k < |keys| ==> |keys[k].s| == 1;
    NoReturnKey(Str(s), keys, interface, methodName);
  }

  /** `for response in jdict: if response == 'return': ...` */
  function UnpackKeys(doc: Json, keys: seq<Json>, interface: string, methodName: string): Result<Json, Exc>
    decreases |keys|
  {
    if keys == [] then Ok(Bool(false))
    else if keys[0] != Str("return") then UnpackKeys(doc, keys[1..], interface, methodName)
    else
      match Index(doc, "return")
      case Err(e) => Err(e)
      case Ok(returnList) =>
        match Iter(returnList)
        case Err(e) => Err(e)
        case Ok(items) =>
          match UnpackReturned(items, interface, methodName)
          case Err(e) => Err(e)
          case Ok(found) =>
            if found.Some? then Ok(found.value) else UnpackKeys(doc, keys[1..], interface, methodName)
  }

  /** `for returned in jdict['return']: for execute in returned[interface]: ...` */
  function UnpackReturned(items: seq<Json>, interface: string, methodName: string): Result<Option<Json>, Exc>
    decreases |items|
  {
    if items == [] then Ok(None)
    else
      match Index(items[0], interface)
      case Err(e) => Err(e)
      case Ok(execs) =>
        match Iter(execs)
        case Err(e) => Err(e)
        case Ok(es) =>
          match UnpackExecs(es, methodName)
          case Err(e) => Err(e)
          case Ok(found) =>
            if found.Some? then Ok(found) else UnpackReturned(items[1..], interface, methodName)
  }

  /** `if execute[method]['execution'] == "ok": return execute[method]['value']` */
  function UnpackExecs(es: seq<Json>, methodName: string): Result<Option<Json>, Exc>
    decreases |es|
  {
    if es == [] then Ok(None)
    else
      match Index(es[0], methodName)
      case Err(e) => Err(e)
      case Ok(m) =>
        match Index(m, "execution")
        case Err(e) => Err(e)
        case Ok(x) =>
          if x == Str("ok") then
            match Index(m, "value")
            case Err(e) => Err(e)
            case Ok(v) => Ok(Some(v))
          else UnpackExecs(es[1..], methodName)
  }

  // A well-formed server response, as a reference for `json_unpack`

  function Answer(methodName: string, status: string, value: Json): Json
  {
    Obj([(methodName, Obj([("execution", Str(status)), ("value", value)]))])
  }

  function Answers(methodName: string, answers: seq<(string, Json)>): (r: seq<Json>)
    ensures |r| == |answers|
  {
    if answers == [] then [] else [Answer(methodName, answers[0].0, answers[0].1)] + Answers(methodName, answers[1..])
  }

  function Blocks(interface: string, methodName: string, blocks: seq<seq<(string, Json)>>): (r: seq<Json>)
    ensures |r| == |blocks|
  {
    if blocks == [] then []
    else [Obj([(interface, Arr(Answers(methodName, blocks[0])))])] + Blocks(interface, methodName, blocks[1..])
  }

  /** `{"return": [{interface: [{method: {"execution": s, "value": v}}, ...]}, ...]}` */
  function Response(interface: string, methodName: string, blocks: seq<seq<(string, Json)>>): Json
  {
    Obj([("return", Arr(Blocks(interface, methodName, blocks)))])
  }

  function Flatten(blocks: seq<seq<(string, Json)>>): seq<(string, Json)>
  {
    if blocks == [] then [] else blocks[0] + Flatten(blocks[1..])
  }

  /** The value of the first answer whose status is `"ok"`. */
  function FirstOk(answers: seq<(string, Json)>): (r: Option<Json>)
    ensures r.Some? <==> exists k :: 0 <= k < |answers| && answers[k].0 == "ok"
    ensures r.Some? ==> exists k :: (0 <= k < |answers| && answers[k] == ("ok", r.value)
                                     && forall j :: 0 <= j < k ==> answers[j].0 != "ok")
  {
    if answers == [] then None
    else if answers[0].0 == "ok" then Some(answers[0].1)
    else
      var r := FirstOk(answers[1..]);
      assert forall k :: 1 <= k < |answers| ==> answers[k] == answers[1..][k - 1];
      r
  }

  lemma {:induction false} FirstOkAppend(a: seq<(string, Json)>, b: seq<(string, Json)>)
    ensures FirstOk(a + b) == if FirstOk(a).Some? then FirstOk(a) else FirstOk(b)
    decreases |a|
  {
    if a == [] {
      assert a + b == b;
    } else {
      assert (a + b)[0] == a[0] && (a + b)[1..] == a[1..] + b;
      FirstOkAppend(a[1..], b);
    }
  }

  lemma {:induction false} UnpackAnswers(methodName: string, answers: seq<(string, Json)>)
    ensures UnpackExecs(Answers(methodName, answers), methodName) == Ok(FirstOk(answers))
    decreases |answers|
  {
    if answers != [] {
      var es := Answers(methodName, answers);
      assert es[1..] == Answers(methodName, answers[1..]);
      UnpackAnswers(methodName, answers[1..]);
    }
  }

  lemma {:induction false} UnpackBlocks(interface: string, methodName: string, blocks: seq<seq<(string, Json)>>)
    ensures UnpackReturned(Blocks(interface, methodName, blocks), interface, methodName) == Ok(FirstOk(Flatten(blocks)))
    decreases |blocks|
  {
    if blocks != [] {
      var items := Blocks(interface, methodName, blocks);
      assert items[1..] == Blocks(interface, methodName, blocks[1..]);
      UnpackAnswers(methodName, blocks[0]);
      UnpackBlocks(interface, methodName, blocks[1..]);
      FirstOkAppend(blocks[0], Flatten(blocks[1..]));
    }
  }

  /** On a well-formed response `json_unpack` returns the value of the first
      `"ok"` answer across all blocks, or `False` when no answer is ok. */
  lemma UnpackResponse(interface: string, methodName: string, blocks: seq<seq<(string, Json)>>)
    ensures JsonUnpack(Response(interface, methodName, blocks), interface, methodName)
         == Ok(FirstOk(Flatten(blocks)).GetOr(Bool(false)))
  {
    var doc := Response(interface, methodName, blocks);
    var keys := Iter(doc).value;
    assert |keys| == 1 && keys[0] == Str("return");
    assert keys == [Str("return")];
    UnpackBlocks(interface, methodName, blocks);
    assert [Str("return")][1..] == [];
  }

  /** A document without a `"return"` key unpacks to `False`; a document that
      cannot be iterated raises TypeError. */
  lemma UnpackWithoutReturn(es: seq<(string, Json)>, n: int, interface: string, methodName: string)
    requires "return" !in Keys(es)
    ensures JsonUnpack(Obj(es), interface, methodName) == Ok(Bool(false))
    ensures JsonUnpack(Num(n), interface, methodName) == Err(TypeError)
  {
    var keys := Iter(Obj(es)).value;
    forall k | 0 <= k < |keys| ensures keys[k] != Str("return") {
      assert keys[k] == Str(es[k].0);
    }
    NoReturnKey(Obj(es), keys, interface, methodName);
  }

  lemma {:induction false} NoReturnKey(doc: Json, keys: seq<Json>, interface: string, methodName: string)
    requires forall k :: 0 <= k < |keys| ==> keys[k] != Str("return")
    ensures UnpackKeys(doc, keys, interface, methodName) == Ok(Bool(false))
    decreases |keys|
  {
    if keys != [] {
      NoReturnKey(doc, keys[1..], interface, methodName);
    }
  }

  /** What `send` returns for the outcome of `communicate`: `False` for a
      connection or header error, otherwise the unpacked answer of the
      decoded reply. */
  function SendResult(res: Result<Bytes, Exc>, loads: Bytes -> Result<Json, Exc>,
                      interface: string, methodName: string): (r: Result<Json, Exc>)
    ensures res.Err? && (res.error == OtsConnectionError || res.error == OtsInvalidHeader) ==> r == Ok(Bool(false))
    ensures res.Err? && res.error != OtsConnectionError && res.error != OtsInvalidHeader ==> r == Err(res.error)
  {
    match res
    case Err(e) =>
      if e == OtsConnectionError || e == OtsInvalidHeader then Ok(Bool(false)) else Err(e)
    case Ok(data) =>
      match loads(data)
      case Err(e) => Err(e)
      case Ok(doc) => JsonUnpack(doc, interface, methodName)
  }

  /** A failed exchange never raises out of `send`: connection and header
      errors come back as `False`. */
  lemma SendSwallowsLinkErrors(link: Link, json: string, loads: Bytes -> Result<Json, Exc>,
                               interface: string, methodName: string)
    requires Frame(json).Ok?
    requires Exchange(link, json).1 == Err(OtsConnectionError) || Exchange(link, json).1 == Err(OtsInvalidHeader)
    ensures SendResult(Exchange(link, json).1, loads, interface, methodName) == Ok(Bool(false))
  {
  }

  // ---------------------------------------------------------------------------
  // One connection

  /** `ConnectionHandler`: the address it was made for and its socket. */
  class ConnectionHandler {
    var ip: string
    var port: Port
    var connected: bool
    var rx: Bytes
    var tx: Bytes

    function State(): Link
      reads this
    {
      Link(connected, rx, tx)
    }

    /** The attribute assignments of `ConnectionHandler(ip, port)`, before
        its closing `connect`; `Create` is the whole constructor. */
    constructor (ip: string, port: Port)
      ensures this.ip == ip && this.port == port
      ensures State() == Link(false, [], [])
    {
      this.ip, this.port := ip, port;
      connected, rx, tx := false, [], [];
    }

    /** `ConnectionHandler(ip, port)`: the attributes, then `connect(ip,
        port)`; an exception raised by that `connect` leaves the caller with
        no handler at all. */
    static method Create(ip: string, port: Port, reachable: bool, incoming: Bytes)
      returns (h: ConnectionHandler?, err: Option<Exc>)
      ensures err == ConnectStep(Link(false, [], []), port, reachable, incoming).1
      ensures h == null <==> err.Some?
      ensures h != null ==> fresh(h) && h.ip == ip && h.port == port && h.State() == Link(true, incoming, [])
    {
      var c := new ConnectionHandler(ip, port);
      err := c.Connect(ip, port, reachable, incoming);
      if err.Some? {
        return null, err;
      }
      return c, None;
    }

    /** `connect(ip, port)`: the address is used but not stored. */
    method Connect(ip: string, port: Port, reachable: bool, incoming: Bytes) returns (err: Option<Exc>)
      modifies this
      ensures this.ip == old(this.ip) && this.port == old(this.port)
      ensures State() == ConnectStep(old(State()), port, reachable, incoming).0
      ensures err == ConnectStep(old(State()), port, reachable, incoming).1
    {
      if connected {
        return None;
      }
      var value := PortValue(port);
      if value.Err? {
        return Some(KaliValueError);
      }
      if !(0 <= value.value <= 65535) {
        return Some(OverflowError);
      }
      if !reachable {
        return Some(OtsConnectionError);
      }
      connected, rx, tx := true, incoming, [];
      return None;
    }

    /** `disconnect()` */
    method Disconnect()
      modifies this
      ensures ip == old(ip) && port == old(port)
      ensures State() == old(State()).(connected := false)
    {
      connected := false;
    }

    /** `reconnect()`: to the address given at construction. */
    method Reconnect(reachable: bool, incoming: Bytes) returns (err: Option<Exc>)
      modifies this
      ensures ip == old(ip) && port == old(port)
      ensures (State(), err) == ReconnectStep(old(State()), port, reachable, incoming)
    {
      if connected {
        Disconnect();
      }
      err := Connect(ip, port, reachable, incoming);
    }

    /** `communicate(json_)`: send the framed text, read the header TLV, read
        the length and format TLVs out of its value, check the three, then
        read the announced number of payload bytes.  Every OSError
        disconnects. */
    method Communicate(json: string) returns (r: Result<Bytes, Exc>)
      modifies this
      ensures ip == old(ip) && port == old(port)
      ensures (State(), r) == Exchange(old(State()), json)
    {
      var frame: Bytes;
      match Frame(json) {
        case Err(e) => return Err(e);
        case Ok(f) => frame := f;
      }
      if !connected {
        Disconnect();
        return Err(OtsConnectionError);
      }
      tx := tx + frame;
      var header, got := ReceiveHeader();
      if got.TimedOut? {
        Disconnect();
        return Err(OtsConnectionError);
      } else if got.Raised? {
        return Err(got.e);
      }
      var hv := header.val;
      var lenTlv, e2 := ReadHeaderField(hv, 0);
      if e2.Some? {
        return Err(e2.value);
      }
      var fmtTlv, e3 := ReadHeaderField(hv, |HexDump(lenTlv.Fields())|);
      if e3.Some? {
        return Err(e3.value);
      }
      if !(CheckHeader(header.Fields()) && CheckHeader(lenTlv.Fields()) && CheckHeader(fmtTlv.Fields())) {
        return Err(OtsInvalidHeader);
      }
      var data, timedOut := ReceiveData(FromBE(lenTlv.val));
      if timedOut || |data| == 0 {
        Disconnect();
        return Err(OtsConnectionError);
      }
      return Ok(data);
    }

    /** The header loop of `communicate`: `recv(1)` and `populate` until the
        TLV is complete. */
    method ReceiveHeader() returns (header: TlvUnit, got: Received)
      modifies this
      ensures fresh(header)
      ensures connected == old(connected) && tx == old(tx) && ip == old(ip) && port == old(port)
      ensures (header.State(), rx, got) == ReceiveTlv(Fresh, old(rx))
    {
      header := new TlvUnit();
      while !header.complete
        invariant fresh(header)
        invariant connected == old(connected) && tx == old(tx) && ip == old(ip) && port == old(port)
        invariant ReceiveTlv(header.State(), rx) == ReceiveTlv(Fresh, old(rx))
        decreases |rx|
      {
        if rx == [] {
          return header, TimedOut;
        }
        var byte := [rx[0]];
        rx := rx[1..];
        var e := header.Populate(byte);
        if e.Some? {
          return header, Raised(e.value);
        }
      }
      return header, Done;
    }

    /** The payload loop of `communicate`: `recv(1)` until `need` bytes are
        in; `timedOut` when the stream runs dry first. */
    method ReceiveData(need: nat) returns (data: Bytes, timedOut: bool)
      modifies this
      ensures connected == old(connected) && tx == old(tx) && ip == old(ip) && port == old(port)
      ensures (data, rx, timedOut) == ReceivePayload([], need, old(rx))
    {
      data := [];
      while |data| < need
        invariant connected == old(connected) && tx == old(tx) && ip == old(ip) && port == old(port)
        invariant ReceivePayload(data, need, rx) == ReceivePayload([], need, old(rx))
        decreases |rx|
      {
        if rx == [] {
          return data, true;
        }
        data := data + [rx[0]];
        rx := rx[1..];
      }
      return data, false;
    }
  }

  /** A length or format loop of `communicate`: `populate(val[i:i + 1])`
      from `i = start` until the TLV is complete. */
  method ReadHeaderField(hv: Bytes, start: nat) returns (t: TlvUnit, err: Option<Exc>)
    ensures fresh(t)
    ensures (t.State(), err) == ReadPadded(Fresh, hv, start)
  {
    FreshWf();
    t := new TlvUnit();
    var i := start;
    while !t.complete
      invariant fresh(t)
      invariant Wf(t.State())
      invariant ReadPadded(t.State(), hv, i) == ReadPadded(Fresh, hv, start)
      decreases Rank(t.State()), Budget(t.State(), Avail(hv, i))
    {
      var byte := Slice(hv, i, i + 1);
      StepProgress(t.State(), byte, Avail(hv, i));
      i := i + 1;
      var e := t.Populate(byte);
      if e.Some? {
        return t, e;
      }
    }
    return t, None;
  }

  // ---------------------------------------------------------------------------
  // The client

  /** `OtsClient`: connections to test servers under text labels. */
  class OtsClient {
    var connections: map<string, ConnectionHandler>

    /** The empty map `OtsClient(key, ip, port, logger)` starts from, before
        its closing `connect`; `Create` is the whole constructor. */
    constructor ()
      ensures connections == map[]
    {
      connections := map[];
    }

    /** `OtsClient(key, ip, port, logger)`: an empty map, then `connect(key,
        ip, port)`, which makes the first handler; an exception raised while
        connecting leaves the caller with no client at all. */
    static method Create(key: string, ip: string, port: Port, reachable: bool, incoming: Bytes)
      returns (c: OtsClient?, err: Option<Exc>)
      ensures err == ConnectStep(Link(false, [], []), port, reachable, incoming).1
      ensures c == null <==> err.Some?
      ensures c != null ==>
        && fresh(c) && c.connections.Keys == {key}
        && var h := c.connections[key];
           fresh(h) && h.ip == ip && h.port == port && h.State() == Link(true, incoming, [])
    {
      c := new OtsClient();
      var conn;
      conn, err := c.Connect(key, ip, port, reachable, incoming);
      if err.Some? {
        return null, err;
      }
    }

    /** `connect(key, ip, port)`: a new label gets a new handler, kept only
        once it is connected; a known label connects its handler again. */
    method Connect(key: string, ip: string, port: Port, reachable: bool, incoming: Bytes)
      returns (conn: ConnectionHandler?, err: Option<Exc>)
      modifies this, if key in connections then {connections[key]} else {}
      ensures key in old(connections) ==>
        && connections == old(connections) && conn == null
        && var h := connections[key];
           && h.ip == old(h.ip) && h.port == old(h.port)
           && (h.State(), err) == ConnectStep(old(h.State()), port, reachable, incoming)
      ensures key !in old(connections) ==>
        && err == ConnectStep(Link(false, [], []), port, reachable, incoming).1
        && (err.None? <==> conn != null)
        && (conn == null ==> connections == old(connections))
        && (conn != null ==>
              && fresh(conn) && connections == old(connections)[key := conn]
              && conn.State() == Link(true, incoming, []) && conn.ip == ip && conn.port == port)
    {
      if key !in connections {
        var c;
        c, err := ConnectionHandler.Create(ip, port, reachable, incoming);
        if err.Some? {
          return null, err;
        }
        if c.connected {
          connections := connections[key := c];
          return c, None;
        }
        return null, None;
      } else {
        err := connections[key].Connect(ip, port, reachable, incoming);
        return null, err;
      }
    }

    /** `disconnect(key)`: an unknown label is only logged. */
    method Disconnect(key: string)
      modifies if key in connections then {connections[key]} else {}
      ensures key in connections ==>
        var h := connections[key];
        h.ip == old(h.ip) && h.port == old(h.port) && h.State() == old(h.State()).(connected := false)
    {
      if key in connections {
        connections[key].Disconnect();
      }
    }

    /** `close(key)`: disconnect and forget the label; an unknown label is a
        KeyError. */
    method Close(key: string) returns (err: Option<Exc>)
      modifies this, if key in connections then {connections[key]} else {}
      ensures connections == old(connections) - {key}
      ensures err == if key in old(connections) then None else Some(KeyError)
      ensures key in old(connections) ==>
        var h := old(connections)[key];
        h.ip == old(h.ip) && h.port == old(h.port) && h.State() == old(h.State()).(connected := false)
    {
      Disconnect(key);
      if key !in connections {
        return Some(KeyError);
      }
      connections := connections - {key};
      return None;
    }

    /** `reconnect(key)`: an unknown label is a KeyError. */
    method Reconnect(key: string, reachable: bool, incoming: Bytes) returns (err: Option<Exc>)
      modifies if key in connections then {connections[key]} else {}
      ensures key !in connections ==> err == Some(KeyError)
      ensures key in connections ==>
        var h := connections[key];
        && h.ip == old(h.ip) && h.port == old(h.port)
        && (h.State(), err) == ReconnectStep(old(h.State()), h.port, reachable, incoming)
    {
      if key !in connections {
        return Some(KeyError);
      }
      err := connections[key].Reconnect(reachable, incoming);
    }

    /** `is_connected(key)`: false for an unknown label. */
    function IsConnected(key: string): (r: bool)
      reads this, if key in connections then {connections[key]} else {}
      ensures r <==> key in connections && connections[key].State().connected
    {
      key in connections && connections[key].connected
    }

    /** `send(key_label, interface, method, argument_dic)`: an unknown label
        is a KeyError; connection and header errors are `False`; otherwise
        the answer unpacked from the reply. */
    method Send(key: string, interface: string, methodName: string, argumentDic: Json,
                dumps: Json -> string, loads: Bytes -> Result<Json, Exc>)
      returns (r: Result<Json, Exc>)
      modifies if key in connections then {connections[key]} else {}
      ensures key !in connections ==> r == Err(KeyError)
      ensures key in connections ==>
        var h := connections[key];
        var (link, res) := Exchange(old(h.State()), dumps(SendEnvelope(interface, methodName, argumentDic)));
        && h.ip == old(h.ip) && h.port == old(h.port)
        && h.State() == link && r == SendResult(res, loads, interface, methodName)
    {
      var packed := JsonPack(PackArgs(Some(interface), Some(methodName),
                                      if Truthy(argumentDic) then Some(argumentDic) else None));
      var text := dumps(packed.value);
      if key !in connections {
        return Err(KeyError);
      }
      var returned := connections[key].Communicate(text);
      match returned {
        case Err(e) =>
          if e == OtsConnectionError || e == OtsInvalidHeader {
            return Ok(Bool(false));
          }
          return Err(e);
        case Ok(data) =>
          match loads(data) {
            case Err(e) => return Err(e);
            case Ok(doc) => return JsonUnpack(doc, interface, methodName);
          }
      }
    }

    /** `check_connection(key)`: the truth value of the answer to `ping`. */
    method CheckConnection(key: string, dumps: Json -> string, loads: Bytes -> Result<Json, Exc>)
      returns (r: Result<bool, Exc>)
      modifies if key in connections then {connections[key]} else {}
      ensures key !in connections ==> r == Err(KeyError)
      ensures key in connections ==>
        var h := connections[key];
        var (link, res) := Exchange(old(h.State()), dumps(SendEnvelope("dbus", "ping", Obj([]))));
        && h.State() == link
        && r == match SendResult(res, loads, "dbus", "ping")
                case Ok(v) => Ok(Truthy(v))
                case Err(e) => Err(e)
    {
      var answer := Send(key, "dbus", "ping", Obj([]), dumps, loads);
      match answer {
        case Ok(v) => return Ok(Truthy(v));
        case Err(e) => return Err(e);
      }
    }

    /** `close_all()`: close every connection, one label at a time. */
    method CloseAll() returns (r: bool)
      modifies this, connections.Values
      ensures r && connections == map[]
      ensures forall h :: h in old(connections.Values) ==> !h.connected
    {
      while |connections| > 0
        invariant connections.Values <= old(connections.Values)
        invariant forall h :: h in old(connections.Values) && h !in connections.Values ==> !h.connected
        decreases |connections|
      {
        var k :| k in connections;
        assert connections[k] in connections.Values;
        ghost var before := connections;
        var _ := Close(k);
        assert connections.Keys == before.Keys - {k};
        forall h | h in before.Values && h != before[k]
          ensures h in connections.Values
        {
          var k' :| k' in before && before[k'] == h;
          assert k' in connections;
        }
      }
      return true;
    }
  }
}
