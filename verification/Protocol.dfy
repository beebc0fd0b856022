/**
  protocol.go: the versioned binary framing, its reader over a byte stream, and the
  connection loop of node.go that feeds decoded messages to the event loop.
  */
module Protocol {
  import opened Wrappers
  import opened Bytes
  import opened Loop

  const LEGACY_PROTOCOL_VERSION: byte := 1
  const PROTOCOL_VERSION: byte := 2

  const TYPE_TEXT: byte := 0x01
  const TYPE_IMAGE: byte := 0x02
  const TYPE_PING: byte := 0x03
  const TYPE_PONG: byte := 0x04
  const TYPE_FILE_OFFER: byte := 0x05
  const TYPE_FILE_FETCH: byte := 0x06

  const MAX_PAYLOAD_SIZE := 10 * 1024 * 1024
  const MAX_SOURCE_SIZE := 1024
  const LEGACY_HEADER_SIZE := 14
  const HEADER_SIZE := 24

  datatype Message = Message(
    version: byte, typ: byte, contentID: uint64, source: seq<byte>, timestamp: int64, payload: seq<byte>)
  {
    function EventID(): Loop.EventID
    {
      Loop.EventID.EventID(contentID, source, timestamp)
    }
  }

  predicate KnownType(t: byte)
  {
    t in {TYPE_TEXT, TYPE_IMAGE, TYPE_PING, TYPE_PONG, TYPE_FILE_OFFER, TYPE_FILE_FETCH}
  }

  /** What Encode accepts. */
  predicate Encodable(m: Message)
  {
    |m.source| <= MAX_SOURCE_SIZE && |m.payload| <= MAX_PAYLOAD_SIZE
  }

  // ----- the wire format -----

  datatype Fields = Fields(contentID: uint64, timestamp: int64, sourceLen: nat, payloadLen: nat)

  /** The header of a version 2 frame, without its version and type. */
  function Pack(f: Fields): (h: seq<byte>)
    ensures |h| == HEADER_SIZE - 2
  {
    BigEndian(f.contentID, 8) + BigEndian(ToUint64(f.timestamp), 8)
    + BigEndian(f.sourceLen, 2) + BigEndian(f.payloadLen, 4)
  }

  function Header(m: Message): (h: seq<byte>)
    ensures |h| == HEADER_SIZE
  {
    [PROTOCOL_VERSION, m.typ] + Pack(Fields(m.contentID, m.timestamp, |m.source|, |m.payload|))
  }

  /** The version 2 frame of a message. */
  function Wire(m: Message): (w: seq<byte>)
    ensures |w| == HEADER_SIZE + |m.source| + |m.payload|
  {
    Header(m) + m.source + m.payload
  }

  /** Version, type, content ID, timestamp as a two's complement, the two lengths, source and payload. */
  lemma WireLayout(m: Message)
    ensures var time := if m.timestamp < 0 then m.timestamp + 0x1_0000_0000_0000_0000 else m.timestamp;
            Wire(m) == [2, m.typ] + BigEndian(m.contentID, 8) + BigEndian(time, 8) + BigEndian(|m.source|, 2)
                       + BigEndian(|m.payload|, 4) + m.source + m.payload
  {
    var id, t := BigEndian(m.contentID, 8), BigEndian(ToUint64(m.timestamp), 8);
    var l, n := BigEndian(|m.source|, 2), BigEndian(|m.payload|, 4);
    assert [PROTOCOL_VERSION, m.typ] + (id + t + l + n) == [PROTOCOL_VERSION, m.typ] + id + t + l + n;
  }

  function Frames(ms: seq<Message>): seq<byte>
  {
    if ms == [] then [] else Wire(ms[0]) + Frames(ms[1..])
  }

  datatype EncodeError = SourceTooLarge | PayloadTooLarge

  /** Fill buf[at..] with s: copy, and binary.BigEndian.PutUintN on the digits of a number. */
  method Put(buf: array<byte>, at: nat, s: seq<byte>)
    requires at + |s| <= buf.Length
    modifies buf
    ensures buf[..at + |s|] == old(buf[..at]) + s
  {
    forall i | at <= i < at + |s| {
      buf[i] := s[i - at];
    }
  }

  /** Encode fills a buffer by offsets; the result is the frame, whatever m.version is. */
  method Encode(m: Message) returns (r: Result<seq<byte>, EncodeError>)
    ensures r.Ok? <==> |m.source| <= 1024 && |m.payload| <= 10 * 1024 * 1024
    ensures r.Ok? <==> Encodable(m)
    ensures r.Ok? ==> r.value == Wire(m)
    ensures r.Err? ==> r.error == (if |m.source| > MAX_SOURCE_SIZE then SourceTooLarge else PayloadTooLarge)
  {
    if |m.source| > MAX_SOURCE_SIZE {
      return Err(SourceTooLarge);
    }
    if |m.payload| > MAX_PAYLOAD_SIZE {
      return Err(PayloadTooLarge);
    }
    var buf := new byte[HEADER_SIZE + |m.source| + |m.payload|](_ => 0);
    PutHeader(buf, m);
    Put(buf, HEADER_SIZE, m.source);
    Put(buf, HEADER_SIZE + |m.source|, m.payload);
    assert buf[..] == buf[..HEADER_SIZE + |m.source| + |m.payload|];
    return Ok(buf[..]);
  }

  method PutHeader(buf: array<byte>, m: Message)
    requires buf.Length >= HEADER_SIZE
    modifies buf
    ensures buf[..HEADER_SIZE] == Header(m)
  {
    buf[0] := PROTOCOL_VERSION;
    buf[1] := m.typ;
    ghost var start := [PROTOCOL_VERSION, m.typ];
    assert buf[..2] == start;
    var id, time := BigEndian(m.contentID, 8), BigEndian(ToUint64(m.timestamp), 8);
    var sourceLen, payloadLen := BigEndian(|m.source|, 2), BigEndian(|m.payload|, 4);
    Put(buf, 2, id);
    Put(buf, 10, time);
    Put(buf, 18, sourceLen);
    Put(buf, 20, payloadLen);
    assert start + id + time + sourceLen + payloadLen == start + (id + time + sourceLen + payloadLen);
  }

  // ----- decoding one message -----

  datatype DecodeError = Truncated | VersionMismatch | UnknownType | OversizedPayload | OversizedSource

  datatype Parsed = Parsed(message: Message, consumed: nat)

  /** The size of the header of a given version. */
  function SizeOfHeader(version: byte): nat
  {
    if version == PROTOCOL_VERSION then HEADER_SIZE else LEGACY_HEADER_SIZE
  }

  /** The header fields, from the header bytes that follow the version and the type. */
  function FieldsOf(version: byte, header: seq<byte>): (f: Fields)
    requires |header| == SizeOfHeader(version) - 2
  {
    Widths();
    if version == PROTOCOL_VERSION then
      Fields(FromBigEndian(header[0..8]), ToInt64(FromBigEndian(header[8..16])),
             FromBigEndian(header[16..18]), FromBigEndian(header[18..22]))
    else
      Fields(FromBigEndian(header[0..8]), 0, 0, FromBigEndian(header[8..12]))
  }

  /** What follows the header: the declared sizes are checked before anything is read. */
  function ParseBody(version: byte, typ: byte, f: Fields, body: seq<byte>): (r: Result<Parsed, DecodeError>)
    ensures r.Ok? ==> r.value.consumed == SizeOfHeader(version) + f.sourceLen + f.payloadLen
                      && f.sourceLen + f.payloadLen <= |body|
  {
    if f.payloadLen > MAX_PAYLOAD_SIZE then Err(OversizedPayload)
    else if f.sourceLen > MAX_SOURCE_SIZE then Err(OversizedSource)
    else if |body| < f.sourceLen + f.payloadLen then Err(Truncated)
    else
      var source := body[..f.sourceLen];
      var payload := body[f.sourceLen..f.sourceLen + f.payloadLen];
      Ok(Parsed(Message(version, typ, f.contentID, source, f.timestamp, payload),
                SizeOfHeader(version) + f.sourceLen + f.payloadLen))
  }

  /** What Decode makes of the bytes that remain in its reader. */
  function Parse(s: seq<byte>): (r: Result<Parsed, DecodeError>)
    ensures r.Ok? ==> 2 <= r.value.consumed <= |s|
  {
    if |s| < 2 then Err(Truncated)
    else if s[0] != LEGACY_PROTOCOL_VERSION && s[0] != PROTOCOL_VERSION then Err(VersionMismatch)
    else if !KnownType(s[1]) then Err(UnknownType)
    else
      var size := SizeOfHeader(s[0]);
      if |s| < size then Err(Truncated)
      else
        ParseBody(s[0], s[1], FieldsOf(s[0], s[2..size]), s[size..])
  }

  /** An io.Reader over bytes that have arrived; `rest` is what was not read yet. */
  class Reader {
    var rest: seq<byte>

    constructor (s: seq<byte>)
      ensures rest == s
    {
      rest := s;
    }

    /** io.ReadFull: n bytes, or an error after consuming whatever is left. */
    method ReadFull(n: nat) returns (ok: bool, data: seq<byte>)
      modifies this
      ensures ok == (n <= |old(rest)|)
      ensures ok ==> data == old(rest)[..n] && rest == old(rest)[n..]
      ensures !ok ==> rest == []
    {
      ok := n <= |rest|;
      if ok {
        data, rest := rest[..n], rest[n..];
      } else {
        data, rest := rest, [];
      }
    }
  }

  method Decode(r: Reader) returns (res: Result<Message, DecodeError>)
    modifies r
    ensures var p := Parse(old(r.rest));
            if p.Err? then res == Err(p.error)
            else res == Ok(p.value.message) && r.rest == old(r.rest)[p.value.consumed..]
  {
    ghost var s := r.rest;
    var ok, prefix := r.ReadFull(2);
    if !ok {
      return Err(Truncated);
    }
    var version := prefix[0];
    if version != LEGACY_PROTOCOL_VERSION && version != PROTOCOL_VERSION {
      return Err(VersionMismatch);
    }
    var typ := prefix[1];
    if !KnownType(typ) {
      return Err(UnknownType);
    }
    var remaining := LEGACY_HEADER_SIZE - |prefix|;
    if version == PROTOCOL_VERSION {
      remaining := HEADER_SIZE - |prefix|;
    }
    var header;
    ok, header := r.ReadFull(remaining);
    if !ok {
      return Err(Truncated);
    }
    Slices(s, 2, SizeOfHeader(version));
    var f := FieldsOf(version, header);
    res := DecodeBody(r, version, typ, f);
  }

  lemma Slices(s: seq<byte>, i: nat, j: nat)
    requires i <= j <= |s|
    ensures s[i..][..j - i] == s[i..j] && s[i..][j - i..] == s[j..]
  {
  }

  method DecodeBody(r: Reader, version: byte, typ: byte, f: Fields) returns (res: Result<Message, DecodeError>)
    modifies r
    ensures var p := ParseBody(version, typ, f, old(r.rest));
            if p.Err? then res == Err(p.error)
            else res == Ok(p.value.message) && r.rest == old(r.rest)[p.value.consumed - SizeOfHeader(version)..]
  {
    if f.payloadLen > MAX_PAYLOAD_SIZE {
      return Err(OversizedPayload);
    }
    if f.sourceLen > MAX_SOURCE_SIZE {
      return Err(OversizedSource);
    }
    ghost var body := r.rest;
    var ok;
    var source, payload := [], [];
    if f.sourceLen > 0 {
      ok, source := r.ReadFull(f.sourceLen);
      if !ok {
        return Err(Truncated);
      }
    }
    assert source == body[..f.sourceLen] && r.rest == body[f.sourceLen..];
    if f.payloadLen > 0 {
      ok, payload := r.ReadFull(f.payloadLen);
      if !ok {
        return Err(Truncated);
      }
    }
    assert payload == body[f.sourceLen..][..f.payloadLen] == body[f.sourceLen..f.sourceLen + f.payloadLen];
    return Ok(Message(version, typ, f.contentID, source, f.timestamp, payload));
  }

  // ----- one frame: round trip, prefixes, canonical form -----

  lemma WidthsFit(m: Message)
    requires Encodable(m)
    ensures FromBigEndian(BigEndian(m.contentID, 8)) == m.contentID
    ensures FromBigEndian(BigEndian(ToUint64(m.timestamp), 8)) == ToUint64(m.timestamp)
    ensures FromBigEndian(BigEndian(|m.source|, 2)) == |m.source|
    ensures FromBigEndian(BigEndian(|m.payload|, 4)) == |m.payload|
  {
    Widths();
    DecodeEncode(m.contentID, 8);
    DecodeEncode(ToUint64(m.timestamp), 8);
    DecodeEncode(|m.source|, 2);
    DecodeEncode(|m.payload|, 4);
  }

  /** The header of a frame carries its message's fields. */
  lemma HeaderFields(m: Message)
    requires Encodable(m)
    ensures FieldsOf(PROTOCOL_VERSION, Header(m)[2..])
         == Fields(m.contentID, m.timestamp, |m.source|, |m.payload|)
  {
    var h := Header(m)[2..];
    WidthsFit(m);
    assert h[0..8] == BigEndian(m.contentID, 8);
    assert h[8..16] == BigEndian(ToUint64(m.timestamp), 8);
    assert h[16..18] == BigEndian(|m.source|, 2);
    assert h[18..22] == BigEndian(|m.payload|, 4);
  }

  /** A frame followed by anything decodes to the message, as version 2, and is consumed exactly. */
  lemma RoundTrip(m: Message, rest: seq<byte>)
    requires Encodable(m) && KnownType(m.typ)
    ensures Parse(Wire(m) + rest) == Ok(Parsed(m.(version := PROTOCOL_VERSION), |Wire(m)|))
  {
    var s := Wire(m) + rest;
    HeaderFields(m);
    assert s[2..HEADER_SIZE] == Header(m)[2..];
    var body := s[HEADER_SIZE..];
    assert body == m.source + m.payload + rest;
    assert body[..|m.source|] == m.source;
    assert body[|m.source|..|m.source| + |m.payload|] == m.payload;
  }

  // ----- version 1 -----

  /** The version 1 frame of a message, which carries neither a source nor a timestamp. */
  function LegacyWire(typ: byte, id: uint64, payload: seq<byte>): (w: seq<byte>)
    ensures |w| == 14 + |payload|
  {
    [1, typ] + BigEndian(id, 8) + BigEndian(|payload|, 4) + payload
  }

  lemma LegacyFields(typ: byte, id: uint64, payload: seq<byte>, rest: seq<byte>)
    requires |payload| <= 10 * 1024 * 1024
    ensures var s := LegacyWire(typ, id, payload) + rest;
            && FromBigEndian(s[2..14][0..8]) == id && FromBigEndian(s[2..14][8..12]) == |payload|
            && s[14..] == payload + rest
  {
    Widths();
    DecodeEncode(id, 8);
    DecodeEncode(|payload|, 4);
    LegacyParts([1, typ], BigEndian(id, 8), BigEndian(|payload|, 4), payload, rest);
  }

  lemma LegacyParts(a: seq<byte>, b: seq<byte>, c: seq<byte>, payload: seq<byte>, rest: seq<byte>)
    requires |a| == 2 && |b| == 8 && |c| == 4
    ensures var s := a + b + c + payload + rest;
            s[..2] == a && s[2..14][0..8] == b && s[2..14][8..12] == c && s[14..] == payload + rest
  {
    var s := a + b + c + payload + rest;
    assert s[2..14] == b + c;
  }

  /** A version 1 frame followed by anything decodes to its message, and is consumed exactly. */
  lemma LegacyRoundTrip(typ: byte, id: uint64, payload: seq<byte>, rest: seq<byte>)
    requires typ in {1, 2, 3, 4, 5, 6} && |payload| <= 10 * 1024 * 1024
    ensures Parse([1, typ] + BigEndian(id, 8) + BigEndian(|payload|, 4) + payload + rest)
         == Ok(Parsed(Message(1, typ, id, [], 0, payload), 14 + |payload|))
  {
    var s := LegacyWire(typ, id, payload) + rest;
    LegacyFields(typ, id, payload, rest);
    LegacyParts([1, typ], BigEndian(id, 8), BigEndian(|payload|, 4), payload, rest);
    assert s[0] == s[..2][0] && s[1] == s[..2][1];
    assert s[14..][..0] == [] && s[14..][0..|payload|] == payload;
  }

  /** Whatever version 1 bytes are accepted are the frame of their message. */
  lemma LegacyCanonical(s: seq<byte>)
    requires Parse(s).Ok? && s[0] == 1
    ensures var m := Parse(s).value.message;
            && m.version == 1 && m.source == [] && m.timestamp == 0 && |m.payload| <= 10 * 1024 * 1024
            && Parse(s).value.consumed == 14 + |m.payload|
            && s[..14 + |m.payload|] == LegacyWire(m.typ, m.contentID, m.payload)
  {
    var m := Parse(s).value.message;
    var header := s[2..14];
    EncodeDecode(header[0..8]);
    EncodeDecode(header[8..12]);
    assert header == header[0..8] + header[8..12];
    assert s[..14] == [1, m.typ] + header;
    assert s[..14 + |m.payload|] == s[..14] + s[14..][..|m.payload|];
  }

  /** No strict prefix of a frame decodes, not even to a shorter message. */
  lemma StrictPrefixFails(m: Message, p: seq<byte>)
    requires Encodable(m) && KnownType(m.typ)
    requires p < Wire(m)
    ensures Parse(p) == Err(Truncated)
  {
    var w := Wire(m);
    if 2 <= |p| {
      assert p[0] == w[0] && p[1] == w[1];
      if HEADER_SIZE <= |p| {
        HeaderFields(m);
        assert p[2..HEADER_SIZE] == Header(m)[2..];
      }
    }
  }

  /** Frames are prefix-free, and a frame determines its message up to the version field. */
  lemma {:induction false} PrefixFree(m: Message, n: Message)
    requires Encodable(m) && KnownType(m.typ) && Encodable(n) && KnownType(n.typ)
    requires Wire(m) <= Wire(n)
    ensures m.(version := PROTOCOL_VERSION) == n.(version := PROTOCOL_VERSION)
  {
    var rest := Wire(n)[|Wire(m)|..];
    assert Wire(n) == Wire(m) + rest == Wire(n) + [];
    RoundTrip(m, rest);
    RoundTrip(n, []);
  }

  lemma FieldsDetermineHeader(h: seq<byte>)
    requires |h| == HEADER_SIZE - 2
    ensures Pack(FieldsOf(PROTOCOL_VERSION, h)) == h
  {
    Widths();
    EncodeDecode(h[0..8]);
    EncodeDecode(h[8..16]);
    EncodeDecode(h[16..18]);
    EncodeDecode(h[18..22]);
    assert h == h[0..8] + h[8..16] + h[16..18] + h[18..22];
  }

  lemma SameHeader(m: Message, s: seq<byte>)
    requires |s| >= HEADER_SIZE && s[0] == PROTOCOL_VERSION && s[1] == m.typ
    requires FieldsOf(PROTOCOL_VERSION, s[2..HEADER_SIZE]) == Fields(m.contentID, m.timestamp, |m.source|, |m.payload|)
    ensures Header(m) == s[..HEADER_SIZE]
  {
    FieldsDetermineHeader(s[2..HEADER_SIZE]);
    assert s[..HEADER_SIZE] == [s[0], s[1]] + s[2..HEADER_SIZE];
  }

  /** Every accepted version 2 input starts with the one frame of its message. */
  lemma Canonical(s: seq<byte>)
    requires Parse(s).Ok? && s[0] == PROTOCOL_VERSION
    ensures var p := Parse(s).value;
            Encodable(p.message) && Wire(p.message) == s[..p.consumed]
  {
    var p := Parse(s).value;
    var m := p.message;
    SameHeader(m, s);
    assert s[..p.consumed] == s[..HEADER_SIZE] + s[HEADER_SIZE..HEADER_SIZE + |m.source|]
                              + s[HEADER_SIZE + |m.source|..p.consumed];
  }

  /** An accepted version 1 message survives re-encoding as version 2 without gaining an identity. */
  lemma LegacyUpgrade(s: seq<byte>, rest: seq<byte>)
    requires Parse(s).Ok? && s[0] == LEGACY_PROTOCOL_VERSION
    ensures var p := Parse(s).value;
            && p.message.source == [] && p.message.timestamp == 0
            && p.message.typ == s[1] && p.message.contentID == FromBigEndian(s[2..10])
            && p.message.payload == s[LEGACY_HEADER_SIZE..p.consumed]
            && Encodable(p.message)
            && Parse(Wire(p.message) + rest) == Ok(Parsed(p.message.(version := PROTOCOL_VERSION), |Wire(p.message)|))
  {
    RoundTrip(Parse(s).value.message, rest);
    assert s[2..LEGACY_HEADER_SIZE][0..8] == s[2..10];
  }

  /** Acceptance depends on the consumed bytes alone: nothing after them is looked at. */
  lemma ParseIsLocal(s: seq<byte>, t: seq<byte>)
    requires Parse(s).Ok?
    ensures Parse(s[..Parse(s).value.consumed] + t) == Parse(s)
  {
    var n := Parse(s).value.consumed;
    var size := SizeOfHeader(s[0]);
    var u := s[..n] + t;
    assert u[2..size] == s[2..size];
    var body, f := s[size..], FieldsOf(s[0], s[2..size]);
    assert s[..n][size..] == body[..n - size];
    assert u[size..] == s[..n][size..] + t;
    assert u[size..][..f.sourceLen] == body[..f.sourceLen];
    assert u[size..][f.sourceLen..n - size] == body[f.sourceLen..n - size];
  }

  /** All the consumed bytes are needed, also for version 1 input. */
  lemma ParseNeedsAll(s: seq<byte>, k: nat)
    requires Parse(s).Ok? && k < Parse(s).value.consumed
    ensures Parse(s[..k]) == Err(Truncated)
  {
    var size := SizeOfHeader(s[0]);
    if size <= k {
      assert s[..k][2..size] == s[2..size];
    }
  }

  // ----- the stream of frames on one connection -----

  datatype Decoded = Decoded(messages: seq<Message>, error: DecodeError)

  /** Decode repeatedly until it fails. */
  function DecodeAll(s: seq<byte>): Decoded
    decreases |s|
  {
    match Parse(s)
    case Err(e) => Decoded([], e)
    case Ok(p) =>
      var d := DecodeAll(s[p.consumed..]);
      Decoded([p.message] + d.messages, d.error)
  }

  /** The messages as the receiver sees them. */
  function AsReceived(ms: seq<Message>): (r: seq<Message>)
    ensures |r| == |ms|
    ensures forall i :: 0 <= i < |ms| ==> r[i] == ms[i].(version := PROTOCOL_VERSION)
  {
    seq(|ms|, i requires 0 <= i < |ms| => ms[i].(version := PROTOCOL_VERSION))
  }

  lemma AsReceivedCons(ms: seq<Message>)
    requires ms != []
    ensures AsReceived(ms) == [ms[0].(version := PROTOCOL_VERSION)] + AsReceived(ms[1..])
  {
  }

  ghost predicate Sendable(ms: seq<Message>)
  {
    forall i :: 0 <= i < |ms| ==> Encodable(ms[i]) && KnownType(ms[i].typ)
  }

  /** The connection ends inside a frame, possibly before its first byte. */
  ghost predicate CutFrame(cut: seq<byte>)
  {
    cut == [] || exists m :: Encodable(m) && KnownType(m.typ) && cut < Wire(m)
  }

  lemma CutFrameFails(cut: seq<byte>)
    requires CutFrame(cut)
    ensures Parse(cut) == Err(Truncated)
  {
    if cut != [] {
      var m :| Encodable(m) && KnownType(m.typ) && cut < Wire(m);
      StrictPrefixFails(m, cut);
    }
  }

  lemma DecodeOneMore(m: Message, rest: seq<byte>)
    requires Encodable(m) && KnownType(m.typ)
    ensures DecodeAll(Wire(m) + rest)
         == Decoded([m.(version := PROTOCOL_VERSION)] + DecodeAll(rest).messages, DecodeAll(rest).error)
  {
    RoundTrip(m, rest);
    assert (Wire(m) + rest)[|Wire(m)|..] == rest;
  }

  /** A stream of frames cut off inside a frame decodes to exactly the complete frames. */
  lemma {:induction false} StreamDecodes(ms: seq<Message>, cut: seq<byte>)
    requires Sendable(ms) && CutFrame(cut)
    ensures DecodeAll(Frames(ms) + cut) == Decoded(AsReceived(ms), Truncated)
  {
    if ms == [] {
      CutFrameFails(cut);
      assert Frames(ms) + cut == cut;
    } else {
      var w, t := Wire(ms[0]), Frames(ms[1..]);
      assert (w + t) + cut == w + (t + cut);
      DecodeOneMore(ms[0], t + cut);
      StreamDecodes(ms[1..], cut);
      AsReceivedCons(ms);
    }
  }

  /** Unique decodability of a byte stream. */
  lemma UniquelyDecodable(ms: seq<Message>, ns: seq<Message>)
    requires Sendable(ms) && Sendable(ns) && Frames(ms) == Frames(ns)
    ensures AsReceived(ms) == AsReceived(ns)
  {
    StreamDecodes(ms, []);
    StreamDecodes(ns, []);
    assert Frames(ms) + [] == Frames(ns) + [];
  }

  /** Whatever part of the stream has arrived is again complete frames and a cut one. */
  lemma {:induction false} PrefixOfStream(ms: seq<Message>, cut: seq<byte>, p: seq<byte>)
    returns (k: nat, cut': seq<byte>)
    requires Sendable(ms) && CutFrame(cut) && p <= Frames(ms) + cut
    ensures k <= |ms| && CutFrame(cut') && p == Frames(ms[..k]) + cut'
  {
    if ms == [] {
      assert Frames(ms) + cut == cut;
      k, cut' := 0, p;
      PrefixOfCut(cut, p);
      NoFrames(ms, p);
    } else {
      var w, rest := Wire(ms[0]), Frames(ms[1..]) + cut;
      assert Frames(ms) + cut == w + rest;
      PrefixOfTwo(p, w, rest);
      if |p| < |w| {
        k, cut' := 0, p;
        assert CutFrame(p);
        NoFrames(ms, p);
      } else {
        var q := p[|w|..];
        k, cut' := PrefixOfStream(ms[1..], cut, q);
        TakeFrames(ms, k, cut');
        k := k + 1;
      }
    }
  }

  lemma NoFrames(ms: seq<Message>, p: seq<byte>)
    ensures p == Frames(ms[..0]) + p
  {
  }

  lemma PrefixOfTwo(p: seq<byte>, w: seq<byte>, rest: seq<byte>)
    requires p <= w + rest
    ensures if |p| < |w| then p < w else p == w + p[|w|..] && p[|w|..] <= rest
  {
    if |p| < |w| {
      assert p == (w + rest)[..|p|] == w[..|p|];
    } else {
      assert w == (w + rest)[..|w|] == p[..|w|];
      assert p[|w|..] == (w + rest)[|w|..|p|] == rest[..|p| - |w|];
    }
  }

  lemma TakeFrames(ms: seq<Message>, k: nat, rest: seq<byte>)
    requires k < |ms|
    ensures Frames(ms[..k + 1]) + rest == Wire(ms[0]) + (Frames(ms[1..][..k]) + rest)
  {
    FramesCons(ms[0], ms[1..][..k], rest);
    assert ms[..k + 1] == [ms[0]] + ms[1..][..k];
  }

  lemma PrefixOfCut(cut: seq<byte>, p: seq<byte>)
    requires CutFrame(cut) && p <= cut
    ensures CutFrame(p)
  {
    if p != [] {
      var m :| Encodable(m) && KnownType(m.typ) && cut < Wire(m);
      assert p < Wire(m);
    }
  }

  lemma FramesCons(m: Message, ms: seq<Message>, rest: seq<byte>)
    ensures Frames([m] + ms) + rest == Wire(m) + (Frames(ms) + rest)
  {
    var w, t := Wire(m), Frames(ms);
    assert ([m] + ms)[1..] == ms;
    assert (w + t) + rest == w + (t + rest);
  }

  // ----- streams of both versions -----

  /** What a sender of either version puts on the wire. */
  predicate Sent(m: Message)
  {
    && |m.payload| <= 10 * 1024 * 1024 && m.typ in {1, 2, 3, 4, 5, 6}
    && if m.version == 1 then m.source == [] && m.timestamp == 0 else m.version == 2 && |m.source| <= 1024
  }

  function SentWire(m: Message): seq<byte>
    requires Sent(m)
  {
    if m.version == 1 then LegacyWire(m.typ, m.contentID, m.payload) else Wire(m)
  }

  function MixedFrames(ms: seq<Message>): seq<byte>
    requires forall m :: m in ms ==> Sent(m)
  {
    if ms == [] then [] else SentWire(ms[0]) + MixedFrames(ms[1..])
  }

  ghost predicate MixedCut(cut: seq<byte>)
  {
    cut == [] || exists m :: Sent(m) && cut < SentWire(m)
  }

  lemma SentRoundTrip(m: Message, rest: seq<byte>)
    requires Sent(m)
    ensures Parse(SentWire(m) + rest) == Ok(Parsed(m, |SentWire(m)|))
  {
    if m.version == 1 {
      LegacyRoundTrip(m.typ, m.contentID, m.payload, rest);
    } else {
      RoundTrip(m, rest);
    }
  }

  lemma DecodeOneSent(m: Message, rest: seq<byte>)
    requires Sent(m)
    ensures var d := DecodeAll(rest);
            DecodeAll(SentWire(m) + rest) == Decoded([m] + d.messages, d.error)
  {
    SentRoundTrip(m, rest);
    assert (SentWire(m) + rest)[|SentWire(m)|..] == rest;
  }

  lemma MixedCutFails(cut: seq<byte>)
    requires MixedCut(cut)
    ensures Parse(cut) == Err(Truncated)
  {
    if cut != [] {
      var m :| Sent(m) && cut < SentWire(m);
      var w := SentWire(m);
      SentRoundTrip(m, []);
      assert w + [] == w;
      ParseNeedsAll(w, |cut|);
      assert w[..|cut|] == cut;
    }
  }

  /** A stream of frames of both versions, cut off inside a frame, decodes to exactly the messages sent. */
  lemma {:induction false} MixedStreamDecodes(ms: seq<Message>, cut: seq<byte>)
    requires (forall m :: m in ms ==> Sent(m)) && MixedCut(cut)
    ensures DecodeAll(MixedFrames(ms) + cut) == Decoded(ms, Truncated)
  {
    if ms == [] {
      MixedCutFails(cut);
      assert MixedFrames(ms) + cut == cut;
    } else {
      var w, t := SentWire(ms[0]), MixedFrames(ms[1..]);
      Associate(w, t, cut);
      DecodeOneSent(ms[0], t + cut);
      MixedStreamDecodes(ms[1..], cut);
      assert [ms[0]] + ms[1..] == ms;
    }
  }

  // ----- handleConn -----

  /** Everything before the first file fetch, which takes over its connection. */
  function BeforeFetch(ms: seq<Message>): (r: seq<Message>)
  {
    if ms == [] || ms[0].typ == TYPE_FILE_FETCH then [] else [ms[0]] + BeforeFetch(ms[1..])
  }

  /** What is delivered are the first messages, none of type 6, up to one of type 6 or the last. */
  lemma {:induction false} DeliveredUpToFetch(ms: seq<Message>)
    ensures var r := BeforeFetch(ms);
            r <= ms && (forall m :: m in r ==> m.typ != 6) && (|r| < |ms| ==> ms[|r|].typ == 6)
  {
    if ms != [] && ms[0].typ != 6 {
      DeliveredUpToFetch(ms[1..]);
    }
  }

  /** handleConn hands each decoded message to the event loop until an error or a file fetch. */
  method HandleConn(r: Reader) returns (incoming: seq<Message>)
    modifies r
    ensures incoming == BeforeFetch(DecodeAll(old(r.rest)).messages)
  {
    incoming := [];
    while true
      invariant BeforeFetch(DecodeAll(old(r.rest)).messages) == incoming + BeforeFetch(DecodeAll(r.rest).messages)
      decreases |r.rest|
    {
      var res := Decode(r);
      if res.Err? {
        return;
      }
      var msg := res.value;
      if msg.typ == TYPE_FILE_FETCH {
        return;
      }
      incoming := incoming + [msg];
    }
  }
}
