/**
 * Frames: a 36-byte header, the payload and a CRC-32 of both
 * (firmware/src/protocol.cpp:255-299, backend/app/protocol.py:122-150 and 419-454).
 */
module Frames {
  import opened Crc
  import opened Wire

  datatype Header = Header(magic: nat, version: nat, msgType: nat, deviceId: seq<byte>,
                           seqNo: nat, tsMs: nat, fwVersion: nat, payloadLen: nat, reserved: nat)

  function HeaderFields(h: Header): (r: Record)
    ensures Proper(r)
  {
    [Num(2, h.magic), Num(1, h.version), Num(1, h.msgType), Text(ID_LEN, h.deviceId),
     Num(4, h.seqNo), Num(8, h.tsMs), Num(4, h.fwVersion), Num(2, h.payloadLen), Num(2, h.reserved)]
  }

  const BLANK := Header(0, 0, 0, [], 0, 0, 0, 0, 0)

  lemma HeaderSize(h: Header)
    ensures Size(HeaderFields(h)) == HEADER_LEN && Offset(HeaderFields(h), 7) == 32
  {
    var r := HeaderFields(h);
    SizeIsOffset(r);
    assert Offset(r, 1) == 2;
    assert Offset(r, 2) == 3;
    assert Offset(r, 3) == 4;
    assert Offset(r, 4) == 16;
    assert Offset(r, 5) == 20;
    assert Offset(r, 6) == 28;
    assert Offset(r, 7) == 32;
    assert Offset(r, 8) == 34;
  }

  function WriteHeader(side: Side, h: Header): (b: seq<byte>)
    ensures |b| == HEADER_LEN
  {
    HeaderSize(h);
    Write(side, HeaderFields(h))
  }

  function ReadHeader(b: seq<byte>): Header
    requires |b| == HEADER_LEN
  {
    HeaderSize(BLANK);
    var r := Read(HeaderFields(BLANK), b);
    Header(r[0].v, r[1].v, r[2].v, r[3].s, r[4].v, r[5].v, r[6].v, r[7].v, r[8].v)
  }

  predicate HeaderExact(side: Side, h: Header) {
    Exact(side, HeaderFields(h))
  }

  /** A header survives exactly when its numbers are in range and its id fits. */
  lemma HeaderRoundTrip(side: Side, h: Header)
    ensures ReadHeader(WriteHeader(side, h)) == h <==> HeaderExact(side, h)
  {
    hide Size, Offset, Read, Write;
    HeaderSize(BLANK);
    HeaderSize(h);
    RecordRoundTrip(side, HeaderFields(BLANK), HeaderFields(h));
    var b := WriteHeader(side, h);
    HeaderAgain(Read(HeaderFields(BLANK), b));
  }

  lemma HeaderAgain(r: Record)
    requires SameShape(HeaderFields(BLANK), r)
    ensures HeaderFields(Header(r[0].v, r[1].v, r[2].v, r[3].s, r[4].v, r[5].v, r[6].v, r[7].v, r[8].v)) == r
  {}

  // ------------------------------------------------------------ encoders

  function CrcBytes(b: seq<byte>): (c: seq<byte>)
    ensures |c| == CRC_LEN
  {
    Le(Crc32Of(b, 0) as int, CRC_LEN)
  }

  function Seal(b: seq<byte>): seq<byte> { b + CrcBytes(b) }

  /** `encodeFrame`: fills in the length and truncates an oversized payload. */
  function EncodeFrame(h: Header, payload: seq<byte>): seq<byte> {
    var n := if |payload| > MAX_PAYLOAD then MAX_PAYLOAD else |payload|;
    Seal(WriteHeader(Cpp, h.(payloadLen := n)) + payload[..n])
  }

  datatype PyError = BadLength | BadMagic | BadVersion | BadCrc

  function PyHeader(msgType: nat, id: seq<byte>, seqNo: nat, ts: nat, fw: nat, n: nat): Header {
    Header(MAGIC, VERSION, msgType, id, seqNo, ts, fw, n, 0)
  }

  /** `encode`: refuses an oversized payload. */
  function PyEncode(msgType: nat, id: seq<byte>, seqNo: nat, ts: nat, fw: nat, body: seq<byte>): Result<seq<byte>, PyError> {
    if |body| > MAX_PAYLOAD then Err(BadLength)
    else Ok(Seal(WriteHeader(Py, PyHeader(msgType, id, seqNo, ts, fw, |body|)) + body))
  }

  // ------------------------------------------------------------ decoders

  datatype DecodeError = TooShort | BadMagicE | BadVersionE | BadLengthE | BadCrcE

  datatype Frame = Frame(hdr: Header, payload: seq<byte>)

  /** `decodeFrame`: one frame from the front of `d` and the number of bytes it took. */
  function DecodeFrame(d: seq<byte>): (r: Result<(Frame, nat), DecodeError>)
    ensures r.Ok? ==> HEADER_LEN + CRC_LEN <= r.value.1 <= |d|
    ensures r.Ok? ==> r.value.1 <= HEADER_LEN + MAX_PAYLOAD + CRC_LEN
  {
    if |d| < HEADER_LEN then Err(TooShort) else
    var h := ReadHeader(d[..HEADER_LEN]);
    if h.magic != MAGIC then Err(BadMagicE)
    else if h.version != VERSION then Err(BadVersionE)
    else if h.payloadLen > MAX_PAYLOAD then Err(BadLengthE)
    else
      var covered := HEADER_LEN + h.payloadLen;
      if |d| < covered + CRC_LEN then Err(TooShort)
      else if Value(d[covered..covered + CRC_LEN]) != Crc32Of(d[..covered], 0) as int then Err(BadCrcE)
      else Ok((Frame(h, d[HEADER_LEN..covered]), covered + CRC_LEN))
  }

  /** `Header.unpack` */
  function PyUnpackHeader(d: seq<byte>): (r: Result<Header, PyError>)
    ensures r.Ok? ==> r.value.payloadLen <= MAX_PAYLOAD
  {
    if |d| < HEADER_LEN then Err(BadLength) else
    var h := ReadHeader(d[..HEADER_LEN]);
    if h.magic != MAGIC then Err(BadMagic)
    else if h.version != VERSION then Err(BadVersion)
    else if h.payloadLen > MAX_PAYLOAD then Err(BadLength)
    else Ok(h)
  }

  datatype PyBody = Typed(p: Payload) | Raw(b: seq<byte>)

  datatype PyFrame = PyFrame(hdr: Header, body: PyBody)

  /** `decode`: the payload of a known type must also have the right length. */
  function PyDecode(d: seq<byte>): Result<PyFrame, PyError> {
    var r := PyUnpackHeader(d);
    if r.Err? then Err(r.error) else
    var h := r.value;
    var covered := HEADER_LEN + h.payloadLen;
    if |d| < covered + CRC_LEN then Err(BadLength)
    else if Crc32Of(d[..covered], 0) as int != Value(d[covered..covered + CRC_LEN]) then Err(BadCrc)
    else if !Known(h.msgType) then Ok(PyFrame(h, Raw(d[HEADER_LEN..covered])))
    else
      var p := Decode(h.msgType, d[HEADER_LEN..covered]);
      if p.Ok? then Ok(PyFrame(h, Typed(p.value))) else Err(BadLength)
  }

  // ------------------------------------------------------------ round trips and agreement

  lemma CrcWord(c: bv32)
    ensures Value(Le(c as int, CRC_LEN)) == c as int
  {
    LeRoundTrip(c as int, 4);
    assert Pow256(4) == 0x1_0000_0000 by {
      assert Pow256(1) == 256 && Pow256(2) == 65536 && Pow256(3) == 0x100_0000;
    }
    WordBelow(c);
    ModSmall(c as int, Pow256(4));
  }

  lemma WordBelow(c: bv32)
    ensures 0 <= c as int < 0x1_0000_0000
  {}

  lemma Sealed(b: seq<byte>, tail: seq<byte>)
    ensures var d := Seal(b) + tail;
            d[..|b|] == b && Value(d[|b|..|b| + CRC_LEN]) == Crc32Of(b, 0) as int
  {
    hide Crc32Of;
    var d := Seal(b) + tail;
    assert d[..|b|] == b && d[|b|..|b| + CRC_LEN] == CrcBytes(b);
    CrcWord(Crc32Of(b, 0));
  }

  /** A header as `makeHeader` builds it: every field in range, the id at most 12 bytes. */
  predicate Sendable(side: Side, h: Header) {
    HeaderExact(side, h) && h.magic == MAGIC && h.version == VERSION
  }

  /** Whatever follows it, an encoded frame decodes to itself and consumes itself. */
  lemma FrameRoundTrip(side: Side, h: Header, payload: seq<byte>, tail: seq<byte>)
    requires Sendable(side, h) && |payload| == h.payloadLen <= MAX_PAYLOAD
    ensures var d := Seal(WriteHeader(side, h) + payload);
            DecodeFrame(d + tail) == Ok((Frame(h, payload), |d|))
  {
    hide Crc32Of;
    var b := WriteHeader(side, h) + payload;
    var d := Seal(b) + tail;
    Sealed(b, tail);
    assert d[..HEADER_LEN] == WriteHeader(side, h);
    HeaderRoundTrip(side, h);
    assert d[HEADER_LEN..|b|] == payload;
  }

  /** The firmware decodes what it encodes, down to the consumed length. */
  lemma CppRoundTrip(h: Header, payload: seq<byte>, tail: seq<byte>)
    requires |payload| <= MAX_PAYLOAD && Sendable(Cpp, h.(payloadLen := |payload|))
    ensures DecodeFrame(EncodeFrame(h, payload) + tail)
         == Ok((Frame(h.(payloadLen := |payload|), payload), |EncodeFrame(h, payload)|))
  {
    assert payload[..|payload|] == payload;
    FrameRoundTrip(Cpp, h.(payloadLen := |payload|), payload, tail);
  }

  predicate BodyOk(f: Frame) {
    Known(f.hdr.msgType) ==> GoodLength(f.hdr.msgType, |f.payload|)
  }

  /** `PyDecode` is `DecodeFrame` followed by the typed payload decode. */
  lemma PyDecodeIsDecode(d: seq<byte>)
    ensures PyDecode(d).Ok? <==> (DecodeFrame(d).Ok? && BodyOk(DecodeFrame(d).value.0))
    ensures PyDecode(d).Ok? ==> PyDecode(d).value.hdr == DecodeFrame(d).value.0.hdr
    ensures PyDecode(d).Ok? ==>
              PyDecode(d).value.body == (var f := DecodeFrame(d).value.0;
                if Known(f.hdr.msgType) then Typed(Decode(f.hdr.msgType, f.payload).value) else Raw(f.payload))
  {
    hide Crc32Of, ReadHeader, Value, Decode;
  }

  /** Every payload the backend encodes in range comes back equal from its own decoder. */
  lemma PyRoundTrip(id: seq<byte>, seqNo: nat, ts: nat, fw: nat, p: Payload)
    requires var body := Encode(Py, p);
             |body| <= MAX_PAYLOAD && Sendable(Py, PyHeader(TypeOf(p), id, seqNo, ts, fw, |body|)) && PayloadExact(Py, p)
    ensures var body := Encode(Py, p);
            var e := PyEncode(TypeOf(p), id, seqNo, ts, fw, body);
            e.Ok? && PyDecode(e.value) == Ok(PyFrame(PyHeader(TypeOf(p), id, seqNo, ts, fw, |body|), Typed(p)))
  {
    hide Crc32Of, Seal, WriteHeader, PyDecode, DecodeFrame, Decode, Encode, PayloadExact, HeaderExact;
    var body := Encode(Py, p);
    var h := PyHeader(TypeOf(p), id, seqNo, ts, fw, |body|);
    FrameRoundTrip(Py, h, body, []);
    var d := Seal(WriteHeader(Py, h) + body);
    assert d + [] == d;
    PayloadRoundTrip(Py, p);
    PyDecodeIsDecode(d);
  }

  /** Both ends produce the same frame for NUL-free ids of at most 11 bytes and plain payloads. */
  lemma EncodersAgree(id: seq<byte>, seqNo: nat, ts: nat, fw: nat, p: Payload)
    requires 0 !in id && |id| < ID_LEN && Plain(Fields(p)) && |Encode(Py, p)| <= MAX_PAYLOAD
    ensures PyEncode(TypeOf(p), id, seqNo, ts, fw, Encode(Py, p))
         == Ok(EncodeFrame(PyHeader(TypeOf(p), id, seqNo, ts, fw, 0), Encode(Cpp, p)))
  {
    hide Crc32Of;
    PayloadAgree(p);
    var body := Encode(Py, p);
    var h := PyHeader(TypeOf(p), id, seqNo, ts, fw, |body|);
    HeaderSize(h);
    assert Plain(HeaderFields(h));
    RecordAgree(HeaderFields(h));
    assert body[..|body|] == body;
  }

  /** An id of exactly 12 bytes survives the firmware's codec and is cut by the backend's. */
  lemma TwelveByteId(id: seq<byte>)
    requires 0 !in id && |id| == ID_LEN
    ensures CStr(Fixed(Cpp, id, ID_LEN)) == id && CStr(Fixed(Py, id, ID_LEN)) == id[..11]
  {
    TextRoundTrip(Cpp, id, ID_LEN);
    assert id[..11] + Zeros(1) == Fixed(Py, id, ID_LEN);
    CStrPadded(id[..11], 1);
  }

  // ------------------------------------------------------------ stability under extension

  /** Once `decodeFrame` has an answer other than "too short", more bytes do not change it. */
  lemma DecodeStable(d: seq<byte>, e: seq<byte>)
    requires DecodeFrame(d) != Err(TooShort)
    ensures DecodeFrame(d + e) == DecodeFrame(d)
  {
    hide Crc32Of;
    assert (d + e)[..HEADER_LEN] == d[..HEADER_LEN];
    var h := ReadHeader(d[..HEADER_LEN]);
    if h.magic == MAGIC && h.version == VERSION && h.payloadLen <= MAX_PAYLOAD {
      var covered := HEADER_LEN + h.payloadLen;
      assert (d + e)[..covered] == d[..covered];
      assert (d + e)[covered..covered + CRC_LEN] == d[covered..covered + CRC_LEN];
      assert (d + e)[HEADER_LEN..covered] == d[HEADER_LEN..covered];
    }
  }

  // ------------------------------------------------------------ burst errors

  lemma LengthBytes(b: seq<byte>)
    requires |b| == HEADER_LEN
    ensures ReadHeader(b).payloadLen == Value(b[32..34])
  {
    hide Size, Offset, Read, Value;
    HeaderSize(BLANK);
    ReadAt(HeaderFields(BLANK), b, 7);
  }

  /** Where every header field is. */
  lemma HeaderBytes(b: seq<byte>)
    requires |b| == HEADER_LEN
    ensures var h := ReadHeader(b);
            && h.magic == Value(b[0..2]) && h.version == Value(b[2..3]) && h.msgType == Value(b[3..4]) && h.deviceId == CStr(b[4..16])
            && h.seqNo == Value(b[16..20]) && h.tsMs == Value(b[20..28]) && h.fwVersion == Value(b[28..32])
            && h.payloadLen == Value(b[32..34]) && h.reserved == Value(b[34..36])
  {
    var r := HeaderFields(BLANK);
    HeaderOffsets();
    HeaderSize(BLANK);
    hide Size, Offset, Read, Value, CStr;
    forall i: nat | i < 9 ensures Read(r, b)[i] == Filled(r[i], b[HeaderOffset(i)..HeaderOffset(i) + r[i].n]) && HeaderOffset(i) + r[i].n <= 36 {
      ReadAt(r, b, i);
    }
  }

  function HeaderOffset(i: nat): nat {
    if i == 0 then 0 else if i == 1 then 2 else if i == 2 then 3 else if i == 3 then 4 else if i == 4 then 16
    else if i == 5 then 20 else if i == 6 then 28 else if i == 7 then 32 else 34
  }

  lemma HeaderOffsets()
    ensures forall i: nat :: i < 9 ==> Offset(HeaderFields(BLANK), i) == HeaderOffset(i)
  {
    var r := HeaderFields(BLANK);
    assert Offset(r, 0) == 0;
    assert Offset(r, 1) == 2;
    assert Offset(r, 2) == 3;
    assert Offset(r, 3) == 4;
    assert Offset(r, 4) == 16;
    assert Offset(r, 5) == 20;
    assert Offset(r, 6) == 28;
    assert Offset(r, 7) == 32;
    assert Offset(r, 8) == 34;
  }

  /**
   * Which answer `decodeFrame` gives, byte by byte: the errors are tested in the order too short
   * for a header, magic, version, length, too short for the frame, CRC.
   */
  lemma DecodeVerdict(d: seq<byte>)
    ensures |d| < 36 ==> DecodeFrame(d) == Err(TooShort)
    ensures |d| >= 36 ==>
              var (magic, version, n) := (Value(d[0..2]), Value(d[2..3]), Value(d[32..34]));
              if magic != 0x4554 then DecodeFrame(d) == Err(BadMagicE)
              else if version != 1 then DecodeFrame(d) == Err(BadVersionE)
              else if n > 1024 then DecodeFrame(d) == Err(BadLengthE)
              else if |d| < n + 40 then DecodeFrame(d) == Err(TooShort)
              else if Value(d[n + 36..n + 40]) != Crc32Of(d[..n + 36], 0) as int then DecodeFrame(d) == Err(BadCrcE)
              else DecodeFrame(d).Ok? && DecodeFrame(d).value.0.payload == d[36..n + 36] && DecodeFrame(d).value.1 == n + 40
  {
    hide Crc32Of, Value, ReadHeader;
    if |d| >= 36 {
      var b := d[..36];
      HeaderBytes(b);
      assert b[0..2] == d[0..2] && b[2..3] == d[2..3] && b[32..34] == d[32..34];
    }
  }

  function Matching(e: DecodeError): PyError {
    match e
    case TooShort => BadLength
    case BadMagicE => BadMagic
    case BadVersionE => BadVersion
    case BadLengthE => BadLength
    case BadCrcE => BadCrc
  }

  /** The backend raises the matching error. */
  lemma PyErrorIs(d: seq<byte>)
    requires DecodeFrame(d).Err?
    ensures PyDecode(d) == Err(Matching(DecodeFrame(d).error))
  {
    hide Crc32Of, ReadHeader, Value, Decode, Known;
    if |d| >= HEADER_LEN {
      var h := ReadHeader(d[..HEADER_LEN]);
      if h.magic == MAGIC && h.version == VERSION && h.payloadLen <= MAX_PAYLOAD {
        assert PyUnpackHeader(d) == Ok(h);
      }
    }
  }

  /** A payload length that does not fit its type is one error more. */
  lemma PyRefusesBody(d: seq<byte>)
    requires DecodeFrame(d).Ok? && !BodyOk(DecodeFrame(d).value.0)
    ensures PyDecode(d) == Err(BadLength)
  {
    hide Crc32Of, ReadHeader, Value, GoodLength;
    assert PyUnpackHeader(d) == Ok(DecodeFrame(d).value.0.hdr);
  }

  /** A payload over 1024 bytes is cut by the firmware and refused by the backend. */
  lemma Oversized(h: Header, payload: seq<byte>, msgType: nat, id: seq<byte>, seqNo: nat, ts: nat, fw: nat)
    ensures |payload| > 1024 ==> EncodeFrame(h, payload) == EncodeFrame(h, payload[..1024])
    ensures PyEncode(msgType, id, seqNo, ts, fw, payload).Err? <==> |payload| > 1024
  {
    hide Seal, WriteHeader;
    if |payload| > 1024 {
      assert payload[..1024][..1024] == payload[..1024];
    }
  }

  lemma IntsDiffer(a: bv32, b: bv32)
    requires a != b
    ensures a as int != b as int
  {
    WordBack(a);
    WordBack(b);
  }

  lemma WordBack(a: bv32)
    ensures 0 <= a as int < 0x1_0000_0000 && (a as int) as bv32 == a
  {}

  /**
   * Take any accepted frame and change, in any way, up to four consecutive bytes of the part
   * the CRC covers, leaving the two length bytes alone: `decodeFrame` rejects the result.
   */
  lemma BurstRejected(d: seq<byte>, e: seq<byte>, k: nat, n: nat)
    requires DecodeFrame(d).Ok? && n <= 4
    requires k + n <= DecodeFrame(d).value.1 - CRC_LEN
    requires |e| == |d| && e[..k] == d[..k] && e[k + n..] == d[k + n..] && e[k..k + n] != d[k..k + n]
    requires e[32..34] == d[32..34]
    ensures DecodeFrame(e).Err?
  {
    hide Crc32Of, ReadHeader, Value, Le;
    var hd, he := d[..HEADER_LEN], e[..HEADER_LEN];
    assert hd[32..34] == d[32..34] && he[32..34] == e[32..34];
    LengthBytes(hd);
    LengthBytes(he);
    var c := DecodeFrame(d).value.1 - CRC_LEN;
    var s, t, q := d[k..k + n], e[k..k + n], d[k + n..c];
    assert d[..c] == d[..k] + s + q;
    assert e[k + n..][..c - k - n] == d[k + n..][..c - k - n];
    assert e[..c] == e[..k] + t + q;
    assert d[c..c + CRC_LEN] == d[k + n..][c - k - n..c - k - n + CRC_LEN];
    assert e[c..c + CRC_LEN] == e[k + n..][c - k - n..c - k - n + CRC_LEN];
    BurstDetected(d[..k], s, t, q, 0);
    IntsDiffer(Crc32Of(d[..c], 0), Crc32Of(e[..c], 0));
  }
}
