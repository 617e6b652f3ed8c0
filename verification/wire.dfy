/**
 * The stps wire format: the packed 12-byte TCPHeader with its little-endian
 * integer fields, the one-byte handshake message, frames (a header followed by
 * `data_size` payload bytes), and the two-phase, size-tolerant header read that
 * both session kinds perform.
 */
module Wire {

  type Byte = x: int | 0 <= x < 0x100
  type U16 = x: int | 0 <= x < 0x1_0000
  type U64 = x: int | 0 <= x < 0x1_0000_0000_0000_0000

  // Layout of the packed TCPHeader: no padding between the fields.
  const SIZE_FIELD_LENGTH: nat := 2      // sizeof(header_size)
  const TYPE_OFFSET: nat := 2
  const RESERVED_OFFSET: nat := 3
  const DATA_SIZE_OFFSET: nat := 4
  const DATA_SIZE_LENGTH: nat := 8
  const HEADER_LENGTH: nat := 12         // sizeof(TCPHeader)

  // The handshake payload: a single protocol_version byte, currently 0.
  const HANDSHAKE_MESSAGE_LENGTH: nat := 1
  const PROTOCOL_VERSION: Byte := 0

  /** The one-byte frame type. Bytes other than 0 and 1 can still arrive on the wire. */
  datatype MessageContentType = RegularPayload | ProtocolHandshake | Unknown(code: Byte)

  /** The form a decoded type takes: `Unknown` never carries a code that has a name. */
  predicate Canonical(t: MessageContentType) {
    t.Unknown? ==> t.code >= 2
  }

  function TypeCode(t: MessageContentType): (code: Byte)
    ensures Canonical(t) ==> (code == 0 <==> t == RegularPayload)
    ensures Canonical(t) ==> (code == 1 <==> t == ProtocolHandshake)
  {
    match t
    case RegularPayload => 0
    case ProtocolHandshake => 1
    case Unknown(c) => c
  }

  function ContentType(code: Byte): (t: MessageContentType)
    ensures Canonical(t) && TypeCode(t) == code
  {
    if code == 0 then RegularPayload
    else if code == 1 then ProtocolHandshake
    else Unknown(code)
  }

  datatype TcpHeader = TcpHeader(headerSize: U16, msgType: MessageContentType, reserved: Byte, dataSize: U64)

  /** The value-initialised header: every field zero, type RegularPayload. */
  const DefaultHeader := TcpHeader(0, RegularPayload, 0, 0)

  function Min(a: int, b: int): int {
    if a < b then a else b
  }

  function Pow256(n: nat): (p: nat)
    ensures p > 0
  {
    if n == 0 then 1 else 0x100 * Pow256(n - 1)
  }

  lemma FieldWidths()
    ensures Pow256(SIZE_FIELD_LENGTH) == 0x1_0000
    ensures Pow256(DATA_SIZE_LENGTH) == 0x1_0000_0000_0000_0000
  {
  }

  /** `width` bytes of `v`, least significant first (htole16 / htole64 into memory). */
  function LittleEndian(v: nat, width: nat): (bs: seq<Byte>)
    ensures |bs| == width
  {
    if width == 0 then [] else [v % 0x100] + LittleEndian(v / 0x100, width - 1)
  }

  /** The number whose little-endian image is `bs` (le16toh / le64toh of memory). */
  function FromLittleEndian(bs: seq<Byte>): (v: nat)
    ensures v < Pow256(|bs|)
  {
    if bs == [] then 0 else bs[0] + 0x100 * FromLittleEndian(bs[1..])
  }

  lemma {:induction false} LittleEndianRoundTrip(v: nat, width: nat)
    requires v < Pow256(width)
    ensures FromLittleEndian(LittleEndian(v, width)) == v
  {
    if width > 0 {
      LittleEndianRoundTrip(v / 0x100, width - 1);
      assert LittleEndian(v, width)[1..] == LittleEndian(v / 0x100, width - 1);
    }
  }

  lemma {:induction false} FromLittleEndianRoundTrip(bs: seq<Byte>)
    ensures LittleEndian(FromLittleEndian(bs), |bs|) == bs
  {
    if bs != [] {
      FromLittleEndianRoundTrip(bs[1..]);
      var v := FromLittleEndian(bs);
      assert v % 0x100 == bs[0];
      assert v / 0x100 == FromLittleEndian(bs[1..]);
    }
  }

  /**
   * The 12 bytes of a packed header: header_size at offset 0, type at 2,
   * reserved at 3 and data_size at 4, multi-byte fields little-endian.
   */
  function EncodeHeader(h: TcpHeader): (bs: seq<Byte>)
    ensures |bs| == HEADER_LENGTH
    ensures FromLittleEndian(bs[..TYPE_OFFSET]) == h.headerSize
    ensures bs[TYPE_OFFSET] == TypeCode(h.msgType)
    ensures bs[RESERVED_OFFSET] == h.reserved
    ensures FromLittleEndian(bs[DATA_SIZE_OFFSET..]) == h.dataSize
  {
    FieldWidths();
    LittleEndianRoundTrip(h.headerSize, SIZE_FIELD_LENGTH);
    LittleEndianRoundTrip(h.dataSize, DATA_SIZE_LENGTH);
    var bs := LittleEndian(h.headerSize, SIZE_FIELD_LENGTH) + [TypeCode(h.msgType), h.reserved]
              + LittleEndian(h.dataSize, DATA_SIZE_LENGTH);
    assert bs[..TYPE_OFFSET] == LittleEndian(h.headerSize, SIZE_FIELD_LENGTH);
    assert bs[DATA_SIZE_OFFSET..] == LittleEndian(h.dataSize, DATA_SIZE_LENGTH);
    bs
  }

  /** Reads the four fields back out of 12 header bytes; every 12-byte image is some header's. */
  function DecodeHeader(bs: seq<Byte>): (h: TcpHeader)
    requires |bs| == HEADER_LENGTH
    ensures Canonical(h.msgType)
    ensures EncodeHeader(h) == bs
  {
    FieldWidths();
    FromLittleEndianRoundTrip(bs[..TYPE_OFFSET]);
    FromLittleEndianRoundTrip(bs[DATA_SIZE_OFFSET..]);
    var h := TcpHeader(FromLittleEndian(bs[..TYPE_OFFSET]), ContentType(bs[TYPE_OFFSET]),
                       bs[RESERVED_OFFSET], FromLittleEndian(bs[DATA_SIZE_OFFSET..]));
    assert EncodeHeader(h) == bs[..TYPE_OFFSET] + [bs[TYPE_OFFSET], bs[RESERVED_OFFSET]] + bs[DATA_SIZE_OFFSET..];
    h
  }

  /** Encoding a header and decoding the bytes gives the header back. */
  lemma HeaderRoundTrip(h: TcpHeader)
    requires Canonical(h.msgType)
    ensures DecodeHeader(EncodeHeader(h)) == h
  {
    var d := DecodeHeader(EncodeHeader(h));
    assert d.msgType == ContentType(TypeCode(h.msgType));
  }

  /** A field of zero bytes holds 0. */
  lemma {:induction false} FromLittleEndianOfZeros(k: nat)
    ensures FromLittleEndian(seq(k, _ => 0)) == 0
  {
    if k > 0 {
      assert seq(k, _ => 0)[1..] == seq(k - 1, _ => 0);
      FromLittleEndianOfZeros(k - 1);
    }
  }

  /** A field whose low byte is b and whose other bytes are zero holds b. */
  lemma FromLittleEndianOfLowByte(b: Byte, k: nat)
    ensures FromLittleEndian([b] + seq(k, _ => 0)) == b
  {
    assert ([b] + seq(k, _ => 0))[1..] == seq(k, _ => 0);
    FromLittleEndianOfZeros(k);
  }

  lemma {:induction false} LittleEndianOfZero(width: nat)
    ensures LittleEndian(0, width) == seq(width, _ => 0)
  {
    if width > 0 {
      LittleEndianOfZero(width - 1);
    }
  }

  /** A default header is twelve zero bytes on the wire. */
  lemma DefaultHeaderIsZeroes()
    ensures EncodeHeader(DefaultHeader) == seq(HEADER_LENGTH, _ => 0)
  {
    LittleEndianOfZero(SIZE_FIELD_LENGTH);
    LittleEndianOfZero(DATA_SIZE_LENGTH);
    assert EncodeHeader(DefaultHeader)
        == LittleEndian(0, SIZE_FIELD_LENGTH) + [0, 0] + LittleEndian(0, DATA_SIZE_LENGTH);
  }

  // ---------------------------------------------------------------- handshake

  datatype HandshakeMessage = HandshakeMessage(protocolVersion: Byte)

  function EncodeHandshake(m: HandshakeMessage): (bs: seq<Byte>)
    ensures |bs| == HANDSHAKE_MESSAGE_LENGTH && bs[0] == m.protocolVersion
  {
    [m.protocolVersion]
  }

  /**
   * The handshake message a receiver sees: min(|payload|, 1) bytes copied over a
   * default-initialised message.
   */
  function DecodeHandshake(payload: seq<Byte>): (m: HandshakeMessage)
    ensures payload == [] ==> m == HandshakeMessage(0)
    ensures payload != [] ==> EncodeHandshake(m) == payload[..HANDSHAKE_MESSAGE_LENGTH]
  {
    if payload == [] then HandshakeMessage(0) else HandshakeMessage(payload[0])
  }

  // ---------------------------------------------------------------- frames

  /** A frame as the senders lay it out: a 12-byte header describing the payload, then the payload. */
  function EncodeFrame(t: MessageContentType, payload: seq<Byte>): (f: seq<Byte>)
    requires |payload| < 0x1_0000_0000_0000_0000
    ensures |f| == HEADER_LENGTH + |payload|
    ensures DecodeHeader(f[..HEADER_LENGTH]).headerSize == HEADER_LENGTH
    ensures DecodeHeader(f[..HEADER_LENGTH]).dataSize == |payload|
    ensures f[TYPE_OFFSET] == TypeCode(t) && f[RESERVED_OFFSET] == 0
    ensures f[HEADER_LENGTH..] == payload
  {
    var h := TcpHeader(HEADER_LENGTH, t, 0, |payload|);
    var f := EncodeHeader(h) + payload;
    assert f[..HEADER_LENGTH] == EncodeHeader(h);
    f
  }

  /**
   * The 13-byte handshake frame both sides send: header_size 12, type
   * ProtocolHandshake, reserved 0, data_size 1, then protocol_version 0.
   */
  function HandshakeFrame(): (f: seq<Byte>)
    ensures |f| == HEADER_LENGTH + HANDSHAKE_MESSAGE_LENGTH
    ensures DecodeHeader(f[..HEADER_LENGTH])
            == TcpHeader(HEADER_LENGTH, ProtocolHandshake, 0, HANDSHAKE_MESSAGE_LENGTH)
    ensures DecodeHandshake(f[HEADER_LENGTH..]) == HandshakeMessage(PROTOCOL_VERSION)
  {
    var h := TcpHeader(HEADER_LENGTH, ProtocolHandshake, 0, HANDSHAKE_MESSAGE_LENGTH);
    var f := EncodeHeader(h) + EncodeHandshake(HandshakeMessage(PROTOCOL_VERSION));
    assert f[..HEADER_LENGTH] == EncodeHeader(h);
    HeaderRoundTrip(h);
    f
  }

  // ---------------------------------------------------------------- two-phase header read

  /**
   * What a reader does after the two header_size bytes: give up (below the
   * minimum), or read some more header bytes into its local header and then
   * discard some bytes before the payload.
   */
  datatype HeaderReadPlan = TooShort | ReadThenDiscard(bytesToRead: nat, bytesToDiscard: nat)

  /**
   * The size arithmetic of the publisher session: read min(remote, 12) - 2
   * more header bytes, then discard what a longer remote header has beyond 12.
   */
  function PlanHeaderRead(remote: U16): (p: HeaderReadPlan)
    ensures p.TooShort? <==> remote < SIZE_FIELD_LENGTH
    ensures p.ReadThenDiscard? ==> SIZE_FIELD_LENGTH + p.bytesToRead + p.bytesToDiscard == remote
    ensures p.ReadThenDiscard? ==> p.bytesToRead <= HEADER_LENGTH - SIZE_FIELD_LENGTH
    ensures p.ReadThenDiscard? ==> (p.bytesToDiscard > 0 <==> remote > HEADER_LENGTH)
    ensures p.ReadThenDiscard? && p.bytesToDiscard > 0 ==> p.bytesToRead == HEADER_LENGTH - SIZE_FIELD_LENGTH
  {
    if remote < SIZE_FIELD_LENGTH then TooShort
    else ReadThenDiscard(Min(remote, HEADER_LENGTH) - SIZE_FIELD_LENGTH,
                         if remote > HEADER_LENGTH then remote - HEADER_LENGTH else 0)
  }

  /**
   * The local header after the two-phase read: the size field and the `content`
   * bytes read into the start of a default header, the rest left at defaults.
   */
  function AssembleHeader(sizeBytes: seq<Byte>, content: seq<Byte>): (h: TcpHeader)
    requires |sizeBytes| == SIZE_FIELD_LENGTH
    requires |content| <= HEADER_LENGTH - SIZE_FIELD_LENGTH
    ensures EncodeHeader(h)[..SIZE_FIELD_LENGTH + |content|] == sizeBytes + content
    ensures EncodeHeader(h)[SIZE_FIELD_LENGTH + |content|..] == seq(HEADER_LENGTH - SIZE_FIELD_LENGTH - |content|, _ => 0)
    ensures h.headerSize == FromLittleEndian(sizeBytes)
    ensures Canonical(h.msgType)
  {
    var n := SIZE_FIELD_LENGTH + |content|;
    DefaultHeaderIsZeroes();
    var local := sizeBytes + content + EncodeHeader(DefaultHeader)[n..];
    var h := DecodeHeader(local);
    assert local[..n] == sizeBytes + content;
    assert local[..TYPE_OFFSET] == sizeBytes;
    h
  }

  datatype HeaderRead = ProtocolError | Truncated | Parsed(header: TcpHeader, consumed: nat)

  /**
   * The two-phase read of one header from the front of a byte stream: the size
   * field, then the planned header bytes, then the planned discard. `consumed`
   * is where the payload starts.
   */
  function ReadHeader(stream: seq<Byte>): (r: HeaderRead)
    ensures r.Parsed? ==> r.consumed == r.header.headerSize <= |stream|
  {
    if |stream| < SIZE_FIELD_LENGTH then Truncated
    else
      FieldWidths();
      var remote := FromLittleEndian(stream[..SIZE_FIELD_LENGTH]);
      match PlanHeaderRead(remote)
      case TooShort => ProtocolError
      case ReadThenDiscard(n, d) =>
        if |stream| < SIZE_FIELD_LENGTH + n + d then Truncated
        else Parsed(AssembleHeader(stream[..SIZE_FIELD_LENGTH], stream[SIZE_FIELD_LENGTH..SIZE_FIELD_LENGTH + n]),
                    SIZE_FIELD_LENGTH + n + d)
  }

  /** A reader gives up on a header whose size field is below 2, whatever follows. */
  lemma ReadHeaderRejectsShortSize(stream: seq<Byte>)
    requires |stream| >= SIZE_FIELD_LENGTH
    requires FromLittleEndian(stream[..SIZE_FIELD_LENGTH]) < SIZE_FIELD_LENGTH
    ensures ReadHeader(stream) == ProtocolError
  {
  }

  /** A header of our own size is read back exactly and the payload starts right after it. */
  lemma ReadHeaderSameSize(h: TcpHeader, rest: seq<Byte>)
    requires Canonical(h.msgType) && h.headerSize == HEADER_LENGTH
    ensures ReadHeader(EncodeHeader(h) + rest) == Parsed(h, HEADER_LENGTH)
  {
    var stream := EncodeHeader(h) + rest;
    assert stream[..HEADER_LENGTH] == EncodeHeader(h);
    assert stream[..SIZE_FIELD_LENGTH] == EncodeHeader(h)[..SIZE_FIELD_LENGTH];
    var got := AssembleHeader(stream[..SIZE_FIELD_LENGTH], stream[SIZE_FIELD_LENGTH..HEADER_LENGTH]);
    assert stream[..SIZE_FIELD_LENGTH] + stream[SIZE_FIELD_LENGTH..HEADER_LENGTH] == EncodeHeader(h);
    assert EncodeHeader(got) == EncodeHeader(h);
    HeaderRoundTrip(h);
    HeaderRoundTrip(got);
  }

  /**
   * Forward compatibility: a newer peer's header, our 12 bytes followed by an
   * extension, is read as our header and the extension is skipped exactly.
   */
  lemma ReadHeaderFromNewerPeer(h: TcpHeader, extension: seq<Byte>, rest: seq<Byte>)
    requires Canonical(h.msgType)
    requires |extension| > 0 && h.headerSize == HEADER_LENGTH + |extension|
    ensures ReadHeader(EncodeHeader(h) + extension + rest) == Parsed(h, h.headerSize)
    ensures (EncodeHeader(h) + extension + rest)[h.headerSize..] == rest
  {
    var stream := EncodeHeader(h) + extension + rest;
    assert stream[..HEADER_LENGTH] == EncodeHeader(h);
    assert stream[..SIZE_FIELD_LENGTH] == EncodeHeader(h)[..SIZE_FIELD_LENGTH];
    var got := AssembleHeader(stream[..SIZE_FIELD_LENGTH], stream[SIZE_FIELD_LENGTH..HEADER_LENGTH]);
    assert stream[..SIZE_FIELD_LENGTH] + stream[SIZE_FIELD_LENGTH..HEADER_LENGTH] == EncodeHeader(h);
    assert EncodeHeader(got) == EncodeHeader(h);
    HeaderRoundTrip(h);
    HeaderRoundTrip(got);
  }

  /**
   * Backward compatibility: an older peer's shorter header (2 <= R < 12 bytes,
   * its size field saying R) fills the first R bytes of our header; every field
   * beyond them keeps its default, and the payload starts at R.
   */
  lemma ReadHeaderFromOlderPeer(older: seq<Byte>, rest: seq<Byte>)
    requires SIZE_FIELD_LENGTH <= |older| < HEADER_LENGTH
    requires FromLittleEndian(older[..SIZE_FIELD_LENGTH]) == |older|
    ensures ReadHeader(older + rest).Parsed?
    ensures ReadHeader(older + rest).consumed == |older|
    ensures EncodeHeader(ReadHeader(older + rest).header)[..|older|] == older
    ensures EncodeHeader(ReadHeader(older + rest).header)[|older|..] == seq(HEADER_LENGTH - |older|, _ => 0)
  {
    var stream := older + rest;
    assert stream[..SIZE_FIELD_LENGTH] == older[..SIZE_FIELD_LENGTH];
    assert stream[SIZE_FIELD_LENGTH..|older|] == older[SIZE_FIELD_LENGTH..];
    assert older[..SIZE_FIELD_LENGTH] + older[SIZE_FIELD_LENGTH..] == older;
  }

  /** An older peer's 4-byte header sets header_size, type and reserved; data_size stays 0. */
  lemma ReadFourByteHeader(t: MessageContentType, reserved: Byte, rest: seq<Byte>)
    requires Canonical(t)
    ensures ReadHeader([4, 0, TypeCode(t), reserved] + rest) == Parsed(TcpHeader(4, t, reserved, 0), 4)
  {
    var older: seq<Byte> := [4, 0, TypeCode(t), reserved];
    assert older[..SIZE_FIELD_LENGTH] == [4, 0];
    assert FromLittleEndian([0]) == 0;
    assert FromLittleEndian(older[..SIZE_FIELD_LENGTH]) == 4;
    ReadHeaderFromOlderPeer(older, rest);
    var got := ReadHeader(older + rest).header;
    var bs := EncodeHeader(got);
    assert bs[TYPE_OFFSET] == older[TYPE_OFFSET];
    assert bs[RESERVED_OFFSET] == older[RESERVED_OFFSET];
    assert bs[DATA_SIZE_OFFSET..] == seq(DATA_SIZE_LENGTH, _ => 0);
    FromLittleEndianRoundTrip(bs[DATA_SIZE_OFFSET..]);
    LittleEndianRoundTrip(0, DATA_SIZE_LENGTH);
    FieldWidths();
    assert LittleEndian(0, DATA_SIZE_LENGTH) == seq(DATA_SIZE_LENGTH, _ => 0);
    assert got.msgType == ContentType(TypeCode(t));
  }

  /**
   * A 12-byte header whose size field has been read as [12, 0], followed by
   * type byte `t`, reserved 0 and data_size 1, is assembled to exactly that
   * header.
   */
  lemma OneBytePayloadHeader(t: Byte)
    ensures AssembleHeader([12, 0], [t, 0, 1, 0, 0, 0, 0, 0, 0, 0]) == TcpHeader(HEADER_LENGTH, ContentType(t), 0, 1)
  {
    var content: seq<Byte> := [t, 0, 1, 0, 0, 0, 0, 0, 0, 0];
    var h := AssembleHeader([12, 0], content);
    var bs := EncodeHeader(h);
    assert bs == bs[..SIZE_FIELD_LENGTH + |content|] == [12, 0] + content;
    assert bs[DATA_SIZE_OFFSET..] == content[2..] == [1] + seq(7, _ => 0);
    FromLittleEndianOfLowByte(1, 7);
    assert [12, 0] == [12] + seq(1, _ => 0);
    FromLittleEndianOfLowByte(12, 1);
    assert TypeCode(h.msgType) == bs[TYPE_OFFSET] == t;
  }

  /**
   * What a reader makes of the front of a stream: a protocol error, too few
   * bytes, a frame announcing no payload, or a frame with its payload.
   */
  datatype FrameRead =
    | FrameProtocolError
    | FrameTruncated
    | EmptyFrame(header: TcpHeader, consumed: nat)
    | FrameParsed(header: TcpHeader, payload: seq<Byte>, consumed: nat)

  /**
   * A whole frame from the front of a stream: the header, then data_size
   * payload bytes. A frame whose data_size is 0 is reported apart, since the
   * readers never issue a payload read for it (the publisher session closes,
   * the subscriber session goes on to the next header).
   */
  function ReadFrame(stream: seq<Byte>): (r: FrameRead)
    ensures r.FrameProtocolError? <==> ReadHeader(stream).ProtocolError?
    ensures r.EmptyFrame? <==> ReadHeader(stream).Parsed? && ReadHeader(stream).header.dataSize == 0
    ensures r.EmptyFrame? ==> ReadHeader(stream) == Parsed(r.header, r.consumed)
    ensures r.FrameParsed? ==>
              && ReadHeader(stream).Parsed? && r.header == ReadHeader(stream).header && r.header.dataSize > 0
              && r.consumed == ReadHeader(stream).consumed + r.header.dataSize <= |stream|
              && r.payload == stream[ReadHeader(stream).consumed..r.consumed]
    ensures r.FrameTruncated? ==>
              ReadHeader(stream).Truncated?
              || (ReadHeader(stream).Parsed? && |stream| < ReadHeader(stream).consumed + ReadHeader(stream).header.dataSize)
  {
    match ReadHeader(stream)
    case ProtocolError => FrameProtocolError
    case Truncated => FrameTruncated
    case Parsed(h, n) =>
      if h.dataSize == 0 then EmptyFrame(h, n)
      else if |stream| < n + h.dataSize then FrameTruncated
      else FrameParsed(h, stream[n..n + h.dataSize], n + h.dataSize)
  }

  /**
   * Round trip: a frame encoded with our header size is decoded to its type and
   * exact payload; with an empty payload it is read as a frame announcing none.
   */
  lemma {:induction false} FrameRoundTrip(t: MessageContentType, payload: seq<Byte>, rest: seq<Byte>)
    requires Canonical(t) && |payload| < 0x1_0000_0000_0000_0000
    ensures ReadFrame(EncodeFrame(t, payload) + rest)
            == if payload == [] then EmptyFrame(TcpHeader(HEADER_LENGTH, t, 0, 0), HEADER_LENGTH)
               else FrameParsed(TcpHeader(HEADER_LENGTH, t, 0, |payload|), payload, HEADER_LENGTH + |payload|)
  {
    var h := TcpHeader(HEADER_LENGTH, t, 0, |payload|);
    var stream := EncodeFrame(t, payload) + rest;
    assert stream == EncodeHeader(h) + (payload + rest);
    ReadHeaderSameSize(h, payload + rest);
    assert stream[HEADER_LENGTH..HEADER_LENGTH + |payload|] == payload;
  }
}
