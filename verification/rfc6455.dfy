/**
 * The RFC 6455 frame codec of the server: header fields of section 5.2 of RFC 6455, the
 * masking of section 5.3, control frames of section 5.5, and the unmasked single-frame
 * TEXT messages the server sends. A frame is the sequence of bytes written into the
 * buffer before it is flipped for reading.
 */
module RFC6455 {
  import opened Wrappers
  import opened Bytes

  const DataMaskSize: nat := 4
  const LengthMask: nat := 127      // (1 << 7) - 1
  const IsMaskedMask: nat := 128    // 1 << 7, in the second byte
  const OpCodeMask: nat := 15       // (1 << 4) - 1
  const RsvBits: nat := 3
  const FirstRsvPos: nat := 6
  const FinMask: nat := 128         // 1 << 7, in the first byte
  /** The capacity of the buffer encodeText allocates. */
  const BufferCapacity: nat := 4096

  /** The opcode enum nested in the codec class; RESERVED (value 0xFF) stands for every other opcode. */
  datatype OpCode = Continuation | Text | Binary | Close | Ping | Pong | Reserved

  /** ALL, in declaration order. */
  const All: seq<OpCode> := [Continuation, Text, Binary, Close, Ping, Pong, Reserved]

  function Value(op: OpCode): Byte
  {
    match op
    case Continuation => 0x0
    case Text => 0x1
    case Binary => 0x2
    case Close => 0x8
    case Ping => 0x9
    case Pong => 0xA
    case Reserved => 0xFF
  }

  /** The first of `ops` whose value is `value` (a stream filter followed by findFirst). */
  function FirstWithValue(ops: seq<OpCode>, value: int): (r: Option<OpCode>)
    ensures r.Some? ==> r.value in ops && Value(r.value) == value
    ensures r.None? <==> forall op :: op in ops ==> Value(op) != value
  {
    if ops == [] then None
    else if Value(ops[0]) == value then Some(ops[0])
    else FirstWithValue(ops[1..], value)
  }

  /** OpCode.fromValue: the constant with that value, or RESERVED when there is none. */
  function FromValue(value: int): (op: OpCode)
    ensures op != Reserved ==> Value(op) == value
    ensures op == Reserved <==> value !in {0x0, 0x1, 0x2, 0x8, 0x9, 0xA}
  {
    var r := FirstWithValue(All, value);
    assert r.None? ==> value !in {0x0, 0x1, 0x2, 0x8, 0x9, 0xA} by {
      assert Value(All[0]) == 0x0 && Value(All[1]) == 0x1 && Value(All[2]) == 0x2;
      assert Value(All[3]) == 0x8 && Value(All[4]) == 0x9 && Value(All[5]) == 0xA;
    }
    r.GetOr(Reserved)
  }

  /** Looking up a named opcode's own value gives it back. */
  lemma FromValueOfValue(op: OpCode)
    requires op != Reserved
    ensures FromValue(Value(op)) == op
  {
    var found := FromValue(Value(op));
    assert found != Reserved;
    assert Value(found) == Value(op);
  }

  /** The exceptions the codec can raise; any of them aborts the operation. */
  datatype BufferError =
    | IndexOutOfBounds   // absolute get past the limit, or a slice past it
    | BufferUnderflow    // relative get past the limit
    | BufferOverflow     // put past the capacity
    | ReadOnlyBuffer     // array() of a read-only buffer

  /** The PayloadData record: the frame and the fields read from it. */
  datatype PayloadData = PayloadData(
    payload: seq<Byte>,
    isFinal: bool,
    rsv: seq<int>,
    opCode: OpCode,
    isMasked: bool,
    length: int,
    mask: Option<seq<Byte>>,
    data: seq<Byte>)

  // ---- header fields (section 5.2 of RFC 6455) ----

  /** readIsFinal: bit 7 of the first byte, `(b & 0x80) >> 7 == 1`. */
  function IsFinal(firstByte: Byte): bool
  {
    firstByte / FinMask == 1
  }

  /** readOpCodeBits: the low nibble of the first byte. */
  function OpCodeBits(firstByte: Byte): (bits: nat)
    ensures bits < 16
  {
    firstByte % (OpCodeMask + 1)
  }

  /** readOpCode. */
  function ReadOpCode(firstByte: Byte): OpCode
  {
    FromValue(OpCodeBits(firstByte))
  }

  /** Entry i of readRSVBits: bit 6 - i of the first byte, `(b & (1 << s)) >> s`. */
  function RsvBit(firstByte: Byte, i: nat): (bit: nat)
    requires i < RsvBits
    ensures bit < 2
  {
    (firstByte / Pow2(FirstRsvPos - i)) % 2
  }

  function RsvBitsOf(firstByte: Byte): (rsv: seq<int>)
  {
    [RsvBit(firstByte, 0), RsvBit(firstByte, 1), RsvBit(firstByte, 2)]
  }

  /** readRSVBits: fills an array of three bits, RSV1 first. */
  method ReadRSVBits(firstByte: Byte) returns (rsv: seq<int>)
    ensures rsv == RsvBitsOf(firstByte)
  {
    var bits := new int[RsvBits];
    for i := 0 to bits.Length
      invariant forall j :: 0 <= j < i ==> bits[j] == RsvBit(firstByte, j)
    {
      var shift := FirstRsvPos - i;
      bits[i] := (firstByte / Pow2(shift)) % 2;
    }
    rsv := bits[..];
  }

  /** The first byte is exactly FIN, RSV1, RSV2, RSV3 and the opcode nibble, from the top bit down. */
  lemma FirstByteFields(firstByte: Byte)
    ensures firstByte == (if IsFinal(firstByte) then 128 else 0) + 64 * RsvBit(firstByte, 0)
      + 32 * RsvBit(firstByte, 1) + 16 * RsvBit(firstByte, 2) + OpCodeBits(firstByte)
  {
    assert Pow2(4) == 16 && Pow2(5) == 32 && Pow2(6) == 64;
  }

  /** readIsMasked: bit 7 of the second byte. */
  function IsMasked(secondByte: Byte): bool
  {
    secondByte / IsMaskedMask == 1
  }

  /** The low seven bits of the second byte, `b & LENGTH_MASK`. */
  function LengthBits(secondByte: Byte): (len: nat)
    ensures len == secondByte % (LengthMask + 1) && len <= LengthMask
  {
    if secondByte > LengthMask then secondByte - (LengthMask + 1) else secondByte
  }

  /** How many extended-length bytes follow the second byte: 8 for 127, 2 for 126, none otherwise. */
  function ExtendedLengthSize(secondByte: Byte): nat
  {
    var len := LengthBits(secondByte);
    if len == 127 then 8 else if len == 126 then 2 else 0
  }

  /**
   * readLength: the 7-bit length, or for 126 the next two bytes unsigned, or for 127 the
   * next eight bytes cast to int.
   */
  function ReadLength(secondByte: Byte, extended: seq<Byte>): (length: int)
    requires |extended| == ExtendedLengthSize(secondByte)
    ensures ExtendedLengthSize(secondByte) == 0 ==> 0 <= length <= 125
    ensures ExtendedLengthSize(secondByte) == 2 ==> 0 <= length < 65536
  {
    var len := LengthBits(secondByte);
    if len == 127 then TruncatedLong(extended)
    else if len == 126 then UnsignedShort(extended)
    else len
  }

  /** What parsePayload builds: every field consistent with the frame it came from. */
  predicate Consistent(p: PayloadData)
  {
    && |p.rsv| == RsvBits
    && (p.isMasked <==> p.mask.Some?)
    && (p.mask.Some? ==> |p.mask.value| == DataMaskSize)
    && 0 <= p.length == |p.data|
  }

  /**
   * parsePayload, by offsets: two header bytes, the extended length, the mask key when
   * MASK is set, then `length` data bytes. Any read past the end throws.
   */
  function Parse(frame: seq<Byte>): (r: Result<PayloadData, BufferError>)
    ensures r.Success? ==> Consistent(r.value) && r.value.payload == frame
  {
    if |frame| < 2 then Failure(BufferError.IndexOutOfBounds)
    else
      var maskStart := 2 + ExtendedLengthSize(frame[1]);
      if |frame| < maskStart then Failure(BufferUnderflow)
      else
        var length := ReadLength(frame[1], frame[2..maskStart]);
        var masked := IsMasked(frame[1]);
        var dataStart := maskStart + (if masked then DataMaskSize else 0);
        if |frame| < dataStart then Failure(BufferUnderflow)
        else if length < 0 || dataStart + length > |frame| then Failure(BufferError.IndexOutOfBounds)
        else Success(PayloadData(
          frame, IsFinal(frame[0]), RsvBitsOf(frame[0]), ReadOpCode(frame[0]), masked, length,
          if masked then Some(frame[maskStart..dataStart]) else None,
          frame[dataStart..dataStart + length]))
  }

  /**
   * readLength: the seven length bits of the second byte, or the extended length that
   * follows it; reading past the end of the frame underflows.
   */
  method ReadPayloadLength(frame: seq<Byte>) returns (r: Result<int, BufferError>)
    requires |frame| >= 2
    ensures r.Success? <==> |frame| >= 2 + ExtendedLengthSize(frame[1])
    ensures r.Success? ==> r.value == ReadLength(frame[1], frame[2..2 + ExtendedLengthSize(frame[1])])
    ensures r.Failure? ==> r.error == BufferUnderflow
  {
    var length := LengthBits(frame[1]);
    var position := 2;
    if length == 127 {
      if |frame| < position + 8 {
        return Failure(BufferUnderflow);
      }
      length := TruncatedLong(frame[position..position + 8]);
    } else if length == 126 {
      if |frame| < position + 2 {
        return Failure(BufferUnderflow);
      }
      length := UnsignedShort(frame[position..position + 2]);
    }
    return Success(length);
  }

  /** parsePayload, reading the flipped buffer front to back with a cursor. */
  method ParsePayload(frame: seq<Byte>) returns (r: Result<PayloadData, BufferError>)
    ensures r == Parse(frame)
  {
    if |frame| < 2 {
      return Failure(BufferError.IndexOutOfBounds);   // get(0) or get(1) past the limit
    }
    var isFinal := IsFinal(frame[0]);
    var rsv := ReadRSVBits(frame[0]);
    var opCode := ReadOpCode(frame[0]);
    var isMasked := IsMasked(frame[1]);
    var read := ReadPayloadLength(frame);
    if read.Failure? {
      return Failure(read.error);
    }
    var position := 2 + ExtendedLengthSize(frame[1]);
    var length := read.value;
    var mask: Option<seq<Byte>> := None;
    if isMasked {
      if |frame| < position + DataMaskSize {
        return Failure(BufferUnderflow);
      }
      mask := Some(frame[position..position + DataMaskSize]);
      position := position + DataMaskSize;
    }
    if length < 0 || position + length > |frame| {
      return Failure(BufferError.IndexOutOfBounds);   // slice(position, length)
    }
    var data := frame[position..position + length];
    r := Success(PayloadData(frame, isFinal, rsv, opCode, isMasked, length, mask, data));
  }

  // ---- masking (section 5.3 of RFC 6455) ----

  /** Byte i of the data XORed with byte i mod 4 of the key. */
  function Unmask(data: seq<Byte>, key: seq<Byte>): (r: seq<Byte>)
    requires |key| == DataMaskSize
    ensures |r| == |data|
  {
    seq(|data|, i requires 0 <= i < |data| => Xor(data[i], key[i % DataMaskSize]))
  }

  /** Masking is its own inverse: applying the same key twice restores the data. */
  lemma UnmaskInvolutive(data: seq<Byte>, key: seq<Byte>)
    requires |key| == DataMaskSize
    ensures Unmask(Unmask(data, key), key) == data
  {
    forall i | 0 <= i < |data|
      ensures Unmask(Unmask(data, key), key)[i] == data[i]
    {
      XorInvolutive(data[i], key[i % DataMaskSize]);
    }
  }

  /**
   * decodeText: unmasks the data byte by byte into a fresh array. An unmasked payload
   * reaches `array()` on the read-only data buffer, which throws.
   */
  method DecodeText(p: PayloadData) returns (r: Result<seq<Byte>, BufferError>)
    requires Consistent(p)
    ensures !p.isMasked ==> r == Failure(ReadOnlyBuffer)
    ensures p.isMasked ==> r == Success(Unmask(p.data, p.mask.value))
  {
    if p.isMasked {
      var dataBytes := new Byte[p.length];
      var mask := p.mask.value;
      var position := 0;   // the read cursor of the data buffer
      for i := 0 to dataBytes.Length
        invariant position == i
        invariant forall j :: 0 <= j < i ==> dataBytes[j] == Xor(p.data[j], mask[j % DataMaskSize])
      {
        dataBytes[i] := Xor(p.data[position], mask[i % DataMaskSize]);
        position := position + 1;
      }
      // data.position(0) rewinds the shared data buffer, so a second decode reads the same bytes.
      assert dataBytes[..] == Unmask(p.data, mask);
      return Success(dataBytes[..]);
    }
    r := Failure(ReadOnlyBuffer);
  }

  // ---- encoding ----

  /** `(byte) (1 << 7 | value)`. */
  function WithFin(value: Byte): (b: Byte)
    ensures IsFinal(b) && OpCodeBits(b) == value % 16
  {
    FinMask + value % FinMask
  }

  /** encodeControlFrame: FIN and the opcode, then a second byte with no MASK and length 0. */
  function ControlFrame(op: OpCode): (frame: seq<Byte>)
    ensures |frame| == 2
  {
    [WithFin(Value(op)), 0]
  }

  const PING: seq<Byte> := ControlFrame(Ping)
  const PONG: seq<Byte> := ControlFrame(Pong)

  /** An unmasked frame whose header is `h` parses to its fields, with the rest of the frame as data. */
  lemma ParseUnmasked(frame: seq<Byte>, headerSize: nat)
    requires |frame| >= 2 && !IsMasked(frame[1]) && headerSize == 2 + ExtendedLengthSize(frame[1])
    requires |frame| >= headerSize && ReadLength(frame[1], frame[2..headerSize]) == |frame| - headerSize
    ensures Parse(frame) == Success(PayloadData(frame, IsFinal(frame[0]), RsvBitsOf(frame[0]),
      ReadOpCode(frame[0]), false, |frame| - headerSize, None, frame[headerSize..]))
  {
    assert frame[headerSize..headerSize + (|frame| - headerSize)] == frame[headerSize..];
  }

  /** PING and PONG are the two-byte frames 0x89 0x00 and 0x8A 0x00, and parse as empty final control frames. */
  lemma PingPongFrames()
    ensures PING == [0x89, 0x00] && PONG == [0x8A, 0x00]
    ensures Parse(PING) == Success(PayloadData(PING, true, [0, 0, 0], Ping, false, 0, None, []))
    ensures Parse(PONG) == Success(PayloadData(PONG, true, [0, 0, 0], Pong, false, 0, None, []))
  {
    assert WithFin(Value(Ping)) == 0x89 && WithFin(Value(Pong)) == 0x8A;
    ControlFrameParses(Ping);
    ControlFrameParses(Pong);
  }

  /** A first byte with FIN set, RSV clear and opcode nibble `v` reads back as exactly those fields. */
  lemma FinalHeaderFields(v: nat)
    requires v < 16
    ensures IsFinal(128 + v) && RsvBitsOf(128 + v) == [0, 0, 0] && OpCodeBits(128 + v) == v
  {
    assert Pow2(4) == 16 && Pow2(5) == 32 && Pow2(6) == 64;
    assert RsvBit(128 + v, 0) == 0 && RsvBit(128 + v, 1) == 0 && RsvBit(128 + v, 2) == 0;
  }

  /** A control frame is final, has clear RSV bits, no mask and an empty payload. */
  lemma ControlFrameParses(op: OpCode)
    requires op in {Close, Ping, Pong}
    ensures Parse(ControlFrame(op)) == Success(PayloadData(ControlFrame(op), true, [0, 0, 0], op, false, 0, None, []))
  {
    var frame := ControlFrame(op);
    assert frame == [128 + Value(op), 0];
    FinalEmptyFrameParses(frame, Value(op));
    FromValueOfValue(op);
  }

  /** The two bytes FIN with opcode nibble `v`, then no MASK and length 0, parse as an empty final frame. */
  lemma FinalEmptyFrameParses(frame: seq<Byte>, v: nat)
    requires v < 16 && frame == [128 + v, 0]
    ensures Parse(frame) == Success(PayloadData(frame, true, [0, 0, 0], FromValue(v), false, 0, None, []))
  {
    FinalHeaderFields(v);
    assert ReadOpCode(frame[0]) == FromValue(v);
    assert ExtendedLengthSize(frame[1]) == 0 && ReadLength(frame[1], []) == 0;
    ParseUnmasked(frame, 2);
  }

  /**
   * encodeLength: one byte for up to 125, else 126 and a 16-bit length up to
   * Short.MAX_VALUE, else 127 and a 64-bit length.
   */
  function EncodeLength(length: nat): (r: seq<Byte>)
    ensures |r| >= 1 && |r| == 1 + ExtendedLengthSize(r[0]) && !IsMasked(r[0])
  {
    if length <= 125 then [length]
    else if length <= 32767 then [126] + BigEndian(length, 2)
    else [127] + BigEndian(length, 8)
  }

  /**
   * readLength inverts encodeLength for every length a Java string can have, and the
   * MASK bit of the length byte stays clear.
   */
  lemma EncodeLengthRoundTrip(length: nat)
    requires length < 0x8000_0000
    ensures ReadLength(EncodeLength(length)[0], EncodeLength(length)[1..]) == length
  {
    Pow256Values();
    var r := EncodeLength(length);
    if 125 < length <= 32767 {
      FromBigEndianOfBigEndian(length, 2);
      assert r[1..] == BigEndian(length, 2);
    } else if length > 32767 {
      FromBigEndianOfBigEndian(length, 8);
      assert r[1..] == BigEndian(length, 8);
    }
  }

  /** The frame encodeText writes: FIN + TEXT, the length header, then the message bytes. */
  function TextFrame(message: seq<Byte>): seq<Byte>
  {
    [WithFin(Value(Text))] + EncodeLength(|message|) + message
  }

  /**
   * encodeText: successive puts into a 4096-byte buffer, then flip; a put past the
   * capacity throws BufferOverflowException. Messages are ASCII text, one byte per character.
   */
  method EncodeText(message: seq<Byte>) returns (r: Result<seq<Byte>, BufferError>)
    ensures |TextFrame(message)| <= BufferCapacity ==> r == Success(TextFrame(message))
    ensures |TextFrame(message)| > BufferCapacity ==> r == Failure(BufferOverflow)
  {
    var buffer := new Byte[BufferCapacity];
    var position := 0;
    buffer[position] := WithFin(Value(Text));
    position := position + 1;
    var header := EncodeLength(|message|);
    forall i | 0 <= i < |header| {
      buffer[position + i] := header[i];
    }
    position := position + |header|;
    if position + |message| > buffer.Length {
      return Failure(BufferOverflow);
    }
    forall i | 0 <= i < |message| {
      buffer[position + i] := message[i];
    }
    position := position + |message|;
    assert buffer[..position] == TextFrame(message);
    r := Success(buffer[..position]);
  }

  /**
   * Every frame encodeText produces parses back, with parsePayload, as one final unmasked
   * TEXT frame whose data is the message.
   */
  lemma TextFrameRoundTrip(message: seq<Byte>)
    requires |message| < 0x8000_0000
    ensures Parse(TextFrame(message))
      == Success(PayloadData(TextFrame(message), true, [0, 0, 0], Text, false, |message|, None, message))
  {
    var frame := TextFrame(message);
    var header := EncodeLength(|message|);
    var headerSize := 1 + |header|;
    assert frame[0] == 128 + 1;
    FinalHeaderFields(1);
    FromValueOfValue(Text);
    assert frame[1] == header[0];
    assert frame[2..headerSize] == header[1..];
    EncodeLengthRoundTrip(|message|);
    assert frame[headerSize..] == message;
    ParseUnmasked(frame, headerSize);
  }

  /**
   * The length form encodeLength picks: the 7-bit form up to 125, the 16-bit form up to
   * 32767 and the 64-bit form from 32768 on, although section 5.2 of RFC 6455 allows the
   * 16-bit form up to 65535. Frames that fit the 4096-byte buffer never reach the 64-bit form.
   */
  lemma EncodeLengthForms(length: nat)
    ensures |EncodeLength(length)| == (if length <= 125 then 1 else if length <= 32767 then 3 else 9)
    ensures 1 + |EncodeLength(length)| + length <= BufferCapacity ==> |EncodeLength(length)| <= 3
  {
  }

  /** A client TEXT frame: FIN + TEXT, the length with MASK set, the key, then the masked message. */
  function MaskedTextFrame(message: seq<Byte>, key: seq<Byte>): seq<Byte>
    requires |key| == DataMaskSize
  {
    var header := EncodeLength(|message|);
    [WithFin(Value(Text)), IsMaskedMask + header[0]] + header[1..] + key + Unmask(message, key)
  }

  /**
   * A frame that parses has its length, key and data where its header says: the length
   * field after the two header bytes, the key after it when the mask bit is set, then the data.
   */
  lemma ParseFields(frame: seq<Byte>)
    requires Parse(frame).Success?
    ensures var maskStart := 2 + ExtendedLengthSize(frame[1]);
      var p := Parse(frame).value;
      var dataStart := maskStart + (if p.isMasked then DataMaskSize else 0);
      && p.isMasked == IsMasked(frame[1])
      && dataStart + p.length <= |frame|
      && p.length == ReadLength(frame[1], frame[2..maskStart])
      && p.mask == (if p.isMasked then Some(frame[maskStart..dataStart]) else None)
      && p.data == frame[dataStart..dataStart + p.length]
  {
  }

  /** A masked frame whose length field counts exactly the bytes after the key parses to its key and those bytes. */
  lemma ParseMasked(frame: seq<Byte>, maskStart: nat)
    requires |frame| >= 2 && IsMasked(frame[1]) && maskStart == 2 + ExtendedLengthSize(frame[1])
    requires |frame| >= maskStart + DataMaskSize
    requires ReadLength(frame[1], frame[2..maskStart]) == |frame| - maskStart - DataMaskSize
    ensures Parse(frame) == Success(PayloadData(frame, IsFinal(frame[0]), RsvBitsOf(frame[0]),
      ReadOpCode(frame[0]), true, |frame| - maskStart - DataMaskSize,
      Some(frame[maskStart..maskStart + DataMaskSize]), frame[maskStart + DataMaskSize..]))
  {
    var dataStart := maskStart + DataMaskSize;
    assert frame[dataStart..dataStart + (|frame| - dataStart)] == frame[dataStart..];
  }

  /**
   * A masked client frame parses to a masked final TEXT payload carrying the key, and
   * unmasking its data, as decodeText does, gives back the message.
   */
  lemma MaskedTextFrameRoundTrip(message: seq<Byte>, key: seq<Byte>)
    requires |message| < 0x8000_0000 && |key| == DataMaskSize
    ensures Parse(MaskedTextFrame(message, key))
      == Success(PayloadData(MaskedTextFrame(message, key), true, [0, 0, 0], Text, true, |message|,
           Some(key), Unmask(message, key)))
    ensures Unmask(Unmask(message, key), key) == message
  {
    var frame := MaskedTextFrame(message, key);
    var header := EncodeLength(|message|);
    var maskStart := 1 + |header|;
    assert frame[0] == 128 + 1;
    FinalHeaderFields(1);
    FromValueOfValue(Text);
    assert frame[1] == 128 + header[0];
    assert ExtendedLengthSize(frame[1]) == ExtendedLengthSize(header[0]);
    assert frame[2..maskStart] == header[1..];
    EncodeLengthRoundTrip(|message|);
    assert ReadLength(frame[1], frame[2..maskStart]) == ReadLength(header[0], header[1..]);
    assert frame[maskStart..maskStart + DataMaskSize] == key;
    assert frame[maskStart + DataMaskSize..] == Unmask(message, key);
    ParseMasked(frame, maskStart);
    UnmaskInvolutive(message, key);
  }
}
