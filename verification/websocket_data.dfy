/**
 * The first draft of the frame decoder: a frame object that keeps the flipped buffer and
 * its read position. Unlike the RFC 6455 codec, it reads the 16-bit extended length as a
 * signed short, reads the length relative to the current position, and checks the opcode
 * and the MASK bit before decoding. Its nested opcode enum has the same constants as the
 * codec's (RESERVED included), so the model shares that datatype.
 */
module WebSocketDataCodec {
  import opened Wrappers
  import opened Bytes
  import RFC6455

  type OpCode = RFC6455.OpCode

  const FirstDataByteIndex: nat := 2
  const DataMaskSize: nat := 4

  /** The nested OpCode.fromValue: a switch with RESERVED as its default. */
  function FromValue(value: int): (op: OpCode)
    ensures op == RFC6455.FromValue(value)
  {
    if value == 0x0 then RFC6455.Continuation
    else if value == 0x1 then RFC6455.Text
    else if value == 0x2 then RFC6455.Binary
    else if value == 0x8 then RFC6455.Close
    else if value == 0x9 then RFC6455.Ping
    else if value == 0xA then RFC6455.Pong
    else RFC6455.Reserved
  }

  /** How decodeText fails: its two IllegalStateExceptions, and the exceptions its reads raise. */
  datatype Failure =
    | NotATextFrame        // IllegalStateException("Not a TEXT frame")
    | MaskBitNotSet        // IllegalStateException("Mask bit not set")
    | BufferUnderflow      // a relative get past the limit
    | NegativeArraySize    // new byte[getLength()] with a negative length

  /**
   * getLength's value once its extended bytes are read: the 7-bit length, or for 126 a
   * signed short, or for 127 a long cast to int.
   */
  function SignedLength(secondByte: Byte, extended: seq<Byte>): (length: int)
    requires |extended| == RFC6455.ExtendedLengthSize(secondByte)
    ensures RFC6455.ExtendedLengthSize(secondByte) != 2 ==> length == RFC6455.ReadLength(secondByte, extended)
    ensures RFC6455.ExtendedLengthSize(secondByte) == 2 ==>
      length == (if RFC6455.ReadLength(secondByte, extended) < 32768 then RFC6455.ReadLength(secondByte, extended)
                 else RFC6455.ReadLength(secondByte, extended) - 65536)
  {
    var len := RFC6455.LengthBits(secondByte);
    if len == 127 then TruncatedLong(extended)
    else if len == 126 then SignedShort(extended)
    else len
  }

  /**
   * What decodeText does to a frame read from position `position`: its result and the
   * position it leaves. The checks come first; then the length is read at the position,
   * the key after it, and the data after the key; a success rewinds to the first data
   * byte index, and each exception leaves the position where that read left it.
   */
  function Decode(frame: seq<Byte>, position: nat): (r: (Result<seq<Byte>, Failure>, nat))
    requires 2 <= |frame| && position <= |frame|
    ensures r.1 <= |frame|
    ensures r.0.Success? ==> r.1 == FirstDataByteIndex
  {
    var ext := RFC6455.ExtendedLengthSize(frame[1]);
    if FromValue(RFC6455.OpCodeBits(frame[0])) != RFC6455.Text then (Failure(NotATextFrame), position)
    else if !RFC6455.IsMasked(frame[1]) then (Failure(MaskBitNotSet), position)
    else if position + ext > |frame| then (Failure(BufferUnderflow), position)
    else
      var length := SignedLength(frame[1], frame[position..position + ext]);
      if length < 0 then (Failure(NegativeArraySize), position + ext)
      else Unmasked(frame, position + ext, length)
  }

  /** The rest of decodeText once the length is known: read the key at `keyStart`, then `length` masked bytes. */
  function Unmasked(frame: seq<Byte>, keyStart: nat, length: nat): (r: (Result<seq<Byte>, Failure>, nat))
    requires keyStart <= |frame|
    ensures r.1 <= |frame|
    ensures r.0.Success? ==> r.1 == FirstDataByteIndex && |r.0.value| == length
  {
    if keyStart + DataMaskSize > |frame| then (Failure(BufferUnderflow), keyStart)
    else
      var dataStart := keyStart + DataMaskSize;
      if dataStart + length > |frame| then (Failure(BufferUnderflow), |frame|)
      else
        var key := frame[keyStart..dataStart];
        (Success(RFC6455.Unmask(frame[dataStart..dataStart + length], key)), FirstDataByteIndex)
  }

  class WebSocketData {
    /** The bytes between 0 and the limit of the flipped buffer. */
    const frame: seq<Byte>
    const firstByte: Byte
    const secondByte: Byte
    /** The read position of the buffer. */
    var position: nat

    ghost predicate Valid()
      reads this
    {
      && 2 <= |frame|
      && firstByte == frame[0] && secondByte == frame[1]
      && position <= |frame|
    }

    /** The constructor: reads the two header bytes, which leaves the position at 2. */
    constructor (frame: seq<Byte>)
      requires 2 <= |frame|
      ensures Valid()
      ensures this.frame == frame && position == FirstDataByteIndex
    {
      this.frame := frame;
      firstByte := frame[0];
      secondByte := frame[1];
      position := 2;
    }

    /** isMasked: bit 7 of the second byte. */
    function IsMasked(): (masked: bool)
      ensures masked <==> secondByte >= 128
    {
      (secondByte / 128) % 2 == 1
    }

    /** getOpCodeBits: the low nibble of the first byte. */
    function OpCodeBits(): (bits: nat)
      ensures bits < 16 && (firstByte - bits) % 16 == 0
    {
      firstByte % 16
    }

    /** getOpCode. */
    function GetOpCode(): (op: OpCode)
      ensures op == RFC6455.ReadOpCode(firstByte)
    {
      FromValue(OpCodeBits())
    }

    /** getFinBit: bit 7 of the first byte, as 0 or 1. */
    function FinBit(): (bit: nat)
      ensures bit == (if RFC6455.IsFinal(firstByte) then 1 else 0)
    {
      (firstByte / 128) % 2
    }

    /** getRSVBits: bits 6, 5 and 4 of the first byte, shifting each down to bit 0. */
    method GetRSVBits() returns (rsv: seq<int>)
      ensures rsv == RFC6455.RsvBitsOf(firstByte)
    {
      var bits := new int[3];
      for i := 0 to 3
        invariant forall j :: 0 <= j < i ==> bits[j] == RFC6455.RsvBit(firstByte, j)
      {
        var shift := 8 - 2 - i;
        bits[i] := (firstByte / Pow2(shift)) % 2;
      }
      rsv := bits[..];
    }

    /** getLength: reads the extended length at the current position and advances past it. */
    method GetLength() returns (r: Result<int, Failure>)
      requires Valid()
      modifies this
      ensures Valid()
      ensures var ext := RFC6455.ExtendedLengthSize(secondByte);
        if old(position) + ext > |frame| then r == Failure(BufferUnderflow) && position == old(position)
        else (r == Success(SignedLength(secondByte, frame[old(position)..old(position) + ext]))
          && position == old(position) + ext)
    {
      var length := secondByte % 128;
      if length == 127 {
        if position + 8 > |frame| {
          return Failure(BufferUnderflow);
        }
        length := TruncatedLong(frame[position..position + 8]);
        position := position + 8;
      } else if length == 126 {
        if position + 2 > |frame| {
          return Failure(BufferUnderflow);
        }
        length := SignedShort(frame[position..position + 2]);
        position := position + 2;
      }
      r := Success(length);
    }

    /**
     * decodeText. The check `limit <= 0` that returns "" cannot succeed on a frame that
     * has its two header bytes, so it is not modelled.
     */
    method DecodeText() returns (r: Result<seq<Byte>, Failure>)
      requires Valid()
      modifies this
      ensures Valid()
      ensures (r, position) == Decode(frame, old(position))
    {
      if GetOpCode() != RFC6455.Text {
        return Failure(NotATextFrame);
      }
      if !IsMasked() {
        return Failure(MaskBitNotSet);
      }
      var start := position;
      var length := GetLength();
      if length.Failure? {
        return Failure(length.error);
      }
      ghost var ext := RFC6455.ExtendedLengthSize(frame[1]);
      assert position == start + ext && length.value == SignedLength(frame[1], frame[start..start + ext]);
      if length.value < 0 {
        return Failure(NegativeArraySize);
      }
      r := UnmaskData(length.value);
    }

    /**
     * The second half of decodeText: reads the key at the position, then unmasks `length`
     * data bytes one relative get at a time into a fresh array, and rewinds to the first
     * data byte index.
     */
    method UnmaskData(length: nat) returns (r: Result<seq<Byte>, Failure>)
      requires Valid()
      modifies this
      ensures Valid()
      ensures (r, position) == Unmasked(frame, old(position), length)
    {
      var dataBytes := new Byte[length];
      if position + DataMaskSize > |frame| {
        return Failure(BufferUnderflow);
      }
      var maskValue := frame[position..position + DataMaskSize];
      position := position + DataMaskSize;
      var dataStart := position;
      for i := 0 to dataBytes.Length
        invariant position == dataStart + i <= |frame|
        invariant forall j :: 0 <= j < i ==> dataBytes[j] == Xor(frame[dataStart + j], maskValue[j % DataMaskSize])
      {
        if position + 1 > |frame| {
          position := |frame|;
          return Failure(BufferUnderflow);
        }
        var data := frame[position];
        position := position + 1;
        dataBytes[i] := Xor(data, maskValue[i % DataMaskSize]);
      }
      position := FirstDataByteIndex;
      assert dataBytes[..] == RFC6455.Unmask(frame[dataStart..dataStart + length], maskValue);
      r := Success(dataBytes[..]);
    }
  }

  /**
   * new WebSocketData(buffer) on any buffer: the two header reads underflow on a frame of
   * fewer than two bytes; otherwise the frame object is built with its position at 2.
   */
  method FromBuffer(frame: seq<Byte>) returns (r: Result<WebSocketData, Failure>)
    ensures |frame| < 2 <==> r == Failure(BufferUnderflow)
    ensures r.Success? ==> fresh(r.value) && r.value.Valid()
    ensures r.Success? ==> r.value.frame == frame && r.value.position == FirstDataByteIndex
  {
    if |frame| < 2 {
      return Failure(BufferUnderflow);
    }
    var data := new WebSocketData(frame);
    return Success(data);
  }

  /** Decoding again after a success reads the same frame from the rewound position, with the same result. */
  lemma DecodeRepeatable(frame: seq<Byte>)
    requires 2 <= |frame|
    ensures Decode(frame, FirstDataByteIndex).0.Success? ==>
      Decode(frame, Decode(frame, FirstDataByteIndex).1) == Decode(frame, FirstDataByteIndex)
  {
  }

  /**
   * On a masked TEXT frame that the RFC 6455 codec parses, decoding from position 2 gives
   * the same text as the codec, unless the frame uses the 16-bit length form with a length
   * of 32768 or more.
   */
  lemma DecodeAgreesWithCodec(frame: seq<Byte>)
    requires 2 <= |frame|
    requires RFC6455.Parse(frame).Success?
    requires RFC6455.Parse(frame).value.opCode == RFC6455.Text && RFC6455.Parse(frame).value.isMasked
    requires RFC6455.ExtendedLengthSize(frame[1]) == 2 ==> RFC6455.Parse(frame).value.length < 32768
    ensures Decode(frame, FirstDataByteIndex)
      == (Success(RFC6455.Unmask(RFC6455.Parse(frame).value.data, RFC6455.Parse(frame).value.mask.value)), FirstDataByteIndex)
  {
    var p := RFC6455.Parse(frame).value;
    var ext := RFC6455.ExtendedLengthSize(frame[1]);
    var keyStart := FirstDataByteIndex + ext;
    RFC6455.ParseFields(frame);
    assert SignedLength(frame[1], frame[2..keyStart]) == p.length;
    assert Decode(frame, FirstDataByteIndex) == Unmasked(frame, keyStart, p.length);
  }

  /**
   * The signed read in action: a masked TEXT frame announcing 40000 bytes with the 16-bit
   * form is read as length -25536, so decodeText fails where the RFC 6455 codec reads 40000.
   */
  lemma SignedLengthExample(frame: seq<Byte>)
    requires |frame| >= 8 && frame[..4] == [0x81, 0xFE, 0x9C, 0x40]
    ensures RFC6455.ReadLength(frame[1], frame[2..4]) == 40000
    ensures SignedLength(frame[1], frame[2..4]) == -25536
    ensures Decode(frame, FirstDataByteIndex) == (Failure(NegativeArraySize), 4)
  {
    assert frame[2..4] == [0x9C, 0x40];
    assert FromBigEndian([0x9C]) == 0x9C;
    assert FromBigEndian([0x9C, 0x40]) == 40000;
    assert RFC6455.OpCodeBits(frame[0]) == 1;
  }
}
