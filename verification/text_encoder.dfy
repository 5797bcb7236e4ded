/**
 * The second draft of the server's TEXT frame encoder: the same frame as the RFC 6455
 * codec's encodeText, built by successive puts into a 4096-byte buffer. Its length header
 * is written through a second, smaller buffer (putShort for the 16-bit form, putLong for
 * the 64-bit form).
 */
module TextEncoder {
  import opened Wrappers
  import opened Bytes
  import RFC6455

  const BufferCapacity: nat := 4096

  /**
   * encodeLength: the length itself when it is at most Byte.MAX_VALUE - 2, else 126 and a
   * putShort, else 127 and a putLong. Agrees byte for byte with the RFC 6455 codec's.
   */
  method EncodeLength(length: nat) returns (r: seq<Byte>)
    ensures r == RFC6455.EncodeLength(length)
    ensures |r| in {1, 3, 9} && !RFC6455.IsMasked(r[0])
  {
    if length <= 127 - 2 {
      return [length];
    }
    var buffer: array<Byte>;
    if length <= 32767 {
      buffer := new Byte[2 + 1];
      buffer[0] := 126;
      var short := BigEndian(length, 2);    // putShort((short) length)
      buffer[1], buffer[2] := short[0], short[1];
    } else {
      buffer := new Byte[8 + 1];
      buffer[0] := 127;
      var long := BigEndian(length, 8);     // putLong(length)
      forall i | 0 <= i < 8 {
        buffer[1 + i] := long[i];
      }
    }
    r := buffer[..];
    assert r == [r[0]] + r[1..];
  }

  /**
   * encodeToPayload: the byte FIN + TEXT, the length header, then the message bytes;
   * a put past the buffer's capacity throws BufferOverflowException. The frame is the
   * one the RFC 6455 codec's encodeText produces for the same message.
   */
  method EncodeToPayload(message: seq<Byte>) returns (r: Result<seq<Byte>, RFC6455.BufferError>)
    ensures |RFC6455.TextFrame(message)| <= BufferCapacity ==> r == Success(RFC6455.TextFrame(message))
    ensures |RFC6455.TextFrame(message)| > BufferCapacity ==> r == Failure(RFC6455.BufferOverflow)
    ensures r.Success? ==> r.value[0] == 0x81 && !RFC6455.IsMasked(r.value[1])
  {
    var buffer := new Byte[BufferCapacity];
    var position := 0;
    buffer[position] := RFC6455.FinMask + RFC6455.Value(RFC6455.Text);
    position := position + 1;
    var header := EncodeLength(|message|);
    forall i | 0 <= i < |header| {
      buffer[position + i] := header[i];
    }
    position := position + |header|;
    if position + |message| > buffer.Length {
      return Failure(RFC6455.BufferOverflow);
    }
    forall i | 0 <= i < |message| {
      buffer[position + i] := message[i];
    }
    position := position + |message|;
    assert buffer[..position] == RFC6455.TextFrame(message);
    r := Success(buffer[..position]);
  }
}
