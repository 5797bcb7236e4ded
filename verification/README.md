# ChaCuN game server, modelled in Dafny

This project models the server of ChaCuN, an online tile-laying game, and the game engine it
runs. Its parts follow the program:

- **WebSocket codec and handshake.**
  - `RFC6455` (rfc6455.dfy) models the frame encoder and decoder.
  - `TextEncoder` (text_encoder.dfy) and `WebSocketDataCodec` (websocket_data.dfy) model the two other drafts of that codec.
  - `OpCodes` models the opcode table.
  - `UpgradeHandshake` (handshake.dfy) models the HTTP upgrade of section 4.2.2 of RFC 6455.
  - Byte-level arithmetic (big-endian numbers, XOR masking) is in `Bytes`.
- **Routing.**
  - `Broadcaster` models the channel registry.
  - `Server` models the WebSocket server's message and close routing and the keepalive watcher.
- **Session logic.**
  - `ServerActions`, `ActionData`, `Lobbies`, `OnGoingGames` and `Sessions` model the protocol actions, the reply records, the lobbies, the running games and the game logic's lobby and game tables.
- **Action codec.**
  - `Base32` and `ActionCodec` (action_encoder.dfy) model the five-bit action alphabet.
  - They also model the encoding of each move into it and its decoding and application to a game state.
- **Game engine.**
  - `Zones`, `Geometry`, `Tiles`, `Areas`, `Points` and `Decks` model the tiles, their zones and the areas they form.
  - `Partition` and `Partitions` model the zone partitions.
  - `Board` models the board.
  - `Messages` and `TextMaker` model the message board and its French texts.
  - `Game` (game_state.dfy) models the game state and its phase transitions.

Code that computes a value is modelled by datatypes and functions. Code that updates state in
place is modelled by classes whose methods are proved to leave the state a specification
function describes:

- the lobby, the running game, the game logic's two tables, the broadcaster, the server and its watcher;
- the builders of zone partitions;
- the frame decoder's buffer position;
- the loops of the board and of the final scoring.

Java exceptions become the `Failure` side of a `Result`. `Thrown` names the exception, and an
exception that escapes the program is a distinct outcome. Java's `null` is `None`.

Some of the program's behaviour depends on things outside the code shown. These become parameters:

- **The engine.** The start state of a game is a parameter: the Java builds it by shuffling the tiles with a seed taken from the game name.
- **Hash iteration orders.**
  - The order in which a Java hash map lists its colours is a sequence the caller supplies.
  - The orders in which hash sets list areas, animals and occupants are the caller's too (`Game.IterationOrder`, `ActionCodec.OccupantListing`).
  - Lemmas that need it assume the order lists every element once.
- **SHA-1 and Base64.** These library functions are function parameters of the handshake.

These places where the code does not do what its comments or the protocol suggest are modelled
as written, with a lemma exhibiting each:

- `WebSocketDataCodec.SignedLengthExample`: a 16-bit length is read as a signed short, so a masked frame of 40000 bytes is refused.
- `RFC6455.EncodeLengthForms`: the 64-bit length form is used from 32768 on, not from 65536.
- `ActionCodec.IndexOrThrows`: an index equal to the list size throws an uncaught IndexOutOfBoundsException rather than rejecting the action.
- `ActionCodec.RemovalActionCollides`: the pawn at sorted index 31 cannot be told from no pawn.

Where the descriptive comments of the code and its behaviour differ, the model follows the code:

- `removePlayer` throws nothing for an absent name;
- `OpCode.fromValue` has no RESERVED fallback.

## Model

| member | source | states |
|---|---|---|
| Bytes.BigEndian | src/ch/epfl/chacun/server/rfc6455/RFC6455.java:150-155 | exactly k bytes are written, as putShort (k = 2) and putLong (k = 8) write them |
| Bytes.FromBigEndian | src/ch/epfl/chacun/server/rfc6455/RFC6455.java:246-247 | the unsigned value read from k bytes stays below 256^k |
| Bytes.FromBigEndianOfBigEndian | src/ch/epfl/chacun/server/rfc6455/RFC6455.java:150-155 | reading back the bytes written for a value that fits in k bytes gives the value |
| Bytes.BigEndianOfFromBigEndian | src/ch/epfl/chacun/server/rfc6455/RFC6455.java:246-247 | writing back the value read from k bytes reproduces those bytes |
| Bytes.SignedShort | src/ch/epfl/chacun/server/WebSocketData.java:131 | getShort gives a value in [-32768, 32768) equal to the unsigned value or that value minus 65536 |
| Bytes.UnsignedShort | src/ch/epfl/chacun/server/rfc6455/RFC6455.java:247 | Short.toUnsignedInt(getShort()) is below 65536 and agrees with the signed read modulo 65536 |
| Bytes.TruncatedLong | src/ch/epfl/chacun/server/rfc6455/RFC6455.java:246 | (int) getLong() is a Java int congruent to the 64-bit unsigned value modulo 2^32 |
| Bytes.XorInvolutive | src/ch/epfl/chacun/server/rfc6455/RFC6455.java:62 | XOR with the same mask byte twice is the identity |
| OpCodes.AsNumber | src/ch/epfl/chacun/server/rfc6455/OpCode.java:12-71 | every constant's number is one of 0x0, 0x1, 0x2, 0x8, 0x9, 0xA |
| OpCodes.FirstWithCode | src/ch/epfl/chacun/server/rfc6455/OpCode.java:61-63 | the stream filter plus findFirst: a found constant is listed and has the code; none found iff no listed constant has it |
| OpCodes.FromValue | src/ch/epfl/chacun/server/rfc6455/OpCode.java:61-63 | a found constant has the code; the lookup misses (NoSuchElementException) iff the code is not one of the six |
| OpCodes.AsNumberInjective | src/ch/epfl/chacun/server/rfc6455/OpCode.java:12-36 | distinct constants have distinct codes |
| OpCodes.FromValueOfAsNumber | src/ch/epfl/chacun/server/rfc6455/OpCode.java:61-71 | fromValue(asNumber(op)) is op for every constant |
| RFC6455.FirstWithValue | src/ch/epfl/chacun/server/rfc6455/RFC6455.java:327-329 | the stream filter plus findFirst: a found constant is listed and has the value; none found iff no listed constant has it |
| RFC6455.FromValue | src/ch/epfl/chacun/server/rfc6455/RFC6455.java:301-329 | a named constant has the value; RESERVED iff the value is not one of 0x0, 0x1, 0x2, 0x8, 0x9, 0xA |
| RFC6455.FromValueOfValue | src/ch/epfl/chacun/server/rfc6455/RFC6455.java:327-337 | every named opcode reads back from its own value |
| RFC6455.OpCodeBits | src/ch/epfl/chacun/server/rfc6455/RFC6455.java:182-184 | the opcode field is a nibble (FirstByteFields places it in the byte) |
| RFC6455.RsvBit | src/ch/epfl/chacun/server/rfc6455/RFC6455.java:214-216 | each RSV entry is a single bit (FirstByteFields places it in the byte) |
| RFC6455.ReadRSVBits | src/ch/epfl/chacun/server/rfc6455/RFC6455.java:210-219 | the loop fills the three RSV bits, RSV1 first, as RsvBitsOf defines them |
| RFC6455.FirstByteFields | src/ch/epfl/chacun/server/rfc6455/RFC6455.java:182-233 | FIN, RSV1-3 and the opcode nibble read from the first byte recompose it exactly: the four readers split the byte with nothing lost or overlapping |
| RFC6455.LengthBits | src/ch/epfl/chacun/server/rfc6455/RFC6455.java:242 | the low seven bits of the second byte, at most 127 |
| RFC6455.ReadLength | src/ch/epfl/chacun/server/rfc6455/RFC6455.java:241-252 | without extended bytes the length is 0..125; with the 16-bit form it is unsigned, 0..65535 |
| RFC6455.Parse | src/ch/epfl/chacun/server/rfc6455/RFC6455.java:78-116 | a successful parse is a consistent payload (its fields agree with each other and with the frame) that keeps the whole frame as its payload |
| RFC6455.ReadPayloadLength | src/ch/epfl/chacun/server/rfc6455/RFC6455.java:241-252 | succeeds iff the frame holds the extended length bytes, then with the length read from them; otherwise a BufferUnderflowException |
| RFC6455.ParsePayload | src/ch/epfl/chacun/server/rfc6455/RFC6455.java:78-116 | the cursor-based reading of the frame gives exactly what the offset-based Parse describes, failures included |
| RFC6455.Unmask | src/ch/epfl/chacun/server/rfc6455/RFC6455.java:59-63 | the unmasked data has the length of the data |
| RFC6455.UnmaskInvolutive | src/ch/epfl/chacun/server/rfc6455/RFC6455.java:59-63 | masking twice with the same key restores the data |
| RFC6455.DecodeText | src/ch/epfl/chacun/server/rfc6455/RFC6455.java:55-71 | a masked payload gives its data unmasked with its key; an unmasked one fails (array() on a read-only buffer) |
| RFC6455.WithFin | src/ch/epfl/chacun/server/rfc6455/RFC6455.java:44-127 | the byte has FIN set and the value's low nibble as opcode |
| RFC6455.ControlFrame | src/ch/epfl/chacun/server/rfc6455/RFC6455.java:42-48 | a control frame is two bytes long |
| RFC6455.ParseUnmasked | src/ch/epfl/chacun/server/rfc6455/RFC6455.java:78-116 | an unmasked frame whose length field counts the bytes after its header parses to its header fields with those bytes as data |
| RFC6455.PingPongFrames | src/ch/epfl/chacun/server/rfc6455/RFC6455.java:30-35 | PING is 0x89 0x00 and PONG is 0x8A 0x00, and each parses as an empty, final, unmasked control frame of its opcode |
| RFC6455.FinalHeaderFields | src/ch/epfl/chacun/server/rfc6455/RFC6455.java:182-233 | a first byte 0x80 + v reads back as FIN set, RSV clear and opcode nibble v |
| RFC6455.ControlFrameParses | src/ch/epfl/chacun/server/rfc6455/RFC6455.java:42-116 | every CLOSE, PING or PONG control frame parses back as an empty final unmasked frame of that opcode |
| RFC6455.FinalEmptyFrameParses | src/ch/epfl/chacun/server/rfc6455/RFC6455.java:78-116 | the two bytes 0x80 + v, 0 parse as an empty final frame whose opcode is fromValue(v) |
| RFC6455.EncodeLength | src/ch/epfl/chacun/server/rfc6455/RFC6455.java:143-159 | the length header has the number of extended bytes its first byte announces, and no MASK bit |
| RFC6455.EncodeLengthRoundTrip | src/ch/epfl/chacun/server/rfc6455/RFC6455.java:143-252 | readLength inverts encodeLength for every length a Java string can have |
| RFC6455.EncodeText | src/ch/epfl/chacun/server/rfc6455/RFC6455.java:124-136 | a frame that fits the 4096-byte buffer is the TEXT frame of the message; a larger one is a BufferOverflowException |
| RFC6455.TextFrameRoundTrip | src/ch/epfl/chacun/server/rfc6455/RFC6455.java:78-136 | every TEXT frame parses back as one final unmasked TEXT frame whose length and data are the message's |
| RFC6455.EncodeLengthForms | src/ch/epfl/chacun/server/rfc6455/RFC6455.java:143-159 | the header takes 1 byte up to 125, 3 bytes up to 32767 and 9 bytes from 32768 (the 64-bit form, not the minimal 16-bit one, for 32768..65535); a frame that fits the buffer never uses the 9-byte form |
| RFC6455.ParseFields | src/ch/epfl/chacun/server/rfc6455/RFC6455.java:78-116 | in a parsed frame the MASK bit, the length field, the key and the data sit where the header says, and the data lies inside the frame |
| RFC6455.ParseMasked | src/ch/epfl/chacun/server/rfc6455/RFC6455.java:78-116 | a masked frame whose length field counts the bytes after its key parses to its header fields, that key and those bytes |
| RFC6455.MaskedTextFrameRoundTrip | src/ch/epfl/chacun/server/rfc6455/RFC6455.java:55-116 | a client's masked TEXT frame parses to a masked final TEXT payload with its key, and unmasking its data gives the message back |
| TextEncoder.EncodeLength | src/ch/epfl/chacun/server/rfc6455/TextEncoder.java:31-47 | the same length header as RFC6455.encodeLength, of 1, 3 or 9 bytes without MASK bit |
| TextEncoder.EncodeToPayload | src/ch/epfl/chacun/server/rfc6455/TextEncoder.java:12-24 | the same TEXT frame as RFC6455.encodeText when it fits the buffer, a BufferOverflowException otherwise; a frame starts 0x81 with no MASK bit |
| WebSocketDataCodec.FromValue | src/ch/epfl/chacun/server/WebSocketData.java:235-245 | the switch agrees with RFC6455's OpCode.fromValue on every value |
| WebSocketDataCodec.SignedLength | src/ch/epfl/chacun/server/WebSocketData.java:126-134 | as readLength except the 16-bit form, which is read signed: a value from 32768 on comes out 65536 less |
| WebSocketDataCodec.Decode | src/ch/epfl/chacun/server/WebSocketData.java:75-101 | the position left stays inside the frame, and after a success it is back at 2 |
| WebSocketDataCodec.Unmasked | src/ch/epfl/chacun/server/WebSocketData.java:89-99 | after a success the position is back at 2 and exactly length bytes were unmasked |
| WebSocketDataCodec.WebSocketData.constructor | src/ch/epfl/chacun/server/WebSocketData.java:53-61 | the object holds the frame with its position after the two header bytes |
| WebSocketDataCodec.FromBuffer | src/ch/epfl/chacun/server/WebSocketData.java:53-61 | a buffer shorter than the two header bytes is a BufferUnderflowException; otherwise a fresh object holding the frame, its position after the two header bytes |
| WebSocketDataCodec.WebSocketData.IsMasked | src/ch/epfl/chacun/server/WebSocketData.java:147-150 | masked iff the second byte's top bit is set |
| WebSocketDataCodec.WebSocketData.OpCodeBits | src/ch/epfl/chacun/server/WebSocketData.java:173-176 | a nibble that differs from the first byte by a multiple of 16: its low four bits |
| WebSocketDataCodec.WebSocketData.GetOpCode | src/ch/epfl/chacun/server/WebSocketData.java:185-187 | the same opcode as RFC6455.readOpCode on the first byte |
| WebSocketDataCodec.WebSocketData.FinBit | src/ch/epfl/chacun/server/WebSocketData.java:218-221 | 1 iff RFC6455.readIsFinal holds of the first byte, else 0 |
| WebSocketDataCodec.WebSocketData.GetRSVBits | src/ch/epfl/chacun/server/WebSocketData.java:199-207 | the same three bits as RFC6455.readRSVBits |
| WebSocketDataCodec.WebSocketData.GetLength | src/ch/epfl/chacun/server/WebSocketData.java:126-134 | reads the extended length at the position and moves past it, giving SignedLength; a BufferUnderflowException leaves the position |
| WebSocketDataCodec.WebSocketData.DecodeText | src/ch/epfl/chacun/server/WebSocketData.java:75-101 | the result and the new position are those Decode gives for the old position |
| WebSocketDataCodec.WebSocketData.UnmaskData | src/ch/epfl/chacun/server/WebSocketData.java:89-99 | the result and the new position are those Unmasked gives for the old position |
| WebSocketDataCodec.DecodeRepeatable | src/ch/epfl/chacun/server/WebSocketData.java:96-98 | after a successful decode the buffer is rewound so that decoding again gives the same text |
| WebSocketDataCodec.DecodeAgreesWithCodec | src/ch/epfl/chacun/server/WebSocketData.java:75-134 | on a masked TEXT frame the RFC 6455 codec parses, decodeText gives the codec's unmasked text, provided a 16-bit length is below 32768 |
| WebSocketDataCodec.SignedLengthExample | src/ch/epfl/chacun/server/WebSocketData.java:126-134 | a masked TEXT frame announcing 40000 bytes in the 16-bit form is read as -25536 and decodeText fails (NegativeArraySizeException), where RFC6455 reads 40000 |
| UpgradeHandshake.IndexOf | src/ch/epfl/chacun/server/rfc6455/UpgradeHandshake.java:19-23 | the first occurrence at or after from, or none when there is none |
| UpgradeHandshake.Contains | src/ch/epfl/chacun/server/rfc6455/UpgradeHandshake.java:20-23 | true iff the part occurs somewhere |
| UpgradeHandshake.IsUpgradeRequest | src/ch/epfl/chacun/server/rfc6455/UpgradeHandshake.java:18-24 | true iff the request starts with "GET /" and contains each of the four header strings |
| UpgradeHandshake.SpaceRun | src/ch/epfl/chacun/server/rfc6455/UpgradeHandshake.java:66 | the whitespace run matched by \s* from j is maximal |
| UpgradeHandshake.LineEnd | src/ch/epfl/chacun/server/rfc6455/UpgradeHandshake.java:66 | the first line terminator at or after j, which (.*?) cannot cross |
| UpgradeHandshake.GroupAtSound | src/ch/epfl/chacun/server/rfc6455/UpgradeHandshake.java:66-75 | the group found at j is exactly a run without line terminators followed by CRLF, both ways |
| UpgradeHandshake.MatchWithSpaceFound | src/ch/epfl/chacun/server/rfc6455/UpgradeHandshake.java:66-75 | a key found with at most w whitespace characters is a match of the pattern at that position |
| UpgradeHandshake.MatchWithSpaceMissing | src/ch/epfl/chacun/server/rfc6455/UpgradeHandshake.java:66-75 | no key found with at most w whitespace characters means no match there with that many |
| UpgradeHandshake.MatchAtSound | src/ch/epfl/chacun/server/rfc6455/UpgradeHandshake.java:66-75 | a match found at a position is one the pattern matches there with the longest whitespace run (\s* is greedy), and none is found only when the pattern matches nowhere there |
| UpgradeHandshake.FindSound | src/ch/epfl/chacun/server/rfc6455/UpgradeHandshake.java:67-75 | Matcher.find from i returns the key of the leftmost match at or after i, taken with the longest whitespace run, and none only when there is no match |
| UpgradeHandshake.ExtractKeyMeaning | src/ch/epfl/chacun/server/rfc6455/UpgradeHandshake.java:66-75 | a key is found iff the pattern matches somewhere; the key found is that of the leftmost match, after the longest whitespace run |
| UpgradeHandshake.MatchedKeyRunsToLineEnd | src/ch/epfl/chacun/server/rfc6455/UpgradeHandshake.java:66-75 | the key of a match is everything from the end of the whitespace up to the first line terminator, which is a CRLF |
| UpgradeHandshake.GenerateResponse | src/ch/epfl/chacun/server/rfc6455/UpgradeHandshake.java:65-86 | fails (IllegalArgumentException) iff no key header is found |
| UpgradeHandshake.ResponseText | src/ch/epfl/chacun/server/rfc6455/UpgradeHandshake.java:42-85 | the response is the 101 status line, Upgrade and Connection headers and Sec-WebSocket-Accept with base64(sha1(key + GUID)), each line ended by CRLF, then the joined "\r\n" element, which gives the blank line |
| Base32.SymbolIsAlphabet | src/ch/epfl/chacun/game/Base32.java:19 | the 32 symbols are exactly ALPHABET, in order |
| Base32.IndexOf | src/ch/epfl/chacun/game/Base32.java:19-36 | ALPHABET.indexOf: -1 or a value below 32 whose symbol is the character |
| Base32.IndexOfIsAlphabetIndex | src/ch/epfl/chacun/game/Base32.java:35-37 | indexOf is -1 exactly for characters outside the alphabet, and otherwise the character's place in it |
| Base32.IndexOfSymbol | src/ch/epfl/chacun/game/Base32.java:19-46 | the value of the symbol of v is v: symbols and values are in one-to-one correspondence |
| Base32.Wrap | src/ch/epfl/chacun/game/Base32.java:69 | the Java int congruent to x modulo 2^32, and x itself when it already fits |
| Base32.EncodeBits5 | src/ch/epfl/chacun/game/Base32.java:45-47 | one valid symbol, whose value is the five low bits |
| Base32.EncodeBits10 | src/ch/epfl/chacun/game/Base32.java:55-57 | two valid symbols, whose values are bits 9-5 and bits 4-0 |
| Base32.Decode | src/ch/epfl/chacun/game/Base32.java:65-72 | the shifting loop computes the decoded value of a valid string; an invalid one is an IllegalArgumentException |
| Base32.Horner | src/ch/epfl/chacun/game/Base32.java:65-72 | the base-32 number of n symbols is below 32^n |
| Base32.ShortDecodeIsHorner | src/ch/epfl/chacun/game/Base32.java:65-72 | up to six symbols never overflow the int: decode is the plain base-32 number |
| Base32.DecodeOne | src/ch/epfl/chacun/game/Base32.java:65-72 | one symbol decodes to its value |
| Base32.DecodeTwo | src/ch/epfl/chacun/game/Base32.java:65-72 | two symbols decode to 32 times the first value plus the second |
| Base32.DecodeEncodeBits5 | src/ch/epfl/chacun/game/Base32.java:45-72 | decode(encodeBits5(x)) is the five low bits of x, negative x included |
| Base32.DecodeEncodeBits10 | src/ch/epfl/chacun/game/Base32.java:55-72 | decode(encodeBits10(x)) is the ten low bits of x, negative x included |
| Base32.DecodeEncodeSmall5 | src/ch/epfl/chacun/game/Base32.java:45-72 | a five-bit value survives encodeBits5 then decode |
| Base32.DecodeEncodeSmall10 | src/ch/epfl/chacun/game/Base32.java:55-72 | a ten-bit value survives encodeBits10 then decode |
| Base32.EncodeBits5OfDecode | src/ch/epfl/chacun/game/Base32.java:45-72 | a valid one-symbol string is encodeBits5 of its decoded value |
| Base32.EncodeBits10OfDecode | src/ch/epfl/chacun/game/Base32.java:55-72 | a valid two-symbol string is encodeBits10 of its decoded value |
| ActionCodec.IndexIn | src/ch/epfl/chacun/game/ActionEncoder.java:92-128 | List.indexOf: -1 iff the element is absent, otherwise the index of its first occurrence |
| ActionCodec.IndexInOfDistinct | src/ch/epfl/chacun/game/ActionEncoder.java:92-128 | in a list without duplicates, indexOf of the element at i is i |
| ActionCodec.IndexOrThrows | src/ch/epfl/chacun/game/ActionEncoder.java:132-135 | an index above the size is refused (IllegalActionException); an index equal to the size, or negative, reaches List.get and throws IndexOutOfBoundsException; any other index gives its element |
| ActionCodec.FringeKeyOrder | src/ch/epfl/chacun/game/ActionEncoder.java:79 | the key sorts board positions by x then y, and distinct positions get distinct keys |
| ActionCodec.Fringe | src/ch/epfl/chacun/game/ActionEncoder.java:76-81 | exactly the board's insertion positions, without duplicates, sorted by x then y |
| ActionCodec.SortedOccupants | src/ch/epfl/chacun/game/ActionEncoder.java:126-127 | the board's occupants, each once, sorted by zone identifier |
| ActionCodec.Paired | src/ch/epfl/chacun/game/ActionEncoder.java:96-129 | the state a transition gives, paired with the action; a failure of the transition escapes unchanged |
| ActionCodec.PlacementCodeDecodes | src/ch/epfl/chacun/game/ActionEncoder.java:94-161 | an 8-bit fringe index and a rotation come back out of the decoded code: index = code >> 2, rotation = code & 3 |
| ActionCodec.PlacementAction | src/ch/epfl/chacun/game/ActionEncoder.java:91-96 | a placement is encoded as two valid Base32 symbols |
| ActionCodec.EncodePlacement | src/ch/epfl/chacun/game/ActionEncoder.java:90-97 | withPlacedTile: succeeds iff GameState.withPlacedTile does, with its state and the placement's action; its exception escapes |
| ActionCodec.NewOccupantAction | src/ch/epfl/chacun/game/ActionEncoder.java:107-113 | an occupant placement, or none, is encoded as one valid Base32 symbol |
| ActionCodec.EncodeNewOccupant | src/ch/epfl/chacun/game/ActionEncoder.java:106-114 | withNewOccupant: succeeds iff GameState.withNewOccupant does, with its state and the occupant's action; its exception escapes |
| ActionCodec.RemovalAction | src/ch/epfl/chacun/game/ActionEncoder.java:124-129 | a pawn removal, or none, is encoded as one valid Base32 symbol |
| ActionCodec.OccupantRemovedAction | src/ch/epfl/chacun/game/ActionEncoder.java:123-129 | the removal action on a game state is one valid Base32 symbol |
| ActionCodec.EncodeOccupantRemoved | src/ch/epfl/chacun/game/ActionEncoder.java:123-130 | withOccupantRemoved: succeeds iff GameState.withOccupantRemoved does, with its state and the removal's action; its exception escapes |
| ActionCodec.FirstDesignated | src/ch/epfl/chacun/game/ActionEncoder.java:177-180 | the filter plus findFirst: none iff no listed occupant has that kind and local zone; otherwise the first one that does |
| ActionCodec.CanAdd | src/ch/epfl/chacun/game/ActionEncoder.java:167 | the test is the board's canAddTile on every tile |
| ActionCodec.TileLookup | src/ch/epfl/chacun/game/ActionEncoder.java:192 | the lookup is the board's tileWithId on every identifier |
| ActionCodec.DecodePlacement | src/ch/epfl/chacun/game/ActionEncoder.java:157-169 | an action not of length 2 is refused; an accepted one places the tile to place, for the current player, at a fringe position the board can take; a bad index throws IndexOutOfBoundsException |
| ActionCodec.DecodeNewOccupant | src/ch/epfl/chacun/game/ActionEncoder.java:170-182 | an action not of length 1 is refused; an accepted one is an occupant placement whose occupant, if any, is one of the last tile's potential occupants; a failure is that of lastTilePotentialOccupants |
| ActionCodec.DecodeOccupantRemoved | src/ch/epfl/chacun/game/ActionEncoder.java:183-195 | an action not of length 1 is refused; an accepted removal is of a pawn among the sorted occupants, on a tile the current player placed |
| ActionCodec.DecodeMove | src/ch/epfl/chacun/game/ActionEncoder.java:151-198 | an invalid Base32 action, or one sent when the game expects START_GAME or END_GAME, is refused; an accepted move is of the kind the next action calls for |
| ActionCodec.ApplyMove | src/ch/epfl/chacun/game/ActionEncoder.java:168-194 | a successful transition keeps the action text and gives a state that follows the old one |
| ActionCodec.Lifted | src/ch/epfl/chacun/game/ActionEncoder.java:208-215 | a transition's result as decodeAndApply's optional result, failures unchanged |
| ActionCodec.DecodeAndApply | src/ch/epfl/chacun/game/ActionEncoder.java:208-215 | invalid Base32, or START_GAME / END_GAME, give null; an accepted action gives a state that follows the old one, with that action |
| ActionCodec.PlacementDecodes | src/ch/epfl/chacun/game/ActionEncoder.java:90-169 | a placement the board accepts, at a fringe index below 256, decodes back to itself |
| ActionCodec.PlacementRoundTrip | src/ch/epfl/chacun/game/ActionEncoder.java:90-169 | on a game state expecting PLACE_TILE, the action withPlacedTile produces for a legal placement decodes to that placement |
| ActionCodec.NewOccupantDecodes | src/ch/epfl/chacun/game/ActionEncoder.java:106-182 | no occupant, or a potential occupant that no other shares its kind and local zone with, decodes back to itself |
| ActionCodec.NewOccupantRoundTrip | src/ch/epfl/chacun/game/ActionEncoder.java:106-182 | on a game state expecting OCCUPY_TILE, the action withNewOccupant produces decodes to that occupant, under the same uniqueness |
| ActionCodec.OccupantRemovedDecodes | src/ch/epfl/chacun/game/ActionEncoder.java:123-195 | no occupant, or a pawn of the current player's tile at a sorted index below 31, decodes back to itself |
| ActionCodec.OccupantRemovedRoundTrip | src/ch/epfl/chacun/game/ActionEncoder.java:123-195 | on a game state expecting RETAKE_PAWN, the action withOccupantRemoved produces decodes to that removal, for an index below 31 |
| ActionCodec.DecodedMoveApplies | src/ch/epfl/chacun/game/ActionEncoder.java:151-215 | decodeAndApply is the decoded move applied, lifted to its optional result |
| ActionCodec.EncodedPlacementApplies | src/ch/epfl/chacun/game/ActionEncoder.java:90-215 | decodeAndApply of withPlacedTile's action gives exactly withPlacedTile's state and action |
| ActionCodec.EncodedNewOccupantApplies | src/ch/epfl/chacun/game/ActionEncoder.java:106-215 | decodeAndApply of withNewOccupant's action gives exactly withNewOccupant's state and action |
| ActionCodec.EncodedOccupantRemovedApplies | src/ch/epfl/chacun/game/ActionEncoder.java:123-215 | decodeAndApply of withOccupantRemoved's action gives exactly withOccupantRemoved's state and action |
| ActionCodec.RemovalActionCollides | src/ch/epfl/chacun/game/ActionEncoder.java:124-129 | an occupant at sorted index 31 gets the same action as no occupant, so the round trip cannot hold for it |
| ServerActions.ValueOf | src/ch/epfl/chacun/logic/ServerAction.java:6-16 | a result names exactly the string and is declared; no result means no declared constant has that name |
| ServerActions.FromString | src/ch/epfl/chacun/logic/ServerAction.java:23-29 | the result is declared; a result other than UNKNOWN is named exactly by the string; UNKNOWN iff the string is "UNKNOWN" or names no constant |
| ServerActions.FromStringOfName | src/ch/epfl/chacun/logic/ServerAction.java:18-29 | fromString(a.toString()) == a for every declared constant |
| ServerActions.NamesAreDistinct | src/ch/epfl/chacun/logic/ServerAction.java:6-21 | distinct constants have distinct names |
| ServerActions.FromStringIsCaseSensitive | src/ch/epfl/chacun/logic/ServerAction.java:23-28 | "gamejoin" reads as UNKNOWN while "GAMEJOIN" reads as GAMEJOIN |
| ServerActions.UnknownIsUnrecognised | src/ch/epfl/chacun/logic/ServerAction.java:7-29 | "UNKNOWN" and any unrecognised string both read as UNKNOWN |
| ActionData.GameActionData.ToGameActionString | src/ch/epfl/chacun/logic/GameActionData.java:49-51 | the action's name alone without data; otherwise the name, a dot at the name's length, then the data |
| ActionData.Bare | src/ch/epfl/chacun/logic/GameLogic.java:94-95 | a reply without data, context or broadcast, whose text is the action's name |
| ActionData.Reply | src/ch/epfl/chacun/logic/GameActionData.java:40-42 | the two-argument constructor: no context, not broadcast, text name + "." + data |
| ActionData.Broadcast | src/ch/epfl/chacun/logic/GameActionData.java:31-33 | the broadcast-flag constructor with true: no context, broadcast, text name + "." + data |
| ActionData.ServerActionWithData.ToString | src/ch/epfl/chacun/logic/ServerActionWithData.java:9-12 | the same text as toGameActionString of a reply with the same action and data |
| ActionData.ServerActionWithData.AsGameActionData | src/ch/epfl/chacun/logic/GameLogic.java:84-86 | a lobby's reply handed on keeps action, data and text, and gets no context and no broadcast |
| ActionData.WithoutData | src/ch/epfl/chacun/logic/ServerActionWithData.java:5-7 | the one-argument constructor leaves the data absent, so the text is the action's name |
| ActionData.ReplyTextSplits | src/ch/epfl/chacun/logic/GameActionData.java:49-51 | splitting a reply's text at dots gives back the action's name and the data (data non-empty, without dots), and fromString of the first piece is the action |
| ActionData.NameHasNoDot | src/ch/epfl/chacun/logic/ServerAction.java:7-16 | no action name is empty or contains a dot |
| Lobbies.AddedPlayer | src/ch/epfl/chacun/logic/GameLobby.java:65-74 | USERNAME_TAKEN for a present name, checked before GAME_FULL at five players, both leaving the roster unchanged; otherwise the name is appended and the reply is GAMEJOIN_ACCEPT with the comma-joined roster; a roster stays distinct and at most five |
| Lobbies.RemovedPlayer | src/ch/epfl/chacun/logic/GameLobby.java:81-84 | one occurrence of the name leaves (an absent name changes nothing and throws nothing); the reply is GAMELEAVE with the comma-joined rest; a roster stays a roster without the name |
| Lobbies.AcceptedRosterSplits | src/ch/epfl/chacun/logic/GameLobby.java:72-73 | when no name is empty or holds a comma, splitting an accept's data at commas gives the roster back |
| Lobbies.ColorsOf | src/ch/epfl/chacun/logic/GameLobby.java:91-95 | fails with IllegalArgumentException iff more than five names; otherwise the i-th colour of PlayerColor.ALL maps to the i-th name and no other colour is mapped |
| Lobbies.ColorsOfDistinctNames | src/ch/epfl/chacun/logic/GameLobby.java:91-95 | a roster of distinct names gets an injective colour map |
| Lobbies.DistinctPlaces | src/ch/epfl/chacun/logic/GameLobby.java:91-95 | two colours index two places of a roster, which hold different names |
| Lobbies.GameLobby.Empty | src/ch/epfl/chacun/logic/GameLobby.java:29-31 | an empty roster under the given name |
| Lobbies.GameLobby.constructor | src/ch/epfl/chacun/logic/GameLobby.java:38-41 | the roster starts as [username] |
| Lobbies.GameLobby.WithPlayers | src/ch/epfl/chacun/logic/GameLogic.java:158 | a lobby holding the given players in the given order |
| Lobbies.GameLobby.AddPlayer | src/ch/epfl/chacun/logic/GameLobby.java:65-74 | the new roster and the reply are those of AddedPlayer on the old roster |
| Lobbies.GameLobby.RemovePlayer | src/ch/epfl/chacun/logic/GameLobby.java:81-84 | the new roster and the reply are those of RemovedPlayer on the old roster |
| Lobbies.GameLobby.StartGame | src/ch/epfl/chacun/logic/GameLobby.java:101-103 | a fresh game under the lobby's name, holding ColorsOf(players) and the given start state |
| OnGoingGames.ActionEncoderIsSound | src/ch/epfl/chacun/game/ActionEncoder.java:208-215 | decodeAndApply, for any iteration orders, refuses non-Base32 actions and actions before the start or after the end, and an accepted action's state follows the old one |
| OnGoingGames.Play | src/ch/epfl/chacun/logic/OnGoingGame.java:68-85 | no current player in the map throws (Java's null.equals); another user's action is denied and the state kept; a refused or non-Base32 action is denied; IllegalArgumentException becomes INVALID_ACTION; an accepted action replaces the state and is broadcast as GAMEEND "PLAYER_HAS_WON" when it ends the game, else as GAMEACTION_ACCEPT echoing the action |
| OnGoingGames.AcceptedActionIsApplied | src/ch/epfl/chacun/logic/OnGoingGame.java:72-78 | the current player's accepted action installs the engine's new state and is broadcast |
| OnGoingGames.RefusedActionIsDenied | src/ch/epfl/chacun/logic/OnGoingGame.java:72-84 | a null from the engine gives GAMEACTION_DENY, IllegalArgumentException gives GAMEACTION_DENY "INVALID_ACTION", and the state is kept |
| OnGoingGames.OnGoingGame.constructor | src/ch/epfl/chacun/logic/OnGoingGame.java:43-60 | the game keeps its name, its colour map and the given start state |
| OnGoingGames.OnGoingGame.ApplyAction | src/ch/epfl/chacun/logic/OnGoingGame.java:68-85 | the reply and the new state are those of Play on the old state |
| Sessions.RosterOf | src/ch/epfl/chacun/logic/GameLogic.java:158 | values() in a colour order lists at most one name per colour |
| Sessions.RosterOfMembers | src/ch/epfl/chacun/logic/GameLogic.java:158 | a name is listed iff some colour of the order maps to it |
| Sessions.RosterOfIsRoster | src/ch/epfl/chacun/logic/GameLogic.java:158 | an injective colour map listed in a duplicate-free order has no duplicate names |
| Sessions.DowngradedRoster | src/ch/epfl/chacun/logic/GameLogic.java:155-162 | the lobby made from a game is a roster holding exactly the game's players |
| Sessions.Promoted | src/ch/epfl/chacun/logic/GameLogic.java:170-175 | the lobby leaves the lobby table and a game with ColorsOf(roster) and the start state is put under its name; other games are kept; the tables stay valid (no name in both) |
| Sessions.Downgraded | src/ch/epfl/chacun/logic/GameLogic.java:155-162 | the game leaves the game table and a lobby of its players in the colour order is put under its name; no name ends up in both tables |
| Sessions.DowngradedIsValid | src/ch/epfl/chacun/logic/GameLogic.java:155-162 | a downgrade keeps the tables valid even when the game has ended |
| Sessions.JoinGame | src/ch/epfl/chacun/logic/GameLogic.java:70-96 | checks in order: not two arguments INVALID_DATA, a context ALREADY_IN_GAME, a lobby addPlayer, a running game GAME_ALREADY_STARTED, else a new lobby of the sender and ACCEPT with the new context; games untouched, tables valid |
| Sessions.PlayIn | src/ch/epfl/chacun/logic/GameLogic.java:112-117 | the tables stay valid; a failure leaves them as they were; a success replies without context |
| Sessions.ActInGame | src/ch/epfl/chacun/logic/GameLogic.java:100-118 | without a context the reply is GAMEACTION_DENY "GAME_NOT_STARTED" and nothing changes; replies carry no context; tables stay valid |
| Sessions.LeaveGame | src/ch/epfl/chacun/logic/GameLogic.java:122-133 | never throws; without a context no reply and nothing changes; replies are not broadcast and carry no context; tables stay valid |
| Sessions.SendMessage | src/ch/epfl/chacun/logic/GameLogic.java:137-144 | tables unchanged; with a lobby or game a broadcast GAMEMSG "username=text", throwing without argument; elsewhere GAMEMSG_DENY "GAME_HAS_ENDED" |
| Sessions.Dispatch | src/ch/epfl/chacun/logic/GameLogic.java:62-147 | tables stay valid; a broadcast reply needs a context; any action other than the four client ones has no reply and changes nothing |
| Sessions.JoinIsLocal | src/ch/epfl/chacun/logic/GameLogic.java:70-96 | a JOIN changes the entry of the named game only |
| Sessions.JoinOpensLobby | src/ch/epfl/chacun/logic/GameLogic.java:92-95 | JOIN to an unused name opens a lobby [username] and replies ACCEPT with the context (name, username) |
| Sessions.JoinRunningGameIsDenied | src/ch/epfl/chacun/logic/GameLogic.java:89-91 | JOIN to a running game is GAME_ALREADY_STARTED and changes nothing |
| Sessions.PromotedIsLocal | src/ch/epfl/chacun/logic/GameLogic.java:170-175 | a promotion changes the promoted name's entries only |
| Sessions.PlayInIsLocal | src/ch/epfl/chacun/logic/GameLogic.java:112-116 | playing an action changes the played game's entries only |
| Sessions.PlayInOutcome | src/ch/epfl/chacun/logic/GameLogic.java:112-117 | a denied action keeps the tables; an accepted one keeps the game with the same players and a following state; GAMEEND turns the game into a lobby of its players |
| Sessions.ActWithoutGameIsDenied | src/ch/epfl/chacun/logic/GameLogic.java:103-110 | with no game and no promotion the reply is GAMEACTION_DENY "GAME_NOT_STARTED" and nothing changes |
| Sessions.ActStartsGame | src/ch/epfl/chacun/logic/GameLogic.java:103-116 | the first of at least two players starts the game, which then plays the action |
| Sessions.ActInRunningGame | src/ch/epfl/chacun/logic/GameLogic.java:112-116 | in a running game the action is played by that game |
| Sessions.ActWithoutArgument | src/ch/epfl/chacun/logic/GameLogic.java:112 | data[0] is read unchecked: without argument the result is an index-out-of-bounds failure |
| Sessions.ActIsLocal | src/ch/epfl/chacun/logic/GameLogic.java:100-118 | an action changes the sender's game entries only |
| Sessions.LeaveFromLobby | src/ch/epfl/chacun/logic/GameLogic.java:125-126 | leaving a lobby removes the sender, and the lobby stays even when emptied |
| Sessions.LeaveFromGame | src/ch/epfl/chacun/logic/GameLogic.java:128-131 | leaving an unfinished game downgrades it and removes the sender from the new lobby |
| Sessions.LeaveElsewhere | src/ch/epfl/chacun/logic/GameLogic.java:132 | with no context, or neither lobby nor game, the reply is null and nothing changes |
| Sessions.LeaveIsLocal | src/ch/epfl/chacun/logic/GameLogic.java:122-133 | a leave changes the sender's game entries only |
| Sessions.JoinWithContextIsDenied | src/ch/epfl/chacun/logic/GameLogic.java:80-81 | any two-argument JOIN from a connection with a context is ALREADY_IN_GAME and changes nothing |
| Sessions.MessageData | src/ch/epfl/chacun/logic/GameLogic.java:47 | no argument contains a comma |
| Sessions.MessageWithoutDot | src/ch/epfl/chacun/logic/GameLogic.java:41-47 | a message without dot is its own action and has no arguments |
| Sessions.MessageParses | src/ch/epfl/chacun/logic/GameLogic.java:41-47 | name + "." + text parses back to the action and to text split at commas |
| Sessions.ParseAndApply | src/ch/epfl/chacun/logic/GameLogic.java:40-51 | tables stay valid; a message of dots only throws index-out-of-bounds; UNKNOWN gives null and no change; a broadcast reply needs a context; a reply with a context answers a JOIN from a connection without one |
| Sessions.PromotedTables | src/ch/epfl/chacun/logic/GameLogic.java:170-175 | the promotion is the lobby removed and the game of its colours put, entry by entry |
| Sessions.PlayedTables | src/ch/epfl/chacun/logic/GameLogic.java:112-117 | PlayIn is the game's new state put in place, then the downgrade when the game has ended, with the reply of Play |
| Sessions.GameLogic.LobbyTable | src/ch/epfl/chacun/logic/GameLogic.java:26 | the lobby table has the names of the lobby map |
| Sessions.GameLogic.GameTable | src/ch/epfl/chacun/logic/GameLogic.java:31 | the game table has the names of the game map |
| Sessions.GameLogic.constructor | src/ch/epfl/chacun/logic/GameLogic.java:26-31 | both maps start empty |
| Sessions.GameLogic.ParseAndApplyWebSocketAction | src/ch/epfl/chacun/logic/GameLogic.java:40-51 | the new tables and the reply are those of ParseAndApply; the invariant holds |
| Sessions.GameLogic.ApplyAction | src/ch/epfl/chacun/logic/GameLogic.java:62-147 | the new tables and the reply are those of Dispatch |
| Sessions.GameLogic.Join | src/ch/epfl/chacun/logic/GameLogic.java:70-96 | the new tables and the reply are those of JoinGame |
| Sessions.GameLogic.AddToLobby | src/ch/epfl/chacun/logic/GameLogic.java:83-86 | the lobby's entry becomes AddedPlayer's roster, the reply is its reply, all else is kept |
| Sessions.GameLogic.OpenLobby | src/ch/epfl/chacun/logic/GameLogic.java:93 | a lobby [username] is put under the name, all else is kept |
| Sessions.GameLogic.StartGameWithLobby | src/ch/epfl/chacun/logic/GameLogic.java:170-175 | the lobby's entry is removed and a game of ColorsOf(roster) with the start state is put under its name |
| Sessions.GameLogic.DowngradeGameToLobby | src/ch/epfl/chacun/logic/GameLogic.java:155-162 | the tables become Downgraded of the old ones |
| Sessions.GameLogic.Act | src/ch/epfl/chacun/logic/GameLogic.java:100-118 | the new tables and the reply are those of ActInGame |
| Sessions.GameLogic.PlayInGame | src/ch/epfl/chacun/logic/GameLogic.java:112-117 | the new tables and the reply are those of PlayIn |
| Sessions.GameLogic.ApplyInGame | src/ch/epfl/chacun/logic/GameLogic.java:112 | the game's state and the reply are those of Play; all else is kept |
| Sessions.GameLogic.Leave | src/ch/epfl/chacun/logic/GameLogic.java:122-133 | the new tables and the reply are those of LeaveGame |
| Sessions.GameLogic.RemoveFromLobby | src/ch/epfl/chacun/logic/GameLogic.java:126-130 | the lobby's entry becomes RemovedPlayer's roster, the reply is its reply, all else is kept |
| Sessions.GameLogic.PostMessage | src/ch/epfl/chacun/logic/GameLogic.java:137-144 | the reply is that of SendMessage |
| Broadcaster.Deliveries | src/ch/epfl/chacun/server/websocket/WebSocketBroadcaster.java:58-61 | one delivery per listed connection, in list order |
| Broadcaster.WebSocketBroadcaster.constructor | src/ch/epfl/chacun/server/websocket/WebSocketBroadcaster.java:20 | the channel table starts empty |
| Broadcaster.WebSocketBroadcaster.SubscribeTo | src/ch/epfl/chacun/server/websocket/WebSocketBroadcaster.java:27-29 | the connection is appended to the id's list, created if absent (twice leaves two entries); no id maps to an empty list |
| Broadcaster.WebSocketBroadcaster.UnsubscribeFrom | src/ch/epfl/chacun/server/websocket/WebSocketBroadcaster.java:36-45 | the first occurrence leaves the id's list, an emptied id is removed, an unknown id changes nothing |
| Broadcaster.WebSocketBroadcaster.BroadcastTo | src/ch/epfl/chacun/server/websocket/WebSocketBroadcaster.java:52-63 | the message is sent once per list entry in list order, nothing for an unknown id; the table is kept |
| Broadcaster.DeliveriesReachSubscribers | src/ch/epfl/chacun/server/websocket/WebSocketBroadcaster.java:52-63 | a broadcast reaches a connection iff it is in the id's list |
| Broadcaster.UpdatesAreLocal | src/ch/epfl/chacun/server/websocket/WebSocketBroadcaster.java:27-45 | both updates keep every list non-empty and leave every other id's entry as it was |
| Broadcaster.SubscribeThenUnsubscribe | src/ch/epfl/chacun/server/websocket/WebSocketBroadcaster.java:27-45 | subscribing a connection not yet listed and unsubscribing it restores the table |
| Server.KeepaliveStep | src/ch/epfl/chacun/WebSocketServer.java:20-105 | with d = now - lastPong: terminate iff d > 3I, close 1002 "PLAYER_TIMEOUT" iff 2I < d <= 3I, ping iff d <= 2I, I = 60000 |
| Server.Round | src/ch/epfl/chacun/WebSocketServer.java:94-106 | one step per listed connection, in listing order, each from its own last pong |
| Server.RoundStepsEachOnce | src/ch/epfl/chacun/WebSocketServer.java:91-106 | a round takes exactly one step on each watched connection and none on any other |
| Server.Connection.constructor | src/ch/epfl/chacun/server/websocket/WebSocketChannel.java:30 | a new connection has no context |
| Server.TimeoutWatcher.constructor | src/ch/epfl/chacun/WebSocketServer.java:77 | no connection is watched |
| Server.TimeoutWatcher.AddClient | src/ch/epfl/chacun/WebSocketServer.java:79-81 | the connection's timestamp becomes now |
| Server.TimeoutWatcher.RemoveClient | src/ch/epfl/chacun/WebSocketServer.java:83-85 | the connection's entry is deleted |
| Server.TimeoutWatcher.RegisterPong | src/ch/epfl/chacun/WebSocketServer.java:87-89 | the connection's timestamp becomes now |
| Server.TimeoutWatcher.Run | src/ch/epfl/chacun/WebSocketServer.java:91-107 | the timestamps are kept and the round's steps are appended in listing order |
| Server.Subscribers | src/ch/epfl/chacun/server/websocket/WebSocketBroadcaster.java:53-54 | an unknown channel has no subscribers |
| Server.LeaveMessageIsLeave | src/ch/epfl/chacun/WebSocketServer.java:64-65 | parsing and applying "GAMELEAVE" is the leave of the game logic, whatever the start state and engine |
| Server.JoinAfterLeaveIsDenied | src/ch/epfl/chacun/WebSocketServer.java:40-43 | after a GAMELEAVE, a JOIN from the same context is ALREADY_IN_GAME and changes nothing |
| Server.WebSocketServer.constructor | src/ch/epfl/chacun/WebSocketServer.java:21-29 | empty game logic, channels, watcher and sends |
| Server.WebSocketServer.OnOpen | src/ch/epfl/chacun/WebSocketServer.java:32-34 | the connection is watched from now |
| Server.WebSocketServer.OnPong | src/ch/epfl/chacun/WebSocketServer.java:58-60 | the connection's timestamp becomes now |
| Server.WebSocketServer.OnPing | src/ch/epfl/chacun/WebSocketServer.java:53-55 | a pong is sent to the connection |
| Server.WebSocketServer.OnMessage | src/ch/epfl/chacun/WebSocketServer.java:37-50 | tables as ParseAndApply says; an exception escapes with nothing sent; null changes and sends nothing; a context is attached and subscribed first; broadcast replies go to the sender's game channel, the others to the sender; a context is never cleared |
| Server.WebSocketServer.Subscribe | src/ch/epfl/chacun/WebSocketServer.java:41 | the channels become Subscribed; the game logic is untouched |
| Server.WebSocketServer.Attach | src/ch/epfl/chacun/WebSocketServer.java:42 | the connection's context becomes the reply's |
| Server.WebSocketServer.Broadcast | src/ch/epfl/chacun/WebSocketServer.java:45 | the channel's subscribers get the text, in order |
| Server.WebSocketServer.SendText | src/ch/epfl/chacun/WebSocketServer.java:47 | the sender gets the text |
| Server.WebSocketServer.OnClose | src/ch/epfl/chacun/WebSocketServer.java:63-73 | tables as LeaveGame says; on a reply the connection is unsubscribed from its game; nothing is broadcast; the connection is always unwatched |
| Server.WebSocketServer.Unsubscribe | src/ch/epfl/chacun/WebSocketServer.java:67 | the channels become Unsubscribed; the game logic is untouched |
| Server.WebSocketServer.Unwatch | src/ch/epfl/chacun/WebSocketServer.java:72 | the watcher drops the connection |
| Zones.PlayerColor.Ordinal | src/ch/epfl/chacun/game/PlayerColor.java:11-12 | the five colours have ordinals 0..4 |
| Zones.AllColorsByOrdinal | src/ch/epfl/chacun/game/PlayerColor.java:17 | ALL holds the five colours, each once, each at its ordinal |
| Zones.ZoneIdSplits | src/ch/epfl/chacun/game/Zone.java:19-31 | tileId and localId, with Java's truncating division, recompose any identifier; localId lies in (-10, 10), and for a non-negative identifier they are the quotient and remainder by 10 |
| Zones.ZoneIdRoundTrip | src/ch/epfl/chacun/game/Zone.java:19-31 | an identifier built as 10 * tileId + localId, localId < 10, splits back into them |
| Zones.Zone.SpecialPower | src/ch/epfl/chacun/game/Zone.java:63-140 | forests and rivers have none; meadows and lakes have their own |
| Zones.ZoneIdsOfZone | src/ch/epfl/chacun/game/Zone.java:45-56 | a zone's local identifier is a digit and 10 * tileId + localId is its identifier |
| Geometry.Rotation.Ordinal | src/ch/epfl/chacun/game/Rotation.java:11-20 | the four rotations have ordinals 0..3 |
| Geometry.Rotation.QuarterTurnsCW | src/ch/epfl/chacun/game/Rotation.java:67-69 | at most three quarter turns |
| Geometry.Rotation.DegreesCW | src/ch/epfl/chacun/game/Rotation.java:35-37 | 0, 90, 180 or 270 degrees, ninety per quarter turn |
| Geometry.RotationAt | src/ch/epfl/chacun/game/Rotation.java:20 | Rotation.ALL.get(i) has ordinal i |
| Geometry.Direction.Ordinal | src/ch/epfl/chacun/game/Direction.java:11-21 | the four directions have ordinals 0..3 |
| Geometry.DirectionAt | src/ch/epfl/chacun/game/Direction.java:21 | Direction.ALL.get(i) has ordinal i |
| Geometry.AddCommutes | src/ch/epfl/chacun/game/Rotation.java:45-48 | add is commutative with NONE as identity |
| Geometry.AddOrdinal | src/ch/epfl/chacun/game/Rotation.java:45-48 | the ordinal of a sum is the sum of ordinals modulo 4 |
| Geometry.AddAssociates | src/ch/epfl/chacun/game/Rotation.java:45-48 | add is associative |
| Geometry.NegatedIsInverse | src/ch/epfl/chacun/game/Rotation.java:55-60 | negated is the inverse of add and an involution, swapping RIGHT and LEFT |
| Geometry.RotatedInverse | src/ch/epfl/chacun/game/Direction.java:35-38 | rotating by NONE does nothing, and by r then by r's negation (either order) returns the start |
| Geometry.RotatedAdd | src/ch/epfl/chacun/game/Direction.java:35-38 | rotating by r then by s is rotating by r + s |
| Geometry.OppositeIsInvolution | src/ch/epfl/chacun/game/Direction.java:46-48 | opposite pairs N with S and E with W, has no fixed point and is an involution |
| Geometry.NeighborIsOneStep | src/ch/epfl/chacun/game/Pos.java:35-42 | a neighbour is at Manhattan distance 1 and the neighbour back in the opposite direction is the start |
| Geometry.NeighborsDistinct | src/ch/epfl/chacun/game/Pos.java:35-42 | distinct directions lead to distinct neighbours |
| Points.ForClosedForest | src/ch/epfl/chacun/game/Points.java:64-68 | defined iff more than one tile and no negative mushroom count (else IllegalArgumentException), then 2 per tile plus 3 per group, at least 4 |
| Points.ForClosedRiver | src/ch/epfl/chacun/game/Points.java:79-83 | defined iff more than one tile and no negative fish count, then one per tile plus one per fish, at least 2 |
| Points.ForMeadow | src/ch/epfl/chacun/game/Points.java:94-100 | defined iff no count is negative, then 3 per mammoth, 2 per aurochs, 1 per deer: zero exactly when there are no animals |
| Points.ForRiverSystem | src/ch/epfl/chacun/game/Points.java:109-112 | defined iff the fish count is not negative, then one per fish |
| Points.ForLogboat | src/ch/epfl/chacun/game/Points.java:121-124 | defined iff at least one lake, then 2 per lake |
| Points.ForRaft | src/ch/epfl/chacun/game/Points.java:133-136 | defined iff at least one lake, then 1 per lake |
| Points.PointsAreNonNegativeAndMonotone | src/ch/epfl/chacun/game/Points.java:64-136 | within their checks all six formulas are non-negative, and more tiles, fish, mushrooms or lakes never give fewer points |
| JavaStrings.Pieces | src/ch/epfl/chacun/logic/GameLogic.java:41-47 | at least one piece, none containing the separator |
| JavaStrings.DropTrailingEmpty | src/ch/epfl/chacun/logic/GameLogic.java:41-47 | a prefix of the parts ending in a non-empty string, with only empty strings dropped |
| JavaStrings.Split | src/ch/epfl/chacun/logic/GameLogic.java:41-47 | String.split on one character: no piece holds the separator, trailing empty pieces are dropped, and the empty string splits into one empty piece |
| JavaStrings.JoinPieces | src/ch/epfl/chacun/logic/GameLogic.java:41-47 | joining the pieces back with the separator gives the string |
| JavaStrings.PiecesOfJoin | src/ch/epfl/chacun/logic/GameLobby.java:73-83 | cutting a join of separator-free parts at the separator gives back the parts |
| JavaStrings.SplitOfJoin | src/ch/epfl/chacun/logic/GameLobby.java:73-83 | String.split inverts String.join for separator-free parts whose last one is not empty |
| JavaStrings.SplitWithoutSeparator | src/ch/epfl/chacun/logic/GameLogic.java:41 | a non-empty string without the separator splits into itself alone |
| JavaStrings.SplitOfSeparators | src/ch/epfl/chacun/logic/GameLogic.java:41-47 | a non-empty string of separators only splits into nothing |
| Tiles.TileSide.Zones | src/ch/epfl/chacun/game/TileSide.java:44-100 | a forest or meadow side has its one zone; a river side has its first meadow, the river and its second meadow, in that order |
| Tiles.SameKindIsEquivalence | src/ch/epfl/chacun/game/TileSide.java:49-105 | isSameKindAs holds exactly between sides of the same kind, and is reflexive, symmetric and transitive |
| Tiles.Tile.Sides | src/ch/epfl/chacun/game/Tile.java:27-29 | the four sides N, E, S, W at the index of their direction |
| Tiles.Tile.SideZones | src/ch/epfl/chacun/game/Tile.java:37-41 | the side zones, each once |
| Tiles.Tile.Zones | src/ch/epfl/chacun/game/Tile.java:48-57 | the zones, each once |
| Tiles.LakesOf | src/ch/epfl/chacun/game/Tile.java:48-57 | only lakes, and exactly the lakes of the rivers among the zones |
| Tiles.SideZonesAreUnionOfSides | src/ch/epfl/chacun/game/Tile.java:37-41 | the side zones are exactly the zones of the four sides |
| Tiles.SideZonesAreZones | src/ch/epfl/chacun/game/Tile.java:48-57 | every side zone is a zone; the other zones are the lakes of side rivers, and each such lake is a zone |
| Tiles.OccupantKind.Ordinal | src/ch/epfl/chacun/game/Occupant.java:57-58 | PAWN and HUT have ordinals 0 and 1 |
| Tiles.NewOccupant | src/ch/epfl/chacun/game/Occupant.java:33-36 | an occupant exists iff its zone identifier is not negative, else IllegalArgumentException |
| Tiles.OccupantsCount | src/ch/epfl/chacun/game/Occupant.java:44-49 | 5 pawns and 3 huts per player |
| Tiles.AllOccupantKindsByOrdinal | src/ch/epfl/chacun/game/Occupant.java:63 | Kind.ALL lists PAWN then HUT, each at its ordinal |
| Tiles.PlacedTile.ZoneWithId | src/ch/epfl/chacun/game/PlacedTile.java:78-85 | a zone of the tile with that identifier; IllegalArgumentException iff the tile has none |
| Tiles.PlacedTile.SpecialPowerZone | src/ch/epfl/chacun/game/PlacedTile.java:93-100 | a zone of the tile with a special power; null iff the tile has none |
| Tiles.PlacedTile.WithOccupant | src/ch/epfl/chacun/game/PlacedTile.java:180-183 | succeeds iff the tile has no occupant yet, and then differs from it only by the occupant |
| Tiles.PlacedTile.WithNoOccupant | src/ch/epfl/chacun/game/PlacedTile.java:190-192 | the same tile, placer, rotation and position without occupant |
| Tiles.PlacedTile.IdOfZoneOccupiedBy | src/ch/epfl/chacun/game/PlacedTile.java:200-202 | the occupant's zone identifier iff there is an occupant of that kind, otherwise -1 |
| Tiles.ForestsOf | src/ch/epfl/chacun/game/PlacedTile.java:107-115 | exactly the forests among the zones |
| Tiles.RiversOf | src/ch/epfl/chacun/game/PlacedTile.java:122-130 | exactly the rivers among the zones |
| Tiles.MeadowsOf | src/ch/epfl/chacun/game/PlacedTile.java:137-145 | exactly the meadows among the zones |
| Tiles.SideUndoesRotation | src/ch/epfl/chacun/game/PlacedTile.java:67-69 | the side facing d rotated by the tile's rotation is the tile's own side d; without rotation side(d) is the tile's side d |
| Tiles.PotentialOccupantsMeaning | src/ch/epfl/chacun/game/PlacedTile.java:153-171 | none without a placer; otherwise exactly a pawn on each side zone, a hut on each side river without a lake, and a hut on each lake |
| Tiles.OccupantRoundTrip | src/ch/epfl/chacun/game/PlacedTile.java:180-192 | removing the occupant and putting it back gives the tile back, and withOccupant followed by withNoOccupant undoes the placement |
| Decks.TileDecks.DeckSize | src/ch/epfl/chacun/game/TileDecks.java:37-43 | the deck's length, zero exactly when there is no top tile |
| Decks.TileDecks.TopTile | src/ch/epfl/chacun/game/TileDecks.java:77-83 | the deck's first tile, or null iff the deck is empty |
| Decks.TileDecks.WithTopTileDrawn | src/ch/epfl/chacun/game/TileDecks.java:91-97 | succeeds iff the deck is not empty, and then removes its first tile and leaves the other decks; otherwise IllegalArgumentException |
| Decks.TileDecks.WithTopTileDrawnUntil | src/ch/epfl/chacun/game/TileDecks.java:106-111 | the other decks are left as they were |
| Decks.FirstCard | src/ch/epfl/chacun/game/TileDecks.java:51-53 | null iff the deck is empty, otherwise its first tile |
| Decks.DrawCardFromDeck | src/ch/epfl/chacun/game/TileDecks.java:62-68 | succeeds iff the deck is not empty, and removes exactly its first tile; otherwise IllegalArgumentException |
| Decks.DrawnUntilIsDropUntil | src/ch/epfl/chacun/game/TileDecks.java:106-111 | the loop replaces the deck of that kind by what is left once the failing top tiles are dropped |
| Decks.DropUntilFindsFirstMatch | src/ch/epfl/chacun/game/TileDecks.java:106-111 | the tiles left are the suffix from the first tile passing the test, only failing tiles were dropped, and nothing is left iff no tile passes |
| Decks.DrawnUntilFindsFirstMatch | src/ch/epfl/chacun/game/TileDecks.java:106-111 | a tile is left iff some tile passes, and the deck left starts at the first tile that passes |
| Decks.DrawnUntilThenDrawn | src/ch/epfl/chacun/game/TileDecks.java:91-111 | once a tile is found it is the top tile, and drawing it leaves the tiles after it in the original deck |
| Decks.DrawnTopPasses | src/ch/epfl/chacun/game/TileDecks.java:77-111 | when a tile is left, the top tile passes the test and can be drawn |
| Decks.DrawnFirstMatch | src/ch/epfl/chacun/game/TileDecks.java:91-111 | when tile i is the first that passes, drawing until the test holds then drawing once takes tile i and leaves the tiles after it |
| Decks.DrawnNoMatch | src/ch/epfl/chacun/game/TileDecks.java:106-111 | when no tile passes, the deck of that kind ends empty |
| Decks.WithDeckThenDrawn | src/ch/epfl/chacun/game/TileDecks.java:77-97 | a non-empty deck has its first tile on top, and drawing leaves the rest |
| Decks.DrawnUntilIsIdempotent | src/ch/epfl/chacun/game/TileDecks.java:106-111 | drawing until the test holds a second time draws nothing more |
| Areas.SortByColor | src/ch/epfl/chacun/game/Area.java:44-49 | the copy is sorted by colour ordinal and holds the same colours, each as often |
| Areas.Area.MajorityOccupants | src/ch/epfl/chacun/game/Area.java:181-186 | exactly the present colours that occur at least as often as any other colour; empty iff there are no occupants |
| Areas.Area.ConnectTo | src/ch/epfl/chacun/game/Area.java:194-208 | succeeds iff the open connections left are not negative (two fewer, plus the other area's unless it is the same area); the result is well formed, its zones are both areas' zones, its occupants both areas' occupants (once for the same area) |
| Areas.Area.ZoneWithSpecialPower | src/ch/epfl/chacun/game/Area.java:217-222 | a zone of the area with that power; null iff none has it |
| Areas.Area.WithInitialOccupant | src/ch/epfl/chacun/game/Area.java:232-235 | succeeds iff the area is unoccupied, and then the colour is its only occupant; otherwise IllegalArgumentException |
| Areas.Area.WithoutOccupant | src/ch/epfl/chacun/game/Area.java:245-250 | succeeds iff the colour stands there, and removes one occurrence of it, keeping the occupants sorted and the zones and connections |
| Areas.Area.WithoutOccupants | src/ch/epfl/chacun/game/Area.java:258-260 | the same zones and open connections, with no occupant |
| Areas.Area.TileIds | src/ch/epfl/chacun/game/Area.java:267-271 | the tile of every zone, at most as many tiles as zones and at least one |
| Areas.NewArea | src/ch/epfl/chacun/game/Area.java:27-36 | the constructor succeeds iff the open connections are not negative, and then keeps the zones and holds the occupants sorted |
| Areas.MaxCount | src/ch/epfl/chacun/game/Area.java:181-186 | the largest number of times a colour occurs, 0 without occupants |
| Areas.MajorityIsMaximum | src/ch/epfl/chacun/game/Area.java:181-186 | a colour that occurs at least as often as every other occurs MaxCount times, and some present colour does |
| Areas.TileIdsOf | src/ch/epfl/chacun/game/Area.java:267-271 | exactly the tiles the zones lie on |
| Areas.MushroomGroupCount | src/ch/epfl/chacun/game/Area.java:72-80 | on a well-formed area, exactly the number of its forest zones with mushrooms; never more than its zones, and positive iff some such zone exists |
| Areas.Animals | src/ch/epfl/chacun/game/Area.java:91-108 | no cancelled animal is counted |
| Areas.MeadowAnimals | src/ch/epfl/chacun/game/Area.java:91-108 | exactly the animals of the meadow zones |
| Areas.AnimalsCancel | src/ch/epfl/chacun/game/Area.java:91-108 | cancelling more animals removes exactly those, and without cancellation the animals are those of the meadow zones |
| Areas.RiverFishCount | src/ch/epfl/chacun/game/Area.java:116-135 | the fish of the rivers plus the fish of each lake they reach, each lake counted once |
| Areas.RiverFishCountFromSpec | src/ch/epfl/chacun/game/Area.java:116-135 | the loop over the zones, with the set of lakes already added, counts each river's fish and each new lake's fish once |
| Areas.LakeCount | src/ch/epfl/chacun/game/Area.java:143-145 | on a well-formed area, exactly the number of its lake zones; never more than its zones, and positive iff the system holds a lake |
| Areas.RiverSystemFishCount | src/ch/epfl/chacun/game/Area.java:153-155 | the fish of every river zone plus those of every lake zone |
| Areas.ConnectToItself | src/ch/epfl/chacun/game/Area.java:194-208 | connecting an area to itself succeeds iff it has two open connections, and only closes those two |
| Areas.InitialOccupantRoundTrip | src/ch/epfl/chacun/game/Area.java:181-250 | an unoccupied area with an initial occupant has it as sole majority occupant, and removing it gives the area back |
| Messages.NewMessage | src/ch/epfl/chacun/game/MessageBoard.java:361-368 | the constructor succeeds iff the points are not negative, else IllegalArgumentException |
| Messages.AnimalCount | src/ch/epfl/chacun/game/MessageBoard.java:40-42 | exactly the kinds present, each with its positive number of animals |
| Messages.MeadowPoints | src/ch/epfl/chacun/game/MessageBoard.java:113-120 | 3 per mammoth, 2 per aurochs, 1 per deer (tigers nothing), positive iff one of those is present |
| Messages.MergePoints | src/ch/epfl/chacun/game/MessageBoard.java:144-151 | merging a message keeps the players already counted and adds its scorers |
| Messages.PointsOfIsTotal | src/ch/epfl/chacun/game/MessageBoard.java:144-151 | PointsOf holds exactly the players some message names, each with Total, the sum of the points of the messages naming them |
| Messages.ZeroTotal | src/ch/epfl/chacun/game/MessageBoard.java:144-151 | Total is zero for a player no message names |
| Messages.MessageBoard.WithNewMessage | src/ch/epfl/chacun/game/MessageBoard.java:131-136 | succeeds iff the count is not negative, and then appends exactly one message with that text, count, scorers and tiles |
| Messages.MessageBoard.Points | src/ch/epfl/chacun/game/MessageBoard.java:144-151 | exactly the players some message names, each with their total |
| Messages.MessageBoard.WithGenericScoredMeadow | src/ch/epfl/chacun/game/MessageBoard.java:56-90 | nothing is added when the animals are worth nothing or (except for the hunting trap) the meadow is unoccupied; the hunting trap scores its placer, the others the majority occupants |
| Messages.MessageBoard.WithScoredForest | src/ch/epfl/chacun/game/MessageBoard.java:164-176 | an unoccupied forest adds nothing; an occupied one adds forClosedForest of its tiles and mushroom groups to its majority occupants, and one of a single tile is an IllegalArgumentException |
| Messages.MessageBoard.WithClosedForestWithMenhir | src/ch/epfl/chacun/game/MessageBoard.java:187-194 | appends a message worth nothing, without scorer, for the forest's tiles |
| Messages.MessageBoard.WithScoredRiver | src/ch/epfl/chacun/game/MessageBoard.java:207-219 | as the forest, with forClosedRiver of its tiles and its fish |
| Messages.MessageBoard.WithScoredLogboat | src/ch/epfl/chacun/game/MessageBoard.java:230-239 | succeeds iff the system has a lake, and then gives its placer two points per lake |
| Messages.MessageBoard.WithScoredHuntingTrap | src/ch/epfl/chacun/game/MessageBoard.java:251-257 | the uncancelled animals' points go to the trap's placer, and nothing is added when they are worth nothing |
| Messages.MessageBoard.WithScoredMeadow | src/ch/epfl/chacun/game/MessageBoard.java:267-269 | the uncancelled animals' points go to the majority occupants, nothing for an unoccupied or worthless meadow |
| Messages.MessageBoard.WithScoredPitTrap | src/ch/epfl/chacun/game/MessageBoard.java:279-281 | as the meadow, on the trap's adjacent meadow |
| Messages.MessageBoard.WithScoredRiverSystem | src/ch/epfl/chacun/game/MessageBoard.java:290-302 | nothing for an unoccupied system or one without fish; otherwise one point per fish to the majority occupants |
| Messages.MessageBoard.WithScoredRaft | src/ch/epfl/chacun/game/MessageBoard.java:311-322 | an unoccupied system adds nothing; an occupied one without lake is an IllegalArgumentException; otherwise one point per lake to the majority occupants |
| Messages.MessageBoard.WithWinners | src/ch/epfl/chacun/game/MessageBoard.java:334-341 | succeeds iff there is a winner, and appends the winners' text, worth nothing, without scorer or tile |
| Messages.AppendAddsPoints | src/ch/epfl/chacun/game/MessageBoard.java:131-151 | appending a message adds its points to each scorer's total and leaves the other totals |
| Messages.AppendNoScorerKeepsPoints | src/ch/epfl/chacun/game/MessageBoard.java:131-151 | appending a message without scorers leaves the points map unchanged |
| TextMaker.NatToString | src/ch/epfl/chacun/game/TextMakerFr.java:42-111 | a non-empty string of decimal digits |
| TextMaker.NatToStringRoundTrip | src/ch/epfl/chacun/game/TextMakerFr.java:42-111 | the digits read back give the number |
| TextMaker.IntToString | src/ch/epfl/chacun/game/TextMakerFr.java:42-111 | a non-negative int as its digits, a negative one with a minus sign first |
| TextMaker.Pluralize | src/ch/epfl/chacun/game/TextMakerFr.java:89-91 | the word with one "s" added exactly when the count is above one |
| TextMaker.PluralizeGameItems | src/ch/epfl/chacun/game/TextMakerFr.java:41-43 | the count, a space and the item's French name, with "s" above one |
| TextMaker.Points | src/ch/epfl/chacun/game/TextMakerFr.java:110-112 | "n point", or "n points" above one |
| TextMaker.Joined | src/ch/epfl/chacun/game/TextMakerFr.java:51-59 | starts with the first item and ends with the last; two items are joined by " et ", more by ", " before the rest |
| TextMaker.RestIsJoined | src/ch/epfl/chacun/game/TextMakerFr.java:54-57 | what the loop appends from any index on is the list text of the items from there |
| TextMaker.ItemsToString | src/ch/epfl/chacun/game/TextMakerFr.java:51-59 | the StringBuilder loop yields the list text; an empty list is an IllegalArgumentException |
| TextMaker.ItemsTextIsJoined | src/ch/epfl/chacun/game/TextMakerFr.java:54-58 | the text the loop leaves at its end is the list text |
| TextMaker.SortedColors | src/ch/epfl/chacun/game/TextMakerFr.java:66 | exactly the colours of the set, strictly in PlayerColor order |
| TextMaker.AnimalItems | src/ch/epfl/chacun/game/TextMakerFr.java:94-100 | one text per kind with a positive count, none for the others: empty iff no kind has a positive count |
| TextMaker.TextMakerFr.PlayerName | src/ch/epfl/chacun/game/TextMakerFr.java:105-107 | the colour's name iff it has one, else null |
| TextMaker.TextMakerFr.NamesOf | src/ch/epfl/chacun/game/TextMakerFr.java:66 | the name text of each colour, in the same order |
| TextMaker.TextMakerFr.EarnMessage | src/ch/epfl/chacun/game/TextMakerFr.java:64-70 | defined iff there is a scorer (else IllegalArgumentException): the names in colour order, then " a remporté" for one scorer, " ont remporté" for several |
| TextMaker.TextMakerFr.SingletonMessage | src/ch/epfl/chacun/game/TextMakerFr.java:64-70 | a single scorer's message is their name followed by " a remporté" |
| TextMaker.TextMakerFr.EarnMessagePoints | src/ch/epfl/chacun/game/TextMakerFr.java:72-76 | the earn message, a space, then the points text |
| TextMaker.TextMakerFr.EarnMessageMajorityOccupants | src/ch/epfl/chacun/game/TextMakerFr.java:78-87 | the points message, then the occupant suffix, with "·s" and "majoritaires" for several scorers |
| TextMaker.TextMakerFr.AnimalsToString | src/ch/epfl/chacun/game/TextMakerFr.java:93-102 | defined iff some kind has a positive count: the list text of those kinds' counts, in kind order |
| TextMaker.TextMakerFr.PlayerClosedForestWithMenhir | src/ch/epfl/chacun/game/TextMakerFr.java:115-117 | starts with the player's name and ends " placer une tuile menhir." |
| TextMaker.TextMakerFr.PlayersScoredForest | src/ch/epfl/chacun/game/TextMakerFr.java:120-130 | the majority-occupant message, then the tiles, and the mushroom groups only when there are some |
| TextMaker.TextMakerFr.PlayersScoredRiver | src/ch/epfl/chacun/game/TextMakerFr.java:133-142 | the majority-occupant message, then the tiles, and the fish only when there are some |
| TextMaker.TextMakerFr.PlayerScoredHuntingTrap | src/ch/epfl/chacun/game/TextMakerFr.java:145-151 | defined iff some animal kind is counted: the scorer's points message, then the animals |
| TextMaker.TextMakerFr.PlayerScoredLogboat | src/ch/epfl/chacun/game/TextMakerFr.java:154-160 | the scorer's points message, then the pluralized lake count |
| TextMaker.TextMakerFr.PlayersScoredMeadow | src/ch/epfl/chacun/game/TextMakerFr.java:163-165 | defined iff there are scorers and animals: the majority-occupant message, then the meadow's animals |
| TextMaker.TextMakerFr.PlayersScoredRiverSystem | src/ch/epfl/chacun/game/TextMakerFr.java:168-174 | the majority-occupant message, then the pluralized fish count |
| TextMaker.TextMakerFr.PlayersScoredPitTrap | src/ch/epfl/chacun/game/TextMakerFr.java:177-183 | defined iff there are scorers and animals: the majority-occupant message, then the animals around the pit |
| TextMaker.TextMakerFr.PlayersScoredRaft | src/ch/epfl/chacun/game/TextMakerFr.java:186-192 | the majority-occupant message, then the pluralized lake count |
| TextMaker.TextMakerFr.PlayersWon | src/ch/epfl/chacun/game/TextMakerFr.java:195-197 | defined iff there is a winner: the earn message, then " la partie avec " and the points |
| TextMaker.ForestTail | src/ch/epfl/chacun/game/TextMakerFr.java:125-129 | the tiles, then " et de ... de champignons." only when there are mushroom groups |
| TextMaker.RiverTail | src/ch/epfl/chacun/game/TextMakerFr.java:138-141 | the tiles, then " et contenant ... ." only when there are fish |
| Partition.Covered | src/ch/epfl/chacun/game/ZonePartition.java:15 | exactly the zones of the areas |
| Partition.AreaContainingIn | src/ch/epfl/chacun/game/ZonePartition.java:43-50 | an area of the set that holds the zone; IllegalArgumentException iff no area holds it |
| Partition.ZonePartition.AreaContaining | src/ch/epfl/chacun/game/ZonePartition.java:59-61 | an area of the partition that holds the zone; IllegalArgumentException iff no area holds it |
| Partition.ZonePartition.AddSingleton | src/ch/epfl/chacun/game/ZonePartition.java:91-93 | succeeds iff the open connections are not negative, and then adds the unoccupied area of the zone alone |
| Partition.ZonePartition.AddInitialOccupant | src/ch/epfl/chacun/game/ZonePartition.java:102-106 | succeeds iff an unoccupied area holds the zone, and then replaces it by its copy occupied by the colour alone |
| Partition.ZonePartition.RemoveOccupant | src/ch/epfl/chacun/game/ZonePartition.java:117-123 | succeeds iff the area holding the zone has the colour among its occupants, and then replaces it by its copy without one occurrence of the colour |
| Partition.ZonePartition.RemoveAllOccupantsOf | src/ch/epfl/chacun/game/ZonePartition.java:132-136 | succeeds iff the area is in the partition, and then replaces it by its unoccupied copy |
| Partition.ZonePartition.Union | src/ch/epfl/chacun/game/ZonePartition.java:148-159 | succeeds iff both zones are covered and their areas can be connected, and then replaces the two areas by their connection |
| Partition.ReplaceTwo | src/ch/epfl/chacun/game/ZonePartition.java:152-157 | the set without the two areas and with the new one, still without duplicates |
| Partition.AreaContainingUnique | src/ch/epfl/chacun/game/ZonePartition.java:43-50 | in a partition the area found for a zone is the one area holding it |
| Partition.ReplaceKeepsPartition | src/ch/epfl/chacun/game/ZonePartition.java:148-159 | replacing areas by one well-formed area holding exactly their zones keeps a partition of the same zones |
| Partition.AddSingletonKeepsPartition | src/ch/epfl/chacun/game/ZonePartition.java:91-93 | adding a new zone keeps a partition, now also covering the zone, whose area for the zone is the singleton |
| Partition.AddInitialOccupantKeepsPartition | src/ch/epfl/chacun/game/ZonePartition.java:102-106 | occupying an area keeps the partition and its zones, and the zone's area has the colour as only occupant |
| Partition.RemoveOccupantKeepsPartition | src/ch/epfl/chacun/game/ZonePartition.java:117-123 | removing an occupant keeps the partition and its zones, and the zone's area loses one occurrence of the colour |
| Partition.RemoveAllOccupantsOfKeepsPartition | src/ch/epfl/chacun/game/ZonePartition.java:132-136 | clearing an area keeps the partition and its zones, and the area's zones are unoccupied |
| Partition.UnionKeepsPartition | src/ch/epfl/chacun/game/ZonePartition.java:148-159 | a union keeps the partition and its zones; both zones then lie in one area, whose open connections are the two areas' (once if they are the same) less two |
| Partition.JoinedHoldsBoth | src/ch/epfl/chacun/game/ZonePartition.java:148-159 | after replacing two areas by their join, the join is the area found for each of the two zones |
| Partition.JoinKeepsPartition | src/ch/epfl/chacun/game/ZonePartition.java:148-159 | replacing two areas by a well-formed area holding exactly their zones keeps a partition of the same zones |
| Partition.UnionKeepsTogether | src/ch/epfl/chacun/game/ZonePartition.java:148-159 | a union never separates zones: two zones in one area are still in one area after it |
| Partition.JoinKeepsTogether | src/ch/epfl/chacun/game/ZonePartition.java:152-157 | two zones of one area lie in one area once two areas are replaced by their join |
| Partition.RemoveAllOccupantsOfKeepsOthers | src/ch/epfl/chacun/game/ZonePartition.java:132-136 | clearing one area keeps every other area of the partition, and its cleared copy is none of them |
| Partition.Builder.constructor | src/ch/epfl/chacun/game/ZonePartition.java:77-83 | the builder starts with the partition's areas |
| Partition.Builder.AddSingleton | src/ch/epfl/chacun/game/ZonePartition.java:91-93 | the builder's areas become those of the value addSingleton; on failure they are unchanged |
| Partition.Builder.AddInitialOccupant | src/ch/epfl/chacun/game/ZonePartition.java:102-106 | the builder's areas become those of the value addInitialOccupant; on failure they are unchanged |
| Partition.Builder.RemoveOccupant | src/ch/epfl/chacun/game/ZonePartition.java:117-123 | the builder's areas become those of the value removeOccupant; on failure they are unchanged |
| Partition.Builder.RemoveAllOccupantsOf | src/ch/epfl/chacun/game/ZonePartition.java:132-136 | the builder's areas become those of the value removeAllOccupantsOf; on failure they are unchanged |
| Partition.Builder.Union | src/ch/epfl/chacun/game/ZonePartition.java:148-159 | the builder's areas become those of the value union; on failure they are unchanged |
| Partition.Builder.Build | src/ch/epfl/chacun/game/ZonePartition.java:166-168 | a partition of the builder's current areas |
| Partitions.ZonePartitions.AddTile | src/ch/epfl/chacun/game/ZonePartitions.java:64-115 | on success every zone of the tile has a count that is not negative, and the forests, meadows and rivers hold exactly their old areas and the tile's singletons (a river ending in a lake with one connection fewer); a failure is an IllegalArgumentException |
| Partitions.ZonePartitions.ConnectSides | src/ch/epfl/chacun/game/ZonePartitions.java:125-140 | sides of different kinds are an IllegalArgumentException; two meadows or two forests join their zones' areas in that partition only; two rivers join the rivers and the river systems and the meadows crosswise (first with the other's second, second with the other's first), the forests staying; each succeeds exactly when its unions do |
| Partitions.ZonePartitions.AddInitialOccupant | src/ch/epfl/chacun/game/ZonePartitions.java:155-168 | a pawn on a lake or a hut outside water is an IllegalArgumentException; a hut occupies the river systems, a pawn the forests, meadows or rivers of its zone, as that partition's addInitialOccupant does and with its success, nothing else changing |
| Partitions.ZonePartitions.RemovePawn | src/ch/epfl/chacun/game/ZonePartitions.java:179-188 | a lake is an IllegalArgumentException; a pawn leaves the forests, meadows or rivers of its zone as that partition's removeOccupant does and with its success, nothing else changing |
| Partitions.ZonePartitions.ClearGatherers | src/ch/epfl/chacun/game/ZonePartitions.java:196-198 | succeeds iff the forest area is present, and then only that area loses its occupants |
| Partitions.ZonePartitions.ClearFishers | src/ch/epfl/chacun/game/ZonePartitions.java:206-208 | succeeds iff the river area is present, and then only that area loses its occupants |
| Partitions.ConnectSidesKeepsPartitions | src/ch/epfl/chacun/game/ZonePartitions.java:125-140 | connecting two sides keeps the four partitions and their zones, and puts the facing zones in one area: forests, meadows, or rivers in the rivers and the river systems with the meadows crosswise |
| Partitions.CrosswiseKeepsPartition | src/ch/epfl/chacun/game/ZonePartitions.java:135-136 | the two crosswise meadow unions keep a partition of the same zones and leave each pair in one area |
| Partitions.AddInitialOccupantKeepsPartitions | src/ch/epfl/chacun/game/ZonePartitions.java:155-168 | occupying keeps the four partitions and their zones, and the zone's area in the partition of the occupant kind has the colour as only occupant |
| Partitions.RemovePawnKeepsPartitions | src/ch/epfl/chacun/game/ZonePartitions.java:179-188 | removing a pawn keeps the four partitions and their zones |
| Partitions.ClearGatherersKeepsPartitions | src/ch/epfl/chacun/game/ZonePartitions.java:196-198 | clearGatherers keeps the four partitions and their zones, and the forest's zones are then unoccupied |
| Partitions.ClearFishersKeepsPartitions | src/ch/epfl/chacun/game/ZonePartitions.java:206-208 | clearFishers keeps the four partitions and their zones, and the river's zones are then unoccupied |
| Partitions.OpenConnections | src/ch/epfl/chacun/game/ZonePartitions.java:67-82 | ten counts, each the number of side occurrences (rivers with a lake counting twice, their lake once) of that local zone |
| Partitions.AddZone | src/ch/epfl/chacun/game/ZonePartitions.java:91-103 | succeeds iff the zone's own count is not negative, and then each partition gains exactly the zone's singleton by kind: a river in the rivers with one connection fewer when it ends in a lake and in the river systems with the full count, a lake in the river systems |
| Partitions.AddSingletons | src/ch/epfl/chacun/game/ZonePartitions.java:91-103 | succeeds iff every zone's own count is not negative, and then every partition gains exactly the singletons of the zones; a failure is an IllegalArgumentException |
| Partitions.UniteRiverWithLake | src/ch/epfl/chacun/game/ZonePartitions.java:108-112 | a river ending in a lake is joined with its lake in the river systems, with that union's success and nothing else changing; any other zone changes nothing |
| Partitions.UniteRiversWithLakes | src/ch/epfl/chacun/game/ZonePartitions.java:108-112 | only the river systems change (UniteRiversWithLakesJoins states which zones end up together) |
| Partitions.AddZoneKeepsPartitions | src/ch/epfl/chacun/game/ZonePartitions.java:91-103 | the singletons of a zone new to the partitions keep them partitions, now also covering the zone, the river systems gaining it iff it is water |
| Partitions.AddSingletonsKeepsPartitions | src/ch/epfl/chacun/game/ZonePartitions.java:91-103 | the singletons of distinct new zones keep four partitions, which then cover the old zones and the new ones, the river systems gaining exactly the water zones |
| Partitions.UniteRiversWithLakesJoins | src/ch/epfl/chacun/game/ZonePartitions.java:108-112 | the union loop keeps the river systems a partition of the same zones, separates no zones and leaves each river ending in a lake in one area with its lake |
| Partitions.AddTileKeepsPartitions | src/ch/epfl/chacun/game/ZonePartitions.java:64-115 | adding a tile of new zones keeps four partitions, which then cover the old zones and the tile's, the river systems gaining its water zones, and each of its rivers ending in a lake lies in one river system with its lake |
| Partitions.Builder.constructor | src/ch/epfl/chacun/game/ZonePartitions.java:50-55 | the four builders hold the four partitions, each a fresh object |
| Partitions.Builder.AddTile | src/ch/epfl/chacun/game/ZonePartitions.java:64-115 | the array loop, the singleton loop and the union loop together leave the value AddTile describes, and fail exactly when it fails |
| Partitions.Builder.AddSingletonsOf | src/ch/epfl/chacun/game/ZonePartitions.java:91-103 | the singleton loop leaves the value AddSingletons describes, every partition gaining the zones' singletons, and fails exactly when it fails |
| Partitions.Builder.AddZoneOf | src/ch/epfl/chacun/game/ZonePartitions.java:93-102 | one step of the singleton loop leaves the value AddZone describes, each partition gaining the zone's singleton, and fails exactly when it fails |
| Partitions.Builder.UniteRiversWithLakesOf | src/ch/epfl/chacun/game/ZonePartitions.java:108-112 | the union loop leaves the value UniteRiversWithLakes describes, each river ending in a lake joined with it in the river systems, and fails exactly when it fails |
| Partitions.Builder.ConnectSides | src/ch/epfl/chacun/game/ZonePartitions.java:125-140 | the builders end as ConnectSides describes (for two river sides: rivers, river systems and the meadows crosswise), and fail exactly when it fails |
| Partitions.Builder.AddInitialOccupant | src/ch/epfl/chacun/game/ZonePartitions.java:155-168 | the builders end as AddInitialOccupant describes, and fail exactly when it fails |
| Partitions.Builder.RemovePawn | src/ch/epfl/chacun/game/ZonePartitions.java:179-188 | the builders end as RemovePawn describes, and fail exactly when it fails |
| Partitions.Builder.ClearGatherers | src/ch/epfl/chacun/game/ZonePartitions.java:196-198 | the builders end as ClearGatherers describes, and fail exactly when it fails |
| Partitions.Builder.ClearFishers | src/ch/epfl/chacun/game/ZonePartitions.java:206-208 | the builders end as ClearFishers describes, and fail exactly when it fails |
| Partitions.Builder.Build | src/ch/epfl/chacun/game/ZonePartitions.java:215-217 | the value of the four builders |
| Board.IndexOfOnBoard | src/ch/epfl/chacun/game/Board.java:59-84 | every position of the board has an index in range, and distinct positions of the board distinct indexes |
| Board.NeighborsOf | src/ch/epfl/chacun/game/Board.java:259-269 | exactly the positions one step away in one of the four directions |
| Board.CandidatePositions | src/ch/epfl/chacun/game/Board.java:259-269 | exactly the neighbours of the placed tiles' positions |
| Board.CountOccupants | src/ch/epfl/chacun/game/Board.java:243-252 | no more than the number of tiles |
| Board.CountOccupantsIsCardinality | src/ch/epfl/chacun/game/Board.java:243-252 | the count is the number of tiles holding an occupant of that kind placed by that player |
| Board.IndexWithId | src/ch/epfl/chacun/game/Board.java:109-117 | the first index of a tile with that identifier; IllegalArgumentException iff there is none |
| Board.ClosedAreasOf | src/ch/epfl/chacun/game/Board.java:288-311 | exactly the closed areas of the given zones; IllegalArgumentException iff a zone lies in no area |
| Board.Board.PlacedInOrder | src/ch/epfl/chacun/game/Board.java:43-51 | the tiles of the ordered indexes, one per index |
| Board.Board.TileAt | src/ch/epfl/chacun/game/Board.java:95-98 | the tile of the cell at the position's index, present iff the index is in range and the cell full |
| Board.Board.TileWithId | src/ch/epfl/chacun/game/Board.java:109-117 | a placed tile with that identifier; IllegalArgumentException iff there is none |
| Board.Board.Occupants | src/ch/epfl/chacun/game/Board.java:133-138 | exactly the occupants of the placed tiles |
| Board.Board.ForestArea | src/ch/epfl/chacun/game/Board.java:147-149 | the forest area holding the zone; IllegalArgumentException iff none holds it |
| Board.Board.MeadowArea | src/ch/epfl/chacun/game/Board.java:158-160 | the meadow area holding the zone; IllegalArgumentException iff none holds it |
| Board.Board.RiverArea | src/ch/epfl/chacun/game/Board.java:169-171 | the river area holding the zone; IllegalArgumentException iff none holds it |
| Board.Board.RiverSystemArea | src/ch/epfl/chacun/game/Board.java:180-182 | the river system holding the water zone; IllegalArgumentException iff none holds it |
| Board.Board.AdjacentZones | src/ch/epfl/chacun/game/Board.java:209-233 | exactly the given zones whose tile is the position or one of its eight surrounding cells; IllegalArgumentException iff a zone's tile is not placed |
| Board.Board.AdjacentMeadow | src/ch/epfl/chacun/game/Board.java:227-233 | a closed area without open connections, with all the occupants of the meadow's area and exactly its zones around the position |
| Board.Board.OccupantCount | src/ch/epfl/chacun/game/Board.java:243-252 | the number of placed tiles holding an occupant of that kind placed by that player |
| Board.Board.InsertionPositions | src/ch/epfl/chacun/game/Board.java:259-269 | exactly the free positions of the board next to a placed tile |
| Board.Board.LastPlacedTile | src/ch/epfl/chacun/game/Board.java:277-279 | nothing iff the board is empty, else the last tile of the placement order |
| Board.Board.ForestsClosedByLastTile | src/ch/epfl/chacun/game/Board.java:288-294 | exactly the closed areas among those of the last tile's forests: every area it returns is one of them and closed, and every such closed area is returned; nothing on an empty board |
| Board.Board.RiversClosedByLastTile | src/ch/epfl/chacun/game/Board.java:303-311 | exactly the closed areas among those of the last tile's rivers: every area it returns is one of them and closed, and every such closed area is returned; nothing on an empty board |
| Board.Board.ConnectNeighbors | src/ch/epfl/chacun/game/Board.java:377-386 | no direction leaves the partitions; a failure is an IllegalArgumentException |
| Board.Board.ConnectNeighbor | src/ch/epfl/chacun/game/Board.java:378-385 | without a neighbour nothing changes; a neighbour whose facing side is of another kind is an IllegalArgumentException |
| Board.ConnectNeighborsRefusesMisfit | src/ch/epfl/chacun/game/Board.java:377-386 | a tile whose side does not fit a neighbour's is refused |
| Board.ConnectNeighborsKeepsPartitions | src/ch/epfl/chacun/game/Board.java:377-386 | connecting the new tile to its neighbours keeps four partitions of the same zones |
| Board.Board.WithNewTile | src/ch/epfl/chacun/game/Board.java:364-389 | refused with IllegalArgumentException unless the board is empty or the tile can be added; on success the tile is appended to the placement order, its cell alone changes, the animals stay, and the partitions are those of addTile followed by the connections to the four neighbours; an index out of range is an ArrayIndexOutOfBoundsException |
| Board.Board.WithTileInFreeCell | src/ch/epfl/chacun/game/Board.java:366-389 | placing in a free cell appends the tile, changes only its cell, and gives the partitions of addTile followed by the connections to the neighbours |
| Board.NewTileCellIsFree | src/ch/epfl/chacun/game/Board.java:319-330 | the cell of a tile that can be added is free |
| Board.AppendTileKeepsValid | src/ch/epfl/chacun/game/Board.java:366-372 | storing the tile in its free cell and appending its index keeps the board's invariant |
| Board.WithNewTileStaysOnBoard | src/ch/epfl/chacun/game/Board.java:364-389 | a board whose tiles all lie within it keeps that property through withNewTile |
| Board.WithNewTileKeepsPartitions | src/ch/epfl/chacun/game/Board.java:364-389 | a tile of new zones keeps the board's four partitions, which then also cover the tile's zones |
| Board.Board.InitialOccupantPartitions | src/ch/epfl/chacun/game/Board.java:410-412 | the placer's initial occupant added to the partitions; a tile without placer fails |
| Board.Board.WithOccupant | src/ch/epfl/chacun/game/Board.java:398-415 | refused when the tile is not placed or already occupied; on success the occupants grow by exactly the new one, the tile carries it, every other cell is unchanged, the order and animals stay, and the partitions are addInitialOccupant's with the tile's placer and the occupant's zone |
| Board.WithOccupantCountsOneMore | src/ch/epfl/chacun/game/Board.java:398-415 | the placer's count of the occupant's kind grows by one; every other count stays |
| Board.WithOccupantKeepsPartitions | src/ch/epfl/chacun/game/Board.java:398-415 | an occupant keeps four partitions of the same zones, and its zone's area then has the tile's placer as only occupant |
| Board.Board.WithoutOccupant | src/ch/epfl/chacun/game/Board.java:423-437 | refused when the tile is not placed; on success the tile loses its occupant, every other cell is unchanged, the occupants are the old ones minus that tile's occupant (exactly so when no other tile holds an equal occupant, and unchanged when it had none), the order and animals stay, and the partitions are removePawn's with the tile's placer and the occupant's zone |
| Board.WithoutOccupantCountsOneLess | src/ch/epfl/chacun/game/Board.java:423-437 | the placer's count of the removed kind drops by one; every other count stays |
| Board.WithoutOccupantKeepsPartitions | src/ch/epfl/chacun/game/Board.java:423-437 | removing an occupant keeps four partitions of the same zones |
| Board.ClearedTileFound | src/ch/epfl/chacun/game/Board.java:423-437 | replacing the tile with the identifier by its unoccupied copy adds no occupant, and tileWithId then finds that copy |
| Board.ClearedOccupants | src/ch/epfl/chacun/game/Board.java:423-437 | clearing one tile's occupant keeps every other occupant, removes nothing when it had none, and removes exactly that occupant when no other tile holds an equal one |
| Board.ReplaceTileKeepsValid | src/ch/epfl/chacun/game/Board.java:402-430 | replacing a placed tile by one at the same position keeps the board's invariant |
| Board.Board.WithTileReplaced | src/ch/epfl/chacun/game/Board.java:427-436 | the board with one placed tile replaced by one at the same position keeps the invariant, changes only that tile's cell and that entry of the placement order, and takes the given partitions |
| Board.Board.PawnIsIn | src/ch/epfl/chacun/game/Board.java:451-460 | true only for a tile holding a pawn; an area lookup failure is an IllegalArgumentException |
| Board.Board.ClearedTile | src/ch/epfl/chacun/game/Board.java:455-460 | the tile itself or its unoccupied copy, at the same place with the same placer |
| Board.Board.ClearedCells | src/ch/epfl/chacun/game/Board.java:451-462 | the cells of the loop from the j-th ordered index on, as many as the board has |
| Board.Board.ClearedCell | src/ch/epfl/chacun/game/Board.java:452-460 | only the tile's cell changes, to the unoccupied copy iff its pawn stands in a given area |
| Board.ClearedCellsMeaning | src/ch/epfl/chacun/game/Board.java:451-462 | each later tile in the placement order is kept or loses its pawn as ClearedTile says |
| Board.ClearedCellsShape | src/ch/epfl/chacun/game/Board.java:451-462 | empty cells stay empty and each placed tile is kept or loses its pawn |
| Board.ClearedBoardIsValid | src/ch/epfl/chacun/game/Board.java:447-467 | the board of cleared cells keeps the invariant and its tiles are the cleared ones |
| Board.ClearedBoardLosesOccupants | src/ch/epfl/chacun/game/Board.java:447-467 | clearing pawns adds no occupant |
| Board.Board.WithoutGatherersOrFishersIn | src/ch/epfl/chacun/game/Board.java:447-467 | each placed tile is kept or loses its pawn standing in a given area, no occupant is added, and the partitions are those left by clearing the fishers of each river and then the gatherers of each forest |
| Board.ClearFishersOf | src/ch/epfl/chacun/game/Board.java:463 | each river area loses its fishers; the forests, meadows and river systems stay |
| Board.ClearGatherersOf | src/ch/epfl/chacun/game/Board.java:464 | each forest area loses its gatherers; the rivers, meadows and river systems stay |
| Board.ClearFishersOfClears | src/ch/epfl/chacun/game/Board.java:463 | clearing distinct rivers of the partitions succeeds, keeps four partitions of the same zones, and the rivers are exactly the old ones with the given ones replaced by their unoccupied copies |
| Board.ClearGatherersOfClears | src/ch/epfl/chacun/game/Board.java:464 | the same for distinct forests: the forests are exactly the old ones with the given ones replaced by their unoccupied copies |
| Board.WithoutGatherersOrFishersInClears | src/ch/epfl/chacun/game/Board.java:447-467 | withoutGatherersOrFishersIn keeps four partitions of the same zones, with exactly the given forests and rivers replaced by their unoccupied copies |
| Board.Board.CloneCells | src/ch/epfl/chacun/game/Board.java:368 | a fresh array with the same cells |
| Board.Board.BuildWithNewTile | src/ch/epfl/chacun/game/Board.java:364-389 | the imperative withNewTile gives the value WithNewTile describes, its partitions included |
| Board.Board.ConnectAllNeighbors | src/ch/epfl/chacun/game/Board.java:377-386 | the loop over the four directions leaves the builder as ConnectNeighbors describes, and fails exactly when it fails |
| Board.Board.BuildWithOccupant | src/ch/epfl/chacun/game/Board.java:398-415 | the imperative withOccupant gives the value WithOccupant describes: the occupied tile in its cell, every other cell unchanged, and its partitions |
| Board.Board.BuildWithoutOccupant | src/ch/epfl/chacun/game/Board.java:423-437 | the imperative withoutOccupant gives the value WithoutOccupant describes: the cleared tile in its cell, every other cell unchanged, and its partitions |
| Board.Board.BuildWithoutGatherersOrFishersIn | src/ch/epfl/chacun/game/Board.java:447-467 | the imperative withoutGatherersOrFishersIn gives the value WithoutGatherersOrFishersIn describes, its cleared partitions included |
| Board.Board.ClearPawns | src/ch/epfl/chacun/game/Board.java:451-462 | the loop over the ordered indexes leaves the cells ClearedCells describes |
| Board.Board.ClearPawn | src/ch/epfl/chacun/game/Board.java:452-460 | the loop body decides as PawnIsIn does |
| Board.ClearAllFishers | src/ch/epfl/chacun/game/Board.java:463 | the forEach leaves the builder as ClearFishersOf describes, and fails exactly when it fails |
| Board.ClearAllGatherers | src/ch/epfl/chacun/game/Board.java:464 | the forEach leaves the builder as ClearGatherersOf describes, and fails exactly when it fails |
| Board.Board.WithMoreCancelledAnimals | src/ch/epfl/chacun/game/Board.java:476-482 | the cancelled animals grow by the new ones; tiles, order and partitions stay |
| Board.CancellingKeepsTileWithId | src/ch/epfl/chacun/game/Board.java:109-117 | cancelling animals leaves the tile found for any identifier unchanged, failure included |
| Board.MoreCancelledAnimalsCountFewer | src/ch/epfl/chacun/game/Board.java:476-482 | a meadow counts the animals it counted before less the newly cancelled ones |
| Board.OccupantsOf | src/ch/epfl/chacun/game/Board.java:133-138 | exactly the occupants of the given tiles |
| Board.OccupantsShrink | src/ch/epfl/chacun/game/Board.java:423-467 | tiles that are kept or lose their occupant bring no new occupant |
| Board.ForestsAsZones | src/ch/epfl/chacun/game/Board.java:288-294 | exactly the given forests |
| Board.RiversAsZones | src/ch/epfl/chacun/game/Board.java:303-311 | exactly the given rivers |
| Board.NoTiles | src/ch/epfl/chacun/game/Board.java:31-36 | n empty cells |
| Board.EmptyIsValid | src/ch/epfl/chacun/game/Board.java:31-36 | the empty board keeps the invariant, holds no occupant and offers no insertion position |
| Board.TileAtWraps | src/ch/epfl/chacun/game/Board.java:59-98 | one step east of the board's east edge, tileAt finds the cell at the west edge one row below |
| Board.TileAtOnBoard | src/ch/epfl/chacun/game/Board.java:95-98 | on a board whose tiles all lie within it, tileAt at a board position finds the tile at that position |
| Game.NewGameState | src/ch/epfl/chacun/game/GameState.java:59-71 | accepted iff there are at least two players and a tile to place exactly when the next action is to place one; otherwise IllegalArgumentException |
| Game.Initial | src/ch/epfl/chacun/game/GameState.java:81-90 | the players and decks given, no tile to place, the empty board, an empty message board, the game to start; refused with fewer than two players |
| Game.GameState.CurrentPlayer | src/ch/epfl/chacun/game/GameState.java:97-100 | the first player exactly while the game runs (neither to start nor ended) |
| Game.GameState.FreeOccupantsCount | src/ch/epfl/chacun/game/GameState.java:109-111 | the occupants of that kind a player owns less those of theirs on the board |
| Game.GameState.AreaOfOccupant | src/ch/epfl/chacun/game/GameState.java:128-135 | the area an occupant would join: its zone's forest, meadow, river for a pawn on a river, river system otherwise |
| Game.GameState.OccupantIsFree | src/ch/epfl/chacun/game/GameState.java:126-135 | false when the player has none of that kind left, else whether the area it would join is unoccupied |
| Game.GameState.LastTilePotentialOccupants | src/ch/epfl/chacun/game/GameState.java:120-138 | exactly the last tile's potential occupants of a kind the current player still has whose area is unoccupied; IllegalArgumentException on an empty board |
| Game.GameState.WithStartingTilePlaced | src/ch/epfl/chacun/game/GameState.java:148-169 | refused unless the game is to start; the first start tile goes to the origin unrotated without placer, the first normal tile is to be placed, both decks lose their top |
| Game.GameState.WithLogboatScored | src/ch/epfl/chacun/game/GameState.java:278-281 | the current player scores two points per lake of the lake's river system, on the tiles of that system |
| Game.GameState.WithHuntingTrapScored | src/ch/epfl/chacun/game/GameState.java:291-299 | the current player scores the adjacent meadow without the deer the tigers eat, and then every animal of that meadow is cancelled |
| Game.GameState.WithLogboatActed | src/ch/epfl/chacun/game/GameState.java:278-281 | the placed board with the logboat scored, the player to occupy the tile |
| Game.GameState.WithHuntingTrapActed | src/ch/epfl/chacun/game/GameState.java:291-299 | the placed board with the meadow emptied and scored, the player to occupy the tile |
| Game.GameState.WithTileAndPower | src/ch/epfl/chacun/game/GameState.java:269-302 | refused unless a tile is to be placed and the new tile holds no occupant; otherwise the tile joins the board and its power acts |
| Game.GameState.PowerActs | src/ch/epfl/chacun/game/GameState.java:277-302 | the player is to take back a pawn exactly when the tile has a shaman and they have a pawn on the board |
| Game.PowersAreExclusive | src/ch/epfl/chacun/game/GameState.java:277-302 | no tile has two of the logboat, shaman and hunting-trap powers |
| Game.LogboatScoresLakes | src/ch/epfl/chacun/game/GameState.java:278-281 | a logboat scores two points per lake of its river system and changes nothing else |
| Game.HuntingTrapEmptiesMeadow | src/ch/epfl/chacun/game/GameState.java:291-299 | a hunting trap scores the meadow around it without the eaten deer and leaves no animal of that meadow counting |
| Game.ShamanRetakesPawn | src/ch/epfl/chacun/game/GameState.java:282-290 | a shaman scores nothing, and the player is to take back a pawn exactly when they have one on the board |
| Game.OtherTilesScoreNothing | src/ch/epfl/chacun/game/GameState.java:300-301 | without logboat or hunting trap, placing a tile scores nothing and cancels no animal |
| Game.GameState.WithPlacedTile | src/ch/epfl/chacun/game/GameState.java:269-306 | refused unless a tile is to be placed and it is unoccupied; the result follows the state; taking a pawn back only after a shaman; occupying only when some occupant can go on the tile; a new tile to place always fits |
| Game.GameState.WithOccupantRemoved | src/ch/epfl/chacun/game/GameState.java:182-189 | refused unless a pawn is to be taken back and the occupant, if any, is a pawn; the board loses it, and the player occupies the tile if any occupant can go there, else the turn ends |
| Game.GameState.WithNewOccupant | src/ch/epfl/chacun/game/GameState.java:199-206 | refused unless the tile is to be occupied on a non-empty board; the occupant goes on its tile and the turn ends with a next tile that fits, or the game ends |
| Game.GameState.TurnFinishedIfOccupationImpossible | src/ch/epfl/chacun/game/GameState.java:316-319 | the state itself exactly when some occupant can go on the last tile, otherwise the turn ends |
| Game.GameState.TurnFinished | src/ch/epfl/chacun/game/GameState.java:332-388 | refused unless occupying on a non-empty board; the turn ends on a tile to place that fits, or at the end of the game; no tile is added |
| Game.GameState.TurnAfterScoring | src/ch/epfl/chacun/game/GameState.java:356-388 | the same or rotated players, messages only added, a tile to place that fits, or the end of the game |
| Game.GameState.NextPlayerTurn | src/ch/epfl/chacun/game/GameState.java:371-387 | the next player places the first fitting normal tile, or the game ends |
| Game.NextPlayerGetsFirstFittingTile | src/ch/epfl/chacun/game/GameState.java:372-382 | the next player gets the first normal tile that fits; the tiles before it are discarded |
| Game.NoFittingTileEndsGame | src/ch/epfl/chacun/game/GameState.java:383-386 | when no normal tile fits the deck is emptied and the final points are counted |
| Game.MenhirTurnGetsFirstFittingTile | src/ch/epfl/chacun/game/GameState.java:359-369 | a forest with a menhir closed by a normal tile gives the same player the first menhir tile that fits, with the menhir message |
| Game.MenhirTurnWithoutFittingTile | src/ch/epfl/chacun/game/GameState.java:359-372 | without a fitting menhir tile the menhir deck is emptied and the next player's turn follows |
| Game.Rotated | src/ch/epfl/chacun/game/GameState.java:377-378 | the same players, first one moved last |
| Game.RotationsShift | src/ch/epfl/chacun/game/GameState.java:377-378 | after k turns the first k players have moved behind the others |
| Game.EveryPlayerPlaysInTurn | src/ch/epfl/chacun/game/GameState.java:377-378 | each player in turn is current, and after as many turns as players the order is back |
| Game.CouldPlace | src/ch/epfl/chacun/game/GameState.java:360-372 | the test withTopTileDrawnUntil takes is board.couldPlaceTile |
| Game.DrawnTopCanBePlaced | src/ch/epfl/chacun/game/GameState.java:360-380 | a non-empty deck after drawing until a tile fits has a fitting top tile that can be drawn |
| Game.ClosedAreasScored | src/ch/epfl/chacun/game/GameState.java:341-353 | the messages are those of scoring the last tile's closed forests, then its closed rivers, in the given iteration order; the board is withoutGatherersOrFishersIn of those forests and rivers, adding no occupant; the menhir forest remembered is a closed forest with a menhir, present iff there is one |
| Game.ScoredForests | src/ch/epfl/chacun/game/GameState.java:344-348 | messages are only added (ScoredForestsSucceeds and ScoredForestsMessages state which) |
| Game.ScoredRivers | src/ch/epfl/chacun/game/GameState.java:351 | messages are only added (ScoredRiversSucceeds and ScoredRiversMessages state which) |
| Game.ScoredForestsSucceeds | src/ch/epfl/chacun/game/GameState.java:344-348 | scoring the forests succeeds iff every one is unoccupied or spans more than one tile |
| Game.ScoredForestsMessages | src/ch/epfl/chacun/game/GameState.java:344-348 | the earlier messages are kept and one message is appended per occupied forest, in order: forClosedForest of its tiles and mushroom groups, to its majority occupants, on its tiles |
| Game.ScoredRiversSucceeds | src/ch/epfl/chacun/game/GameState.java:351 | scoring the rivers succeeds iff every one is unoccupied or spans more than one tile |
| Game.ScoredRiversMessages | src/ch/epfl/chacun/game/GameState.java:351 | the earlier messages are kept and one message is appended per occupied river, in order: forClosedRiver of its tiles and fish, to its majority occupants, on its tiles |
| Game.LastWithMenhir | src/ch/epfl/chacun/game/GameState.java:343-348 | the last of the forests holding a menhir, none iff none does |
| Game.ScoreForests | src/ch/epfl/chacun/game/GameState.java:344-348 | the loop gives ScoredForests, one forClosedForest message per occupied forest in order, and remembers LastWithMenhir |
| Game.ScoreRivers | src/ch/epfl/chacun/game/GameState.java:351 | the loop gives ScoredRivers, one forClosedRiver message per occupied river in order |
| Game.ScoreClosedAreas | src/ch/epfl/chacun/game/GameState.java:341-353 | the imperative scoring gives ClosedAreasScored: the forests' and rivers' messages and the board cleared of their gatherers and fishers |
| Game.DeerOf | src/ch/epfl/chacun/game/GameState.java:210-211 | exactly the deer among the animals |
| Game.Take | src/ch/epfl/chacun/game/GameState.java:216-222 | the first n elements, all when there are fewer |
| Game.DeersToCancelCount | src/ch/epfl/chacun/game/GameState.java:208-223 | DeersToCancel gives only deer of the meadow, as many as the tigers or all of them |
| Game.DeersToCancelWithPitTrap | src/ch/epfl/chacun/game/GameState.java:225-254 | a failure is an IllegalArgumentException (PitTrapCancelsFarDeerFirst states the choice) |
| Game.PitTrapCancelsFarDeerFirst | src/ch/epfl/chacun/game/GameState.java:238-253 | FarDeerFirst gives only deer, as many as the tigers or all; deer far from the pit trap go first |
| Game.PitTrapOf | src/ch/epfl/chacun/game/GameState.java:406 | a pit-trap zone of the meadow area |
| Game.MeadowDeer | src/ch/epfl/chacun/game/GameState.java:404-421 | the deer one meadow area loses: none under a wild fire, those deersToCancelWithPitTrap picks with a pit trap, those deersToCancel picks otherwise; a failure is an IllegalArgumentException |
| Game.MeadowScores | src/ch/epfl/chacun/game/GameState.java:409-423 | what one meadow area writes on the board with its deer cancelled: without pit trap exactly its meadow score; at most two scores |
| Game.MeadowsDeer | src/ch/epfl/chacun/game/GameState.java:402-425 | the deer of all meadow areas together; a failure is an IllegalArgumentException |
| Game.MeadowsScores | src/ch/epfl/chacun/game/GameState.java:402-425 | the meadow areas' scores in turn, each on the board with its own and earlier deer cancelled; at most two per area |
| Game.PitTrapBoard | src/ch/epfl/chacun/game/GameState.java:409-414 | without a wild fire, succeeds iff deersToCancelWithPitTrap does and cancels exactly the deer it picks; under a wild fire, the board is unchanged |
| Game.ScoredAroundPitTrap | src/ch/epfl/chacun/game/GameState.java:417-418 | succeeds iff the adjacent meadow exists, and appends exactly the pit-trap score of that meadow, then the score of the whole area, counting the animals not cancelled |
| Game.ScoredPitTrapMeadow | src/ch/epfl/chacun/game/GameState.java:409-424 | without a wild fire, the deer deersToCancelWithPitTrap picks are cancelled; the pit-trap tile is looked up on the board before, the adjacent meadow on the board after, and the pit-trap score then the meadow score are appended |
| Game.ScoredPlainMeadow | src/ch/epfl/chacun/game/GameState.java:419-424 | the cancelled animals grow by exactly the deer deersToCancel picks (none under a wild fire), and the meadow score on that board is appended |
| Game.ScoredMeadow | src/ch/epfl/chacun/game/GameState.java:402-425 | one meadow area: the board loses exactly the deer MeadowDeer picks, and exactly the scores MeadowScores gives on that board are appended (pit trap first, then the area) |
| Game.ScoredMeadows | src/ch/epfl/chacun/game/GameState.java:402-425 | the meadow loop: the board loses exactly the deer MeadowsDeer gathers, and the messages appended are exactly MeadowsScores, area after area in order |
| Game.ScoredRiverSystem | src/ch/epfl/chacun/game/GameState.java:432-434 | succeeds iff the raft (if any) can be scored; appends exactly the fish score, then the raft score when the system has a raft |
| Game.ScoredRiverSystems | src/ch/epfl/chacun/game/GameState.java:429-435 | the river-system loop succeeds iff every system can score its raft, and appends exactly RiverSystemScores, system after system in order |
| Game.MaxOver | src/ch/epfl/chacun/game/GameState.java:438 | the largest of the points of the listed colours, none iff none of them has points |
| Game.WinnersHaveTheMostPoints | src/ch/epfl/chacun/game/GameState.java:437-443 | Winners holds a player iff nobody has more points, each with MaxPoints; somebody wins iff somebody scored |
| Game.WinnersExistOnceScored | src/ch/epfl/chacun/game/GameState.java:437-443 | there are winners exactly when somebody scored |
| Game.WinnersAnnounced | src/ch/epfl/chacun/game/GameState.java:437-444 | a message scoring nothing whose text names the winners and their points; refused when nobody scored |
| Game.GameState.FinalPointsCounted | src/ch/epfl/chacun/game/GameState.java:396-447 | the game ended without tile to place, the same players and decks, only animals cancelled, and messages strictly added (the scores appended are stated by FinalScoresInOrder) |
| Game.FinalScoresInOrder | src/ch/epfl/chacun/game/GameState.java:396-445 | the final board loses exactly the meadows' deer, and the messages appended are the meadow scores in order, then each river system's fish and raft scores in order, then the winners' message worth nothing |
| Game.FinalMessageNamesWinners | src/ch/epfl/chacun/game/GameState.java:396-447 | the last message scores nothing and names as winners exactly the players whom nobody outscores |
| Game.GameState.CountFinalPoints | src/ch/epfl/chacun/game/GameState.java:396-447 | the two loops give FinalPointsCounted |
| Game.GameState.PlacedOnWith | src/ch/epfl/chacun/game/GameState.java:286-305 | a state built on the placed board, with animals cancelled and messages added, is one placement leaves |
| Wrappers.CheckArgument | src/ch/epfl/chacun/game/Preconditions.java:19-21 | success exactly when the condition holds, else IllegalArgumentException |
| Game.UnplacedOccupantCount | src/ch/epfl/chacun/game/GameState.java:109-111 | no more than the number of tiles: what the board counts for a null player |
| Collections.RemoveFirst | src/ch/epfl/chacun/logic/GameLobby.java:82 | the list with one occurrence of the element fewer, unchanged when it is absent |
| Scores.MeadowScore | src/ch/epfl/chacun/game/MessageBoard.java:56-90 | at most one score, present iff the meadow is occupied and holds an uncancelled mammoth, aurochs or deer |
| Scores.RiverSystemScore | src/ch/epfl/chacun/game/MessageBoard.java:290-302 | at most one score, present iff the system is occupied and holds fish |
| Scores.RaftScore | src/ch/epfl/chacun/game/MessageBoard.java:311-322 | at most one score, present iff the system is occupied and has a raft |
| Scores.RiverSystemScores | src/ch/epfl/chacun/game/GameState.java:429-435 | each system's fish score then raft score, in order; at most two per system |
| Scores.ExtendsTrans | src/ch/epfl/chacun/game/MessageBoard.java:131-151 | two appends in a row append both score lists in order |
| Scores.ScoredMeadowAppends | src/ch/epfl/chacun/game/MessageBoard.java:267-269 | withScoredMeadow appends exactly MeadowScore and keeps the text maker |
| Scores.ScoredPitTrapAppends | src/ch/epfl/chacun/game/MessageBoard.java:279-281 | withScoredPitTrap appends exactly the MeadowScore of the adjacent meadow and keeps the text maker |
| Scores.ScoredRiverSystemAppends | src/ch/epfl/chacun/game/MessageBoard.java:290-302 | withScoredRiverSystem appends exactly RiverSystemScore and keeps the text maker |
| Scores.ScoredRaftAppends | src/ch/epfl/chacun/game/MessageBoard.java:311-322 | on a system with a raft, withScoredRaft succeeds iff the raft can be scored, and then appends exactly RaftScore |

## Left out

- **Sockets and threads.** Sockets, selector loops, completion handlers and the executor thread are not modelled. Neither are the ScheduledThreadPoolExecutor that runs the watcher every minute and the `synchronized` and concurrent maps. Every registry is updated sequentially, one call at a time.
- **Clock and wall time.** `System.currentTimeMillis()` and `Date.getTime()` are an integer parameter `now`, unbounded rather than a 64-bit long.
- **The selector-loop server draft.** src/ch/epfl/chacun/server/WebSocketServer.java and the other server drafts are not part of this model. Routing is modelled from src/ch/epfl/chacun/WebSocketServer.java.
- **What the server sends.** Sends are recorded as lists of deliveries, not written to sockets: replies to the sender in one list, broadcasts in the broadcaster's list, watcher steps in the watcher's. The interleaving of the three lists is not kept.
- **The pong frame.** `sendPong` is recorded as a `PongFrame` delivery, not as the bytes 0x8A 0x00. `RFC6455.PingPongFrames` states those bytes.
- **Console output.** `System.out` logging is not modelled.
- **Unreachable branch of onClose.** Its broadcast branch is left out: a leave is never broadcast, and `Sessions.LeaveGame` proves it.
- **The engine's start state.** The OnGoingGame constructor shuffles `Tiles.TILES` with a generator seeded by the game name's hash and splits the tiles into decks. Neither the shuffle nor the tile list is shown. The start state is a parameter of `Lobbies.GameLobby.StartGame` and of the game logic.
- **Hash iteration orders.** The order of HashMap and HashSet iteration is a parameter. The model proves what holds for every order, not which order Java would take. This covers:
  - which deer a tiger eats;
  - the order of scoring messages;
  - the player order of a lobby rebuilt from a game;
  - the index of a pawn in the removal list.
- **References that do not resolve in the sources.** `ServerAction.GAMEMSG_DENY`, a one-argument GameActionData constructor and `GameLobby(String, Collection)` are referenced but not defined. `addPlayer`'s ServerActionWithData is also used where GameActionData is expected. The model adds `GameMsgDeny` apart from the declared actions, builds a bare reply, builds the lobby from the listed names, and converts the lobby reply with `ActionData.ServerActionWithData.AsGameActionData`. `TextEncoder.encodeToPayload` (src/ch/epfl/chacun/server/rfc6455/TextEncoder.java:15) reads `PayloadData.OpCode.TEXT`, but PayloadData declares no nested OpCode; the model uses the text opcode 0x1, as the comment on that line says. `RFC6455.parsePayload` (src/ch/epfl/chacun/server/rfc6455/RFC6455.java:115) passes RFC6455's nested `OpCode` where PayloadData's component is the package's own `OpCode`; the model has one opcode type, so TEXT is 0x1 on both sides.
- **SHA-1 and Base64.** These are parameters of `UpgradeHandshake.GenerateResponse`. The example key/accept pair of section 1.3 of RFC 6455 cannot be proved without them.
- **Buffer mechanics and charsets.** ByteBuffer positions, flips and slices are not modelled beyond the decoder's read position, and neither are platform charsets. Text is a sequence of bytes.
- **The unmasked branch of RFC6455.decodeText.** It calls `array()` on a read-only buffer, which throws. It is the `ReadOnlyBuffer` failure.
- **WebSocketDataCodec.WebSocketData.DecodeText: the `limit <= 0` check.** Its early return of "" is not modelled: a frame that has its two header bytes never takes it.
- **TextMaker.ClickToOccupy and TextMaker.ClickToUnoccupy.** They are plain string constants, with nothing to state about them.
- **Split-out helper methods.** The Java switch in GameLogic.applyAction and the server's handlers are split into one method per branch or call. Each method is proved against the function of its branch.
- **ActionCodec.PlacementRoundTrip.** It requires the tile's index among the sorted insertion positions to be below 256. Two Base32 symbols hold only ten bits, two of which carry the rotation, so a larger index cannot be encoded; the Java does not check this.
- **ActionCodec.OccupantRemovedRoundTrip.** It requires the pawn's index among the sorted occupants to be below 31, because index 31 means "no pawn" (`ActionCodec.RemovalActionCollides`). It also requires the pawn's tile to be found by `tileWithId` and placed by the current player. The Java does not tie an occupant's zone id to a placed tile.
- **ActionCodec.NewOccupantRoundTrip.** It requires that no other potential occupant of the last tile has the same kind and local zone id. The Java does not rule this out, and the decoder picks the first match.
- **ActionCodec.EncodedOccupantRemovedApplies.** It carries the same requirements as `ActionCodec.OccupantRemovedRoundTrip`, for the same reasons.
- **Partitions.ZonePartitions.AddTile.** Its contract gives the new forests, meadows and rivers exactly. For the river systems it does not give the exact areas after the rivers are joined with their lakes. `Partitions.AddTileKeepsPartitions` states what holds there: the zones covered, and each river ending in a lake in one system with its lake.
- **Board.Board.Valid.** The board invariant does not tie the partitions to the zones of the placed tiles. The Java board is reached only from the empty board through withNewTile. The model instead proves that each transition keeps four partitions and states which zones they then cover (`Board.WithNewTileKeepsPartitions`, `Board.WithOccupantKeepsPartitions`, `Board.WithoutOccupantKeepsPartitions`, `Board.WithoutGatherersOrFishersInClears`).
- **Board.Board.WithNewTile.** There is no lemma that a tile accepted by canAddTile at a position on the board is always placed. On a board that satisfies only the invariant, the neighbours' zones may be missing from the partitions, and then the unions fail.
- **WebSocketDataCodec.WebSocketData.constructor.** It requires the two header bytes. `WebSocketDataCodec.FromBuffer` models `new WebSocketData(buffer)` on any buffer, and a shorter buffer is its BufferUnderflowException.
- **Java int overflow in the engine.** Points, counts and identifiers are unbounded integers. The values the game reaches are far below 2^31, so overflow is not modelled. Byte and short arithmetic in the codecs is modelled explicitly.
- **Server.TimeoutWatcher.Run.** A Terminate step is only recorded; the synchronous `onClose` that `terminate()` triggers (src/ch/epfl/chacun/server/websocket/WebSocketChannel.java:146-150) is not followed. In the source that `onClose` runs `removeClient` (src/ch/epfl/chacun/WebSocketServer.java:72) while `clientDelays.forEach` is still iterating (src/ch/epfl/chacun/WebSocketServer.java:94); by HashMap's documented behaviour this ends in a ConcurrentModificationException, after which the watcher scheduled with `scheduleAtFixedRate` (src/ch/epfl/chacun/WebSocketServer.java:28) runs no later round. Not executed.
- **Game.GameState.FinalPointsCounted.** Its own contract states the shape of the ended game and that messages are only added; which scores are appended, in which order, is stated by the lemma `Game.FinalScoresInOrder` about the same function, kept apart so that each proof stays small.
