# bserver: messages, frames, dispatch, and the Python bindings

This project models the push server's own logic and proves what it is relied on for:
the Protocol Buffers messages it speaks, the frames they travel in, the request and
reply protocol over both, and the registry, converters and argument cursor of its
Python bindings. `dafny verify dfyconfig.toml` checks all of it.

- `Wire`, `HasBits`, `Codec`, `Serialize`, `FieldOrder`, `Growth`: what a message means. A byte string
  is a sequence of records, parsing is a fold of them, a message is one optional value
  per field and the unknown records. The wire primitives follow the Protocol Buffers
  Encoding specification (sections "Base 128 Varints", "Message Structure",
  "Length-Delimited Records", "Last One Wins" and "Field Order") and come with their inverses.
- `Streams`, `Leaf` (module `Leaves`), `Packet` (module `Packets`), `Schemas`: the generated
  classes, with presence bits in a 32-bit word, nullable strings and sub-messages, and
  cached sizes. Each method is proved against the meaning above. The generated code is
  one routine unrolled per message; here it is one class for all messages without
  sub-messages and one for `ServicePacket`, each driven by the message's descriptor.
- `Frames`: header, length gate, read loop and write queue of a session.
- `Handlers`, `Envelopes`, `FanOut`, `Dispatch`: what is answered to a frame, and to whom.
- `Protocol`: the same exchange as a peer sees it, by literal command, type and field, stated
  without the functions that specify the handlers.
- `Workers`: the task queue and the workers behind it, as steps that may come in any order.
- `Registry`, `Conversion`, `Arguments`: the Python bindings.
- `Base64`, `Strings`: the encoder, and the in-place replacement of a pattern.

Results of HTTP calls, database queries, the clock, JSON and Python calls, the session
lookup and unique numbers are parameters (`Handlers.World`, `Dispatch.Outside`): every
statement is for all of them.

Where the code does not do what one would expect, the model follows the code:

- The reader's test for a negative body size never fires, because the size is unsigned;
  the other half of the test refuses those lengths all the same (`Frames.LengthGate`).
  For the twelve smallest lengths the subtraction overflows a signed integer, which is
  modelled as two's-complement wrap.
- No sender checks the size of a body. One above 2^20 bytes closes the peer's session, so a
  list of frames is recovered exactly when it has none (`Frames.StreamFraming`).
- A frame's length word is cut to 32 bits, so a body of 2^32 bytes or more may pass the gate
  as a shorter one, and the rest of it is taken for the next frame (`Frames.AnyFrameRead`).
- The guard of the group task compares the type with 27 and 29 by "or", so every group
  request on command 7818 is refused (`Envelopes.GroupParser`).
- A database error is put into a packet with status -1, and that packet is then thrown away:
  the peer gets an empty body (`Envelopes.QueryErrorSilent`).
- With more than one worker replies may overtake each other, so they can be told apart only by
  their serial numbers (`Workers.InOrderIffOneWorker`, `Dispatch.SerialNumberTells`).
- A task taken off an overfull queue is answered by nothing, not even a busy notice; and replies
  are written only to connections that this server opened itself, because they are looked up in
  the map of those alone (`Dispatch.StreamToStream`, `src/task_responser.cpp:131-154`).
- Messages that are fanned out never have their required status, so a receiver that asks
  for required fields refuses them (`FanOut.BodyReads`).
- A map whose keys are vectors or maps comes back from Python without its entries, because
  such keys cannot be hashed and the failure is not looked at (`Conversion.RoundTripIff`
  says exactly when a value survives).
- A class whose base is registered after it misses what the base inherits
  (`Registry.CompleteIff` says exactly when).
- A pointer kept from `mutable_x` and written through after `clear_x` leaves hidden contents
  behind (`Packets.Packet.StalePointer` and `Leaves.TextWritten` say exactly when).
- `release_x` of an absent sub-message gives null or a recycled empty object, so there a
  caller can tell them apart (`Packets.Packet.ReleaseChild`).
- A Unicode object that cannot be encoded is read as an empty string, without an error
  (`Conversion.TextOf`).

## Model

| member | source | states |
|---|---|---|
| Wire.VarintRoundTrip | proto/ServicePacket.pb.cc:5598-5605 | Reading a varint inverts writing it, whatever follows, when it fits the reader's byte budget. |
| Wire.VarintFits | proto/ServicePacket.pb.cc:5984-5988 | A 64-bit value takes at most ten bytes and a 32-bit one at most five. |
| Wire.TokenizeInvertsEncode | proto/ServicePacket.pb.cc:5796-5879 | Every sequence of valid records, nested groups included, is recovered from its encoding. |
| Wire.TokenizeValid | proto/ServicePacket.pb.cc:5780-5789 | Whatever a parse yields is in range: 29-bit numbers, non-zero tags, payloads of the right size. |
| Wire.TokenizeConcat | proto/ServicePacket.pb.cc:5591-5794 | Concatenated byte strings spell the concatenated records, and fail only if the second part does. |
| Wire.OneByteTag | proto/ServicePacket.pb.cc:5984-5994 | A tag takes one byte exactly for the field numbers up to 15, which justifies the constant 1 in the size computation. |
| Wire.VarintDigits | proto/ServicePacket.pb.cc:5598-5605 | A varint spells its number in base 128, lowest digit first, every byte but the last with its top bit set, and no digit to spare. |
| Wire.ReadVarintDigits | proto/ServicePacket.pb.cc:5598-5605 | A varint is read exactly when one ends within ten bytes, as the low 64 bits of what its bytes spell. |
| Wire.RecordLayout | proto/ServicePacket.pb.cc:3384-3416 | A record is written as 8 n + 0, 1, 2, 3 or 5 and its payload; a group is closed by 8 n + 4. |
| Wire.RecordTag | proto/ServicePacket.pb.cc:3400-3452 | Up to field number 15 the first byte of a record is 8 n plus 0 for a varint, 1 for eight bytes, 2 for a length, 3 for a group, 5 for four bytes. |
| Wire.VarintByTag | proto/ServicePacket.pb.cc:3437-3449 | After the byte 8 n a varint is read. |
| Wire.Fixed64ByTag | proto/ServicePacket.pb.cc:3405-3416 | After the byte 8 n + 1 exactly eight bytes are read, or the record fails. |
| Wire.LengthByTag | proto/ServicePacket.pb.cc:3388-3396 | After the byte 8 n + 2 the low 32 bits of a varint say how many bytes are read; 2^31 and more fail, as does too short an input. |
| Wire.GroupByTag | proto/ServicePacket.pb.cc:5780-5789 | After the byte 8 n + 3 records are read up to the byte 8 n + 4. |
| Wire.Fixed32ByTag | proto/ServicePacket.pb.cc:5780-5789 | After the byte 8 n + 5 exactly four bytes are read, or the record fails. |
| Wire.NoRecordByTag | proto/ServicePacket.pb.cc:5780-5789 | Zero, a group's end without a group, and the two unused wire types start no record. |
| HasBits.HasSetAll | proto/ServicePacket.pb.h:1924-1926 | Setting a presence bit sets that bit and no other. |
| HasBits.HasUnsetAll | proto/ServicePacket.pb.h:5293-5295 | Clearing a presence bit clears that bit and no other. |
| HasBits.LowGroupMask | proto/ServicePacket.pb.cc:5546-5546 | The 0xff mask is zero exactly when no field of the first group of eight is present. |
| HasBits.HighGroupMask | proto/ServicePacket.pb.cc:5570-5570 | The 0xff00 mask is zero exactly when no field of the second group is present. |
| HasBits.MaskTest | proto/connect_server.pb.cc:1338-1343 | The required-fields masks 0x1, 0x7 and 0xf pass exactly when every required bit is set. |
| Codec.NumbersAreCut | proto/ServicePacket.pb.cc:5600-5603 | A varint too wide for an int32 or int64 field is cut to the field's width, in two's complement. |
| Codec.MergeAssoc | proto/ServicePacket.pb.cc:6100-6146 | Merging messages is associative, to any nesting depth. |
| Codec.MergeEmptyLeft | proto/ServicePacket.pb.cc:6154-6158 | Merging into an empty message gives the merged one, which is why a copy is clear-then-merge. |
| Codec.MergeBytesIsMerge | proto/ServicePacket.pb.cc:5591-5794 | Parsing bytes into a message is merging what the bytes say on their own. |
| Codec.MergeBytesConcat | proto/ServicePacket.pb.cc:5591-5794 | Parsing a + b into a message is parsing a, then b. |
| Codec.ConcatenationIsMerge | proto/ServicePacket.pb.cc:5591-5794 | When a parses, a + b parses exactly when b does, and to the merge of the two messages: last scalar wins, sub-messages merge, unknown records append. |
| Codec.MergeBytesStep | proto/ServicePacket.pb.cc:5596-5610 | Parsing is reading one tag and going on after it; a malformed or zero tag fails. |
| Serialize.RoundTrip | proto/ServicePacket.pb.cc:5591-5879 | For every message of every schema, any presence pattern, nesting, negative numbers and unknown records included, parsing its encoding gives it back exactly. |
| Serialize.EncodeInjective | proto/ServicePacket.pb.cc:5796-5879 | Different messages never share an encoding. |
| Growth.TokenizeShort | proto/ServicePacket.pb.cc:5591-5794 | Records written again are never longer than the bytes they were read from, overlong varints and nested groups included. |
| Growth.MergeBytesGrows | proto/ServicePacket.pb.cc:5591-5879 | Reading bytes into a message makes its encoding longer by at most twice their length, to any nesting depth. |
| Growth.ReencodingBound | proto/ServicePacket.pb.cc:5591-5879 | What was parsed is at most twice as long when it is written. |
| Growth.NormalForm | proto/ServicePacket.pb.cc:5780-5879 | Every accepted input below 2^30 bytes, written out and read again, is the same message, and writing that changes no byte. |
| Serialize.NormalFormOf | proto/ServicePacket.pb.cc:5780-5879 | The same for longer inputs, as long as the written form can be read back at all. |
| Serialize.EncodingsMerge | proto/ServicePacket.pb.cc:6100-6146 | Two encodings one after the other parse to the merge of their messages. |
| Serialize.NegativeTakesTen | proto/ServicePacket.pb.cc:5984-5988 | A negative int32 always takes ten bytes. |
| Serialize.FieldSizeExact | proto/ServicePacket.pb.cc:5979-6086 | The size added per field is the exact length of that field's record. |
| Serialize.FieldLayout | proto/ServicePacket.pb.cc:5796-5879 | Field k is written as one byte, 8 (k + 1) plus 0, 1 or 2 by its type, and its value: a varint of the 64-bit two's complement, eight bytes, or a length and that many bytes. |
| Serialize.MessageLayout | proto/ServicePacket.pb.cc:5796-5879 | A message is written as its present fields in the order of their numbers, then its unknown records. |
| Serialize.AbsentRun | proto/ServicePacket.pb.cc:6040-6040 | A run of absent fields writes nothing, so skipping a whole group is sound. |
| FieldOrder.AcceptedByField | proto/connect_server.pb.cc:1036-1140 | Records are accepted exactly when each field's own records are. |
| FieldOrder.ResultByField | proto/connect_server.pb.cc:1036-1140 | The parsed value of a field depends only on that field's records, in their order. |
| FieldOrder.OrderIndependence | proto/connect_server.pb.cc:1488-1612 | Two record sequences with the same records per field and the same unknown records parse alike. |
| FieldOrder.PermutedFields | proto/connect_server.pb.cc:1036-1140 | Any permutation of distinct fields parses to the same message. |
| FieldOrder.InitializedIffRequiredOccur | proto/connect_server.pb.cc:1338-1343 | An accepted input is initialized exactly when every required field occurs in it. |
| FieldOrder.UnknownSurvive | proto/ServicePacket.pb.cc:5780-5789 | The unknown records of a parsed message are the unclaimed records of the input, in order. |
| Streams.CodedInputStream.ReadTag | proto/ServicePacket.pb.cc:5596-5596 | Reads the next tag, and tells the end of the input from a malformed tag. |
| Streams.CodedInputStream.ExpectTag | proto/ServicePacket.pb.cc:5608-5608 | Consumes the expected one-byte tag if it is the very next byte, and nothing otherwise. |
| Streams.CodedInputStream.ExpectAtEnd | proto/ServicePacket.pb.cc:5776-5776 | Is true exactly at the end of the input. |
| Streams.CodedInputStream.ReadVarint64 | proto/ServicePacket.pb.cc:5601-5603 | Reads a varint of at most ten bytes, or fails. |
| Streams.CodedInputStream.ReadRaw | proto/ServicePacket.pb.cc:3405-3412 | Reads exactly that many bytes, or fails. |
| Streams.CodedInputStream.ReadString | proto/ServicePacket.pb.cc:3391-3393 | Reads a length prefix and that many bytes, or fails. |
| Streams.CodedInputStream.SkipField | proto/ServicePacket.pb.cc:5786-5787 | Reads the payload of any tag, nested groups included, or fails. |
| Streams.CodedInputStream.PushLength | proto/ServicePacket.pb.cc:5611-5625 | Restricts the input to exactly the bytes a length prefix announces. |
| Streams.CodedInputStream.PopLimit | proto/ServicePacket.pb.cc:5611-5625 | Gives back the rest of the input after a sub-message. |
| Streams.WriteToArray | proto/ServicePacket.pb.cc:5881-5977 | Writes the bytes at their place and nothing outside it. |
| Leaves.InitializedView | proto/connect_server.pb.cc:1338-1343 | The mask test on the presence word decides whether the message is initialized. |
| Leaves.ScalarRead | proto/ServicePacket.pb.cc:3391-3402 | What each kind of scalar field makes of its payload. |
| Leaves.UnclaimedThenRest | proto/ServicePacket.pb.cc:809-818 | A record that no field claims is kept if it can be read at all. |
| Leaves.ExpectedTag | proto/ServicePacket.pb.cc:638-660 | A first byte that is the next field's tag is a full tag read of that field. |
| Leaves.Leaf.GetText | proto/ServicePacket.pb.h:1936-1938 | A string accessor shows the field's value, or the default when it is absent, without looking at the presence bit. |
| Leaves.Leaf.GetNumber | proto/ServicePacket.pb.h:4238-4240 | The same for numbers. |
| Leaves.Leaf.GetDouble | proto/ServicePacket.pb.h:4194-4196 | The same for doubles. |
| Leaves.Shown | proto/ServicePacket.pb.h:1936-1938 | An absent field shows no bytes, 0, or eight zero bytes; a present one its value. |
| Leaves.Leaf.HasField | proto/ServicePacket.pb.h:1921-1923 | The presence bit says whether the message has the field. |
| Leaves.Leaf.SetField | proto/ServicePacket.pb.h:1939-1945 | Sets that field and changes no other. |
| Leaves.Leaf.MutableText | proto/ServicePacket.pb.h:1960-1966 | Makes a string present with the contents the accessor showed. |
| Leaves.TextWritten | proto/ServicePacket.pb.h:1930-1966 | A string written through its pointer is the new value of a present field; of an absent one it does no harm exactly when it is left empty. |
| Leaves.Leaf.ClearField | proto/ServicePacket.pb.h:1930-1935 | Drops that field and leaves its slot at the default value. |
| Leaves.Leaf.ReleaseText | proto/ServicePacket.pb.h:1967-1976 | Hands over the field's own string, null exactly when it has none, and drops the field; what is handed over is what the accessor showed. |
| Leaves.Leaf.SetAllocatedText | proto/ServicePacket.pb.h:1977-1990 | Adopts a string, or drops the field for a null pointer. |
| Leaves.Leaf.ClearGroup | proto/ServicePacket.pb.cc:584-621 | One group of Clear leaves its slots at the defaults and touches no other. |
| Leaves.Leaf.Clear | proto/ServicePacket.pb.cc:583-636 | Clear is a full reset although groups without a present field are skipped. |
| Leaves.Leaf.Swap | proto/ServicePacket.pb.cc:1173-1189 | Exchanges two messages, cached sizes included. |
| Leaves.Leaf.IsInitialized | proto/connect_server.pb.cc:1834-1839 | True exactly when all required fields are present. |
| Leaves.Leaf.MergeOne | proto/ServicePacket.pb.cc:1119-1144 | One field of MergeFrom is merged if the source has it. |
| Leaves.Leaf.MergeGroup | proto/ServicePacket.pb.cc:1119-1144 | One group of MergeFrom merges its fields and no others. |
| Leaves.Leaf.MergeFrom | proto/ServicePacket.pb.cc:1117-1154 | The result is the merge of the two messages. |
| Leaves.Leaf.CopyFrom | proto/ServicePacket.pb.cc:1162-1166 | Equal to the source afterwards, whatever was there before. |
| Leaves.Leaf.GroupSize | proto/ServicePacket.pb.cc:1020-1077 | One group adds exactly the length of its fields' records. |
| Leaves.Leaf.ByteSize | proto/ServicePacket.pb.cc:1017-1103 | The exact length of the encoding, remembered in the cached size. |
| Leaves.Leaf.SlotBytes | proto/ServicePacket.pb.cc:825-914 | What the serializer writes for a present field is that field's record. |
| Leaves.Leaf.SerializeWithCachedSizes | proto/ServicePacket.pb.cc:825-914 | Appends exactly the encoding of the message to the stream. |
| Leaves.Leaf.SerializeWithCachedSizesToArray | proto/ServicePacket.pb.cc:916-1015 | Writes the same bytes into an array, and nothing outside them. |
| Leaves.Leaf.SerializeToString | httpclient/server_service_responser.cpp:84-84 | The result is the encoding. |
| Leaves.Leaf.ReadFieldInto | proto/ServicePacket.pb.cc:3388-3402 | One case body does to message and input what the field's record does. |
| Leaves.Leaf.ReadFieldRun | proto/ServicePacket.pb.cc:645-808 | A run of case bodies entered by jumps does what the remaining tag-by-tag parse does, or ends with the rest still to be parsed. |
| Leaves.Leaf.KeepUnknown | proto/ServicePacket.pb.cc:809-818 | The default case appends the record to the unknown ones. |
| Leaves.Leaf.MergePartialFromCodedStream | proto/ServicePacket.pb.cc:638-823 | On every byte string the parser with its shortcuts accepts, rejects and yields what the plain read-and-dispatch loop does. |
| Leaves.Leaf.ParsePartialFromString | proto/ServicePacket.pb.cc:638-823 | Whatever the object held, it accepts what parses, and holds that then. |
| Leaves.Leaf.ParseFromString | httpclient/server_service_responser.cpp:46-46 | Accepts exactly the initialized messages, and holds that message then, whatever was there before. |
| Packets.SetBodyView | proto/ServicePacket.pb.h:5303-5307 | Making a sub-message present changes that field of the packet and keeps the packet coherent. |
| Packets.UnsetBodyView | proto/ServicePacket.pb.h:5296-5299 | Dropping a sub-message keeps the packet coherent when it is left null or cleared. |
| Packets.AbsentEdit | proto/ServicePacket.pb.h:5296-5307 | An absent sub-message keeps the packet coherent exactly when it is empty. |
| Packets.PacketInitialized | proto/ServicePacket.pb.cc:6160-6164 | The mask 0x1 decides whether a packet is initialized. |
| Packets.Packet.SetType | proto/ServicePacket.pb.h:5281-5284 | Sets the type and nothing else. |
| Packets.Packet.ClearType | proto/ServicePacket.pb.h:5274-5277 | Drops the type, leaves it at zero, and changes nothing else. |
| Packets.Packet.BodyIsField | proto/ServicePacket.pb.h:5300-5302 | A sub-message accessor shows the field, and an empty message when the field is absent, recycled or not. |
| Packets.Packet.GetChild | proto/ServicePacket.pb.h:5300-5302 | The accessor's object shows that. |
| Packets.Packet.MutableChild | proto/ServicePacket.pb.h:5303-5307 | Makes the field present with what the accessor showed; a recycled object cannot be told from a new one. |
| Packets.Packet.ClearChild | proto/ServicePacket.pb.h:5296-5299 | Drops the field, keeps and clears the object. |
| Packets.Packet.ReleaseChild | proto/ServicePacket.pb.h:5308-5313 | Gives the object itself away, null exactly when there is none, leaves a null pointer, and drops the field; the object shows what the accessor showed, so a recycled one of an absent field is empty, and another packet can adopt it. |
| Packets.Packet.SetAllocatedChild | proto/ServicePacket.pb.h:5314-5322 | The packet's pointer is now that object, and the field its contents; a null pointer drops the field. |
| Packets.Packet.ChildEdited | proto/ServicePacket.pb.h:5303-5307 | A change through the pointer of a present sub-message is that change of the packet and no other. |
| Packets.Packet.StalePointer | proto/ServicePacket.pb.h:5296-5307 | A change through the pointer of an absent one is harmless exactly when it leaves the sub-message empty. |
| Packets.Packet.ClearGroup | proto/ServicePacket.pb.cc:5546-5585 | One group of Clear empties its present sub-messages and touches no other. |
| Packets.Packet.Clear | proto/ServicePacket.pb.cc:5545-5589 | A full reset that keeps the sub-message objects for recycling. |
| Packets.Packet.MergeIntoChild | proto/ServicePacket.pb.cc:6106-6108 | A message is merged into this packet's own sub-message, which is made or recycled if need be. |
| Packets.Packet.MergeChild | proto/ServicePacket.pb.cc:6106-6108 | A present sub-message is merged as the merge of the two fields says. |
| Packets.Packet.MergeType | proto/ServicePacket.pb.cc:6103-6105 | A present type overwrites. |
| Packets.Packet.MergeFrom | proto/ServicePacket.pb.cc:6100-6146 | The result is the merge of the two packets, sub-messages merged recursively. |
| Packets.Packet.CopyFrom | proto/ServicePacket.pb.cc:6154-6158 | Equal to the source afterwards. |
| Packets.Packet.Swap | proto/ServicePacket.pb.cc:6166-6185 | Exchanges two packets by exchanging pointers, cached sizes included. |
| Packets.Packet.IsInitialized | proto/ServicePacket.pb.cc:6160-6164 | True exactly when the type is present. |
| Packets.Packet.ChildByteSize | proto/ServicePacket.pb.cc:5990-5995 | Computes and caches the exact size of a sub-message. |
| Packets.Packet.FieldSizeAt | proto/ServicePacket.pb.cc:5990-5995 | A field adds exactly the length of its record, and no other cached size changes. |
| Packets.Packet.ByteSize | proto/ServicePacket.pb.cc:5979-6086 | The exact length of the encoding; afterwards every nested cached size is the length prefix the second pass needs. |
| Packets.Packet.WriteChild | proto/ServicePacket.pb.cc:5803-5807 | Writes the field's record, with the length prefix taken from the cached size. |
| Packets.Packet.SerializeWithCachedSizes | proto/ServicePacket.pb.cc:5796-5879 | With the sizes cached, appends exactly the encoding. |
| Packets.Packet.SerializeWithCachedSizesToArray | proto/ServicePacket.pb.cc:5881-5977 | The same bytes into an array, and nothing outside them. |
| Packets.Packet.SerializeToString | httpclient/service_package_responser.cpp:376-376 | Sizes first, then bytes: the result is the encoding. |
| Packets.Packet.ReadChildInto | proto/ServicePacket.pb.cc:5611-5625 | Reads a length-delimited sub-message into whatever the field held, recycled objects included. |
| Packets.Packet.ReadFieldRun | proto/ServicePacket.pb.cc:5597-5778 | A run of case bodies entered by jumps does what the remaining tag-by-tag parse does. |
| Packets.Packet.KeepUnknown | proto/ServicePacket.pb.cc:5780-5789 | The default case appends the record to the unknown ones. |
| Packets.Packet.MergePartialFromCodedStream | proto/ServicePacket.pb.cc:5591-5794 | On every byte string, the outcome of the plain read-and-dispatch loop, sub-messages included. |
| Packets.Packet.ParseFromString | httpclient/service_package_responser.cpp:329-335 | Accepts exactly the initialized packets, and holds that packet then. |
| Schemas.SchemasFit | proto/ServicePacket.pb.cc:5464-5477 | The descriptors have at most 15 fields and four leading required ones, so all of the above applies to them. |
| Schemas.PacketFields | proto/ServicePacket.pb.cc:5605-5776 | Which sub-message each packet field holds. |
| Schemas.TopicTags | proto/ServicePacket.pb.cc:638-823 | The bytes before the fields of the review, topic and robot messages are those that the parsers expect in turn: 10, 18, 24, 34 and so on. |
| Schemas.GroupTags | proto/ServicePacket.pb.cc:3382-3479 | The same for the group and Python messages: 10, 17, 25, 32, 40, 48 for the near request. |
| Schemas.EnvelopeTags | proto/connect_server.pb.cc:1036-1140 | The same for the packet (8, 18, 26, ... 106) and the two envelopes (10, 16, 26, 34 and 10, 16, 26, 32, 42). |
| Frames.WordRoundTrip | src/message_format.cpp:54-62 | Reading a big-endian 32-bit word inverts writing it, negative numbers included. |
| Frames.HeadRoundTrip | src/message_format.cpp:50-88 | Decoding a header gives magic, length word and command as encoded. |
| Frames.FourBytes | src/message_format.cpp:54-60 | Network byte order: the four bytes of a word are worth 2^24, 2^16, 2^8 and 1. |
| Frames.HeadLayout | src/message_format.cpp:76-88 | Bytes 0 to 3 of a header spell the magic number, 4 to 7 twelve plus the body's size, 8 to 11 the command, each modulo 2^32. |
| Frames.HeadMeaning | src/message_format.cpp:50-62 | And any twelve bytes are read as these three numbers. |
| Frames.FrameLayout | src/message_format.cpp:76-93 | The bytes of a frame: those twelve, and then the body. |
| Frames.StreamByBytes | src/message_format.cpp:50-74 | For any stream: its first frame is delivered exactly when bytes 4 to 7 spell a number from 12 to 12 + 2^20 and that many bytes are there; it has the magic number and command of its other bytes and the body after them, and the reader goes on behind it. |
| Frames.LengthGate | src/message_format.cpp:64-70 | Of all 32-bit lengths exactly those from 12 to 12 + 2^20 pass, and the body size is the length minus 12. |
| Frames.FrameGate | src/message_format.cpp:76-88 | A sender's frame passes exactly when its size modulo 2^32 is at most 2^20. |
| Frames.MessageFormat.EncodeHeader | src/message_format.cpp:76-88 | The three words of the header are magic, twelve plus the size, and command, highest byte first, whatever the object held. |
| Frames.MessageFormat.BodyCombine | src/message_format.cpp:90-93 | The body becomes the whole frame. |
| Frames.MessageFormat.DecodeHeader | src/message_format.cpp:50-74 | The fields are the numbers that the header spells, highest byte first; exactly the lengths of the gate are accepted; the body is resized to header plus body, keeping older bytes, and left untouched on refusal. |
| Frames.BuildFrame | httpclient/server_service_responser.cpp:26-30 | Encode and combine give the frame's bytes, as many as length() says. |
| Frames.AnyFrameRead | src/message_format.cpp:50-88 | What a reader makes of a frame of any size: it takes as many body bytes as the low 32 bits of the size say if those are at most 2^20, and takes the rest for the next frame; otherwise it stops there. |
| Frames.FrameRead | include/system_tool.h:149-169 | A frame with a body of up to 2^20 bytes in front of a stream is read as that frame, then the rest. |
| Frames.DeliveredSmall | src/message_format.cpp:66-70 | Nothing larger than 2^20 bytes is ever delivered, from any stream. |
| Frames.StreamRead | include/system_tool.h:149-169 | Frames written one after the other are read back in order, and what follows is read next. |
| Frames.StreamFraming | include/system_tool.h:149-169 | A list of frames is recovered exactly from its stream, with nothing left over, if and only if no body exceeds 2^20 bytes. |
| Frames.FirstFrame | src/session_base.cpp:141-200 | The first twelve bytes of a stream decide whether it has a first frame, and which. |
| Frames.SessionReader.AfterBodyGet | src/logic_deal_processing.cpp:45-53 | Hands on the received part of the body, except under command 1. |
| Frames.SessionReader.ReadBody | src/session_base.cpp:147-158 | Reads exactly the announced bytes over the start of the reused body, none when none are announced, or fails. |
| Frames.SessionReader.ReadFrame | src/session_base.cpp:141-200 | One round of the read loop delivers the first frame of the stream, or closes; older bytes in the reused object never show. |
| Frames.SessionReader.Run | src/session_base.cpp:141-200 | Every frame before the first refused or incomplete one is delivered once, in order. |
| Frames.SessionWriter.Write | src/session_base.cpp:81-107 | Queues a message, and starts a write only when none is outstanding. |
| Frames.SessionWriter.HandleWrite | src/session_base.cpp:109-139 | A completed write puts the whole front message on the socket and starts the next; a failed one may leave any part of it there, and after it nothing more is written. |
| Frames.CutFrameWaits | src/session_base.cpp:141-172 | A frame that is cut off is not delivered, whatever size below 2^32 bytes it has. |
| Frames.QueueToQueue | src/session_base.cpp:81-200 | What one session has written of a list of frames, its peer delivers exactly; one frame more only when its write failed after its last byte. |
| Strings.StringBuffer.Find | embeded_python/python_func_service_responser.h:27-27 | The first occurrence at or after a position, or none. |
| Strings.StringBuffer.ReplaceAll | embeded_python/python_func_service_responser.h:19-33 | With a non-empty pattern the loop ends, and the string is the greedy leftmost substitution of what it was. |
| Strings.SubstIsJoin | embeded_python/python_func_service_responser.h:19-33 | The result is the pieces between the occurrences joined with the replacement; joined with the pattern they are the original. |
| Strings.SplitIsLeftmost | embeded_python/python_func_service_responser.h:19-33 | The pieces are cut at leftmost, non-overlapping occurrences. |
| Strings.CutUnique | embeded_python/python_func_service_responser.h:19-33 | Only one way of cutting is leftmost. |
| Strings.LineBreaksDeleted | embeded_python/python_func_service_responser.cpp:84-85 | Deleting carriage returns, then line feeds, keeps exactly the other characters, in order. |
| Base64.Base64Encode | include/system_tool.h:74-86 | The bit-by-bit loop and the padding loop give the encoding; the result tells whether the input was empty. |
| Base64.NextSextet | include/system_tool.h:76-78 | Six bits at a time: a byte is read when too few bits are held, zero bits are added at the end. |
| Base64.LetterInAlphabet | include/system_tool.h:74-86 | The letters are those of RFC 4648 in their order, and padding is the equals sign. |
| Base64.GroupInNumbers | include/system_tool.h:74-86 | Each three bytes, as one number of 24 bits, become its four digits in base 64, the highest first. |
| Base64.TailFilled | include/system_tool.h:74-86 | An input that ends within a group is encoded as if zero bytes filled it, with padding in the last places. |
| Base64.EncodedShape | include/system_tool.h:74-86 | Four characters per three bytes begun, and exactly (3 - n mod 3) mod 3 padding characters, all at the end (section 4 of RFC 4648). |
| Base64.DecodeInvertsEncode | include/system_tool.h:74-86 | A strict decoder recovers every input. |
| Base64.EncodeInvertsDecode | include/system_tool.h:74-86 | Every text that decoder accepts is the encoding of what it yields. |
| Handlers.DoReplyRequest | httpclient/service_package_responser.cpp:40-100 | Type 21 is answered by the type 22 packet for it, and the request is left as it was. |
| Handlers.DoPostTopicRequest | httpclient/service_package_responser.cpp:102-163 | Type 23 is answered by the type 24 packet for it. |
| Handlers.DoPublicServiceRequest | httpclient/service_package_responser.cpp:165-225 | Type 25 is answered by the type 26 packet for it, stamped with the time. |
| Handlers.ParserGroupNearRequest | httpclient/service_package_responser.cpp:227-262 | Type 27 is answered by the type 28 packet for it; true exactly when the query reported no error. |
| Handlers.ParserGroupCityRequest | httpclient/service_package_responser.cpp:264-295 | Type 29 is answered by the type 30 packet for it; true exactly when the query reported no error. |
| Handlers.CallPython | embeded_python/python_func_service_responser.cpp:56-94 | Type 31 is answered by the type 32 packet for it. |
| Handlers.AnswerMatches | httpclient/service_package_responser.cpp:340-368 | Every listed type t is answered by an initialized packet of type t + 1, with exactly one sub-message, the one after the request's, for the same client. |
| Handlers.ServiceMatches | embeded_python/python_func_service_responser.cpp:56-94 | The same for type 31, and for type 25. |
| Envelopes.HandlePacket | httpclient/service_package_responser.cpp:344-368 | Each listed type goes to its handler, which gets its answer; false exactly when a query reported an error. |
| Envelopes.PackageParser | httpclient/service_package_responser.cpp:298-381 | Unreadable packets are answered by nothing with status 0; listed types by their packet; a query error gives status -1. |
| Envelopes.GroupParser | src/group_responser.cpp:98-119 | Refuses every packet with status -1. |
| Envelopes.PythonParser | embeded_python/python_func_service_responser.cpp:35-97 | Answers type 31 and nothing else, always with status 0. |
| Envelopes.EnvelopeParser | include/group_service_request_responser.h:56-112 | A served request gets its task's packet in an envelope if the task succeeded, and nothing otherwise; others get nothing. |
| Envelopes.ReplyNotEmpty | httpclient/server_service_responser.cpp:46-99 | A reply is not empty exactly when the request was served and its task succeeded. |
| Envelopes.QueryErrorSilent | httpclient/service_package_responser.cpp:361-376 | A request that reaches the package task gets an empty body exactly when its database query reported an error, although the handler puts status -1 and a text into a packet then. |
| Envelopes.OnlyResultsShown | httpclient/service_package_responser.cpp:227-295 | A packet of type 28 or 30 that does come back has the query's result and status 0. |
| Envelopes.CorrelatedReply | httpclient/server_service_responser.cpp:37-99 | Every non-empty reply parses as an initialized ServiceResponse with the request's session, service type and serial number and status 0, and its payload parses to the next type for the same client. |
| FanOut.BuildPush | httpclient/server_service_response_responser.cpp:60-71 | The packet that is fanned out. |
| FanOut.SendTo | httpclient/server_service_response_responser.cpp:85-110 | One round of the loop sends the frame that a message built for this session alone would give, and leaves the answer object ready for the next. |
| FanOut.Parser | httpclient/server_service_response_responser.cpp:30-113 | Although one answer object is reused, each session gets its own frame, and nothing is sent when a part of the push is empty. |
| FanOut.BodyReads | httpclient/server_service_response_responser.cpp:47-88 | Such a body parses, without asking for required fields, as the message for that session; asked for them it is refused. |
| FanOut.FrameArrives | httpclient/server_service_response_responser.cpp:85-110 | A session's frame arrives as its message if and only if its body has at most 2^20 bytes. |
| FanOut.FanOutFaithful | httpclient/server_service_response_responser.cpp:85-110 | Exactly one frame per session, for its own server, read there as that session's message if and only if its body has at most 2^20 bytes; no two sessions share an id or a frame. |
| FanOut.PushReads | httpclient/server_service_response_responser.cpp:60-73 | The common payload is an initialized packet of type 26 for the client. |
| Workers.RepliesOnce | src/task_base.cpp:18-108 | After any run of the workers no task has two replies; when nothing waits and nobody works, each task has its reply, or was taken off an overfull queue, or its connection was gone. |
| Workers.NoneBusy | src/task_base.cpp:75-78 | While no more tasks have come than the queue may hold, none becomes a busy notice. |
| Workers.BusyIffOverfull | src/task_base.cpp:63-85 | With n tasks that have come, a run with a busy notice exists exactly when n exceeds the queue's maximum and there is a worker. |
| Workers.Overtaken | main.cpp:128-132 | A run of two workers in which the second task is replied to first. |
| Workers.InOrderIffOneWorker | main.cpp:124-132 | Replies come in the order of their tasks in every run exactly when there is at most one worker. |
| Workers.OwnIncreasing | src/task_base.cpp:18-108 | Replies in the order of all tasks are in the order of each connection's own requests. |
| Dispatch.DoWork | src/logic_deal_processing.cpp:55-118 | What is sent for a frame, by command: one reply to the sender, a fan-out, or nothing. |
| Protocol.ReviewAnswered | httpclient/service_package_responser.cpp:40-100 | Command 200, type 21: what comes back parses, field by field, as command 201, a reply with the request's sessid, 600, sn and status 0, and type 22 with the request's cid and type and the HTTP answer for the address, authorization and data spelled out from the request. |
| Protocol.TopicAnswered | httpclient/service_package_responser.cpp:102-163 | The same for type 23, the other domain and type 24. |
| Protocol.RobotAnswered | httpclient/service_package_responser.cpp:165-225 | The same for type 25 and type 26 with the time. |
| Protocol.NearPacket | httpclient/service_package_responser.cpp:227-262 | The query gets latitude, longitude, distance, start and limit from fields 2, 3, 6, 4, 5; the packet has its result and status 0, or its error text and status -1. |
| Protocol.CityPacket | httpclient/service_package_responser.cpp:264-295 | The same for city, start and limit from fields 2, 3, 4. |
| Protocol.NearAnswered | httpclient/service_package_responser.cpp:227-262 | Command 200, type 27: the result comes back in type 28; after an error an empty body does. |
| Protocol.CityAnswered | httpclient/service_package_responser.cpp:264-295 | The same for types 29 and 30. |
| Protocol.PythonAnswered | embeded_python/python_func_service_responser.cpp:35-97 | Command 8000, type 31: command 8001 and type 32 with the function's result and status 1, or the exception's text without carriage returns and line feeds in a JSON text and status 0. |
| Protocol.NoPacketAnswered | httpclient/service_package_responser.cpp:329-335 | A payload that is no packet with a type (or for command 8000 none of type 31) gets a reply with an empty payload. |
| Protocol.NotCarriedSilent | httpclient/server_service_responser.cpp:46-98 | Commands 200 and 8000 without an initialized request of type 600 with a payload get an empty body. |
| Protocol.GroupSilent | src/group_responser.cpp:98-119 | Command 7818 always gets an empty body, under command 7819. |
| Protocol.OtherCommands | src/logic_deal_processing.cpp:66-93 | Any command but 200, 6666, 7818 and 8000 sends nothing. |
| Protocol.PushSent | httpclient/server_service_response_responser.cpp:30-113 | Command 6666: one frame 6667 per session in order, to "server:" and its address, that parses as its session id, 600, the unique number, no status, and a packet of type 26 with the push's three parts; nothing if one of them is empty. |
| Dispatch.EndToEnd | httpclient/server_service_responser.cpp:24-99 | A request is answered by one frame, to where it came from, with the next command and the same magic number; its stream reads as that frame if and only if the body has at most 2^20 bytes, and a body that is not empty answers the request. |
| Dispatch.RequestsArrive | src/session_base.cpp:141-200 | A stream of requests becomes one task per request, in order, each with that request in it. |
| Dispatch.RequestWorked | src/logic_deal_processing.cpp:55-118 | A request of such a stream gets one reply, for where it came from, that answers it if it is not too large; or none at all when an overfull queue made a busy notice of it. |
| Dispatch.StreamToStream | src/task_responser.cpp:131-154 | From a stream of requests to the stream of replies, for any number of workers, any order in which they are done, any tasks of other connections in between, busy notices and lost connections: no request has two replies; the peer reads exactly the replies written, with nothing left over, if and only if none has a body above 2^20 bytes, and each then answers its request (session, serial number, service type, next packet type, client); an idle pool has dealt with all of them. |
| Dispatch.SerialNumberTells | httpclient/server_service_responser.cpp:69-84 | With different serial numbers, that of a non-empty reply is the number of the request it answers and of no other, so the order of the replies does not matter. |
| Dispatch.SentIsFinal | src/logic_deal_processing.cpp:64-93 | Only the commands 201, 7819, 8001 and 6667 are ever sent, and none of them is answered. |
| Dispatch.MoveCounts | src/logic_deal_processing.cpp:45-118 | Dealing with a frame uses up an answerable one, or adds nothing. |
| Dispatch.NoCascade | src/logic_deal_processing.cpp:45-118 | No run of frames between such servers is infinite, whatever the (finite) session maps say. |
| Dispatch.RunLength | httpclient/server_service_response_responser.cpp:85-110 | With at most B sessions per client a run takes at most one step per frame plus max(B, 1) per answerable frame. |
| Registry.PyRegistry.IsEntryExist | include/ffpython.h:1386-1407 | Finds a name in a table exactly when it is there. |
| Registry.PyRegistry.GetPyclassInfoByName | include/ffpython.h:1408-1418 | The first class of that name. |
| Registry.PyRegistry.CopyMissing | include/ffpython.h:1145-1160 | Extends a class's table by the base's entries whose names it lacks, a class that is its own base included. |
| Registry.PyRegistry.InitPyclass | include/ffpython.h:1138-1161 | The whole pass over the registered classes. |
| Registry.LookupExtend | include/ffpython.h:1145-1160 | In an extended table the own entry for a name comes first, then the base's first one. |
| Registry.EffectiveTable | include/ffpython.h:1138-1161 | For every registration order, the first entry a class lists for a name is that of the nearest class on its chain of bases, which ends at the first base registered late. |
| Registry.NothingForeign | include/ffpython.h:1138-1161 | A class never lists a name that no ancestor has. |
| Registry.CompleteIff | include/ffpython.h:1138-1161 | A class lists every ancestor's names exactly when no ancestor beyond that chain has a new one. |
| Registry.EffectiveNames | include/ffpython.h:1138-1161 | With bases first, a class lists exactly the names of itself and all its ancestors. |
| Registry.FirstIsNearest | include/ffpython.h:1138-1161 | With bases first, the first entry for a name is the nearest ancestor's. |
| Registry.LateBaseLoses | include/ffpython.h:1138-1161 | A registration order in which a class misses an inherited method. |
| Conversion.UnsignedWraps | include/ffpython.h:1494-1533 | An unsigned 64-bit value above the signed maximum becomes a negative Python integer and comes back. |
| Conversion.RangesOf | include/ffpython.h:1494-1533 | The ranges of the eight integer types. |
| Conversion.CastCongruent | include/ffpython.h:1503-1519 | A cast keeps the low 8, 16, 32 or 64 bits. |
| Conversion.ObjectOf | include/ffpython.h:1471-1985 | The Python object for any value: bools, ints with the same low 64 bits, longs and strings as they are, lists in order, dictionaries of the entries. |
| Conversion.ScalarReads | include/ffpython.h:1471-1757 | What each scalar type reads from any object: only False and None are false, True is 1, a number too wide is cut, a long out of range is -1, a text gives its bytes, the rest fails. |
| Conversion.FromCpp | include/ffpython.h:1834-1844 | The recursive to-Python converter computes the specified object. |
| Conversion.ToCpp | include/ffpython.h:1845-1879 | The recursive to-C++ converter stops at the first item that does not convert, and otherwise yields what the specification allows. |
| Conversion.ReadDict | include/ffpython.h:1988-2012 | The dictionary loop, in whatever order it walks. |
| Conversion.WriteDict | include/ffpython.h:1973-1985 | The map loop: entries with unhashable keys are silently left out. |
| Conversion.RoundTrip | include/ffpython.h:1494-2012 | For every type and value, to-C++ after to-Python gives the value without the entries of maps keyed by containers. |
| Conversion.RoundTripIff | include/ffpython.h:1494-2012 | A value comes back unchanged exactly when no such map inside it has an entry. |
| Conversion.ScalarKeysKeep | include/ffpython.h:1973-2012 | Every value of a type whose maps have scalar keys comes back unchanged. |
| Conversion.VectorKeyLost | include/ffpython.h:1973-1985 | A map from vectors that comes back empty. |
| Conversion.ReadsIffConvertible | include/ffpython.h:1670-1757 | A converter fails exactly on the objects it does not accept, whatever order dictionaries are walked in. |
| Conversion.ReadsTyped | include/ffpython.h:1494-2012 | What a converter yields is in its type's range. |
| Arguments.PyExtTool.constructor | include/ffpython.h:2144-2162 | Construction fails exactly when the arguments are not an address and a tuple. |
| Arguments.PackedPair | include/ffpython.h:2144-2162 | The arguments are right exactly when they are a tuple of two: an int, a bool, a long in range or another object that converts to a C long, and a tuple. |
| Arguments.PyExtTool.ParseArg | include/ffpython.h:2164-2191 | Takes and converts the next item, or sets the error for good. |
| Arguments.PyExtTool.ParseAll | include/ffpython.h:2164-2191 | After a chain of calls the cursor has moved by the number of items converted before the first failure, and there is an error exactly when that is not all. |
| Arguments.AllTaken | include/ffpython.h:2164-2191 | All are converted exactly when there are enough items and the first ones are all accepted. |
| Arguments.TakeArguments | include/ffpython.h:2142-2192 | A whole call succeeds exactly when construction does, there are enough items, and the first ones are all accepted. |

## Left out

- Descriptors, reflection, registration and shutdown of the message library, and UTF-8 verification (taken as never failing).
- The message library's recursion limit and its total size limit: sizes below 2^31 are required where a length prefix must be read back. The library's source is not part of this model; a length prefix past the end is an error, as the Encoding specification has it.
- Wire types 6 and 7 are errors, as a tag of zero is.
- Doubles are opaque patterns of eight bytes.
- The other messages of the two protocols (logins, registration, kicks): the same code over other fields.
- Leaves.Leaf: one class for all messages without sub-messages; the unrolled bodies of the generated code are loops over the descriptor's fields, in the same order and with the same group guards.
- Packets.Packet.MutableChild: a sub-message's own address is a Dafny reference; freeing of replaced or destroyed objects is not modelled.
- Packets.Packet.MergeFrom: the two packets own different sub-messages, which the classes' copying constructors and accessors guarantee; it does not model two packets sharing one.
- Envelopes.PackageParser: says nothing about the packet sent for types other than 21, 23, 25, 27 and 29, because its required type is not set; the library may abort such a serialization in debug builds.
- Handlers.DoReplyRequest: the HTTP status is only logged by the code and is not modelled; neither is the header list beyond the authorization text.
- Exceptions thrown by external libraries, which end a task without a reply.
- Dispatch.DoWork: what is sent is what is handed to the connection of a server; an unknown or empty server name, for which the code sends nothing, is not modelled. The packet that the busy responser computes is thrown away by the code and left out.
- The database and session handlers behind command 7818 past its guard, which are never reached.
- Sockets, the condition variable and locks of the task queue (a push, a pop and a write are one step each), the peer maps, ZooKeeper, logging. A read completes with all its bytes or fails.
- Conversion.ToCpp: wide strings, floats, sets, lists, pointers and optional arguments; what the out-parameter holds after a failure; Python's equality of 1, 1L and True as dictionary keys.
- Leaves.Leaf.MutableText: the address of a field's string is not modelled; what writing through it does is `Leaves.TextWritten`.
- Generated Python text, constructors' arity, reference counts, the interpreter lock.
- Base64 decoding in the server, whose library accepts more than the strict decoder used here.
