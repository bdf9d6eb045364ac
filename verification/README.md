# A verified model of the IOTMP client

The client keeps one connection to a server. Messages travel over it as frames of numbered
fields, the field values as PSON v2; streams run between devices and the server under stream
ids; files are sent in chunks that the other side confirms. This project models five parts
of the client and proves what they promise.

1. **Codec and framing.** `Varint`, `Pson` and `Iotmp` say which bytes a number, a JSON value
   and a message are written as and what any bytes are read as. `PsonLaws`, `Framing` and
   `Iotmp` prove that reading inverts writing wherever the bytes stand and whatever follows,
   and exactly what is lost on the way: text behind a NUL, field numbers from 16 on, top-level
   integers outside 0..2^32-1. `Floats` is IEEE 754 as far as the encoder looks into it: which
   doubles are integers, which are single precision numbers. `Adapters`, `PsonCodec` and
   `IotmpCodec` are the readers, writers, encoders, decoders and the socket's read loop as they
   run, proved against those functions. `KnownBytes` writes the bytes out.
2. **File transfer.** `Download` and `Upload` are the two sessions as state machines whose
   events are posted handlers, timers, input and stops; `DownloadSession` and `UploadSession`
   are the objects with their fields, each handler proved to be the step of the machine.
   `UploadLimit` is the upload under a bandwidth limit, which the object has.
   `TransferLink` joins a sender and a receiver by two first-in first-out channels,
   `TransferProgress` proves when such a transfer arrives and when it stalls. In that
   composition the session of the other kind plays the server. `TransferWire` makes the two
   channels of messages on a connection that other streams share.
3. **Serialised writer.** `WriteQueue` is the pattern of queue, flag and coroutine that the
   client and the proxy sessions use, `Writers` the two owners. `SharedSocket` adds the writes
   that go past the client's queue, `EndToEnd` says what a peer reads from such a socket.
4. **Path matcher.** `PathMatcher` proves the two matching loops against instantiation of a
   pattern, and the lookup over the table of resources; `PathNames` adds patterns that repeat
   a name.
5. **Stream manager.** `StreamManager` is the registry of weak pointers, the listeners of the
   sessions and the server's stops.

Handlers and coroutines run one at a time on one executor; a step of a machine is what happens
between two suspensions, and theorems about runs hold for every list of events, in every
interleaving. An event that cannot happen in a state leaves it as it is.

Some results are about inputs that do not do what one may expect, and say exactly which:

- A download that waits at the end of its file completes by itself only if the acknowledgement
  that ends the wait, the first to leave room in the window, confirms everything. If it leaves
  something under way, `waiting_for_ack_` and the timer are cleared and only a stop ever moves
  the session (`Download.OrphanedRun`, `Download.DrainOutcome`); the comment at
  file_download_session.cpp:378 says that it waits for more. A send that finds the end of the
  file with nothing under way completes it as well (`Download.CompletedRun`).
- A download of an empty file completes, and the server's stop then cancels it
  (`Download.ServerStop`).
- A transfer whose receiver confirms later than the sender's window fills never completes, in no
  interleaving (`TransferProgress.ArrivesIffLive`); windows of a megabyte or more are safe.
- Under a bandwidth limit an upload confirms more bytes than it received if and only if it sends
  an acknowledgement at once, as it does for the last chunk, while another one is delayed, and that
  one goes out after all, its timer not set anew or stopped meanwhile (`UploadLimit.OverConfirms`).
- An upload's receive timer stays armed after the last byte, so that a server that does not
  stop the stream in time has the finished file removed (`Upload.TimeoutAfterCompletion`).
- A message queued while the client's write fails is not written, on the next connection or any
  later one, until another one is sent (`WriteQueue.FailureStrands`, `WriteQueue.StrandedUntilSend`).
- The queue keeps its own frames whole, but the handshake, the event streams and the request
  interface write past it on the same socket: frames can be mixed at some point of a run if and
  only if two writes are under way at once at some point of it (`SharedSocket.TearableIffContended`,
  `SharedSocket.ContendsIffOverlaps`); they need not be (`SharedSocket.OverlapMayStayWhole`).
- A value that was read is written again in no more bytes, except for some floats: one read from
  five bytes may take up to eleven (`PsonLaws.SteadyIff`, `PsonLaws.RewritingGrowth`).
- Of a pattern that repeats a name only the last value is captured, so that the captures do
  not give back the path (`PathNames.CapturesSuffice`).
- A stream id used again before the session stopped under it is destroyed has the new session
  stopped instead (`StreamManager.EndIsPrivate`).

## Model

| member | source | states |
|---|---|---|
| `Varint.EncodedIsTerminated` | src/thinger/iotmp/core/pson_encoder.hpp:29-37 | what the loop writes is ended by its last byte alone, stands for the number, and has no superfluous zero group |
| `Varint.EncodedIsUnique` | src/thinger/iotmp/core/pson_encoder.hpp:29-37 | every ended string of groups without a superfluous zero group is what the loop writes for its number: the form is unique |
| `Varint.EncodedIsShortest` | src/thinger/iotmp/core/pson_encoder.hpp:29-37 | no terminated string of groups for the same number is shorter than the written one |
| `Varint.ReadEncoded64` | src/thinger/iotmp/core/pson_decoder.hpp:46-60 | wherever a written number stands, the 64-bit reader returns it, for all of 0..2^64-1, and stops right behind it |
| `Varint.ReadEncoded32` | src/thinger/iotmp/core/iotmp_decoder.hpp:50-66 | the 32-bit reader takes what is written of numbers below 2^35, keeping the low 32 bits, and refuses everything larger |
| `Varint.ReadEncodedSocket` | src/thinger/iotmp/client.hpp:629-646 | the socket reader takes what is written of numbers below 2^28 unchanged and refuses everything larger |
| `Varint.ReadersAgree` | src/thinger/iotmp/client.hpp:629-646 | on every byte string the socket reader accepts, the 32-bit and the 64-bit reader return the same value and take the same bytes |
| `Varint.RewrittenVarintFits` | src/thinger/iotmp/core/pson_encoder.hpp:29-37 | writing again what any of the readers returned takes no more bytes than it read, padded forms included |
| `Varint.TerminatorIsFirst` | src/thinger/iotmp/core/iotmp_decoder.hpp:56-62 | the byte the readers stop at is the first one from the start that announces no other |
| `Varint.RegisterGrows` | src/thinger/iotmp/core/iotmp_decoder.hpp:56-62 | one turn of the readers' loops: the group at its place, added to a register of 32 or 64 bits |
| `Varint.ReadersTake` | src/thinger/iotmp/core/pson_decoder.hpp:46-60 | the 64-bit reader takes exactly the numbers that end within ten bytes, the 32-bit reader within five, the socket reader within four |
| `Adapters.MemoryReader.Read` | src/thinger/iotmp/core/iotmp_adapters.hpp:21-28 | hands out exactly the next bytes and advances, if and only if they are there; otherwise nothing moves |
| `Adapters.StringWriter.Write` | src/thinger/iotmp/core/iotmp_adapters.hpp:48-52 | appends the bytes to what has been emitted, behind the text the string already held |
| `Adapters.NullWriter.Write` | src/thinger/iotmp/core/iotmp_adapters.hpp:63-66 | counts what it is given and keeps nothing but the count |
| `Adapters.Writer.BytesWritten` | src/thinger/iotmp/core/iotmp_adapters.hpp:54-68 | either writer reports the length of everything emitted since it was made |
| `Pson.CStr` | src/thinger/iotmp/core/pson_encoder.hpp:39-42 | the part of a text that `c_str`/`strlen` see: NUL-free, and the whole text exactly if it holds no NUL |
| `Floats.WholeIff` | src/thinger/iotmp/core/pson_encoder.hpp:97-99 | the test for an integer accepts exactly the finite numbers that are one in 64 signed bits, with that value |
| `Floats.NarrowIff` | src/thinger/iotmp/core/pson_encoder.hpp:106-108 | the test for single precision accepts exactly the numbers that some single precision number is |
| `Floats.NarrowedWidens` | src/thinger/iotmp/core/pson_encoder.hpp:106-109 | a number narrowed to single precision is widened to the same number |
| `Floats.WidenedNarrows` | src/thinger/iotmp/core/pson_decoder.hpp:116-121 | and every single precision number but a NaN is widened to one that narrows to it |
| `Floats.WidenedNaN` | src/thinger/iotmp/core/pson_decoder.hpp:116-121 | what is not a number stays none when it is widened, with its sign and its fraction, quiet |
| `Floats.WidenFits` | src/thinger/iotmp/core/pson_decoder.hpp:116-121 | widening changes no number: double precision holds every finite single, unit for unit |
| `Floats.SingleRoundTrip` | src/thinger/iotmp/core/pson_encoder.hpp:48-50 | the four bytes of a single precision number are read back as it |
| `Floats.Layout` | src/thinger/iotmp/core/pson_encoder.hpp:48-54 | a tenth, of either sign, in double and in single precision, and 2^62 as they stand in memory are read as these numbers |
| `Floats.PowerIsWhole` | src/thinger/iotmp/core/pson_encoder.hpp:97-104 | 2^n in single precision, and -2^n, passes the test for an integer as that integer, from 1 to the end of the range |
| `Floats.DoubleRoundTrip` | src/thinger/iotmp/core/pson_encoder.hpp:52-54 | the eight bytes of a double are read back as it, NaNs included |
| `Pson.Decode` | src/thinger/iotmp/core/pson_decoder.hpp:99-175 | decoding any bytes ends, consumes at least one byte when it succeeds and never reads past the buffer; the measure is the bytes left, whatever counts the input declares |
| `PsonLaws.TagRoundTrip` | src/thinger/iotmp/core/pson_decoder.hpp:17-28 | a written tag is read back with its wire type and payload, in short and in long form |
| `PsonLaws.RoundTrip` | src/thinger/iotmp/core/pson_decoder.hpp:99-175 | for every value a JSON tree can hold and any bytes around its encoding: the decoder delivers the value as received, stopping exactly behind it, or fails, and it fails exactly if a string, key or block has 2^32 bytes or more |
| `PsonLaws.BodyRoundTrip` | src/thinger/iotmp/core/pson_decoder.hpp:105-174 | the same for what follows the tag, wire type by wire type |
| `PsonLaws.FloatRoundTrip` | src/thinger/iotmp/core/pson_encoder.hpp:94-114 | a float arrives as the number it is in each of its three forms: an integer as that integer, any other in single or double precision as the same double |
| `PsonLaws.ItemsRoundTrip` | src/thinger/iotmp/core/pson_decoder.hpp:71-78 | arrays: the items arrive one by one in order, after those already there |
| `PsonLaws.KeyRoundTrip` | src/thinger/iotmp/core/pson_decoder.hpp:80-94 | a key arrives cut at its first NUL, or is refused for its length |
| `PsonLaws.MembersRoundTrip` | src/thinger/iotmp/core/pson_decoder.hpp:62-69 | objects: the members arrive one by one and are stored under their keys as cut, or the first one past the limit fails the object |
| `PsonLaws.DecodedObject` | src/thinger/iotmp/core/pson_decoder.hpp:62-97 | whatever the bytes, in whatever order keys come and however often: the object that is read is in key order and holds exactly the last value read under each key |
| `PsonLaws.InsertStores` | src/thinger/iotmp/core/pson_decoder.hpp:96-96 | storing a member replaces the one under its key, keeps every other, and adds nothing else |
| `PsonLaws.ObjectIsUnique` | src/thinger/iotmp/core/pson_decoder.hpp:62-97 | of any list of members there is one such object |
| `PsonLaws.ReceivedObject` | src/thinger/iotmp/core/pson_encoder.hpp:56-64 | what arrives of an object that was written holds the last value of each key as cut at its NUL |
| `PsonLaws.LookupIsLast` | src/thinger/iotmp/core/pson_decoder.hpp:96-96 | what is found under a key is the last value stored there, or null |
| `PsonLaws.RefusedLeaves` | src/thinger/iotmp/core/pson_decoder.hpp:99-175 | a value the decoder refuses leaves its items and members before the one past the limit, and of that one what there is to keep |
| `PsonLaws.ItemsInFull` | src/thinger/iotmp/core/pson_decoder.hpp:71-78 | items that are all read are all left in the array |
| `PsonLaws.MembersInFull` | src/thinger/iotmp/core/pson_decoder.hpp:62-69 | members that are all read are all left in the object |
| `PsonLaws.PrefixFree` | src/thinger/iotmp/core/pson_encoder.hpp:75-133 | no encoding is a proper prefix of another value's: values may be sent back to back |
| `PsonLaws.ArrivesUnchanged` | src/thinger/iotmp/core/pson_encoder.hpp:75-133 | what arrives is what was sent, up to signed integers that are not negative arriving as unsigned ones and floats that are integers as integers, if and only if no text and no key in the tree contains a NUL |
| `PsonLaws.KeptInOrder` | src/thinger/iotmp/core/pson_decoder.hpp:80-97 | members written in key order with NUL-free keys are stored as they come, none replacing another |
| `PsonLaws.RewrittenTagFits` | src/thinger/iotmp/core/pson_encoder.hpp:22-27 | a tag that was read is written again in no more bytes, and so is one with a smaller payload |
| `PsonLaws.RewritingNeverGrows` | src/thinger/iotmp/core/pson_decoder.hpp:99-175 | for any bytes the decoder accepts, with padded varints, long-form tags, repeated keys and NULs: a value whose floats are steady is written again in no more bytes than were consumed |
| `PsonLaws.SteadyIff` | src/thinger/iotmp/core/pson_encoder.hpp:94-114 | which floats are steady: integers below 2^28, or below 2^56 if single precision cannot hold them, and everything else but a NaN that can have come in single precision |
| `PsonLaws.UnsteadyGrows` | src/thinger/iotmp/core/pson_encoder.hpp:94-114 | every other float is read from some bytes and written again in more |
| `PsonLaws.RewritingGrowth` | src/thinger/iotmp/core/pson_decoder.hpp:99-175 | any value at all is written again in at most eleven bytes for every five consumed |
| `PsonLaws.LargestGrowth` | src/thinger/iotmp/core/pson_encoder.hpp:94-104 | and that is reached: -2^63 in single precision, five bytes, is written as an integer in eleven |
| `PsonLaws.DecodedIsFine` | src/thinger/iotmp/core/pson_decoder.hpp:99-175 | whatever the bytes, a decoded value can be given to the encoder and its encoding to the decoder: members in key order, lengths within both limits |
| `PsonLaws.RewritingKeepsTheValue` | src/thinger/iotmp/core/pson_encoder.hpp:75-133 | to read, write and read again is to read once, up to the kind of integers, if and only if no text that was read holds a NUL |
| `PsonLaws.InsertSorted` | src/thinger/iotmp/core/pson_decoder.hpp:96-96 | storing a member under its key keeps the key order |
| `Bytes.LessIffPrecedes` | src/thinger/iotmp/client.hpp:818-818 | the order of keys and of resources is that of a dictionary: after the part two texts share, one has ended or has the smaller byte |
| `PsonLaws.MembersRewritten` | src/thinger/iotmp/core/pson_decoder.hpp:62-69 | members of an object, a repeated key replacing the earlier value, were read from no fewer bytes than such members can be |
| `PsonCodec.WriteVarint` | src/thinger/iotmp/core/pson_encoder.hpp:29-37 | the loop appends exactly the base-128 form of the number to either writer |
| `PsonCodec.PsonEncoder.EncodeTagTo` | src/thinger/iotmp/core/pson_encoder.hpp:17-27 | appends the tag byte, with the varint when the payload is 31 or more |
| `KnownBytes.WrittenKind` | src/thinger/iotmp/core/pson_encoder.hpp:75-133 | the first byte of every value: the kind in its three top bits, 0 to 7 for natural numbers, negative ones, floats, constants, texts, blocks, objects, arrays; below them the number, size or constant if it is less than 31, else 31 and a varint |
| `KnownBytes.ReadKind` | src/thinger/iotmp/core/pson_decoder.hpp:105-174 | every value that is read is of the kind its first byte says |
| `KnownBytes.ReadShort` | src/thinger/iotmp/core/pson_decoder.hpp:105-145 | what each first byte below the long forms is read as: numbers, false, true, null, or nothing |
| `KnownBytes.ReadShortBytes` | src/thinger/iotmp/core/pson_decoder.hpp:147-162 | texts from 0x80 and blocks from 0xa0, of as many bytes as the first byte says, if they are there |
| `KnownBytes.ReadIff` | src/thinger/iotmp/core/pson_decoder.hpp:99-175 | of the values without parts exactly these are read: any number, floats of two forms with their bytes, three constants, texts and blocks below 2^32 bytes that are there |
| `KnownBytes.KeyIff` | src/thinger/iotmp/core/pson_decoder.hpp:80-94 | a key is read exactly if it is a text below 2^32 bytes that is there |
| `KnownBytes.Samples` | src/thinger/iotmp/core/pson_types.hpp:28-37 | one value of each kind in bytes |
| `KnownBytes.Unordered` | src/thinger/iotmp/core/pson_decoder.hpp:62-97 | the bytes of {"b": 1, "a": 2} are read as both members, in key order |
| `PsonCodec.PsonEncoder.EncodeStringTo` | src/thinger/iotmp/core/pson_encoder.hpp:39-42 | appends the length and the bytes of the text up to its first NUL |
| `PsonCodec.PsonEncoder.EncodeFloat` | src/thinger/iotmp/core/pson_encoder.hpp:94-114 | appends a float as an integer if it is one, in single precision if that holds it, else in double |
| `PsonCodec.PsonEncoder.EncodeArray` | src/thinger/iotmp/core/pson_encoder.hpp:66-73 | appends the count and the encodings of all items in order |
| `PsonCodec.PsonEncoder.EncodeObject` | src/thinger/iotmp/core/pson_encoder.hpp:56-64 | appends the count and all members in key order, key before value |
| `PsonCodec.PsonEncoder.EncodeValue` | src/thinger/iotmp/core/pson_encoder.hpp:75-133 | appends exactly the specified encoding of any tree, the same bytes whichever writer it runs on |
| `PsonCodec.ReadVarintFrom` | src/thinger/iotmp/core/pson_decoder.hpp:46-60 | the register loop, 32 or 64 bits wide, returns what the scan from the cursor to the first final byte says, and accepts the same strings |
| `PsonCodec.PsonDecoder.ReadTag` | src/thinger/iotmp/core/pson_decoder.hpp:17-28 | reads the tag at the cursor as specified |
| `PsonCodec.PsonDecoder.ReadSized` | src/thinger/iotmp/core/pson_decoder.hpp:147-162 | refuses 2^32 bytes and more, otherwise reads that many |
| `PsonCodec.PsonDecoder.DecodeValue` | src/thinger/iotmp/core/pson_decoder.hpp:99-175 | returns what the specification makes of the bytes at the cursor and leaves the cursor behind them, or leaves in the value what a failure leaves; calls entered never exceed the bytes read by more than one |
| `PsonCodec.PsonDecoder.DecodeArray` | src/thinger/iotmp/core/pson_decoder.hpp:71-78 | the counting loop equals the specified sequence of items, or after a failure the items before it; a declared count of up to 2^64-1 costs no more rounds than bytes, and an accepted one at least as many rounds as items |
| `PsonCodec.PsonDecoder.DecodePair` | src/thinger/iotmp/core/pson_decoder.hpp:80-97 | reads a string key and a value and stores the value under the key, replacing an earlier one; a value that fails leaves its member with what it came to |
| `PsonCodec.PsonDecoder.DecodeObject` | src/thinger/iotmp/core/pson_decoder.hpp:62-69 | the counting loop equals the specified insertions, or after a failure those before it, at the same bounded cost |
| `Framing.ReadFrame` | src/thinger/iotmp/client.hpp:593-626 | a frame that arrives takes at least one byte of the stream and stays within it |
| `Framing.HeaderRoundTrip` | src/thinger/iotmp/client.hpp:593-603 | type and size of a written header are read back wherever it stands; a size of 2^28 or more is refused |
| `Framing.FrameRoundTrip` | src/thinger/iotmp/core/iotmp_encoder.hpp:82-99 | a written frame is read back whole and nothing behind it is touched; a body over 256 KB closes the connection |
| `Framing.LargestFrame` | src/thinger/iotmp/client.hpp:600-603 | a body of 262144 bytes is taken, one of 262145 closes the connection |
| `Framing.FramesRoundTrip` | src/thinger/iotmp/client.hpp:584-590 | frames written one after the other are taken one by one, in order, whatever follows them |
| `Framing.TakenIsRead` | src/thinger/iotmp/client.hpp:584-590 | the read loop hands out exactly the frames taken, after those it has already handed out |
| `Framing.TruncatedIsClosed` | src/thinger/iotmp/client.hpp:593-646 | a frame cut short anywhere is not delivered at all |
| `Framing.BrokenStream` | src/thinger/iotmp/client.hpp:584-626 | whole frames followed by a part of one more: exactly the whole ones arrive |
| `Iotmp.TagSurvives` | src/thinger/iotmp/core/iotmp_encoder.hpp:70-73 | a field number comes back from its one-byte tag if and only if it is below 16 |
| `Iotmp.FieldIff` | src/thinger/iotmp/core/iotmp_decoder.hpp:42-92 | which fields are read and as what: a number after a tag with low bits 0, a PSON value after 2, nothing after any other; the field number is the rest of the tag in a byte |
| `Iotmp.FilledOver` | src/thinger/iotmp/core/iotmp_decoder.hpp:84-87 | a field that fails is filled over what was stored under its number before, or over null |
| `KnownBytes.FieldBytes` | src/thinger/iotmp/core/iotmp_encoder.hpp:51-73 | the bytes of a field: eight times its number, and 2 more for PSON, then the varint or the value |
| `KnownBytes.WholeMessage` | src/thinger/iotmp/core/iotmp_encoder.hpp:82-99 | a STREAM_DATA message and one without fields, byte for byte |
| `Iotmp.FieldArrivesUnchanged` | src/thinger/iotmp/core/iotmp_encoder.hpp:51-65 | a field value arrives unchanged (up to the kind of integers) if and only if it is an integer in 0..2^32-1 or another value, floats included, without NULs |
| `Iotmp.NumberRoundTrip` | src/thinger/iotmp/core/iotmp_decoder.hpp:78-82 | a written number arrives modulo 2^32, or fails the body from 2^35 on |
| `Iotmp.FieldRoundTrip` | src/thinger/iotmp/core/iotmp_decoder.hpp:42-94 | a written field arrives with its number and its value as received, consuming exactly its bytes, or fails |
| `Iotmp.FieldLeaves` | src/thinger/iotmp/core/iotmp_decoder.hpp:78-87 | of a field that does not fit a number leaves nothing, a PSON value what the decoder leaves of it |
| `Iotmp.AllFieldsLeft` | src/thinger/iotmp/core/iotmp_decoder.hpp:68-94 | after a body that decodes to its end the field map is what it decodes to |
| `Iotmp.FieldsRoundTrip` | src/thinger/iotmp/core/iotmp_decoder.hpp:68-94 | a body of fields in any order decodes to all of them, stored over what was there, ending exactly at its end; it fails exactly if one field does, and the map then holds the fields before that one and what that one leaves |
| `Iotmp.MessageRoundTrip` | src/thinger/iotmp/core/iotmp_encoder.hpp:51-65 | a message with field numbers below 16 is delivered with its type and its fields up to the first that does not fit; if all fit, with all of them, in whatever order the field map is walked |
| `Iotmp.StreamRoundTrip` | src/thinger/iotmp/client.hpp:584-626 | any list of messages within the limit, then a connection that breaks anywhere inside the next one: the peer has exactly those messages, in order, with the fields it should have of each |
| `IotmpCodec.IotmpEncoder.EncodeTagByte` | src/thinger/iotmp/core/iotmp_encoder.hpp:70-73 | appends the one tag byte of a field |
| `IotmpCodec.IotmpEncoder.EncodeOneField` | src/thinger/iotmp/core/iotmp_encoder.hpp:53-63 | appends one field: a varint for integers, 0 for negative ones, PSON for the rest, floats that are integers included |
| `IotmpCodec.IotmpEncoder.EncodeBody` | src/thinger/iotmp/core/iotmp_encoder.hpp:51-65 | appends the body of the message, on the counting writer as on the string writer |
| `IotmpCodec.EncodeToString` | src/thinger/iotmp/core/iotmp_encoder.hpp:82-99 | the two passes produce the frame of the message: the size counted in the first is the length of the body written in the second |
| `IotmpCodec.IotmpDecoder.DecodeInto` | src/thinger/iotmp/core/iotmp_decoder.hpp:68-94 | the loop equals the specified fields, and after a failure the field map holds what the specification says; the difference it tests never goes below zero on a body of that size |
| `IotmpCodec.Socket.ReadSize` | src/thinger/iotmp/client.hpp:629-646 | reads the size byte by byte as the scan says, at most four bytes |
| `IotmpCodec.Socket.ReadMessage` | src/thinger/iotmp/client.hpp:593-626 | delivers the message of the next frame, with what its body decoded to before any failure, and stops behind it, or nothing exactly when no frame can be read |
| `IotmpCodec.Socket.ReadLoop` | src/thinger/iotmp/client.hpp:584-590 | hands out the messages of all frames the stream yields, in order |
| `PathMatcher.TokensRender` | src/thinger/iotmp/client.hpp:777-813 | a pattern taken apart into literals and names is the pattern again when put together |
| `PathMatcher.StarRule` | src/thinger/iotmp/client.hpp:782-792 | a star takes the rest of the path under its name if it has one and nothing follows; otherwise the pattern matches nothing; the resource's matcher takes it for a letter |
| `PathMatcher.NameRule` | src/thinger/iotmp/client.hpp:793-797 | a colon takes the name up to the next slash or the end |
| `PathMatcher.LetterRule` | src/thinger/iotmp/client.hpp:805-811 | every other letter stands for itself |
| `KnownBytes.Marks` | src/thinger/iotmp/client.hpp:782-797 | the three marks are slash, colon and star |
| `PathMatcher.MatchersAgree` | src/thinger/iotmp/core/iotmp_resource.hpp:568-594 | the client's and the resource's matcher read every pattern without `*` alike |
| `PathMatcher.MatchKeeps` | src/thinger/iotmp/client.hpp:777-813 | a match captures exactly the pattern's names and leaves other captures as they were |
| `PathMatcher.MatchSound` | src/thinger/iotmp/client.hpp:777-813 | a path that matched is the pattern with the captures put in, `:name` values within their segment |
| `PathMatcher.MatchComplete` | src/thinger/iotmp/client.hpp:777-813 | every instance of a pattern matches it and yields the values it was made with |
| `PathMatcher.MatchIsInstance` | src/thinger/iotmp/client.hpp:777-813 | for distinct names: a path matches with captures c if and only if it is the pattern instantiated with c, a value for each name and slash-free for `:name` |
| `PathNames.MatchIffFilled` | src/thinger/iotmp/client.hpp:777-813 | for every pattern, repeated names included: a path matches if and only if it is the pattern with some value in the place of each name |
| `PathNames.FilledMatches` | src/thinger/iotmp/client.hpp:777-813 | and the captures are those values, the last one for a repeated name |
| `PathNames.CapturesSuffice` | src/thinger/iotmp/client.hpp:777-813 | the captures put back give the path, for every path that matches, if and only if no name repeats (or a stray `*` lets nothing match) |
| `PathNames.BrokenNeverMatches` | src/thinger/iotmp/client.hpp:777-813 | a `*` without a name or before the end of the pattern matches nothing |
| `PathMatcher.MatchIgnores` | src/thinger/iotmp/client.hpp:777-824 | whether a path matches does not depend on captures left by earlier candidates |
| `PathMatcher.SkipSegment` | src/thinger/iotmp/client.hpp:777-813 | the inner loops stop at the next slash or the end |
| `PathMatcher.ClientMatches` | src/thinger/iotmp/client.hpp:777-813 | the index loop succeeds exactly if the specified match does, with its captures |
| `PathMatcher.ResourceMatches` | src/thinger/iotmp/core/iotmp_resource.hpp:568-594 | the second index loop does the same without the `*` branch |
| `PathMatcher.GetResource` | src/thinger/iotmp/client.hpp:817-824 | returns the lexicographically least registered pattern that matches, none exactly if none does; its own captures give back the request even though failed candidates leave theirs behind |
| `FileTransfer.AckThreshold` | src/thinger/iotmp/extensions/fs/filesystem.hpp:51-71 | four chunks for an unknown size; otherwise a hundredth of the file, or the chunk if that is more, and never more than a megabyte |
| `FileTransfer.Sizes` | src/thinger/iotmp/extensions/fs/filesystem.hpp:27-71 | the sizes in numbers: chunks of 65536, windows of 2097152 and thresholds of at most 1048576 bytes |
| `Download.NextPayload` | src/thinger/iotmp/extensions/fs/file_download_session.cpp:228-236 | a read finds a whole chunk or what is left of the file, and is short only at the end |
| `Download.StepKeeps` | src/thinger/iotmp/extensions/fs/file_download_session.cpp:174-409 | every handler, in any order, keeps the session's invariant: bytes accounted for, window bound, one wake-up, timers in step with the flags |
| `Download.StepGoesOn` | src/thinger/iotmp/extensions/fs/file_download_session.cpp:174-384 | neither a send nor an acknowledgement ever ends a session |
| `Download.StepSends` | src/thinger/iotmp/extensions/fs/file_download_session.cpp:228-245 | a step sends nothing or exactly the next bytes of the file |
| `Download.StepGood` | src/thinger/iotmp/extensions/fs/file_download_session.cpp:217-245 | every step keeps the payloads sent equal to the file so far, besides the invariant |
| `Download.StepSendsWhole` | src/thinger/iotmp/extensions/fs/file_download_session.cpp:228-290 | a send confirms nothing and, unless it meets the end of the file, sends one whole chunk |
| `Download.StepConfirms` | src/thinger/iotmp/extensions/fs/file_download_session.cpp:158-168 | an acknowledgement of bytes that are under way is taken for what it says and changes nothing sent |
| `Download.SendFills` | src/thinger/iotmp/extensions/fs/file_download_session.cpp:217-291 | with room in the window and a chunk left, a send puts the chunk under way and either posts the next send or, the window now full, waits |
| `Download.SendOutcome` | src/thinger/iotmp/extensions/fs/file_download_session.cpp:217-291 | any send that finds something to read, posted or by the rate timer, with or without a delay: the next bytes go under way, and exactly one thing wakes the session again: the acknowledgement of a full window, the rate timer if a delay is asked for, a posted handler otherwise |
| `Download.DelayedRun` | src/thinger/iotmp/extensions/fs/file_download_session.cpp:252-277 | over every run: the rate timer is pending if and only if the last send that took place was asked for a delay and left room in the window, and the session has not ended since |
| `Download.SendWithoutFile` | src/thinger/iotmp/extensions/fs/file_download_session.cpp:176-214 | a send handler with nothing to read from, in any state: waits, completes, leaves alone or stops |
| `Download.ResumeOutcome` | src/thinger/iotmp/extensions/fs/file_download_session.cpp:342-380 | the end of a wait, in any state: goes on, completes, stops or does nothing |
| `Download.StoppedForGood` | src/thinger/iotmp/extensions/fs/file_download_session.cpp:80-100 | only the first stop does anything, and nothing happens to a stopped session |
| `Download.StrayAckTimer` | src/thinger/iotmp/extensions/fs/file_download_session.cpp:397-408 | the timer of a session that does not wait only fires |
| `Download.AckTimerOutcome` | src/thinger/iotmp/extensions/fs/file_download_session.cpp:397-408 | an armed acknowledgement timer belongs to a session that waits, and stops it as timed out |
| `Download.Conservation` | src/thinger/iotmp/extensions/fs/file_download_session.cpp:217-245 | over every run and any acknowledgements: bytes sent are bytes confirmed plus bytes in flight, in flight stays below window plus chunk (zero for a zero window), and the payloads are the file's first bytes |
| `Download.SingleSender` | src/thinger/iotmp/extensions/fs/file_download_session.cpp:217-348 | over every run, before the end of the file: exactly one of posted send, rate timer and awaited acknowledgement is pending, the last with its timer armed; a send that starts finds room in a positive window, so the window-full branch is never taken |
| `Download.SelfCompletion` | src/thinger/iotmp/extensions/fs/file_download_session.cpp:174-376 | a download that completes by itself has nothing in flight, and has sent and seen confirmed exactly the file if and only if its chunk size is positive or the file is empty |
| `Download.ServerStop` | src/thinger/iotmp/extensions/fs/file_download_session.cpp:118-133 | the server's stop makes it completed exactly if all of a non-empty file was sent, confirmed or not, and cancelled otherwise: a self-completed empty file ends as cancelled |
| `Download.HowItEnds` | src/thinger/iotmp/extensions/fs/file_download_session.cpp:80-156 | only timers and stops end a session; timers as timed out, other stops as cancelled; no timer stays armed and the file is closed |
| `Download.StepDecreases` | src/thinger/iotmp/extensions/fs/file_download_session.cpp:174-384 | every step that does something lowers the measure of unsent bytes, bytes in flight, end-of-file flag and pending wake-up |
| `Download.EveryRunIsFinite` | src/thinger/iotmp/extensions/fs/file_download_session.cpp:174-384 | no run of a session does more than 4 |file| + 4 things, however acknowledgements are cut |
| `Download.EndSend` | src/thinger/iotmp/extensions/fs/file_download_session.cpp:174-215 | a send handler at the end of the file completes the session if nothing is under way and waits otherwise; one that is not due does nothing |
| `Download.EndAck` | src/thinger/iotmp/extensions/fs/file_download_session.cpp:323-384 | an acknowledgement at the end of the file: ignored, taken while something is still pending, ending the wait with everything confirmed, or leaving the session without a wake-up |
| `Download.OrphanStep` | src/thinger/iotmp/extensions/fs/file_download_session.cpp:332-378 | in every state of every run: a step leaves the session at the end of its file without a wake-up if and only if it is an acknowledgement that ends its wait there and leaves something under way |
| `Download.CompletionStep` | src/thinger/iotmp/extensions/fs/file_download_session.cpp:174-376 | in every state of every run: a step completes the session if and only if it is a send that finds the end of the file with nothing under way, or the acknowledgement that ends the wait there and leaves nothing |
| `Download.OrphanedRun` | src/thinger/iotmp/extensions/fs/file_download_session.cpp:323-384 | over every run: the session is without a wake-up at the end of its file if and only if such an acknowledgement came at some point and no stop since |
| `Download.CompletedRun` | src/thinger/iotmp/extensions/fs/file_download_session.cpp:174-376 | over every run: the session is complete by itself if and only if such a step was taken at some point and neither a stop nor the completion timer came since |
| `Download.DrainOutcome` | src/thinger/iotmp/extensions/fs/file_download_session.cpp:174-384 | from every state at the end of the file, with a send, a rate timer or an acknowledgement pending, and for every order of sends and acknowledgements: completed exactly if the outcome is decided with nothing under way, without a wake-up exactly if with something, undecided otherwise |
| `Download.OrphanStays` | src/thinger/iotmp/extensions/fs/file_download_session.cpp:332-378 | an orphaned session is left by nothing but a stop, not even when its last byte is confirmed |
| `Download.OrphanNeedsTheServer` | src/thinger/iotmp/extensions/fs/file_download_session.cpp:118-125 | an orphaned session is still in progress after any steps, and the server's stop completes it if the file is not empty |
| `Download.OrphanIsReachable` | src/thinger/iotmp/extensions/fs/file_download_session.cpp:332-378 | any file of more than a chunk and less than the window gets there: everything confirmed, and the session still in progress |
| `Download.OrphanAtDefaultSizes` | src/thinger/iotmp/extensions/fs/file_download_session.cpp:332-378 | so do files of more than 64 KB and less than 2 MB at the chunk and window sizes the program uses |
| `Download.EmptyChunks` | src/thinger/iotmp/extensions/fs/file_download_session.cpp:228-314 | a session built with empty chunks, which the program never does, completes at its first send with nothing sent |
| `DownloadSession.Session.constructor` | src/thinger/iotmp/extensions/fs/file_download_session.cpp:12-20 | an idle session with nothing sent and nothing scheduled |
| `DownloadSession.Session.Start` | src/thinger/iotmp/extensions/fs/file_download_session.cpp:22-78 | succeeds exactly if the file exists, is regular and opens; then the session is in its specified first state with one send posted, otherwise it has failed and nothing is scheduled |
| `DownloadSession.Session.Stop` | src/thinger/iotmp/extensions/fs/file_download_session.cpp:80-156 | does what the specification says, and only the first time |
| `DownloadSession.Session.Settle` | src/thinger/iotmp/extensions/fs/file_download_session.cpp:118-154 | the final state by reason and current state |
| `DownloadSession.Session.HandleInput` | src/thinger/iotmp/extensions/fs/file_download_session.cpp:158-172 | only objects are acknowledgements; without bytes they stand for a chunk |
| `DownloadSession.Session.ReadChunk` | src/thinger/iotmp/extensions/fs/file_download_session.cpp:228-232 | reads the next payload, advances, and flags a short read |
| `DownloadSession.Session.SendNextChunk` | src/thinger/iotmp/extensions/fs/file_download_session.cpp:174-321 | all branches of the send handler do to the fields what the specification does to the state |
| `DownloadSession.Session.OnChunkAcknowledged` | src/thinger/iotmp/extensions/fs/file_download_session.cpp:323-384 | the same for the acknowledgement handler |
| `DownloadSession.Session.Resume` | src/thinger/iotmp/extensions/fs/file_download_session.cpp:342-379 | the same for its last part: go on, complete or stop |
| `DownloadSession.Session.OnPosted` | src/thinger/iotmp/extensions/fs/file_download_session.cpp:73-75 | running a posted handler is the specified step |
| `DownloadSession.Session.OnRateLimitTimer` | src/thinger/iotmp/extensions/fs/file_download_session.cpp:270-277 | the rate timer's handler is the specified step |
| `DownloadSession.Session.OnAckTimer` | src/thinger/iotmp/extensions/fs/file_download_session.cpp:397-408 | the acknowledgement timer's handler is the specified step |
| `DownloadSession.Session.OnCompletionTimer` | src/thinger/iotmp/extensions/fs/file_download_session.cpp:194-201 | the completion timer's handler is the specified step |
| `Upload.StepKeeps` | src/thinger/iotmp/extensions/fs/file_upload_session.cpp:184-323 | without a bandwidth limit every handler keeps: bytes written, confirmed and unconfirmed agree, acknowledgements are numbered in a row, state and file in step |
| `Upload.Accounting` | src/thinger/iotmp/extensions/fs/file_upload_session.cpp:196-295 | over every run without a bandwidth limit: confirmed plus unconfirmed bytes equal bytes received equal the length of the written file; the k-th acknowledgement has number k modulo 2^32; between chunks less than the threshold is unconfirmed; completed means all received bytes are confirmed and at least the expected size; the receive timer runs since the last data |
| `UploadLimit.StepAccounts` | src/thinger/iotmp/extensions/fs/file_upload_session.cpp:241-295 | at any bandwidth, the exact account of a step: only a delayed acknowledgement that stands for more bytes than are unconfirmed confirms what was not received, and by just that much |
| `UploadLimit.ChunkOutcome` | src/thinger/iotmp/extensions/fs/file_upload_session.cpp:196-295 | what a chunk does to the acknowledgements at any bandwidth: nothing below the threshold; at it, one at once or the timer set anew; the last always at once |
| `UploadLimit.TimerOutcome` | src/thinger/iotmp/extensions/fs/file_upload_session.cpp:265-279 | the delayed acknowledgement goes out under the next number for the bytes it was made for |
| `UploadLimit.LimitedAccounting` | src/thinger/iotmp/extensions/fs/file_upload_session.cpp:241-295 | over every run at any bandwidth: confirmed plus unconfirmed bytes equal bytes received if and only if no delayed acknowledgement has gone out for another number of bytes than were unconfirmed; else more is confirmed than was received |
| `UploadLimit.OverConfirms` | src/thinger/iotmp/extensions/fs/file_upload_session.cpp:241-295 | over every run at any bandwidth: more is confirmed than was received if and only if at some point an acknowledgement was sent at once while another was delayed, and that one went out later, not set anew, fired or stopped in between |
| `UploadLimit.LimitedSession` | src/thinger/iotmp/extensions/fs/file_upload_session.cpp:184-323 | over every run at any bandwidth: acknowledgements numbered in a row, the file holds what was received and is there until the session ends otherwise than complete, complete means all that was expected has arrived |
| `UploadLimit.UntimelyHistory` | src/thinger/iotmp/extensions/fs/file_upload_session.cpp:255-292 | the histories after which the delayed acknowledgement stands for another number of bytes than are unconfirmed |
| `UploadLimit.StepGood` | src/thinger/iotmp/extensions/fs/file_upload_session.cpp:184-323 | at any bandwidth every handler keeps: never less confirmed than received but for what is below the threshold or delayed, acknowledgements numbered in a row, state, file and timer in step |
| `UploadLimit.TimelyStep` | src/thinger/iotmp/extensions/fs/file_upload_session.cpp:255-292 | a delayed acknowledgement comes to stand for the wrong number exactly when another is sent at once meanwhile |
| `UploadLimit.TimelyRuns` | src/thinger/iotmp/extensions/fs/file_upload_session.cpp:255-292 | so the account is right on every run in which that never happens |
| `UploadLimit.LateForTheLast` | src/thinger/iotmp/extensions/fs/file_upload_session.cpp:226-295 | a concrete run: the last chunk is confirmed at once, the delayed acknowledgement of the one before follows, and three chunks are confirmed of two |
| `UploadLimit.NoLimit` | src/thinger/iotmp/extensions/fs/file_upload_session.cpp:241-295 | a session that is asked for no delay is the session without a limit |
| `Upload.FileKept` | src/thinger/iotmp/extensions/fs/file_upload_session.cpp:131-180 | the step that ends a session leaves the file behind if and only if it is the server's stop of an upload that received everything it expected |
| `Upload.HowItEnds` | src/thinger/iotmp/extensions/fs/file_upload_session.cpp:93-214 | what ends a session and as what: timeout, refused write, server's stop, other stops |
| `Upload.TimeoutAfterCompletion` | src/thinger/iotmp/extensions/fs/file_upload_session.cpp:222-238 | the receive timer is still armed after completion: firing, it removes a complete and fully confirmed file |
| `Upload.ChunkConfirms` | src/thinger/iotmp/extensions/fs/file_upload_session.cpp:215-229 | what is unconfirmed with a new chunk is confirmed at once if it reaches the threshold or the file is complete, and stays unconfirmed otherwise |
| `Upload.ChunkWrites` | src/thinger/iotmp/extensions/fs/file_upload_session.cpp:184-238 | a chunk is written behind the rest unless the upload is complete, when it changes nothing |
| `UploadLimit.StoppedForGood` | src/thinger/iotmp/extensions/fs/file_upload_session.cpp:93-119 | nothing happens to a stopped session, with a delayed acknowledgement or without |
| `Upload.StoppedForGood` | src/thinger/iotmp/extensions/fs/file_upload_session.cpp:93-119 | only the first stop does anything, and nothing happens to a stopped session |
| `Upload.WritesWhatArrives` | src/thinger/iotmp/extensions/fs/file_upload_session.cpp:196-239 | for every list of chunks: the file holds the concatenation of those up to the one that reaches the expected size, and the upload is complete exactly if they reach it |
| `UploadSession.Session.constructor` | src/thinger/iotmp/extensions/fs/file_upload_session.cpp:14-21 | an idle session |
| `UploadSession.Session.Start` | src/thinger/iotmp/extensions/fs/file_upload_session.cpp:23-91 | succeeds exactly if the file opens; then an empty file, the adaptive threshold, an armed receive timer, and a timeout of 30 seconds or, if more, nine to ten seconds beyond one and a half times what a chunk takes at the limit |
| `UploadSession.Session.Stop` | src/thinger/iotmp/extensions/fs/file_upload_session.cpp:93-182 | does what the specification says, and only the first time |
| `UploadSession.Session.Settle` | src/thinger/iotmp/extensions/fs/file_upload_session.cpp:132-180 | the final state, and whether the file is removed |
| `UploadSession.Session.HandleInput` | src/thinger/iotmp/extensions/fs/file_upload_session.cpp:184-194 | only non-empty binaries are chunks |
| `UploadSession.Session.HandleUploadChunk` | src/thinger/iotmp/extensions/fs/file_upload_session.cpp:196-239 | the chunk handler does to the fields what the specification does to the state, with or without a bandwidth limit |
| `UploadSession.Session.SendAck` | src/thinger/iotmp/extensions/fs/file_upload_session.cpp:241-295 | emits the next number with all unconfirmed bytes and starts counting anew, or under the limit sets the timer for them; the final one is never delayed |
| `UploadSession.Session.OnRateLimitTimer` | src/thinger/iotmp/extensions/fs/file_upload_session.cpp:265-279 | the delayed acknowledgement goes out for the bytes it was made for: the specified step |
| `UploadSession.Session.OnReceiveTimer` | src/thinger/iotmp/extensions/fs/file_upload_session.cpp:308-320 | the timeout is the specified step |
| `TransferLink.Conserved` | src/thinger/iotmp/extensions/fs/file_upload_session.cpp:215-229 | the received file and the data in transit are the file so far, and the sender's bytes in flight are data in transit, unconfirmed bytes and confirmations in transit |
| `TransferLink.AckIsCovered` | src/thinger/iotmp/extensions/fs/file_download_session.cpp:323-327 | no acknowledgement is discarded: each says no more than what is in flight |
| `TransferLink.ReceiverWaits` | src/thinger/iotmp/extensions/fs/file_upload_session.cpp:196-199 | data in transit always finds the receiver still in progress |
| `TransferLink.SendOutcome` | src/thinger/iotmp/extensions/fs/file_download_session.cpp:247-291 | a send of the link puts the next bytes into the channel; asked for a delay it leaves the rate timer pending, otherwise a posted handler |
| `TransferLink.StepKeeps` | src/thinger/iotmp/extensions/fs/file_download_session.cpp:158-384 | every step of the composed system keeps its invariant |
| `TransferLink.EveryByteIsSomewhere` | src/thinger/iotmp/extensions/fs/file_download_session.cpp:217-245 | in every reachable state of sender and receiver over two FIFO channels: conservation of bytes, the received file a prefix, no acknowledgement and no data discarded |
| `TransferProgress.RestsOnlyIfStalled` | src/thinger/iotmp/extensions/fs/file_download_session.cpp:217-226 | a transfer can come to rest early only with a full window facing a receiver below its threshold |
| `TransferProgress.LiveTransfersArrive` | src/thinger/iotmp/extensions/fs/file_upload_session.cpp:225-238 | every interleaving of a live transfer that comes to rest has the receiver completed holding exactly the file, all bytes confirmed; the server's stop then completes the sender and keeps the file |
| `TransferProgress.FillUp` | src/thinger/iotmp/extensions/fs/file_download_session.cpp:247-291 | otherwise, the run that stalls: chunk by chunk until the window is full and nothing is confirmed |
| `TransferProgress.OthersNeverArrive` | src/thinger/iotmp/extensions/fs/filesystem.hpp:51-71 | if the threshold and the file both exceed the window rounded up to whole chunks, then in every interleaving, at any time: nothing is confirmed, the receiver is in progress and has no more than those chunks |
| `TransferProgress.ArrivesIffLive` | src/thinger/iotmp/extensions/fs/filesystem.hpp:51-71 | every interleaving that comes to rest has delivered the file if and only if the threshold, or the file, is at most the window rounded up to whole chunks; otherwise none has delivered it at any time |
| `TransferProgress.EmptyFile` | src/thinger/iotmp/extensions/fs/file_upload_session.cpp:225-238 | of an empty file nothing is sent: the sender completes, the receiver, here only a stand-in for the server, never does |
| `TransferProgress.NoWindowNoTransfer` | src/thinger/iotmp/extensions/fs/file_download_session.cpp:219-226 | with a zero window nothing is ever received |
| `TransferProgress.DefaultWindowIsLive` | src/thinger/iotmp/extensions/fs/filesystem.hpp:27-42 | a window of at least a megabyte, and so the default one, is live for every file and chunk size |
| `TransferProgress.SendDecreases` | src/thinger/iotmp/extensions/fs/file_download_session.cpp:174-321 | a send lowers the measure of the composed system |
| `TransferProgress.DeliverDecreases` | src/thinger/iotmp/extensions/fs/file_upload_session.cpp:196-239 | so does every delivery |
| `TransferProgress.TransfersEnd` | src/thinger/iotmp/extensions/fs/file_download_session.cpp:174-384 | no interleaving has more than 5 |file| + 4 steps |
| `TransferWire.StreamsArrive` | src/thinger/iotmp/client.hpp:199-217 | streams and other messages share the queue and a connection: over every interleaving the peer has of each stream a contiguous stretch of the payloads sent on it, in order, from the first that had not been taken to an earlier connection |
| `TransferWire.PayloadsArrive` | src/thinger/iotmp/client.hpp:199-217 | messages told apart by their stream id: the payloads of a stream arrive as those sent on it, one for one |
| `TransferWire.TellsApart` | src/thinger/iotmp/client.hpp:199-217 | a message of a stream is for that stream and no other |
| `TransferWire.OtherKinds` | src/thinger/iotmp/core/iotmp_message.hpp:182-188 | the stream of a message is its id in sixteen bits, 0 if it has none; only STREAM_DATA carries payloads |
| `TransferWire.TwoFields` | src/thinger/iotmp/client.hpp:199-217 | the frame of a message of a stream: kind 10, field 1 with the id and field 3 with the payload, in either order |
| `TransferWire.InputsRead` | src/thinger/iotmp/extensions/fs/file_download_session.cpp:158-172 | what the sessions are called with: a chunk for a block, an acknowledgement for an object, of no bytes if it names none |
| `TransferWire.ChunksSent` | src/thinger/iotmp/extensions/fs/file_download_session.cpp:237-240 | the chunks sent one after the other are what is sent on the stream of a transfer |
| `TransferWire.StreamBytes` | src/thinger/iotmp/client.hpp:199-217 | a message of a stream byte for byte, and the names in an acknowledgement |
| `TransferWire.ChunkArrives` | src/thinger/iotmp/extensions/fs/file_download_session.cpp:228-239 | a chunk of up to 256 KB less ten bytes travels in one message and arrives as the same bytes |
| `TransferWire.AckArrives` | src/thinger/iotmp/extensions/fs/file_upload_session.cpp:285-289 | an acknowledgement travels in one message and arrives with its number and bytes |
| `TransferWire.TransferFits` | src/thinger/iotmp/extensions/fs/file_download_session.cpp:228-239 | every chunk and every acknowledgement of every run of a transfer is such a one |
| `TransferWire.ChunksOverWire` | src/thinger/iotmp/extensions/fs/file_upload_session.cpp:184-239 | the data channel made of messages: over every run of a transfer and of the sender's writer, with whatever else it sends, the receiver fed from the peer's read loop is called with the first of the chunks sent, in order, and is the receiver of the link that has taken as many |
| `TransferWire.AcksOverWire` | src/thinger/iotmp/extensions/fs/file_download_session.cpp:158-172 | the acknowledgement channel likewise: the sender is called with the first of the acknowledgements, each for the bytes it says |
| `WriteQueue.StepKeeps` | src/thinger/iotmp/client.hpp:649-677 | every step of a writer keeps one loop, the order of messages and the stretch each connection carries |
| `WriteQueue.OneWriterInOrder` | src/thinger/iotmp/client.hpp:649-677 | over every interleaving: at most one loop, live exactly if the flag is set; messages taken plus messages queued are those sent, in order; a connection carries a contiguous stretch of them, and at most one message taken to it is not known to be carried |
| `WriteQueue.TakenIsAccepted` | src/thinger/iotmp/client.hpp:649-660 | over every run the client accepts every message it is given, connected or not, in order; a proxy those it is given while it runs |
| `WriteQueue.ConnectionStep` | src/thinger/iotmp/client.hpp:406-432 | exactly what connects and disconnects a writer, and what a new socket changes |
| `WriteQueue.NothingLostUntilFailure` | src/thinger/iotmp/client.hpp:649-677 | on the first connection, until something fails: written plus current plus queued is everything sent, in order |
| `WriteQueue.ProxyWritesAPrefix` | src/thinger/iotmp/extensions/proxy/proxy_session.cpp:57-124 | whatever fails, a proxy's target has a prefix of what was sent |
| `WriteQueue.StepServes` | src/thinger/iotmp/client.hpp:663-677 | a non-empty queue on a live connection keeps a loop through every step but exactly one kind: connecting again over a queue that no loop is left for |
| `WriteQueue.SendServes` | src/thinger/iotmp/client.hpp:649-660 | the next message starts a loop again |
| `WriteQueue.RunServes` | src/thinger/iotmp/client.hpp:649-677 | over every run without that step a non-empty queue on a live connection has a loop |
| `WriteQueue.ProxyServes` | src/thinger/iotmp/extensions/proxy/proxy_session.cpp:57-124 | a proxy, which never connects again, always serves its queue |
| `WriteQueue.FailureStrands` | src/thinger/iotmp/client.hpp:663-677 | whenever a write of the client fails with messages queued, the next connection has the queue and no loop |
| `WriteQueue.ClientMayStrand` | src/thinger/iotmp/client.hpp:663-677 | a concrete run that gets there from the start |
| `WriteQueue.StrandedStays` | src/thinger/iotmp/client.hpp:649-677 | on that connection no event but another message or its end changes anything |
| `WriteQueue.StrandedUntilSend` | src/thinger/iotmp/client.hpp:649-677 | until another message is sent nothing of the queue is ever taken to a socket, however many connections come and go |
| `WriteQueue.LoopDrains` | src/thinger/iotmp/client.hpp:663-677 | a loop writing on the present connection, whose writes succeed, writes the whole queue in order and ends with the flag cleared |
| `Writers.ClientWriter.SendMessage` | src/thinger/iotmp/client.hpp:649-660 | queues the message and spawns the loop if none is in progress |
| `Writers.ClientWriter.ProcessWriteQueue` | src/thinger/iotmp/client.hpp:663-677 | the coroutine from the head of its loop to the next suspension |
| `Writers.ClientWriter.OnWritten` | src/thinger/iotmp/client.hpp:668-676 | a write comes back: the next message, or on failure the end of loop and connection |
| `Writers.ClientWriter.OnDisconnected` | src/thinger/iotmp/client.hpp:432-432 | the connection is gone for the writer; its queue stays |
| `Writers.ClientWriter.OnSpawned` | src/thinger/iotmp/client.hpp:656-659 | the spawned coroutine runs for the first time |
| `Writers.ClientWriter.OnSocket` | src/thinger/iotmp/client.hpp:445-470 | a new socket has carried nothing of the queue, which stays as it was |
| `Writers.ClientWriter.OnAuthenticated` | src/thinger/iotmp/client.hpp:406-408 | the client counts as connected over its new socket |
| `Writers.ProxyWriter.HandleInput` | src/thinger/iotmp/extensions/proxy/proxy_session.cpp:57-74 | queues non-empty binaries while running, and ignores everything else |
| `Writers.ProxyWriter.WriteLoop` | src/thinger/iotmp/extensions/proxy/proxy_session.cpp:100-124 | the proxy's coroutine from the head of its loop to the next suspension; a closed socket stops a running session |
| `Writers.ProxyWriter.OnWritten` | src/thinger/iotmp/extensions/proxy/proxy_session.cpp:112-123 | a write comes back: the next message, or on failure the session stops |
| `Writers.ProxyWriter.Stop` | src/thinger/iotmp/extensions/proxy/proxy_session.cpp:49-55 | a stopped proxy takes and writes nothing more |
| `SharedSocket.StepKeeps` | src/thinger/iotmp/client.hpp:649-694 | with direct writes besides the queue's, every step keeps: the queue's writes on a socket are what its loop took to it, the loop has one at most, a write that came back on an open socket is through, and an untorn socket has carried its writes in order |
| `SharedSocket.DirectOutcome` | src/thinger/iotmp/client.hpp:680-694 | what a direct write does: it begins behind the writes before it, and when it fails the socket is closed and the client disconnected |
| `SharedSocket.OldFailureCloses` | src/thinger/iotmp/client.hpp:671-675 | a write that fails on an earlier socket closes the present one all the same |
| `SharedSocket.TornNext` | src/thinger/iotmp/client.hpp:649-694 | in any reachable state: the socket can mix two frames in its next step if and only if two writes are under way and not through |
| `SharedSocket.ContendsIffOverlaps` | src/thinger/iotmp/client.hpp:649-694 | exactly two kinds of step get there: a direct write that begins while any write is not through, and a loop that takes its next message while a direct write is not |
| `SharedSocket.TearableIffContended` | src/thinger/iotmp/client.hpp:649-694 | of every run from any state with the invariant: the socket may mix frames at some point of it if and only if two writes are under way and not through at some point of it |
| `SharedSocket.OverlapMayStayWhole` | src/thinger/iotmp/client.hpp:680-694 | a concrete run in which two writes overlap and both frames stay whole: to be able to mix is not to mix |
| `SharedSocket.QueueAloneNeverContends` | src/thinger/iotmp/client.hpp:649-677 | the queue by itself never does, in any run: that is what it is for |
| `SharedSocket.NeverTorn` | src/thinger/iotmp/client.hpp:649-694 | over every run without two writes under way at once no frame is mixed with another |
| `SharedSocket.DirectMeetsQueue` | src/thinger/iotmp/client.hpp:680-694 | a concrete run of the client: a handler writes directly while the loop is writing |
| `EndToEnd.SentIsReceived` | src/thinger/iotmp/client.hpp:584-677 | a connection that carries the queue alone, over every interleaving of sends, writes, failures and connections, and however much it carried of the message under way or failed: what the peer's read loop makes of it is a contiguous stretch of the messages sent, in order, each with the fields it was sent with: those whose writes came back, and the other exactly if all of it was carried |
| `EndToEnd.UntornIsReceived` | src/thinger/iotmp/client.hpp:584-694 | what the peer reads from a socket that nothing has torn: the messages of exactly the writes that are through, direct or queued, in the order they were begun; on an open socket these are all but the ones still under way |
| `EndToEnd.SocketIsReceived` | src/thinger/iotmp/client.hpp:584-694 | over every run of a connection without two writes under way at once, whatever happened on earlier ones: the peer reads exactly the writes that are through, on an open socket every one that came back, and the queued messages among the writes are a contiguous stretch of those sent |
| `EndToEnd.TurnsAreLost` | src/thinger/iotmp/client.hpp:680-694 | a concrete run of two overlapping writes: both frames are carried whole, byte by byte in turns, and the peer reads nothing |
| `StreamManager.StepKeeps` | src/thinger/iotmp/core/iotmp_stream_manager.cpp:37-93 | as long as no stream is started under the id of a session that exists: the registry holds exactly the running sessions, one to an id |
| `StreamManager.InitialOutcome` | src/thinger/iotmp/core/iotmp_stream_manager.cpp:6-8 | a manager begins without sessions |
| `StreamManager.StartOutcome` | src/thinger/iotmp/core/iotmp_stream_manager.cpp:37-53 | a start under a registered id or of a session that cannot be made does nothing; any other makes a session with a number never used |
| `StreamManager.FailedStart` | src/thinger/iotmp/core/iotmp_stream_manager.cpp:58-73 | a session that fails to start is gone and leaves no trace |
| `StreamManager.SuccessfulStart` | src/thinger/iotmp/core/iotmp_stream_manager.cpp:61-69 | one that starts runs, and is registered unless its id is taken |
| `StreamManager.RegisteredHistory` | src/thinger/iotmp/core/iotmp_stream_manager.cpp:37-93 | over every run at all: a session is the registered one of an id if and only if it started successfully when nobody had the id, and since then neither has the server stopped the id nor has any session under it ended |
| `StreamManager.InputOutcome` | src/thinger/iotmp/core/iotmp_stream_manager.cpp:11-20 | input changes nothing of the registry unless its session is gone, when the stream ends |
| `StreamManager.ConnectedHistory` | src/thinger/iotmp/client.hpp:191-197 | the manager goes by what the last change of the connection said |
| `StreamManager.ToldOnce` | src/thinger/iotmp/core/iotmp_stream_manager.cpp:77-93 | over every such run: STOP_STREAM goes out exactly once for each session that ends by itself while connected, in that order, and for no other |
| `StreamManager.EndTells` | src/thinger/iotmp/core/iotmp_stream_manager.cpp:77-93 | in any state: the end of a session sends STOP_STREAM exactly if the client is connected and its id is still registered, for it or for a session that is gone |
| `StreamManager.ToldIffRegistered` | src/thinger/iotmp/core/iotmp_stream_manager.cpp:66-93 | over every run at all, ids used again included: STOP_STREAM goes out exactly for the ends, while connected, of sessions that are the registered ones of their ids, once each and in order |
| `StreamManager.StepRegistered` | src/thinger/iotmp/core/iotmp_stream_manager.cpp:37-93 | every step at all keeps: what the registry holds exists, under its own id, and is not being started |
| `StreamManager.EndsLeaves` | src/thinger/iotmp/core/iotmp_stream_session.hpp:51-55 | when a session ends its id leaves the registry and no other session changes |
| `StreamManager.ServerStopLeaves` | src/thinger/iotmp/core/iotmp_stream_manager.cpp:77-93 | the server's stop takes the id out, tells that session alone, and sends nothing |
| `StreamManager.EndIsPrivate` | src/thinger/iotmp/core/iotmp_stream_session.hpp:51-55 | in any state: the end of a session leaves the others alone if and only if its id is not meanwhile registered for another one that exists and is not stopped |
| `StreamManager.ReusedIdIsStopped` | src/thinger/iotmp/core/iotmp_stream_manager.cpp:66-68 | a concrete run: a reused id has the new session stopped by the end of the old one, and the server is never told |
| `StreamManager.Manager.Start` | src/thinger/iotmp/core/iotmp_stream_manager.cpp:37-53 | refuses an id in use or a session that cannot be made; otherwise a session is being started |
| `StreamManager.Manager.OnStarted` | src/thinger/iotmp/core/iotmp_stream_manager.cpp:58-73 | registers a started session, unless the id is taken, and sets its listener; drops one that failed |
| `StreamManager.Manager.Stop` | src/thinger/iotmp/core/iotmp_stream_manager.cpp:77-93 | forgets the id, stops the session if it exists and tells the server otherwise |
| `StreamManager.Manager.TellServer` | src/thinger/iotmp/client.hpp:191-197 | sends STOP_STREAM exactly if connected |
| `StreamManager.Manager.OnDestroyed` | src/thinger/iotmp/core/iotmp_stream_session.hpp:51-55 | the destructor: the object is gone, then its listener stops the id |
| `StreamManager.Manager.OnInput` | src/thinger/iotmp/core/iotmp_stream_manager.cpp:11-20 | input goes to the session that exists, or the id is stopped |

## Left out

- Upload.Accounting: no bandwidth limit; `UploadLimit.LimitedAccounting` says what holds under one.
- Upload.StepKeeps: no bandwidth limit, as above.
- DownloadSession.Session.Start: of the response only the chunk size it announces.
- UploadSession.Session.Start: of the response only the chunk size; rounding in the computation of the timeout.
- UploadSession.Session.SendAck: what the clock says; whether an acknowledgement comes too early for the limit is a free choice in every call.
- Floats.Whole: the cast of a float beyond the range of a 64-bit integer is undefined in the source; the model takes its result as unequal to the float.
- Floats.DoubleBytes: the bytes in memory are those of a little-endian host.
- TransferLink.EveryByteIsSomewhere: the client stays connected; while it is not, `stream_resource` (client.hpp:200-218) drops a chunk or an acknowledgement, and file_download_session.cpp:239-242 counts the chunk as sent all the same.
- TransferWire.StreamsArrive: a connection that carries no direct writes meanwhile, as in `EndToEnd.SentIsReceived`.
- TransferWire.AcksOverWire: of an acknowledgement's `bytes` only unsigned numbers, which is what the other side sends.
- SharedSocket.StepKeeps: when a handler writes directly is a free choice; what makes the handlers of the handshake, the event streams and the request interface do so is not modelled.
- TransferProgress.LiveTransfersArrive: no timeout fires and no stop arrives while the transfer runs.
- Pson.Decode: `-INT64_MIN` is undefined in the source where the magnitude is 2^63; the model wraps as two's complement does.
- Download.Conservation: the file does not change during the transfer, and counters are unbounded where the source has 64 bits.
- DownloadSession.Session.SendNextChunk: how long the bandwidth limit delays a chunk; whether it does is a free choice in every step.
- StreamManager.ToldOnce: what a session does between start and end; it is any step that makes its last reference go.
- What happens to an object after `stop`: handlers still posted to the executor then have no effect in the model.
- Memory that decoding allocates for a declared length before it knows that the bytes are there; the bound on work counts calls.
- `memory_writer` and `vector_writer`, which the codec here is not used with.
- Sockets, TLS, the WebSocket upgrade, authentication, keep-alive timing and thread pools.
- Terminal and command sessions: process handling, with the same writer again.
- Filesystem handlers (list, get, put, move, hash), path resolution, free space checks and parent directories.
- Logging, progress reports, metrics, local HTTP endpoints and the cloud API wrappers.
