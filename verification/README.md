# Verified model of the SMP client and the UI update machinery

A Dafny 4.11 model of the protocol code of `tools/smp_can_client.py`, of the firmware's UI update code under
`app/src`, and of the image compressor in `tools/LVGLImage.py`, with proofs of what this code is for. The whole
project is checked with `dafny verify dfyconfig.toml`.

What is proved, by part:

- **Framing.** CAN (`CanFraming`), console (`Crc16`, `Base64`, `Console`, `ConsolePackets`, `ConsoleText`,
  `ConsoleCuts`, `ConsoleRoundTrip`) and Bluetooth (`Ble`). The receivers are classes over their buffers, each tied to a function of the bytes it was given.
  The results are over whole streams: exactly the packets that lost no frame come out; the result does not depend on
  how the bytes were cut; what was encoded comes back once, between any console text. Each limit that the code has is
  in the theorem, and has a lemma that shows what happens past it: for lost frames and for the cuts, exactly when.
- **Transfers.** `AssetDownload`, `ImageUpload` (with `UploadPace`) and `Pipeline` run against a unit and a link that
  do as they like, with nondeterministic steps. Safety holds for every run, and how a run ends is what the answers
  that it was given come to. For an honest unit and, where it matters, an orderly link, the stall branches are never
  taken and the run ends within a bound that is stated.
- **Codecs.** `Cbor` encodes, and a decoder written from section 3 of RFC 8949 reads it back. `Schema` interprets a
  schema in both directions (as loops in `ConfigCodec`); it is proved exactly what is taken and what is refused
  (`SchemaDomain`), when the way back is the right one, both ways for records, their descriptions and choices, and
  that the schema of the UI configuration (`UiSchema`) is such a schema.
- **UI updates.** Assembling a screen's forest and taking it down (`Assembly`); patching screens and widgets in place
  against building them, with the drawing order (`Sorting`, `DrawingOrder`, `ScreenPatches`, `WidgetPatches`); editing
  a widget in place against building it again, and properties that wait to be applied (`PropertyStore`, `Widget`,
  `WidgetEvents`, `WidgetBase`); the preview session (`Preview`); the active group (`MainView`).
- **Images.** The run-length compressor (`Rle`): when it ends, tiles its input and is inverted is characterised
  exactly; the three differ only where the threshold is high or a literal too long.

## Conventions

Bytes are numbers below 256. Time is a natural number of milliseconds that comes with each step. A choice of the
environment (a lost frame, a failing call, which of two queues runs next) is a nondeterministic statement, so the
contracts hold for all of them. A method over fields or locals is tied to a function of the old state; what is
promised is then proved about that function. Exceptions are results.

Where the code and its words disagree the code is followed:

- The CAN receiver means to drop a packet at a gap (tools/smp_can_client.py:416). A gap from one packet into the next
  can look like none, and then it makes one packet of two: `CanFraming.StreamDelivers` says exactly when,
  `CanFraming.LostStartSplices` gives a run.
- What a download handed over is not to be asked for again (tools/smp_can_client.py:1578). After a short chunk it can
  be, which costs a request: `AssetDownload.AskedBehindExactly` says exactly when,
  `AssetDownload.ShortChunkLeavesNextBehind` gives a run.
- `SmpPipeline` means to drop what answers a request that is over (tools/smp_can_client.py:1184-1186). If its number
  was given to a later one of the same group and command, that one is taken to be answered: `Pipeline.LateResponse`
  says exactly when, `Pipeline.LateResponseIsTaken` gives a run.
- A store during a preview is to leave the screens to its own rebuild (ui_preview_service.cpp:523). If that runs while
  a stage is being applied, the staged configuration stays on the screens: `Preview.UiPreviewService.EndSession` says
  exactly when, `Preview.UiPreviewService.StoreLeavesStage` gives a run.
- The length of a literal is limited to 127 (tools/LVGLImage.py:1298) but not where the data ends
  (tools/LVGLImage.py:1303-1305): `Rle.OverlongLiterals`, `Rle.OverlongLiteralIsMisread`.
- A member that may be left out is one by the description of the schema (tools/README.md:401), but a list is read
  greedily: `Schema.RecordIsReadBack`, `UiSchema.LeftOutMemberIsMissed`.

## Model

| member | source | states |
|---|---|---|
| `CanFraming.EncodeFrames` | tools/smp_can_client.py:398-412 | The loop yields, for every k, the k-th frame: start flag on the first only, sequence modulo 128, the k-th part of the packet, zero padding to a CAN FD length. |
| `CanFraming.FrameIsLeast` | tools/smp_can_client.py:398-412 | Every frame is its control byte, its part of the packet, and zeros up to the least length that a frame can have: a length of CAN FD, or any up to eight. |
| `CanFraming.Reassembler.Accept` | tools/smp_can_client.py:423-450 | One frame takes the receiver to the state, and yields the packet, that the specification of a step says, timeouts, sequence gaps and short headers included. |
| `CanFraming.Reassembler.AcceptAll` | tools/smp_can_client.py:423-450 | A run over any list of frames delivers what the specification of the run says. |
| `CanFraming.TransmissionDelivers` | tools/smp_can_client.py:423-450 | From any state, a packet of which the first frame arrives comes out, unchanged, if and only if no frame of it was lost or late; classic and FD, wrapping sequences included. |
| `CanFraming.HeadlessExactly` | tools/smp_can_client.py:433-450 | From any state that the receiver comes to, frames without a first one yield exactly one packet, made of what was held and their data, if and only if the first of them have the numbers expected, come in time and bring what the held header announces; else none. |
| `CanFraming.StreamDelivers` | tools/smp_can_client.py:423-450 | Over any sequence of packets, of which any frames are lost or late, exactly those of which none was come out, unchanged and in order, if and only if no packet without its first frame so completes what is held before it. |
| `CanFraming.StartsSuffice` | tools/smp_can_client.py:430-432 | Where every first frame arrives none does. |
| `CanFraming.LostStartSplices` | tools/smp_can_client.py:430-435 | With the first frame of the second packet lost, and the last one of the first, two packets are spliced into one that is neither. |
| `Crc16.Residue` | tools/smp_can_client.py:654 | The checksum of a message followed by its checksum, high byte first, is zero, for every message. |
| `Crc16.ResidueFrom` | tools/smp_can_client.py:654 | The same for a register that starts with any value. |
| `Crc16.ChecksumIsRemainder` | tools/smp_can_client.py:523 | The checksum is the one remainder of the message, as a polynomial over two elements, times x^16, divided by x^16 + x^12 + x^5 + 1. |
| `Crc16.ChecksOnly` | tools/smp_can_client.py:654 | Two bytes behind a message make its checksum zero if and only if they are its checksum. |
| `Base64.EncodeIsSymbols` | tools/smp_can_client.py:527 | An encoding has only symbols and padding, so no marker and no newline. |
| `Base64.GroupsAreNumbers` | tools/smp_can_client.py:527 | Each three bytes and their four symbols are the digits of one number, in base 256 and 64. |
| `Base64.DecodeEncode` | tools/smp_can_client.py:632 | Decoding (section 4 of RFC 4648) gives back every byte string that was encoded. |
| `Console.SerialFrameDecoder.AcceptLine` | tools/smp_can_client.py:624-658 | A line's effect on the packet being assembled, the counters and the packet it completes, as specified; what the specification completes is the subject of `ConsolePackets`. |
| `ConsolePackets.OnlySealedCompletes` | tools/smp_can_client.py:651-658 | A body that is shorter than announced waits; one of the announced length that ends in the checksum of a packet completes that packet; any other completes nothing and counts once as corrupt and once as dropped. |
| `ConsolePackets.RunDoes` | tools/smp_can_client.py:548-588 | Whatever the bytes, the packets and the counters follow from the lines that the markers and newlines make of them. |
| `ConsolePackets.CompletedWereCarried` | tools/smp_can_client.py:624-658 | For any decoder and any bytes: every packet that they complete was carried by a start line and the fragments right after it, in the announced length and followed by its own checksum. |
| `ConsolePackets.BegunAreCounted` | tools/smp_can_client.py:615-658 | Every packet that is begun is completed, dropped or in progress, and counted once. |
| `Console.SerialFrameDecoder.EmitText` | tools/smp_can_client.py:606-610 | Console text is delivered line by line and the rest is kept, whichever pieces it comes in. |
| `ConsoleText.EmittedExactly` | tools/smp_can_client.py:606-613 | The pieces that end in a newline are handed over, without the carriage returns at their end, and the rest waits; nothing is lost or added. |
| `ConsoleText.TextPasses` | tools/smp_can_client.py:553-562 | Text that holds no marker goes to the console, but for a byte that may begin one. |
| `Console.SerialFrameDecoder.Feed` | tools/smp_can_client.py:548-588 | The loop comes to what the turns of the decoder on the buffer and the new bytes come to: packets, console lines, counters and state. |
| `Console.FeedSplit` | tools/smp_can_client.py:548-588 | From any state, if the overlong-line drop does not fire in the first piece, feeding two pieces is feeding both at once. |
| `Console.PartitionsAgree` | tools/smp_can_client.py:548-588 | Any two partitions of a stream in which the drop does not fire agree on packets, lines, counters and state. |
| `Console.AnyCuts` | tools/smp_can_client.py:548-588 | Where every line ends within the limit, at a newline or at a marker that cuts it, the drop fires for no way of cutting, so every way of cutting agrees with none. |
| `ConsoleCuts.ShortLinesExactly` | tools/smp_can_client.py:567-580 | After any reads, the lines of what comes are within the limit if and only if the drop fires for no first read of it. |
| `ConsoleCuts.FeedSplitExactly` | tools/smp_can_client.py:548-588 | From any state, two reads give what one read of both gives if and only if the first does not end in the drop, or what follows hides it: nothing, a marker after text that leaves no trace, or the newline of a line that is no frame and leaves the same text either way. |
| `ConsoleCuts.MarkersHide` | tools/smp_can_client.py:569-574 | A drop right before a marker, or at the end of the stream, is always hidden. |
| `ConsoleCuts.StraddleShows` | tools/smp_can_client.py:557-560 | A marker whose first byte was dropped with the line is never hidden: what follows never comes to the same. |
| `ConsoleRoundTrip.EncodeSerialLines` | tools/smp_can_client.py:520-528 | The lines are the cut of length, packet and checksum into pieces of 93 bytes, the first under the packet marker, the others under the fragment marker. |
| `ConsoleRoundTrip.RoundTrip` | tools/smp_can_client.py:520-658 | For any sequence of packets of 1 to 65533 bytes, marker-free text before, between and after their lines, what was held back before, and any cuts: exactly those packets are completed, in order, and the text comes out as text. |
| `ConsoleRoundTrip.NothingBeforeLastLine` | tools/smp_can_client.py:624-658 | Until the last line is there no packet is completed. |
| `ConsoleRoundTrip.EmptyPacketIsRefused` | tools/smp_can_client.py:654-657 | The empty packet is encoded but refused as corrupt, which is why the round trip starts at one byte. |
| `ConsoleRoundTrip.OverlongLineShowsCuts` | tools/smp_can_client.py:576-579 | The limit is real: an overlong line cut before its newline is dropped there. |
| `Ble.BleReassembler.Accept` | tools/smp_can_client.py:833-853 | A notification yields every packet that the buffer now holds and leaves the rest; a late one or an impossible length drops, and counts, what was held. |
| `Ble.DrainExactly` | tools/smp_can_client.py:838-849 | Whatever the bytes are, what is handed over are packets as the bytes have them, one after the other; what is left begins one and waits, or announces more than a packet can have and is dropped. |
| `Ble.DrainSplit` | tools/smp_can_client.py:833-849 | Where nothing is dropped, taking packets out early is taking them out at the end. |
| `Ble.BleReassembler.AcceptAll` | tools/smp_can_client.py:833-849 | Packets cut into timely notifications anywhere come out as they were sent, with their routes, and nothing is left; what was held from before, if they come late after it, is dropped and counted once. |
| `AssetDownload.AssetDownload.Accept` | tools/smp_can_client.py:1542-1573 | One response takes the download to the state that the specification says, or fails as it says; the limit on strays included. |
| `AssetDownload.RefusedExactly` | tools/smp_can_client.py:1542-1573 | Which responses end the download, each if and only if: one stray too many, a length that differs from a known one, an empty chunk; the others are kept and say the length and the CRC. |
| `AssetDownload.AssetDownload.SetLength` | tools/smp_can_client.py:1570-1573 | The length is learned once and may not change. |
| `AssetDownload.AssetDownload.NextOffset` | tools/smp_can_client.py:1575-1586 | The next offset to ask for: the first of those to ask again that is not covered, else the next step. |
| `AssetDownload.NextAskedIs` | tools/smp_can_client.py:1575-1586 | The first offset to ask again that is of use is asked for, from what was handed over on; where none is, the next new one, until the end. |
| `AssetDownload.AskedBehindExactly` | tools/smp_can_client.py:1575-1586 | What was handed over is asked for if and only if nothing is of use to ask again and a chunk past the next new offset was handed over. |
| `AssetDownload.ShortChunkLeavesNextBehind` | tools/smp_can_client.py:1562-1565 | An honest unit brings that about with a short chunk. |
| `AssetDownload.AssetDownload.TakeReady` | tools/smp_can_client.py:1588-1606 | The chunks that continue what was written are handed over in order, overlaps cut off, and none that does is left. |
| `AssetDownload.TakenIsSlice` | tools/smp_can_client.py:1588-1606 | What is handed over is exactly the asset's bytes from the old to the new mark, for any held chunks of the asset, overlapping as they like. |
| `AssetDownload.FirstAnswerProgresses` | tools/smp_can_client.py:1627-1639 | An honest first answer establishes the progress invariant. |
| `AssetDownload.AnswerProgresses` | tools/smp_can_client.py:1542-1568 | Every honest answer, in any order and of any nonempty length, keeps it: each byte from the mark on is held, in flight, to be asked again, or still ahead. |
| `AssetDownload.TakeProgresses` | tools/smp_can_client.py:1588-1606 | Handing over keeps it. |
| `AssetDownload.AskProgresses` | tools/smp_can_client.py:1575-1586 | Asking keeps it. |
| `AssetDownload.NeverStuck` | tools/smp_can_client.py:1660-1667 | An incomplete download with nothing outstanding has an offset to ask for. |
| `AssetDownload.AskingIsFree` | tools/smp_can_client.py:1657-1659 | Asking does not raise the measure of what is left to do. |
| `AssetDownload.AnswerCosts` | tools/smp_can_client.py:1669-1676 | Every honest answer, strays included, lowers it. |
| `AssetDownload.Ask` | tools/smp_can_client.py:1657-1667 | The window is filled; where that asks for nothing the first missing byte is asked for, until it was so often in a row without a byte handed over. |
| `AssetDownload.KnowsNext` | tools/smp_can_client.py:1669-1678 | From any state an answer is added to what is known, or is why the download ends: the limit on strays, an empty chunk, two lengths that differ, or no answer. |
| `AssetDownload.DownloadAsset` | tools/smp_can_client.py:1609-1687 | In every run the file holds the asset's bytes from the start, and the outcome is what the answers come to: done with the length and CRC that were said, a CRC that differs, a length that changed, too many strays, no answer, or no progress after so many requests. With an honest unit the stall branch is never taken and the run ends within the bound with the whole asset and its checksum. |
| `ImageUpload.HandleKeepsPrefix` | tools/test_smp_can_client.py:191-234 | The unit, which writes a chunk only at the offset it expects, holds a prefix of the image, and says the whole length only once it stored it. |
| `ImageUpload.HandleMoves` | tools/test_smp_can_client.py:191-234 | A chunk moves the unit if and only if it is the one expected, and the answer is where the unit stands. |
| `ImageUpload.Link.NextCompletion` | tools/smp_can_client.py:2189 | With any loss, repetition and delay the unit stays sound; an orderly link answers one outstanding chunk; the reply is recorded. |
| `ImageUpload.FillWindow` | tools/smp_can_client.py:2158-2170 | The window is filled with consecutive chunks of the image, at most the window is open, and nothing is sent while draining. |
| `UploadPace.SentIsAt` | tools/smp_can_client.py:2158-2170 | A chunk that continues or restarts keeps the pace: it follows the one before within the window, unless an answer that led elsewhere holds it back, or starts where the unit stands once everything was answered. |
| `UploadPace.ToldIsAt` | tools/smp_can_client.py:2189-2204 | So does a reply: it is awaited only with the window full, all sent, or the window draining; an answer that leads elsewhere makes it drain. |
| `ImageUpload.Listen` | tools/smp_can_client.py:2189-2204 | A reply takes the upload on, or ends it with what it says: no answer, a refusal, or an offset that is none. |
| `ImageUpload.GoBack` | tools/smp_can_client.py:2171-2187 | Once all was answered the upload goes back to where the unit stands, with the first chunk alone if that is the start, or stalls after nine times without progress. |
| `ImageUpload.RoundAdvances` | tools/smp_can_client.py:2168-2204 | Where order is kept, a round of drain and rewind moves the unit forward. |
| `ImageUpload.SendImage` | tools/smp_can_client.py:2104-2204 | In every run the outcome is what the replies come to: the first answer if the last is the length of the image, and only then; lost if the last was none, with a note whether it was for the last chunk; refused or misled if it was that; stalled after so many drains that went no further. No earlier reply ended it, every chunk was sent and every reply awaited when it should be, the unit holds a prefix, and returning means that it stored the image. Where order is kept the stall limit is never hit, and the upload ends within a stated number of answers. |
| `Pipeline.SmpPipeline.NextFree` | tools/smp_can_client.py:1202-1204 | The search ends, with the first number after the last one that no request in flight has. |
| `Pipeline.SmpPipeline.Submit` | tools/smp_can_client.py:1197-1211 | The request is sent under that number, or refused when all 256 are taken; the invariant is kept. |
| `Pipeline.SmpPipeline.Accept` | tools/smp_can_client.py:1234-1249 | A packet ends the request it answers, as an answer if its body decodes and as a refusal if that is an error, or nothing changes; the invariant is kept. |
| `Pipeline.SmpPipeline.Expire` | tools/smp_can_client.py:1251-1262 | A pass sends overdue requests again until one has no resends left, which it ends; the invariant is kept. |
| `Pipeline.SmpPipeline.NextCompletion` | tools/smp_can_client.py:1213-1228 | With any packets at any time, exactly one request ends, after at most as many rounds as there are useless packets, resends and requests. |
| `Pipeline.TagsAreConserved` | tools/smp_can_client.py:1197-1262 | The submitted tags are, as a multiset, those that came back and those in flight. |
| `Pipeline.CompletesOnce` | tools/smp_can_client.py:1234-1262 | No request completes twice, and a completed one is not in flight. |
| `Pipeline.SubmittedKeeps` | tools/smp_can_client.py:1197-1211 | Submitting keeps the invariant: distinct numbers, conservation, each request sent its own packet at most retries + 1 times and never before its timeout since the last time; an answer has a body that decodes, a refusal one that is an error, and a timeout comes after the last send and its timeout. |
| `Pipeline.AcceptedKeeps` | tools/smp_can_client.py:1234-1249 | So does a response, which has the number, group and command of the request it ends, and ends it as its body says. |
| `Pipeline.ResentKeeps` | tools/smp_can_client.py:1230-1232 | So does a request that is sent again once it is due. |
| `Pipeline.ExpiredKeeps` | tools/smp_can_client.py:1251-1262 | So does a pass over the deadlines. |
| `Pipeline.ExpiredSpends` | tools/smp_can_client.py:1251-1262 | A pass over something overdue ends a request or lowers resends plus outstanding; it ends none exactly when all that is overdue can be sent again. |
| `Pipeline.LateResponse` | tools/smp_can_client.py:1234-1240 | A response to a completed request changes something if and only if a later request in flight was given its number, group and command. |
| `Pipeline.LateResponseIsTaken` | tools/smp_can_client.py:1184-1186 | After 256 answered requests that is so: a second response to the first one ends the last. |
| `Cbor.EncodeFits` | tools/smp_can_client.py:2389-2423 | An item is encoded if and only if its numbers and lengths fit 64 bits and its singles exist. |
| `Cbor.DecodeEncodeHead` | tools/smp_can_client.py:2389-2395 | The decoder reads every head back, whatever follows it. |
| `Cbor.DecodeEncode` | tools/smp_can_client.py:2398-2423 | Decoding an encoding followed by any bytes gives the item and those bytes, for all nested items. |
| `Cbor.PrefixFree` | tools/smp_can_client.py:2398-2423 | No encoding begins another. |
| `Cbor.ShortestHead` | tools/smp_can_client.py:2389-2395 | Of all heads that say a value the encoder's is the shortest. |
| `Cbor.ShortestEncoding` | tools/smp_can_client.py:2398-2423 | Of all bytes that decode to an item its encoding is the shortest. |
| `SchemaDomain.EncodedExactly` | tools/smp_can_client.py:2516-2626 | Exactly the descriptions that conform have an item: known keys only, required members given, numbers of elements allowed, distinct keys, the right kinds; and the item has what was given, in order, for every schema. |
| `SchemaDomain.DescriptionExactly` | tools/smp_can_client.py:2475-2478 | What does not conform is refused; what does only for a number or a length that CBOR cannot hold. |
| `SchemaDomain.DecodedExactly` | tools/smp_can_client.py:2630-2716 | Exactly the items are decoded that the schema describes, where the members of a record take their items greedily. |
| `SchemaDomain.RecordIsRead` | tools/smp_can_client.py:2665-2691 | No item of a record is lost: each is the value of the member that took it, in order. |
| `Schema.RoundTrip` | tools/smp_can_client.py:2516-2716 | For every unambiguous schema the items of a description come back as the description in its normal form: null members dropped, numbers and keys normalised. |
| `Schema.DescriptionRoundTrip` | tools/smp_can_client.py:2475-2489 | The same through the bytes: encode, then decode. |
| `Schema.RecordIsReadBack` | tools/smp_can_client.py:2678-2688 | A record whose members come back does so itself if and only if no optional member accepts an item of a later one up to the next required one. |
| `Schema.GreedyMemberSpoils` | tools/smp_can_client.py:2678-2688 | A description that leaves out such a member does not come back. |
| `Schema.DescriptionIsReadBack` | tools/smp_can_client.py:2671-2691 | A description of a record, each of whose members comes back, does so itself if and only if no member that it leaves out accepts the item of the next one that it gives. |
| `Schema.FirstRoundTrip` | tools/smp_can_client.py:2544-2551 | A choice comes back if no alternative that refused the value accepts the item of a later one. |
| `Schema.ChoiceIsReadBack` | tools/smp_can_client.py:2656-2662 | A choice whose alternatives come back does so itself if and only if no earlier alternative, where it is the first to accept it, reads an item of a later one as something else. |
| `Schema.ChosenIsReadBack` | tools/smp_can_client.py:2656-2662 | One value comes back through a choice if and only if the first alternative that accepts its item reads what the one that wrote it would. |
| `Schema.PairsRoundTrip` | tools/smp_can_client.py:2607-2613 | A mapping comes back with its keys, in order; keys that Python takes for equal do not arise. |
| `ConfigCodec.ConfigCodec.Encode` | tools/smp_can_client.py:2475-2478 | Bytes come back if and only if the description conforms to the schema and its item's numbers and lengths fit; they encode an item that says what the description says, and decode to its normal form. |
| `ConfigCodec.ConfigCodec.Decode` | tools/smp_can_client.py:2480-2489 | A description comes back if and only if the bytes are one item, with nothing behind it, that the schema describes. |
| `ConfigCodec.ConfigCodec.RecordItem` | tools/smp_can_client.py:2554-2577 | The loop over the members, with an item if and only if the description conforms: every key is a member's name, every required member is given, each member conforms. |
| `ConfigCodec.ConfigCodec.MappingItem` | tools/smp_can_client.py:2590-2613 | The loop over the pairs, with an item if and only if their number is allowed, every key and element conforms, and no key is there twice. |
| `ConfigCodec.ConfigCodec.RecordValue` | tools/smp_can_client.py:2665-2691 | The greedy loop over members and positions, with a description if and only if the members can take all of the items so. |
| `ConfigCodec.ConfigCodec.MappingValue` | tools/smp_can_client.py:2702-2716 | The loop that builds the dictionary. |
| `UiSchema.AnyValueIsUnambiguous` | app/src/configuration/cbor/cbor_schemas/ui_config.cddl:68-70 | The choice between seven kinds of values is unambiguous, though the two kinds of lists share the empty one. |
| `UiSchema.UiConfigIsUnambiguous` | app/src/configuration/cbor/cbor_schemas/ui_config.cddl:1-70 | The schema of the UI configuration is unambiguous. |
| `UiSchema.UiConfigRoundTrip` | tools/smp_can_client.py:2475-2489 | So every UI configuration that can be encoded decodes to its normal form. |
| `UiSchema.LeftOutMemberIsMissed` | tools/smp_can_client.py:2678-2691 | With an optional and a required unsigned integer, a description of the second only is encoded and not decoded. |
| `Rle.GetRepeatCount` | tools/LVGLImage.py:1255-1275 | Counts the equal blocks at the front, up to 127. |
| `Rle.LiteralCountMeans` | tools/LVGLImage.py:1277-1307 | The one number of blocks that satisfies what a literal takes: up to the first long run that starts early, else 127 if the blocks still change, else all. |
| `Rle.GetNonrepeatCount` | tools/LVGLImage.py:1277-1307 | The loop over run and literal counters comes to that number. |
| `Rle.RleCompress` | tools/LVGLImage.py:1229-1253 | For any data, block size and threshold the loop writes the specified operations, or ends in an overflow error, or comes to a turn that changes nothing. |
| `Rle.ModestThresholdEnds` | tools/LVGLImage.py:1229-1253 | With a threshold of at most 127 the loop ends without an error. |
| `Rle.OpsTile` | tools/LVGLImage.py:1229-1253 | Runs and literals tile the blocks if and only if the loop ends. |
| `Rle.OverlongLiterals` | tools/LVGLImage.py:1303-1305 | A literal has more than 127 blocks if and only if there are more, they do not change from the 126th on, and no long run starts before; it then takes all of at most 126 + threshold. |
| `Rle.OnlyTheLastIsOverlong` | tools/LVGLImage.py:1303-1305 | Only the last operation can be so, and is exactly when what is left before it is. |
| `Rle.RoundTrip` | tools/LVGLImage.py:1229-1307 | For block-aligned data decoding gives the data back if and only if no literal is too long, or the last 128 blocks, which the decoder then takes for compressed data, decode to themselves. |
| `Rle.OverlongLiteralIsMisread` | tools/LVGLImage.py:1242 | 128 bytes that are written as one literal decode to 127 others. |
| `Rle.HighThresholdIsStuck` | tools/LVGLImage.py:1229-1246 | A turn changes nothing if and only if the threshold is above 127 and a run longer than it is first. |
| `Assembly.Include` | app/src/views/screens/widget_assembly.cpp:62-71 | Marks exactly the widgets whose owners lead to a chosen root. |
| `Assembly.Construct` | app/src/views/screens/widget_assembly.cpp:77-85 | Creates the children of one owner in drawing order, up to a failure. |
| `Assembly.CreateForest` | app/src/views/screens/widget_assembly.cpp:87-99 | Creates what is marked, once each, in its owner and after it. |
| `Assembly.TakeChildren` | app/src/views/screens/widget_assembly.cpp:104-108 | Moves the children, built, out of their slots; no slot is used after that. |
| `Assembly.ConfigureForest` | app/src/views/screens/widget_assembly.cpp:101-111 | Configures what is marked, with all its children, in postorder. |
| `Assembly.OwnedChildrenFirst` | app/src/views/screens/widget_assembly.cpp:101-111 | That order has each of them once, children before their owner. |
| `Assembly.Unwind` | app/src/views/screens/widget_assembly.cpp:118-123 | Destroys all that the slots hold; no owner goes while something that it would own is in a slot. |
| `Assembly.TakeRoots` | app/src/views/screens/widget_assembly.cpp:125-130 | The result is the chosen roots in definition order, and every created widget is in it. |
| `Assembly.AssembleRoots` | app/src/views/screens/widget_assembly.cpp:41-131 | For every forest and choice: the trees that the composition says, everything in them created once after its owner and its earlier siblings, and configured once; or a failure after which exactly what was created was destroyed. |
| `Sorting.SortedIsSorted` | app/src/views/screens/widget_assembly.cpp:78-82 | Sorting by z-index and index yields a strictly ordered permutation. |
| `DrawingOrder.StableSortIsUnique` | app/src/views/screens/screen_group.cpp:78-92 | A list has one stable sort. |
| `DrawingOrder.InsertingSorts` | app/src/views/screens/screen_group.cpp:32-43 | Inserting one after the other at the upper bound is the stable sort. |
| `DrawingOrder.UpperBound` | app/src/views/screens/screen_group.cpp:36-40 | The first position with a greater key. |
| `DrawingOrder.ScreenGroup.AddScreen` | app/src/views/screens/screen_group.cpp:32-43 | Puts the screen behind those with its z-index. |
| `DrawingOrder.ScreenGroup.PutScreen` | app/src/views/screens/screen_group.cpp:45-61 | Takes the screen of the same ID out first. |
| `DrawingOrder.ScreenGroup.OrderScreens` | app/src/views/screens/screen_group.cpp:78-92 | The stable sort of the screens by their place in the list of IDs, none lost or added; a screen that the list lacks comes last. |
| `DrawingOrder.Configure` | app/src/controllers/ui_controller.cpp:376-389 | A whole build leaves every group the stable sort by z-index of its screens in the list, overlays left out. |
| `DrawingOrder.OrderPatchedGroups` | app/src/controllers/ui_controller.cpp:755-779 | Every group of the configuration is ordered, and no other. |
| `DrawingOrder.OrderingRestores` | app/src/views/screens/screen_group.cpp:78-92 | Ordering any arrangement of a list by its IDs gives the list. |
| `DrawingOrder.PatchedOrderIsBuildOrder` | app/src/controllers/ui_controller.cpp:755-779 | For a group that has the configuration's screens, in any order, the result is what a whole build gives. |
| `ScreenPatches.PlanScreens` | app/src/domain/ui_domain/preview/ui_patch.cpp:512-558 | The plan has one patch for every screen that differs, of the right kind, removals first. |
| `ScreenPatches.RemoveScreen` | app/src/views/main_view.cpp:78-92 | The screen goes, unless it is the only one of its group. |
| `ScreenPatches.PutScreen` | app/src/views/main_view.cpp:57-76 | The screen takes its place in its group, if that is there and no other has one of its ID. |
| `ScreenPatches.PatchScreen` | app/src/controllers/ui_controller.cpp:686-749 | A patch that is done leaves every group the screens it should have by now, in drawing order; one that needs a rebuild does not fit: an overlay, a move, a new group or the last screen of one. |
| `ScreenPatches.FitsIfCan` | app/src/controllers/ui_controller.cpp:686-749 | Every patch fits if the overlays are the same, no screen moves, no group is new and each keeps a screen. |
| `ScreenPatches.CanIfAllFit` | app/src/controllers/ui_controller.cpp:686-749 | And only then. |
| `ScreenPatches.ApplyPatch` | app/src/controllers/ui_controller.cpp:799-835 | After the patches and the ordering the view is exactly what a whole build of the patched configuration gives, every group in drawing order; where no screen fails to be built that is so if and only if the change can be done in place, and else a rebuild is asked for. |
| `WidgetPatches.PlanWidgets` | app/src/domain/ui_domain/preview/ui_patch.cpp:249-301 | The planned patches are the true difference of the two screens, and an update in place is planned only where the change is one. |
| `WidgetPatches.DifferenceIsApplied` | app/src/views/screens/screen.cpp:107-172 | Removing and changing by the true difference makes roots that show one configuration show the other. |
| `WidgetPatches.Screen.ApplyWidgetPatches` | app/src/views/screens/screen.cpp:107-172 | By the true difference the screen comes to exactly the list of a fresh build, contents and order; a build that fails loses no root that was to stay. |
| `WidgetPatches.Screen.ApplyRootOrder` | app/src/views/screens/screen.cpp:174-208 | The roots that the configuration lists come in the order of z-index and index, the others after them as they were; none is lost. |
| `PropertyStore.WidgetPropertyStore.Register` | app/src/views/widgets/widget_property_store.cpp:37-67 | Declares a property with its default and parsed color, anew or again; a structural one is refused. |
| `PropertyStore.WidgetPropertyStore.Set` | app/src/views/widgets/widget_property_store.cpp:114-153 | Takes the value and its color if the property is registered and accepts it, else nothing changes. |
| `PropertyStore.WidgetPropertyStore.Reset` | app/src/views/widgets/widget_property_store.cpp:171-186 | Back to the default, the color too. |
| `PropertyStore.RegisteredOne` | app/src/views/widgets/widget_property_store.cpp:37-67 | Registering changes that property only, in entries and colors. |
| `PropertyStore.WrittenOne` | app/src/views/widgets/widget_property_store.cpp:114-153 | So does writing. |
| `Widget.NoUpdateIsLost` | app/src/views/widgets/widget_base.cpp:467-486 | Over every run of events, activation, deactivation, changes of visibility and renders, each registered non-management property waits or was last applied with the stored value, to a rendered widget. |
| `WidgetEvents.EventIsStored` | app/src/views/widgets/widget_base.cpp:566-575 | An event that manages the widget, or that is tracked while the widget is active, is stored if its value is taken, live or not, and then waits or is applied; any other changes nothing. |
| `WidgetEvents.EventIsShown` | app/src/views/widgets/widget_base.cpp:467-486 | Where the widget is live after such an event it shows the value and nothing waits; what manages the widget is applied at once, live or not. |
| `WidgetEvents.LastEventIsStored` | app/src/views/widgets/widget_base.cpp:566-575 | Over every run a property holds what the last event that counts said, and nothing else changes it. |
| `WidgetEvents.LastEventIsShown` | app/src/views/widgets/widget_base.cpp:273-287 | A widget that can show it was applied that value last, after a synchronization, an activation or a render. |
| `Widget.SynchronizedShowsAll` | app/src/views/widgets/widget_base.cpp:221-234 | After synchronizing a ready and eligible widget nothing waits, and all that is applied is what is stored. |
| `Widget.ReplayAppliesValueLast` | app/src/views/widgets/widget_base.cpp:610-642 | A replay applies what waited, each once, and the value after all others. |
| `Widget.LocalInputIsTracked` | app/src/views/widgets/widget_base.cpp:488-501 | User input keeps that invariant if and only if it is refused, or writes an anchor, a management property, one that waits, or the same value. |
| `WidgetBase.WidgetBase.NotifyPropertyChanged` | app/src/views/widgets/widget_base.cpp:467-486 | A management property is applied at once, any other if nothing waits and the widget is live, else it waits. |
| `WidgetBase.WidgetBase.ApplyProperties` | app/src/views/widgets/widget_base.cpp:610-631 | The loop applies the selected in order of registration and the value last. |
| `WidgetBase.WidgetBase.ReplayProperties` | app/src/views/widgets/widget_base.cpp:591-608 | Applies everything; where the widget is not live it all waits again. |
| `WidgetBase.WidgetBase.OnActivated` | app/src/views/widgets/widget_base.cpp:273-287 | Activation replays a live widget and keeps the invariant. |
| `WidgetBase.WidgetBase.Synchronize` | app/src/views/widgets/widget_base.cpp:221-234 | Nothing waits afterwards, if the widget is live. |
| `WidgetBase.WidgetBase.Render` | app/src/views/widgets/widget_base.cpp:179-219 | A render that succeeds replays what waits; one that fails leaves it waiting. |
| `WidgetBase.WidgetBase.OnEvent` | app/src/views/widgets/widget_base.cpp:566-575 | An inbound event is stored if it is heard and its value is taken, whether the widget is live or not, and else changes nothing; the store goes on following its record. |
| `WidgetBase.WidgetBase.SetPropertyLocal` | app/src/views/widgets/widget_base.cpp:488-501 | User input is written if the widget is eligible, and applied by the base if it is an anchor. |
| `WidgetBase.WidgetBase.Configure` | app/src/views/widgets/widget_base.cpp:651-682 | Whichever order the record's properties are gone through in, the store is as the record has it: the value where it is accepted, else the default, the box from the record, colors parsed. |
| `WidgetBase.WidgetBase.ApplyEditorProperty` | app/src/views/widgets/widget_base.cpp:719-744 | One property is edited: left alone, set, or reset where the new value is refused. |
| `WidgetBase.WidgetBase.ApplyEditorBox` | app/src/views/widgets/widget_base.cpp:746-768 | The record's box becomes the default and the value; a bound side keeps its value. |
| `WidgetBase.WidgetBase.ApplyEditorConfiguration` | app/src/views/widgets/widget_base.cpp:684-708 | A store that followed the old record, with the same bindings, follows the new one; no update is lost on the way. |
| `WidgetBase.EditEqualsRebuild` | app/src/views/widgets/widget_base.cpp:651-768 | A store that follows a record agrees with one built from it on every property that no event drives: value, default, parsed color. |
| `WidgetBase.EditedOne` | app/src/views/widgets/widget_base.cpp:719-744 | Editing one property brings it to the new record and leaves the others. |
| `WidgetBase.EventFollows` | app/src/views/widgets/widget_base.cpp:566-575 | An event keeps a store following its record. |
| `Preview.StagedKeeps` | app/src/domain/ui_domain/preview/ui_preview_session.cpp:98-154 | A transfer stays within its length and the buffer; the session applies once it is whole. |
| `Preview.StagedAppends` | app/src/domain/ui_domain/preview/ui_preview_session.cpp:98-154 | A chunk that is taken continues the bytes received, or starts anew with the length, the CRC and the revision that it announces. |
| `Preview.TakenExactly` | app/src/domain/ui_domain/preview/ui_preview_session.cpp:98-154 | A chunk is taken if and only if it is the holder's, nothing is applied, and it starts a transfer that fits and is not stale or continues one within its length. |
| `Preview.OnlyTheHolder` | app/src/domain/ui_domain/preview/ui_preview_session.cpp:78-96 | A request without the session's token changes nothing; one with it renews the lease. |
| `Preview.BegunExactly` | app/src/domain/ui_domain/preview/ui_preview_session.cpp:20-59 | A session is created if and only if there is none and no token is given; an open one is kept for its token, or for the request that opened it. |
| `Preview.UiPreviewService.ExecuteParse` | app/src/domain/ui_preview_domain/ui_preview_service.cpp:246-265 | What is parsed is all of the transfer and has the CRC that was announced; that and a configuration that parses are all it takes. |
| `Preview.UiPreviewService.RestoreStoredScreens` | app/src/domain/ui_preview_domain/ui_preview_service.cpp:430-448 | The stored screens come back and the mark goes, or the mark stays. |
| `Preview.UiPreviewService.ExecuteBegin` | app/src/domain/ui_preview_domain/ui_preview_service.cpp:212-244 | A new session shows and marks nothing; an open one is kept; the answer is the session's, unless there is no memory. |
| `Preview.UiPreviewService.ExecuteApply` | app/src/domain/ui_preview_domain/ui_preview_service.cpp:267-303 | What was staged, with its announced CRC, shows whole, is the one taken for shown and has a later revision; or none is, and the stored one shows, unless the host refuses it, which the session's end is then marked for. |
| `Preview.UiPreviewService.ExecutePatchPrepare` | app/src/domain/ui_preview_domain/ui_preview_service.cpp:311-388 | The patch of what is shown, if and only if it decodes, applies, is valid and is within a stage; too large only where the measured size is. |
| `Preview.UiPreviewService.ExecutePatchApply` | app/src/domain/ui_preview_domain/ui_preview_service.cpp:390-428 | The patched configuration shows; or what was shown does; or what is stored, unless the host refuses it. |
| `Preview.UiPreviewService.EndSession` | app/src/domain/ui_preview_domain/ui_preview_service.cpp:459-490 | Nothing changes while a request is applied; else the session closes, and screens that were replaced come back or the refusal is known, but for an end by a store, which leaves them to its rebuild; they are left for good exactly if that is over. |
| `Preview.UiPreviewService.ProcessLease` | app/src/domain/ui_preview_domain/ui_preview_service.cpp:492-507 | Looks again exactly while the lease runs or a request is applied; else the session is over. |
| `Preview.UiPreviewService.ProcessEnd` | app/src/domain/ui_preview_domain/ui_preview_service.cpp:509-531 | Waits exactly while a request is applied; then a pending end closes the session: the stored screens come back for a dropped link, and nothing is touched for a store. |
| `Preview.UiPreviewService.OnConfigurationStored` | app/src/domain/ui_preview_domain/ui_preview_service.cpp:667-673 | A store ends the session, and its rebuild is queued. |
| `Preview.UiPreviewService.RunRebuild` | app/src/controllers/ui_controller.cpp:475-487 | The rebuild shows what is stored, over what was staged. |
| `Preview.UiPreviewService.StoreLeavesStage` | app/src/domain/ui_preview_domain/ui_preview_service.cpp:523-525 | A run in which a store leaves a staged configuration on the screens with no session: the rebuild comes before the stage is shown, the end after. |
| `Preview.UiPreviewService.Step` | app/src/domain/ui_preview_domain/ui_preview_service.cpp:212-531 | No step of any kind ends a session that is applying. |
| `Preview.UiPreviewService.Run` | app/src/domain/ui_preview_domain/ui_preview_service.cpp:212-531 | Over every interleaving of requests, jobs that are lost or fail, the lease, the ends and stores: no step ends a session that is applying or takes its revision back, and without stores what is taken for shown shows, and other than stored screens are marked or were refused. |
| `MainView.ScreenGroup.EnsureRendered` | app/src/views/screens/screen_group.cpp:130-144 | A render that succeeds applies a recorded request. |
| `MainView.ScreenGroup.Activate` | app/src/views/screens/screen_group.cpp:152-171 | Recorded, and in effect exactly if the group is rendered. |
| `MainView.ScreenGroup.Deactivate` | app/src/views/screens/screen_group.cpp:173-185 | No request, not active, hidden. |
| `MainView.MainView.SetActiveGroup` | app/src/views/main_view.cpp:124-187 | The switch holds, now or once rendered, and the group named is rendered or queued; where the render fails here, the previous group is the active one. |
| `MainView.MainView.RenderGroupOrRollBack` | app/src/views/main_view.cpp:189-214 | A failure takes the switch back, unless a later one moved on; no other group is touched. |
| `MainView.MainView.RunQueued` | app/src/views/main_view.cpp:166-181 | A queued render whose group the view dropped changes nothing; one that fails takes the switch back, and the group named then is rendered or queued if and only if the one to go back to was. |
| `MainView.MainView.SwitchTwice` | app/src/views/main_view.cpp:156-214 | Two deferred switches whose renders fail leave a group named active that is neither rendered nor queued. |
| `MainView.MainView.Clear` | app/src/views/main_view.cpp:113-122 | Every group stops and goes, and none is named active. |
| `MainView.MainView.Render` | app/src/views/main_view.cpp:270-291 | The chosen group is rendered and active, or every group is as it was. |
| `MainView.MainView.OneActive` | app/src/views/main_view.cpp:124-214 | Of the groups at most one is active: the one named, rendered and shown. |
| `MainView.MainView.ActiveIsShown` | app/src/views/main_view.cpp:124-214 | In a ready view the group named active is asked to be, and is as soon as it is rendered. |
| `MainView.MainView.Run` | app/src/views/main_view.cpp:113-214 | Every interleaving of switches, queued renders, builds, renders and clearings keeps this; and the group named stays rendered or queued as long as no switch is taken back to one that is neither. |

## Left out

- Transports, clocks and threads (python-can, serial ports, Bluetooth, work queues, locks): time and what arrives are inputs; queued work is a step.
- The commands around the transfers (confirmation, polling, argument parsing, progress), and the assets and configuration uploads.
- Several readings of the clock within one pass of `SmpPipeline` (`_expire`, `_send`): one reading a pass.
- Decoding console bytes to text, and the callback's own processing of a line: lines are bytes.
- CBOR text is its UTF-8 bytes and a float its bits; what cbor2 does with tags, indefinite lengths, simple values without an item, and a key that a map has twice.
- `shortest_float32`, narrowing and conversion of numbers are functions that the schema results hold for, whatever they compute; overflow of a huge integer to float is not modelled.
- zcbor's parsing and validation, which can only refuse more; the resolution of named types; the texts of the error messages.
- Map keys that are floats or arrays, and the shapes that descriptions do not cover (they are refused as the code refuses them).
- Reading and writing PNG, LZ4, color conversion and the headers of image files; data that is not block-aligned is compressed in the model, but tiling and the round trip are stated for aligned data.
- `WidgetComposition::Build`: its result is a forest with a valid postorder by hypothesis, as the validator promises.
- LVGL, themes, fonts, animation, transforms, the pixel arithmetic of the box and whether it was placed already: a widget's objects are its applied values, hidden flags and child order.
- What a root widget owns is one value in `WidgetPatches`, the list that a plan compares. That this covers the order in which a fresh build draws it rests on owners having one child at most (app/src/views/widgets/indicators/dial_indicator/dial_indicator.cpp:33-35, app/src/views/widgets/widget_base.cpp:35-42).
- Children of a widget in `Widget` and `WidgetBase`: activation, rendering and synchronizing go down the tree one widget at a time.
- Handlers of a property change that throw, and publishing on outbound bindings.
- Navigation and the highlight in `Preview`; that a patch made while a rebuild came over the stage may meet other screens (nothing is promised of it then).
- `MainView.PruneEmptyGroups` is modelled where the controller calls it, before a group is chosen.
- The view's own rebuild where `ScreenPatches.ApplyPatch` asks for one, and the overlays that are shown again; what a patch of widgets does within its screen is `WidgetPatches`.
- Zephyr drivers, boot wiring, the zcbor codecs of the firmware and its validators beyond the rules for runtime properties.
