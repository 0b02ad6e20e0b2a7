# Medtronic pump upload through the Bayer Contour Next Link, in Dafny

This project models the core of the Medtronic driver of the Tidepool uploader.
The uploader reaches the pump through a Bayer Contour Next Link meter that acts as
a USB HID bridge. The model covers two components.

**The bridge protocol** (`lib/drivers/medtronicDriver.js`):

- The outbound builders:
  - the short meter control packets;
  - the Medtronic command packets, with their header, serial, type, length fields, payload and additive checksum;
  - the zero continuation packet, whose CRC-8 is folded into the checksum of the command sent before it.
- The header that `setup` derives from the device serial.
- The shared message buffer that incoming HID packets are appended into.
- The completion rule of `getMessage`.
- The reply parsers.
- The eight-step connection handshake of `getConfigInfo`.
- The multi-part page read of `getRecords`.
- The nine-page history download of `fetchData`.

**The history decoder** (`lib/medtronic/processData.js`):

- The record-type table and its lookup by type byte.
- The resolution of a table entry into the lengths a scan uses. This covers the model 523 override, its deletion and the defaults. It is done in place on the shared table.
- The page scanner of `processPages`. It cuts each 1024-byte page into head, date and body records, stops at a zero type byte, rejects type 0x55 and unknown types, and numbers the records in scan order across pages.
- `decodeDate`, `twosComplement` and `filterHistory`.
- The integer fields that the bolus, bolus wizard and BG event builders read out of records. This includes the pairing of the two records of a dual bolus.

## How the model is built

The model follows the form of the source.

- **Byte buffers** that the source fills through an advancing cursor are Dafny `array`s, filled by methods. Each such method is proved equal to a function that describes the bytes.
- **The message buffer** is a class whose fields are rewritten by `Reset`, `SetValid` and `ExtractPacketIntoMessage`.
- **The transport** is a class `Link`. It holds the HID packets the bridge delivers, a read cursor and a log of sent frames. Reading past the last packet stands for the abort timer firing.
- **The exchanges** (`getMessage`, `getRecords`, the handshake and the download) are methods over the buffer and the link. Each is proved against a function that runs the same exchange over the packet sequence from the current read position. The properties are proved about those functions.
- **The decoder's module state** is the class `History.HistoryDecoder`: the record-type table, the `larger` flag and the strokes-per-unit scale. Its page loop and its in-place entry rewrite are methods, proved against the scan functions.

The CRC-8 of the bridge (polynomial 0x9B) is a function-typed parameter, because its implementation is not part of this model.

For the struct helper, the model takes these readings:

- `pack` with an `i` field stores a little-endian 32-bit integer.
- `copyBytes` copies the requested count and returns it. Source positions past the end read as 0 in a `Uint8Array`.
- `extractBEShort(b, i)` is `b[i] * 256 + b[i + 1]`.
- `extractByte(b, i)` is `b[i]`, and `undefined` past the end of `b`.
- `extractBytes(b, i, n)` is the slice `b[i .. i + n]`, clipped at the end of `b`. It may be shorter than `n`.
- `extractString(b, i, n)` gives one character per byte: the character codes of `b[i .. i + n]`, clipped at the end of `b`. It does not stop at a zero byte and does not pad. `readModel` reads the model number this way, as `Session.ModelNumber` states.
- `pack` with a `6z` field stores the character codes of the string, modulo 256, zero-filled or truncated to six bytes. `Framer.SerialField` states this.
- `pack` with a `b` field at an offset past the end of the `Uint8Array` stores nothing: the write is dropped. `Framer.CheckBytes` folds the padding checksum in only when its slot lies inside the array.
- `unpack` with a `3Z` field reads the three marker characters. With `b` fields it reads single bytes at their offsets.

Where the decoders index past the end of a short record, JavaScript reads `undefined`. A bitwise operator turns that into 0. Arithmetic turns it into NaN, which the model writes as `None`.

The `larger` flag of `processPages` is a module global that is set for model 523 and never cleared. `HistoryDecoder.ProcessPages` states exactly that: after a model 523 upload, later uploads in the same session keep the larger layouts.

## Model

| member | source | states |
|---|---|---|
| Bytes.SumLsb | lib/drivers/medtronicDriver.js:98-105 | the accumulator loop returns the low byte of the unsigned sum of all bytes |
| Bytes.SumAppend | lib/drivers/medtronicDriver.js:98-105 | the byte sum of a concatenation is the sum of the parts' sums, so the checksum does not depend on where bytes sit |
| Bytes.SumUpdate | lib/drivers/medtronicDriver.js:143-145 | overwriting one byte changes the sum by exactly the difference between the new and the old byte |
| Bytes.CopyBytes | lib/drivers/medtronicDriver.js:129 | copies n source bytes into the array at the cursor and returns n; the rest of the array is unchanged; positions past the end of the source store 0 |
| Bytes.Int32LeDecodes | lib/drivers/medtronicDriver.js:133-135 | the four bytes of a packed `i` field decode back to the packed length for every 32-bit value |
| Framer.ParseHexPair | lib/drivers/medtronicDriver.js:438-440 | `parseInt(pair, 16)` on a pair of at most two characters yields a number exactly when the pair starts with a hex digit (and is not the bare prefix "0x"), or when one white-space or sign character precedes a hex digit. Two digits give 16·high + low, one leading digit gives its own value, `+` or white space keeps the digit's value, and `-` negates it |
| Framer.ParseHexPairIsParseInt | lib/drivers/medtronicDriver.js:438-440 | on every string of at most two characters, the pair parser agrees with the whole `parseInt(s, 16)` algorithm: skip white space, take one sign, drop a "0x" prefix, read the longest run of hex digits |
| Framer.MedtronicHeader | lib/drivers/medtronicDriver.js:438-440 | the session header exists exactly when all three pairs parse. It is four bytes, 0xA7 and then each pair's value as a `Uint8Array` stores it (modulo 256) |
| Framer.HeaderOfSpacedSerial | lib/drivers/medtronicDriver.js:438-440 | the serial " 98426" gives the header A7 09 84 26, because `parseInt` skips the leading space |
| Framer.HeaderOfNegativePair | lib/drivers/medtronicDriver.js:438-440 | the serial "-98426" gives the header A7 F7 84 26: the pair "-9" is -9, stored as 247 |
| Framer.HeaderOfHexSerial | lib/drivers/medtronicDriver.js:438-440 | six hex digits give a header whose bytes 1 to 3 are the bytes spelled by the three digit pairs |
| Framer.DefaultSerialHeader | lib/drivers/medtronicDriver.js:434-440 | the default serial 698426 gives the header A7 69 84 26 |
| Framer.SerialField | lib/drivers/medtronicDriver.js:127 | the serial field of a command packet is always six bytes (the char codes, zero-filled) |
| Framer.ControlPacketLayout | lib/drivers/medtronicDriver.js:228-234 | a control packet is n + 4 bytes: three zeros, n, then the first n command bytes |
| Framer.BuildPacket | lib/drivers/medtronicDriver.js:228-243 | the cursor-filled buffer is exactly that layout: length n + 4, header `0,0,0,n`, then the command window |
| Framer.BuildAckPacketAsWritten | lib/drivers/medtronicDriver.js:245-247 | as written, the ACK packet is the control packet of an empty command of length 1 |
| Framer.BuildNakPacketAsWritten | lib/drivers/medtronicDriver.js:249-251 | as written, the NAK packet is the control packet of an empty command of length 1 |
| Framer.ControlByteDroppedAsWritten | lib/drivers/medtronicDriver.js:245-251 | that packet is 00 00 00 01 00, which differs from the intended packets carrying ACK or NAK |
| Framer.BuildAckPacket | lib/drivers/medtronicDriver.js:245-247 | corrected builder: 00 00 00 01 06 |
| Framer.BuildNakPacket | lib/drivers/medtronicDriver.js:249-251 | corrected builder: 00 00 00 01 15 |
| Framer.BuildPaddingPacket | lib/drivers/medtronicDriver.js:155-173 | returns the 48-byte buffer `0,0,0,44`, 43 zeros, k; the returned checksum k is its last byte and is the CRC-8 of header, command, parameter, 20 zeros and 43 zeros |
| Framer.Payload | lib/drivers/medtronicDriver.js:109-121 | no command gives an empty payload; with a parameter the payload is header, command, parameter and 20 zeros; otherwise it is header, command, 0x00 and the CRC-8 of everything before it |
| Framer.BuildPayload | lib/drivers/medtronicDriver.js:109-121 | the payload assembly computes exactly that payload |
| Framer.PacketHead | lib/drivers/medtronicDriver.js:123-136 | the packed fields in front of the checksum are 33 + len(type) bytes |
| Framer.PackHead | lib/drivers/medtronicDriver.js:127-136 | the cursor ends at 33 + len(type), the bytes before it are the packet head, and the bytes after it are untouched |
| Framer.ComputeChecksum | lib/drivers/medtronicDriver.js:138-145 | the scratch-buffer checksum is the low byte of the sum of the bytes after the header, the payload copied in, and the continuation checksum written at its slot when that slot exists |
| Framer.PackTail | lib/drivers/medtronicDriver.js:147-148 | the buffer ends with the checksum byte followed by the payload, keeping everything before the cursor |
| Framer.PacketChecksum | lib/drivers/medtronicDriver.js:138-145 | the checksum step with the padding packet built only when there is a parameter, equal to the scratch-sum definition |
| Framer.BuildMedtronicPacket | lib/drivers/medtronicDriver.js:107-152 | the returned buffer is exactly the packet defined by head, checksum and payload |
| Framer.MedtronicPacketLayout | lib/drivers/medtronicDriver.js:123-136 | total length 34 + len(type) + len(payload); byte 3 is (30 + len(type) + len(payload)) mod 256; then the 0x51 0x01 tag, the serial field, the type at offset 22, the length field (payload length, plus 44 with a parameter) at 29 + len(type), and the payload as the tail |
| Framer.CheckBytesSum | lib/drivers/medtronicDriver.js:138-145 | when the payload ends in 20 zeros, the scratch sum is body sum + payload sum + the folded checksum if its slot exists, because the slot always lands on a zero byte |
| Framer.ChecksumIsSumLsb | lib/drivers/medtronicDriver.js:98-105 | the checksum byte at 33 + len(type) is (sum of the head bytes after the 4-byte header + payload sum + the padding CRC when a parameter is given and its slot exists) mod 256 |
| Framer.ReadPageChecksumFoldsPadding | lib/drivers/medtronicDriver.js:141-145 | for the readPage command of fetchData the padding CRC always reaches the sum |
| Reassembly.Extracted | lib/drivers/medtronicDriver.js:213-219 | what a HID packet contributes is exactly SIZE bytes, the bytes after the size byte |
| Reassembly.MessageBuffer.constructor | lib/drivers/medtronicDriver.js:77-92 | the buffer starts reset: no bytes, length 0, not valid, null payload |
| Reassembly.MessageBuffer.Reset | lib/drivers/medtronicDriver.js:78-84 | reset restores no bytes, length 0, valid false and a null payload |
| Reassembly.MessageBuffer.SetValid | lib/drivers/medtronicDriver.js:85-88 | the payload becomes the string of the bytes' char codes and valid becomes true |
| Reassembly.MessageBuffer.ExtractPacketIntoMessage | lib/drivers/medtronicDriver.js:212-226 | keeps the old bytes as a prefix, appends b[1 .. 1 + b[0]), grows the length by exactly b[0] and sets valid |
| Reassembly.Link.Receive | lib/drivers/medtronicDriver.js:337 | yields the next delivered packet and advances the cursor, or nothing (the timeout) once every packet was read; the send log is unchanged |
| Reassembly.Link.Send | lib/drivers/medtronicDriver.js:310 | appends the frame to the send log without reading |
| Reassembly.Reassemble | lib/drivers/medtronicDriver.js:322-405 | getMessage over the packet sequence: the read position only moves forward and a success returns the accumulated message (the corrected outcome of the Findings row) |
| Reassembly.GetMessage | lib/drivers/medtronicDriver.js:322-405 | the receive loop returns the outcome of Reassemble, leaves the buffer and read position where Reassemble says, and sends nothing |
| Reassembly.ReassembledBytes | lib/drivers/medtronicDriver.js:336-352 | getMessage keeps the previous buffer as a prefix and appends exactly what the packets it read contribute, empty packets nothing |
| Reassembly.ReassembleStops | lib/drivers/medtronicDriver.js:336-399 | a timeout has consumed every packet; any other outcome was decided by the last packet read, which was non-empty |
| Reassembly.SkipsEmptyPackets | lib/drivers/medtronicDriver.js:340-342 | empty reads change nothing but the read position |
| Reassembly.AckAfterEmptyPackets | lib/drivers/medtronicDriver.js:340-359 | N empty reads, then a packet that puts ACK at byte 33 of the message, complete the message after exactly N + 1 reads, whatever the policy |
| Reassembly.PacketOutcome | lib/drivers/medtronicDriver.js:354-395 | after a non-empty packet: an ACK at byte 33 completes before the marker is checked; then a bad marker is an invalid packet; then the policy decides between completing and reading on |
| Reassembly.PolicyDecides | lib/drivers/medtronicDriver.js:363-394 | wherever getMessage reads a well-marked packet without an ACK reply, that read completes the message (an Ok outcome, the read position just past the packet) exactly when the policy test holds |
| Reassembly.WaitForEnqCompletion | lib/drivers/medtronicDriver.js:376-380 | under waitForENQ, a well-marked packet at any read position completes the message with that read iff its first payload byte is ENQ |
| Reassembly.RemoteModeCompletion | lib/drivers/medtronicDriver.js:381-385 | in remote command mode, such a packet at any read position completes the message with that read iff SIZE < 60 |
| Reassembly.DefaultCompletion | lib/drivers/medtronicDriver.js:386-394 | under the default policy, such a packet at any read position completes the message with that read iff SIZE < 60, or byte 1 is ENQ, EOT or ACK, or the frame type at SIZE - 1 is ETX or ETB |
| Reassembly.CallbacksAsWritten | lib/drivers/medtronicDriver.js:363-368 | the callbacks getMessage makes as written: one or two, two after an invalid packet |
| Reassembly.InvalidPacketReportedTwice | lib/drivers/medtronicDriver.js:363-368 | a packet without the ABC marker is reported as a failure and then as a success |
| Reassembly.ReassembleIsFirstCallback | lib/drivers/medtronicDriver.js:363-402 | the corrected outcome is always the first callback, and a second callback occurs exactly on an invalid packet |
| Session.RecordType | lib/drivers/medtronicDriver.js:253-257 | decodeMessage's record type is the first message byte, undefined exactly for an empty message |
| Session.PagePart | lib/drivers/medtronicDriver.js:205-208 | the readPage parser returns the reply from byte 33 on, empty for a shorter reply |
| Session.ModelNumber | lib/drivers/medtronicDriver.js:182-186 | with m = reply[33..], the model string has length min(m[0], len(m) - 1) and its characters are m[1..] |
| Session.CommandResponse | lib/drivers/medtronicDriver.js:309-320 | sends the frame, returns getMessage's outcome, and resets the buffer only on success |
| Session.FrameLogInOrder | lib/drivers/medtronicDriver.js:480-560 | the handshake send log keeps the earlier log and holds step j's frame at position j after it |
| Session.StepCheck | lib/drivers/medtronicDriver.js:489-541 | NAK passes iff the record type is EOT; ENQ, WRITE, QUERY and MAGIC pass iff it is ACK; the probe, open and model steps check nothing |
| Session.HandshakeStep | lib/drivers/medtronicDriver.js:259-273 | a step succeeds only with an empty buffer and a reply that passes its check |
| Session.RunHandshake | lib/drivers/medtronicDriver.js:479-569 | steps run in order; success means all eight frames were sent and the buffer is empty |
| Session.HandshakeContinues | lib/drivers/medtronicDriver.js:479-569 | a failing step ends the handshake with its error; a passing step starts the next one, and the last one yields the model number |
| Session.BuildHandshakeFrame | lib/drivers/medtronicDriver.js:481-553 | the frame of step k: X, NAK, ENQ, WRITE, QUERY, MAGIC, OPEN_CONNECTION, model query |
| Session.RunStep | lib/drivers/medtronicDriver.js:481-559 | one task sends its frame and returns the checked reply of HandshakeStep |
| Session.HandshakeTask | lib/drivers/medtronicDriver.js:479-569 | one task, stated as the step it takes in RunHandshake |
| Session.GetConfigInfo | lib/drivers/medtronicDriver.js:470-572 | returns the handshake's result, and the frames sent are exactly the frames of the steps started, in step order |
| Session.HandshakeFrom | lib/drivers/medtronicDriver.js:479-569 | the tasks from step k on, with the same result and send log |
| Session.HandshakeErrorNamesLastStep | lib/drivers/medtronicDriver.js:489-541 | "Expected EOT" comes after exactly two frames; "Expected ACK during connect:" names the step of the last frame sent (ENQ, WRITE, QUERY, MAGIC) |
| Session.EnqWithoutAckStops | lib/drivers/medtronicDriver.js:498-508 | a non-ACK reply to ENQ stops the handshake after three frames with the ENQ error |
| Session.Assemble | lib/drivers/medtronicDriver.js:280-292 | the page of n parts is 256·n bytes |
| Session.AssembleAppend | lib/drivers/medtronicDriver.js:292 | copying one more part is one overlay at 256 times its part number |
| Session.AssemblePlacesParts | lib/drivers/medtronicDriver.js:280-292 | with parts of at most 256 bytes, page byte i is byte i mod 256 of part i / 256, or 0 where no part reached |
| Session.ReadParts | lib/drivers/medtronicDriver.js:282-303 | a page read that succeeds read exactly n parts and returns their assembly |
| Session.ReadPartsContinues | lib/drivers/medtronicDriver.js:285-294 | a receive error aborts, a part past the page end fails, and otherwise the read goes on with the buffer reset |
| Session.ReceivePart | lib/drivers/medtronicDriver.js:285-291 | a part is the reply from byte 33 on, read in remote command mode, and the buffer is reset after it |
| Session.CopyPart | lib/drivers/medtronicDriver.js:292 | `page.set(part, 256·k)` takes the page to the assembly with one more part |
| Session.GetRecords | lib/drivers/medtronicDriver.js:275-307 | sends command1 and then command2, then reads n parts into a 256·n page; the result, buffer and position are those of ReadParts |
| Session.FetchPage | lib/drivers/medtronicDriver.js:590-609 | one page: READ_HISTORY waiting for ENQ, then four parts; a page read is 1024 bytes and an error names its page |
| Session.PageSends | lib/drivers/medtronicDriver.js:590-595 | a page sends READ_HISTORY, then (unless READ_HISTORY went unanswered) the readPage command and its padding |
| Session.FetchContinues | lib/drivers/medtronicDriver.js:587-620 | a failed page ends the download; a page read goes on with the next |
| Session.DownloadReadsEveryPage | lib/drivers/medtronicDriver.js:587-620 | a complete download adds one page per step, in page order |
| Session.PagesLogInOrder | lib/drivers/medtronicDriver.js:587-620 | in the send log, the three frames of page i sit at 3·i |
| Session.DownloadSendsEveryPage | lib/drivers/medtronicDriver.js:587-620 | a complete download sends the frames of every page, in page order |
| Session.FetchReadsEveryPage | lib/drivers/medtronicDriver.js:583-620 | a complete fetchData returns nine pages of 1024 bytes |
| Session.FetchSendsEveryPage | lib/drivers/medtronicDriver.js:583-620 | a complete fetchData sends READ_HISTORY, readPage(k) and its padding for k = 0..8, in order |
| Session.ReadHistoryPage | lib/drivers/medtronicDriver.js:590-609 | one pass of the page loop equals FetchPage |
| Session.FetchStep | lib/drivers/medtronicDriver.js:589-611 | one pass, stated as the step it takes in the download |
| Session.FetchFrom | lib/drivers/medtronicDriver.js:587-620 | the loop from page k on equals the download function |
| Session.FetchData | lib/drivers/medtronicDriver.js:574-633 | fetchData's result, buffer, position and send log are those of the nine-page download |
| RecordTypes.FindFrom | lib/medtronic/processData.js:180-187 | a position found holds the type byte searched for, at or after the start |
| RecordTypes.FindFromFirst | lib/medtronic/processData.js:180-187 | no earlier entry has the byte, and when nothing is found no entry has it |
| RecordTypes.FindType | lib/medtronic/processData.js:180-187 | getType's entry has the requested type byte |
| RecordTypes.FindTypeFirst | lib/medtronic/processData.js:180-187 | getType yields the first entry in declaration order, and 'unknown' exactly when no entry has the byte |
| RecordTypes.ShadowedWizardChange | lib/medtronic/processData.js:79-80 | type 0x5A always resolves to BOLUS_WIZARD_CHANGE_OLD, never to the BIG entry declared after it |
| RecordTypes.FindFromSameValues | lib/medtronic/processData.js:180-187 | the lookup reads only the type bytes |
| RecordTypes.Resolve | lib/medtronic/processData.js:441-445 | a resolved entry keeps its type byte and name, has no override left and has all three lengths |
| RecordTypes.ResolveLengths | lib/medtronic/processData.js:441-445 | with the larger flag a length the override states wins; otherwise the entry's own length or the default 2, 5, 0 is used |
| RecordTypes.ResolveIsFinal | lib/medtronic/processData.js:441-445 | resolving again, with either flag, changes nothing: the rewrite is idempotent on later records of the type |
| RecordTypes.LargerLayouts | lib/medtronic/processData.js:34-101 | the concrete layouts: BOLUS head 5 or 8, BOLUS_WIZARD body 13 or 15, RESULT_DAILY_TOTAL and BOLUS_WIZARD_CHANGE_OLD under the override |
| RecordTypes.DecodeDate | lib/medtronic/processData.js:124-135 | the placeholder for fewer than five bytes; otherwise second and minute below 64, hour and day below 32, month below 16 and year in 2000..2127 |
| RecordTypes.DecodeDateArithmetic | lib/medtronic/processData.js:129-135 | the fields are b0 mod 64, b1 mod 64, b2 mod 32, b3 mod 32, 4·(b0 / 64) + b1 / 64 and b4 mod 128 + 2000 |
| RecordTypes.DecodeDateFirstFive | lib/medtronic/processData.js:129 | the date depends only on its first five bytes |
| RecordTypes.TwosComplement | lib/medtronic/processData.js:197-202 | the result lies in -128..127 and is congruent to the byte mod 256 |
| RecordTypes.TwosComplementSign | lib/medtronic/processData.js:197-202 | a byte below 128 is kept, and from 128 on it becomes the byte minus 256 |
| RecordTypes.FilterHistory | lib/medtronic/processData.js:189-195 | a record is kept iff its type byte is among the given types' bytes, and no record is added |
| RecordTypes.FilterHistoryAppend | lib/medtronic/processData.js:189-195 | filtering distributes over concatenation, so kept records keep their order |
| History.Classify | lib/medtronic/processData.js:428-440 | a type found is a table position |
| History.ClassifyCases | lib/medtronic/processData.js:428-440 | a zero byte stops the page; a type found is getType's first entry for a byte that is neither 0 nor 0x55 |
| History.ClassifyFails | lib/medtronic/processData.js:428-440 | a failure is 0x55 at the cursor, no byte at all, or a byte no table entry has |
| History.ReadRecord | lib/medtronic/processData.js:447-461 | the record carries its resolved entry and its number |
| History.ReadRecordBytes | lib/medtronic/processData.js:447-454 | head, date and body are the contiguous page bytes the record spans, clipped to the page |
| History.ScanPageFound | lib/medtronic/processData.js:433-461 | a known type resolves its entry in place, reads the record and moves the cursor by head + date + body |
| History.ScanPageDone | lib/medtronic/processData.js:426-440 | a stop or failure leaves the table and the cursor where they are |
| History.ScanPageExtends | lib/medtronic/processData.js:459-460 | a page scan only appends records |
| History.ScanPageNumbers | lib/medtronic/processData.js:459-461 | records are numbered by their position, continuing from the records before |
| History.ScanPageTiles | lib/medtronic/processData.js:447-454 | the records of a page, laid end to end, are exactly the page bytes from the start to the stop cursor |
| History.ScanPageStops | lib/medtronic/processData.js:426-432 | a scan that succeeds stopped at a zero type byte or at the end of the page area |
| History.ScanPageFails | lib/medtronic/processData.js:434-440 | a scan fails inside the page area, at 0x55 for the 0x55 error and at the offending byte (or past a short page) for an unknown type |
| History.TypedByUpdate | lib/medtronic/processData.js:441-445 | rewriting an entry in place does not change what a record is typed by |
| History.ScanPageTyped | lib/medtronic/processData.js:433-447 | each record carries the resolved layout of the first entry for its type byte |
| History.ScanPageTable | lib/medtronic/processData.js:441-445 | each table entry is left as it was or resolved with the scan's flag |
| History.ScanPagesNext | lib/medtronic/processData.js:422-463 | a page scanned without error hands on to the next page |
| History.ScanPagesFail | lib/medtronic/processData.js:436-439 | an error ends the whole run, with no skip and continue |
| History.ScanPagesExtends | lib/medtronic/processData.js:422-463 | a run only appends records |
| History.ScanPagesNumbers | lib/medtronic/processData.js:409-461 | records are numbered 0, 1, 2, ... across page boundaries |
| History.ScanPagesTyped | lib/medtronic/processData.js:422-463 | every record of a run is typed by the table the run started with |
| History.ScanPagesTable | lib/medtronic/processData.js:422-463 | a run leaves each entry as it was or resolved with the run's flag |
| History.RunRecords | lib/medtronic/processData.js:406-467 | processPages from no records: records are numbered in page order, and each carries the resolved layout of the first entry for its type byte, which is neither 0 nor 0x55 |
| History.FindTypeResolved | lib/medtronic/processData.js:180-187 | lookups answer alike on the table before and after a run |
| History.StaleBolusOverride | lib/medtronic/processData.js:441-445 | as written, after a run without the larger flag has resolved BOLUS, a model 523 run types BOLUS records with the 5-byte head |
| History.FreshUploadBolusHead | lib/medtronic/processData.js:413-416 | corrected: an upload that resolves from the declared table gives every BOLUS record of a model 523 pump the 8-byte head |
| History.HistoryDecoder.constructor | lib/medtronic/processData.js:33-104 | the decoder starts with the declared table, larger off and 10 strokes per unit |
| History.HistoryDecoder.ProcessPages | lib/medtronic/processData.js:406-467 | model 523 sets larger and 40 strokes per unit and nothing clears them; the result and the rewritten table are those of the scan over all pages |
| History.HistoryDecoder.ResolveEntry | lib/medtronic/processData.js:441-445 | the entry is rewritten in place to its resolution; nothing else in the table changes |
| History.HistoryDecoder.ScanOnePage | lib/medtronic/processData.js:426-462 | the cursor loop over one page yields the page scan's records and table |
| History.HistoryDecoder.ReadRecordAt | lib/medtronic/processData.js:441-461 | the loop body strictly advances the cursor, so the loop terminates, and it keeps the scan unchanged |
| Events.ByteAt | lib/medtronic/processData.js:304-305 | `extractByte` as an arithmetic operand is a byte exactly when the index exists, and NaN otherwise |
| Events.ByteOrZero | lib/medtronic/processData.js:385 | as an operand of a bitwise operator it is the byte, or 0 past the end |
| Events.BEShort | lib/medtronic/processData.js:300-302 | the big-endian short exists exactly when both bytes do; its high and low bytes are those two |
| Events.Expected | lib/medtronic/processData.js:320-326 | the expected amount is present exactly when programmed !== amount (NaN differs from everything), and it is the programmed amount |
| Events.BolusAmounts | lib/medtronic/processData.js:298-307 | model 523 reads two shorts and the other models two bytes; long enough heads give both amounts |
| Events.DualMarkerRange | lib/medtronic/processData.js:314 | `(date[2] & 0xC0) === 0x80` iff date byte 2 exists and lies in 128..191 |
| Events.NormalOf | lib/medtronic/processData.js:353-360 | a normal bolus carries its own record's index |
| Events.SquareOf | lib/medtronic/processData.js:339-350 | a square bolus has a positive duration and its record's index |
| Events.DualOf | lib/medtronic/processData.js:314-338 | a dual bolus has a positive duration and carries the index of the second record |
| Events.BuildBolusRecords | lib/medtronic/processData.js:285-374 | the for loop, with its manual step past the normal part of a dual bolus, yields the events of BolusEvents on the BOLUS records |
| Events.BolusParts | lib/medtronic/processData.js:293-330 | every BOLUS record goes into exactly one event: two for a dual bolus, one otherwise |
| Events.BolusFailsAtEnd | lib/medtronic/processData.js:328-331 | the builder fails only when the last BOLUS record opens a dual bolus whose normal part does not exist |
| Events.ShortHeadsAreNormal | lib/medtronic/processData.js:309-311 | with heads shorter than 8 bytes every record is a normal bolus of its own and the builder cannot fail |
| Events.BolusOrder | lib/medtronic/processData.js:363-365 | records in scan order give events with strictly increasing indices, none before the first record |
| Events.TwosOf | lib/medtronic/processData.js:248-249 | twosComplement passes NaN through and maps a byte to a value |
| Events.WizardOf | lib/medtronic/processData.js:204-283 | a wizard event carries its record's index, and it has a BG input exactly when head byte 1 exists |
| Events.WizardFields523 | lib/medtronic/processData.js:211-231 | the model 523 fields: BG = (body[1] mod 4)·256 + head[1]; carbs = ((body[1] / 4) mod 4)·256 + body[0]; ratio = (body[2] mod 8)·256 + body[3]; correction = ((body[9] / 8) mod 8)·256 + body[6] |
| Events.WizardFieldsOld | lib/medtronic/processData.js:236-250 | the older fields: BG = (body[1] mod 16)·256 + head[1]; correction = (body[5] mod 16)·256 + the signed value of body[7] |
| Events.WizardRanges | lib/medtronic/processData.js:211-250 | the ranges the packed fields can take, for any record bytes |
| Events.BuildWizardRecords | lib/medtronic/processData.js:204-283 | one wizard event per BOLUS_WIZARD record, in record order: event j is the decoding of the j-th such record |
| Events.BuildWizardRecordsBgInput | lib/medtronic/processData.js:211-238 | event j's BG input is the record's head byte 1 plus 256 times the low two bits (model 523) or the low four bits (older pumps) of body byte 1 |
| Events.BgValue | lib/medtronic/processData.js:385 | the BG value is below 2048 |
| Events.BgValueFields | lib/medtronic/processData.js:385 | the BG value is head[1]·8 + date[2] / 32, and it splits back into those two parts |
| Events.ReadingOf | lib/medtronic/processData.js:385-398 | a reading has a value below 2048, its record's index and the first three body bytes as the meter serial |
| Events.BuildBGRecords | lib/medtronic/processData.js:376-404 | one reading per BG_RECEIVED record, in record order: reading j is the decoding of the j-th such record |
| Events.BuildBGRecordsValues | lib/medtronic/processData.js:385-386 | reading j holds head[1]·8 + date[2]/32 of its BG_RECEIVED record, and that record's first three body bytes as the meter serial |

## Left out

- Transport and timing are not modelled directly:
  - `hidDevice.send`/`receive`, `connect`/`disconnect` and `chrome.storage` in `setup` are left out.
  - The abort timer and the `async` callback plumbing are also left out.
  - The transport is the given packet sequence, and a timeout is that sequence running out.
- A timer that fires while packets are still arriving is not modelled.
- The model assumes every received HID report is empty or 64 bytes long.
- The CRC-8 algorithm (`lib/crc.js`) and the internals of the struct helper (`lib/struct.js`) are not part of this model. The CRC is a parameter. The struct helper is used with the readings stated above.
- The builders' `{command, parser}` objects are not modelled as objects. The parser is applied to the reply by the exchange that owns it.
- `sendCommand`'s parser is left out, since it returns `true` for every reply. So is `openConnection`'s, which returns `null`.
- `getOneRecord`'s unused retry variables are left out.
- The debug-only payload-length logging, console output and `bytes2hex` formatting are left out. The meter serial is kept as its three raw bytes.
- The `CLI` (non-browser) branches of `setup`, `getConfigInfo` and `fetchData` are left out. They skip the device.
- `probe`, `detect`, `connect`, `cleanup`, `savePages`, `uploadData` and the simulator are left out.
- Floating-point scaling is left out:
  - the division by strokes per unit;
  - the carb ratio divided by 10;
  - the `Math.round` rescaling of a cancelled bolus's duration.
  Amounts stay raw stroke counts, and the "expected" test compares raw values. Dividing both values by the same positive scale preserves equality.
- The `30 * MIN_TO_MSEC` scaling of the bolus duration is left out. The duration is the raw half-hour count.
- Timestamps (`sundial`, `TZOUtil`), the event builder objects and `_.sortBy` are left out. A record's decoded date is the six-integer `DeviceDate` of its date bytes.
- The wizard fields other than BG, carbs, ratio and correction are not covered by a lemma. These are the BG targets, the sensitivity, the recommended carb and net insulin, and the insulin on board. They are modelled in `Events.WizardOf` but carry no contract of their own.
- The error messages are modelled as error values, not text. The 0x55 message cannot carry the head bytes, because `new Error` ignores its second argument.
- Framer.MedtronicHeader: a serial pair that does not parse gives None. The source goes on with NaN in the header array. The packet's byte array then stores that NaN as 0, while the CRC-8 receives the NaN itself. For a negative pair, the CRC-8 likewise receives the negative number and not the stored byte. `lib/crc.js` is not part of this model, so neither case is modelled.
- Session.ReadPartsContinues: a part that reaches past the end of the page is returned as the error value `PartTooLong`. In the source, `page.set` throws a RangeError there, inside the receive callback and after the buffer reset. No callback reports it, so `getRecords` and `fetchData` never call back and the download never completes. The model does not capture that silent stop.
- Session.ReadParts: likewise returns `Err(PartTooLong(k))` for the overrunning part, and `Session.GetRecords` and `Session.FetchPage` pass it on as `PageFailed(k, …)`. The source throws instead, and no callback reports the throw. The `page` field of `Session.FetchError` is also an addition of the model: the source passes the error of a failed exchange up unchanged, without a page number.
- History.HistoryDecoder: the `_.assign` on the object returned by getType mutates the shared entry. The model writes this as an update of the table sequence. The aliasing between that object and `record.type` is not modelled.
- History.ScanPageFails: its statement does not say that the unknown byte is absent from the table after the scan. `History.ClassifyFails` states that for the lookup at the failing cursor, and `History.FindTypeResolved` shows that the lookup is the same before and after.
- Events.WizardRanges: it bounds the packed fields only. The fields read as single bytes or plain shorts are bounded by `Events.ByteAt` and `Events.BEShort`.

## Findings

| source | as written | input that shows it | evidently intended | confidence | as-written member | corrected member |
|---|---|---|---|---|---|---|
| lib/drivers/medtronicDriver.js:363-368 | on a packet without the "ABC" marker, getMessage calls its callback with the error, then ends the loop, whose final step calls the callback again with the message as a success | one 64-byte all-zero packet under the default policy: the callbacks are an InvalidPacket error, then Ok of the empty message | report the invalid packet once, as a failure | not executed | Reassembly.CallbacksAsWritten, Reassembly.InvalidPacketReportedTwice | Reassembly.Reassemble, Reassembly.ReassembleIsFirstCallback |
| lib/drivers/medtronicDriver.js:245-251 | buildAckPacket and buildNakPacket pass the bare number 0x06 or 0x15 to buildPacket, whose copyBytes finds no indexed element, so the command byte stays 0. Nothing in medtronicDriver.js calls these two builders, so no exchange of the driver sends the faulty packet | buildAckPacket(): the packet is 00 00 00 01 00 | 00 00 00 01 06 for ACK and 00 00 00 01 15 for NAK | not executed | Framer.BuildAckPacketAsWritten, Framer.BuildNakPacketAsWritten, Framer.ControlByteDroppedAsWritten | Framer.BuildAckPacket, Framer.BuildNakPacket |
| lib/medtronic/processData.js:441-445 | the override is deleted from the shared table entry even when `larger` is off, so a later model 523 upload in the same session no longer finds it | an upload from a non-523 pump whose page holds a BOLUS record, then an upload from a model 523 pump: its BOLUS records are cut with a 5-byte head instead of 8 | each upload resolves layouts from the declared table, so model 523 BOLUS records always have the 8-byte head | not executed | History.StaleBolusOverride | History.FreshUploadBolusHead |
