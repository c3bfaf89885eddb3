# libflute, verified

A Dafny 4.11 model of libflute: how a file is cut into source blocks and encoding symbols, scheduled into ALC packets,
announced by File Delivery Tables, and put together again by a receiver whose packets are lost, repeated and reordered.

Each stateful class of the library appears twice. A value-level module says what an operation does to a state; a class
with the same fields does it step by step and is proved to do exactly that; the theorems are about the value level.

| concern | specification | class or methods | theorems |
|---|---|---|---|
| cutting an object | `Partitioning`, `Files` | `FileObject.File` | `Partitioning` |
| symbols, completion | `Files` | `FileObject.File` | `Completion`, `Digests`, `Conservation` |
| payloads and packets | `EncodingSymbols`, `AlcPackets` | methods in both | both, `WireFormat`, `EndToEnd` |
| File Delivery Tables | `Xml`, `Numerals`, `FdtXml`, `FdtObject` | `FdtObject.FileDeliveryTable` | `FdtNames`, `FdtDocuments`, `FdtRoundTrip`, `Versioning` |
| transmitter | `Transmitters` | `TransmitterObject.Transmitter`, `.FileDescription` | `SendRules`, `PacketSizes`, `Draining`, `Losses`, `Versioning` |
| receiver | `Receivers` | `ReceiverObject.Receiver` | `ReceiverRules`, `ReceiverSafety`, `ReceiverLiveness`, `ForeignPackets`, `ReceiverStalls`, `Interleaving` |
| transmitter to receiver | both | both | `Composition`, `Delivery`, `InterleavingExample` |
| base64, checksums, pacing | `Base64`, `Checksums`, `Pacing` | methods in the first two | the same |

What other implementations have to agree on is spelt out without the definitions that both ends share: bytes by position
(`WireFormat`, `Checksums`), the names of XML documents (`FdtNames`, `FdtDocuments`) and the alphabets of base64.

`Bytes`, `Arithmetic` and `Flute` hold the integer widths, division and rounding facts, and the shared value types.

## How the model relates to the code

- Integers carry the widths of the source (`U16`, `U32`, `U64`), with wrap-around and truncation written out.
- Thrown errors are results (`Threw`, `Err`) that carry the state left behind. The receiver's `catch` sees
  `std::exception`s only, which come from `std::stoull` and from decoding base64 (`Receivers.IsException`). Everything
  else is thrown as a string literal, leaves the handler and skips its request for the next packet
  (src/Receiver.cpp:134-142), so nothing is received any more: `Receivers.Heard` ends a run there. The safety theorems
  show that nothing is thrown in their runs.
- Undefined behaviour that the code can reach (a payload shorter than its FEC payload ID, a symbol length of 0, a header
  shorter than its own fixed part, a table without `Expires`, a text without a root element) is an outcome of its own,
  so no theorem covers it silently.
- `std::map`s of blocks and symbols are sequences: their keys are consecutive from 0, and a key one past the end appends.
- Shared files of the transmitter live in a store and are named by handles, so that a packet in flight keeps naming its
  file after `_files` dropped it.
- Floating point enters where the code uses it: quotients come from an arbitrary division with the relative error of a
  `double` or `float`, and rounding them up or down is proved exact.

Where the code narrows a claim, the claim is stated with its exact condition, and where it breaks a promise there is a
run that does so:

- A short last symbol does not survive a multi-symbol payload (`EncodingSymbols.PayloadRoundTrip`), and a batch is
  carried whole only for some sizes (`EncodingSymbols.RequestedFit`).
- A header loop does not end on a zero-length extension (`AlcPackets.ParseDiverges`), and normal forms of tables are
  fixed points only for some lengths (`FdtRoundTrip.NormalIsIdempotent`).
- A number one past the end inserts an entry (`Completion.EntryInsertedPastTheEnd`); an inserted empty block keeps the
  file from ever completing (`Completion.StrayBlockInserted`, `Completion.StrayBlockNeverCompletes`).
- A symbol that is too long or too short for its place counts as received; the place holds its bytes exactly when the
  lengths agree (`Completion.PlaceHoldsSymbol`).
- A failed send or a file without data never finishes (`Losses.FailedSendNeverFinishes`, `Losses.EmptyDataNeverFinishes`).
- The acknowledgement of an old FDT drops the one that replaced it (`Losses.OldFdtDropsNewOne`), which a timer tick before
  that acknowledgement is enough for (`Losses.OldFdtIsOvertaken`). So a channel that loses nothing does not make every
  file arrive: one can be sent and reported without any table that lists it (`Delivery.FileSentUnannounced`). It does
  arrive if a table that lists it is installed before its first packet is sent (`Delivery.SentFileArrives`).
- A packet carries all symbols it was made for only if they fit the payload size (`Losses.FlightCarriesAll`). After the
  tunnel is switched on or off some do not, and are marked complete all the same (`Losses.TunnelledSymbolCountsUnsent`,
  `Losses.UntunnelledSymbolCountsUnsent`).
- Packets of two FDT texts go into one file, which stays right exactly while every symbol leaves its place with the
  bytes of the text (`Completion.RunGivesData`, `Interleaving.FitsTextIsExact`). A transmitter that sends a second file
  while the FDT of the first is half sent makes a receiver that gets every packet in order install a table that was
  never sent (`InterleavingExample.InterleavedRunGoesWrong`). Texts of one symbol cannot interleave
  (`Interleaving.SingleSymbolTablesAreSafe`).
- A complete FDT stays where it is, and no table is installed any more, exactly when it cannot be read
  (`ReceiverStalls.UnreadableFdtStalls`, `ReceiverStalls.StalledForEver`). So does an FDT that lacks a symbol no later
  text has (`ReceiverStalls.MissingForEver`, `ReceiverStalls.ShorterTextsStall`).
- Instance IDs wrap at 16 bits, so a receiver also skips a table 2^16 changes later (`Composition.SkippedTableIsInstalled`).

## Model

| member | source | states |
|---|---|---|
| Partitioning.PartitionMeetsRfc5052 | src/File.cpp:196-204 | For every length, symbol length and block limit: the fewest blocks within the limit, lengths that differ by at most one with the longer ones first, no symbol left over |
| Partitioning.Rfc5052PartitionIsUnique | src/File.cpp:196-204 | No other partition meets section 9.1 of RFC 5052 |
| Partitioning.IndexOrdered | src/File.cpp:206-231 | Positions of symbols follow (block, symbol) order, and no two symbols share one |
| Partitioning.LocateFinds | src/File.cpp:206-231 | Every position below the symbol count belongs to an existing block and symbol |
| Partitioning.SymbolFits | src/File.cpp:217-228 | Every symbol is a non-empty stretch inside the object; only the last is short, and it ends with the object |
| Partitioning.SymbolsTileObject | src/File.cpp:206-231 | Every byte of an object lies in exactly one symbol: no gap, no overlap |
| Arithmetic.RoundedQuotientExact | src/File.cpp:199-203 | Ceiling and floor of any acceptably rounded floating-point quotient are those of the exact quotient |
| FileObject.File.CalculatePartitioning | src/File.cpp:196-204 | The floating-point computation yields the partition of RFC 5052, also where it divides 0 by 0 |
| FileObject.File.CreateBlocks | src/File.cpp:206-231 | The carving loop ends, never passes the end of the buffer, and produces the closed-form layout |
| FileObject.File.CreateBlock | src/File.cpp:212-230 | One block: its symbols in place, and the buffer pointer left at the start of the next block or the end of the object |
| FileObject.File.Receive | src/File.cpp:36-53 | A receiving file: nothing complete, laid out for its entry, over a buffer of unknown contents |
| FileObject.File.Send | src/File.cpp:84-130 | A sending file: transfer length and announced digest are those of the data |
| FileObject.File.SendDescribed | src/File.cpp:55-82 | The same from a file description without content encoding |
| FileObject.File.PutSymbol | src/File.cpp:142-164 | Receiving a symbol changes buffer, flags and outcome exactly as the specification says, errors included; what that means for a file with a digest is in `Digests` |
| FileObject.File.CheckSourceBlockCompletion | src/File.cpp:166-169 | The block flag becomes the conjunction of its symbols' flags, nothing else changes |
| FileObject.File.CheckFileCompletion | src/File.cpp:171-194 | All blocks complete: a file without content encoding is complete only over a buffer that hashes to the first 16 bytes of its announced digest, and has every flag reset otherwise; without digest or with an encoding nothing is compared; a digest that does not decode throws |
| FileObject.File.GetNextSymbols | src/File.cpp:233-256 | The nested loop hands out the first idle symbols, as many as requested, and marks exactly those as queued |
| FileObject.File.MarkCompleted | src/File.cpp:258-272 | Every listed symbol leaves the queue, with the flags above it checked each time |
| FileObject.File.SetFdtInstanceId | include/File.h:147 | Only 16 bits of the instance ID are kept |
| Completion.PutKeepsCoherent | src/File.cpp:142-194 | Any in-range symbol, genuine or not, keeps: block flag = all its symbols complete, file flag = all blocks complete, and the announced digest is met in a complete file |
| Completion.RunKeepsCoherent | src/File.cpp:142-194 | The same over every run of symbols, so a file is complete exactly when all its symbols are |
| Completion.LastSymbolLast | src/Receiver.cpp:85-88 | Symbols are put in their order: the last of a run meets what those before it left, unless one of them threw |
| Digests.DigestDecides | src/File.cpp:171-194 | With all blocks complete and no content encoding, the first 16 decoded bytes of the announced digest decide: equal to the hash of the buffer, the file is complete; otherwise, or with fewer bytes, no symbol, block or file flag is left |
| Digests.NothingToCompare | src/File.cpp:171-175 | Without an announced digest, or with a content encoding, the check only sets the file flag |
| Digests.RunMeetsDigest | src/File.cpp:142-194 | Over every run of in-range symbols, genuine or corrupted, into a new file that announces the base64 text of a hash and is not encoded: nothing is thrown, the file is complete exactly when all symbols are in, and then its bytes have that hash |
| Digests.LastSymbolDecides | src/File.cpp:142-194 | After every such run a missing symbol is added, and completes the file exactly if it was the last one; but the last one over bytes with another hash leaves every flag of symbols, blocks and file false |
| Digests.RunWithoutDigest | src/File.cpp:142-194 | Without digest or with an encoding nothing ever starts over: over every run exactly the symbols that were in or came are in, and the file is complete when all are |
| Completion.PutGenuine | src/File.cpp:142-164 | A genuine symbol completes its own place, keeps every complete place's bytes right and resets nothing |
| Completion.CompleteFileIsData | src/File.cpp:171-194 | A file that received only genuine symbols and is complete holds the object, byte for byte |
| Completion.EntryInsertedPastTheEnd | src/File.cpp:144-155 | The range checks insert an entry that belongs to no part of the object if and only if the number is one past the end |
| Completion.StrayBlockInserted | src/File.cpp:144-155 | On an incomplete file a symbol leaves an empty, incomplete block behind the last one if and only if it is for that block and not its first; it throws then |
| Completion.StrayBlockNeverCompletes | src/File.cpp:171-173 | With such a block no run of the object's own symbols, in any order, completes the file |
| Completion.PlaceHoldsSymbol | src/EncodingSymbol.cpp:86-92 | Once a symbol is in, its place holds exactly its bytes if and only if it is as long as the place |
| Completion.LongSymbolCountsUnwritten | src/File.cpp:157-158 | A symbol too long for its place is not written and still marked complete |
| Completion.ShortSymbolCountsWhole | src/File.cpp:157-158 | A symbol too short for its place is marked complete, and the rest of the place keeps what the memory held |
| Completion.PutsRightIsExact | src/File.cpp:142-164 | A file without digest that held only bytes of an object goes on to do so, and nothing is thrown, if and only if the symbol's place is complete already or gets the object's bytes |
| Completion.RunGivesData | src/File.cpp:142-194 | Whatever in-range symbols, of any object, complete such a file: it holds the object if and only if each of them was right in that sense when it came |
| Conservation.NextBatchIsBatch | src/File.cpp:233-256 | A batch consists of idle symbols in (block, symbol) order with none skipped; they and only they become queued; it is short only if nothing idle is left |
| Conservation.MarkOneMarks | src/File.cpp:258-272 | On the sending side marking a symbol changes it and the flags above it, and never resets the file |
| Conservation.SymbolsAreConserved | src/File.cpp:233-272 | Over every run of hand-outs and acknowledgements, failed or not: idle + queued + complete = T, and the queued symbols are exactly those not yet acknowledged |
| Conservation.HandedOutOnceInOrder | src/File.cpp:233-272 | Without failures symbols are handed out in order and never twice; in a complete file each was handed out exactly once |
| WireFormat.HeaderWritten | src/AlcPacket.cpp:173-214 | The header byte by byte: 0x10 0x10, length 3 or 8, codepoint 0, no congestion information, TSI at 8, TOI at 10; for the FDT type 192 with version 1 and the instance ID in 20 bits at 12, and type 64 of 4 words with lengths at 20, 26 and 28 |
| WireFormat.PayloadWritten | src/EncodingSymbol.cpp:56-84 | Source block number at 0, symbol ID at 2, in network order, then the bytes |
| WireFormat.PayloadRead | src/EncodingSymbol.cpp:34-51 | Of any payload: block number from bytes 0 and 1, IDs counted up from bytes 2 and 3, each symbol's bytes from its multiple of the symbol length |
| WireFormat.PayloadCounted | src/EncodingSymbol.cpp:44-51 | As many symbols as begin inside the payload |
| WireFormat.FixedHeaderAccepted | src/AlcPacket.cpp:24-86 | The fixed header of any packet is accepted if and only if version, congestion flag, codepoint and the flags S, O, H and A are these |
| WireFormat.IdentifiersRead | src/AlcPacket.cpp:39-80 | For every combination of flags: the bytes TSI and TOI of any accepted packet are read from, and the header length at byte 2 |
| WireFormat.ExtensionSized | src/AlcPacket.cpp:96-105 | Types below 128 say their length in words, the others are one word long |
| WireFormat.ExtensionRefused | src/AlcPacket.cpp:107-140 | An extension is refused if and only if it is of type 64 and not 4 words long, or of type 192 with a version above 2 |
| WireFormat.HeaderRead | src/AlcPacket.cpp:94-157 | Extensions of any accepted packet, in any order and among any others: of types 64, 192 and 193 the last one that says something decides, with its fields by position; without one there are no FEC values, instance ID or encoding |
| EncodingSymbols.ToPayload | src/EncodingSymbol.cpp:56-84 | The written bytes, and their number, are the payload; the rest of the buffer is untouched |
| EncodingSymbols.EncodeTo | src/EncodingSymbol.cpp:94-102 | A symbol is copied whole or not at all |
| EncodingSymbols.LeadingSymbolsCarried | src/EncodingSymbol.cpp:72-82 | Of symbols that do not all fit exactly those before the first misfit are carried, and none behind it |
| EncodingSymbols.FromPayload | src/EncodingSymbol.cpp:24-54 | Accepts exactly unencoded or gzipped compact no-code payloads, and returns their symbols despite the `float` count |
| EncodingSymbols.PayloadRoundTrip | src/EncodingSymbol.cpp:24-84 | A written run of consecutive symbols has 4 bytes plus its data, and is read back exactly if and only if it has one symbol or a full-length last one |
| EncodingSymbols.RequestedFit | src/File.cpp:235 | The symbols requested for a payload fit the room the packet offers if and only if max mod E is at most 4 |
| EncodingSymbols.BatchCarried | src/EncodingSymbol.cpp:72-82 | A batch of full-length symbols is written whole if and only if it fits |
| EncodingSymbols.ConstructedSizeCarriesOne | src/Transmitter.cpp:506-509 | As constructed exactly one symbol is requested, and it is written in full |
| EncodingSymbols.TunnelledSizeDropsFullSymbol | src/EncodingSymbol.cpp:72-82 | With a payload 28 bytes smaller than the symbol length one symbol is requested, and its bytes do not fit |
| AlcPackets.BuildPacket | src/AlcPacket.cpp:160-215 | Header pieces written around the payload give header followed by payload; other FEC schemes are refused |
| AlcPackets.ParseAlcPacket | src/AlcPacket.cpp:21-157 | The cursor walk accepts, rejects and yields what the specification of the header says |
| AlcPackets.ParseTsi | src/AlcPacket.cpp:42-51 | Half word, word or both, with the upper half lost when both are present |
| AlcPackets.ParseToi | src/AlcPacket.cpp:56-80 | Half word, one or two words; longer forms are refused |
| AlcPackets.ParseExtensionLoop | src/AlcPacket.cpp:95-157 | The loop's result is the extensions folded one by one, until one is refused or makes no progress |
| AlcPackets.LctCursor | src/AlcPacket.cpp:32-94 | For every accepted flag combination the fields read take 4 * (2 + C + H + S + O) bytes |
| AlcPackets.ExtensionsOutcome | src/AlcPacket.cpp:95-157 | The loop accepts exactly when the extensions end at the end of the header, and then its cursor is there |
| AlcPackets.ParseEndsAtHeaderLength | src/AlcPacket.cpp:89-157 | An accepted header leaves the cursor at 4 * HDR_LEN |
| AlcPackets.ParseDiverges | src/AlcPacket.cpp:95-157 | The loop fails to end if and only if it meets a variable-length extension of length 0 |
| AlcPackets.HeaderRoundTrip | src/AlcPacket.cpp:21-215 | A built header parses to its TSI and TOI and, for TOI 0, to the instance ID mod 2^20, the lengths mod 2^16 and the block limit, whatever follows it |
| AlcPackets.ReceivedHeaderExact | src/AlcPacket.cpp:194-214 | What a receiver learns is what was sent exactly below 2^20 for the instance ID and below 65536 for the lengths |
| AlcPackets.PacketRoundTrip | src/AlcPacket.cpp:21-215 | A built packet parses, and its header length points at its payload |
| EndToEnd.PacketPutsItsSymbol | src/Receiver.cpp:78-88 | Build, parse and `from_payload` of one symbol of an object give back exactly that symbol, for every TSI, TOI and trailing garbage |
| EndToEnd.EveryObjectArrives | src/File.cpp:142-272 | After every finite sequence of an object's packets: nothing thrown, complete symbols hold the sender's bytes, a symbol is complete exactly when its packet arrived, the file exactly when all did, and then the buffer is the object |
| EndToEnd.OnlyTheSetMatters | src/File.cpp:142-194 | Two sequences with the same set of packets end in the same flags, and in the same bytes where complete |
| Base64.CharsOfAlphabet | utils/base64.cpp:44-71 | The flag selects between the two alphabets, spelt out, and between '=' and '.' for padding; both alphabets are read |
| Base64.OtherCharsRefused | utils/base64.cpp:55-71 | A character of neither alphabet is refused |
| Base64.UnpaddedRoundTrip | utils/base64.cpp:163-241 | Decoding inverts encoding also where padding is left out, in part or altogether |
| Base64.LineBreaksAt | utils/base64.cpp:73-89 | With line breaks inserted, character x of line k is that of the text, and a newline ends each full line that is not the last |
| Base64.LineBreaksCounted | utils/base64.cpp:73-89 | There are no other line breaks |
| Base64.EncodeBytes | utils/base64.cpp:111-160 | The encoding loop produces the groups one after the other |
| Base64.DecodeString | utils/base64.cpp:163-241 | The loop decodes four characters at a time to the end of the text, also past padding, and fails with the first bad character |
| Base64.GroupSpells24Bits | utils/base64.cpp:133-156 | The four characters spell the 24-bit number of the group, padded (section 4 of RFC 4648) |
| Base64.RoundTrip | utils/base64.cpp:111-241 | Decoding inverts encoding for every byte string and both alphabets, and the encoded length is 4 * ceil(n / 3) |
| Base64.InsertLineBreaks | utils/base64.cpp:73-89 | Line breaks go in at the given distance |
| Base64.EncodeWithLineBreaks | utils/base64.cpp:91-104 | The PEM and MIME forms: the encoded text broken into lines, which decodes to the bytes once the breaks are removed |
| Base64.RemoveInsertedLineBreaks | utils/base64.cpp:73-89 | Removing line breaks gives back the text, for every distance |
| Base64.DecodeText | utils/base64.cpp:162-241 | With removal asked for, line breaks do not matter |
| FdtObject.FileDeliveryTable.Add | src/FileDeliveryTable.cpp:342-346 | The entry is last, and the instance ID moves once per sent table |
| FdtObject.FileDeliveryTable.Remove | src/FileDeliveryTable.cpp:348-358 | Erasing while iterating leaves exactly the other entries, in order |
| FdtObject.WithoutKeepsOthers | src/FileDeliveryTable.cpp:350-356 | An entry remains if and only if it was there and has another TOI |
| FdtObject.WithoutKeepsOrder | src/FileDeliveryTable.cpp:350-356 | Exactly the positions of other objects stay, in their order |
| FdtObject.FileDeliveryTable.Print | src/FileDeliveryTable.cpp:360-433 | The loop builds the tree whose names `FdtNames` spells out: FDT-Instance with Expires and the two FEC lengths under their own names, and a child for each entry |
| FdtNames.NamespacePrinted | src/FileDeliveryTable.cpp:364-383 | The default namespace is the URI of RFC 3926, of the 2005 draft or of 3GPP 2022, or none |
| FdtNames.PrefixesPrinted | src/FileDeliveryTable.cpp:389-390 | The prefixes mbms2007 and mbms2012 are declared for their URIs |
| FdtNames.RootPrinted | src/FileDeliveryTable.cpp:363-391 | The root is FDT-Instance, Expires is the decimal expiry, and there is one child for each entry |
| FdtNames.RootOtiPrinted | src/FileDeliveryTable.cpp:385-388 | Each FEC-OTI attribute of the root has its own field in decimal; an instance ID of 0 is left out |
| FdtNames.FilePrinted | src/FileDeliveryTable.cpp:393-412 | Each File has TOI, Content-Location, Content-Length, Transfer-Length, Content-MD5, Content-Encoding, Content-Type and mbms2012:File-ETag of its entry, left out where empty or 0 |
| FdtNames.FileOtiPrinted | src/FileDeliveryTable.cpp:402-411 | Its FEC-OTI attributes are printed where they are set and differ from the table's |
| FdtNames.CachePrinted | src/FileDeliveryTable.cpp:413-425 | Its only child is mbms2007:Cache-Control with mbms2007:no-cache or else mbms2007:Expires, where there is a directive |
| Xml.PrefixResolves | src/FileDeliveryTable.cpp:89-105 | A prefixed name matches by its local part in the namespace its prefix is declared for, or named by an undeclared prefix; a bare one in the default namespace |
| Xml.ElementResolves | src/FileDeliveryTable.cpp:107-121 | The namespace of an element likewise, with an undeclared prefix unknown |
| Xml.DeclarationsResolve | src/FileDeliveryTable.cpp:43-56 | An inner default namespace replaces the outer one; of a prefix the outermost declaration counts |
| FdtDocuments.DocumentRead | src/FileDeliveryTable.cpp:142-339 | Any document, whoever printed it, with attributes in any order and among any others: the table has exactly what the attributes and elements of these names say, in decimal, octal or hexadecimal, files inherit the table's FEC values, Transfer-Length defaults to Content-Length; the first File without TOI or Content-Location decides the error |
| FdtDocuments.OtherRootRefused | src/FileDeliveryTable.cpp:151-156 | A root of another name is refused |
| FdtDocuments.OtherNamespaceRefused | src/FileDeliveryTable.cpp:158-170 | So is a default namespace that is none of the four |
| FdtDocuments.PrintedIsDocument | src/FileDeliveryTable.cpp:360-433 | What `to_string` prints is such a document, with the prefixes mbms2007 and mbms2012 |
| FdtObject.FileDeliveryTable.Parse | src/FileDeliveryTable.cpp:142-199 | The parsing constructor reads a tree into a table or fails as specified; the table of a document has what its names say (`FdtDocuments`) |
| FdtObject.FileDeliveryTable.ParseFiles | src/FileDeliveryTable.cpp:201-339 | The loop over the File elements keeps their order and stops at the first bad one |
| Numerals.DecimalRoundTrip | src/FileDeliveryTable.cpp:384-411 | Printed numbers read back through `strtoul` with base 0, up to 64 bits |
| Numerals.PrintedInDecimal | src/FileDeliveryTable.cpp:384-411 | Numbers are printed with decimal digits |
| Numerals.PrefixDecidesBase | src/FileDeliveryTable.cpp:176-231 | `strtoul` with base 0 reads hexadecimal digits behind 0x or 0X, octal ones behind another 0, and decimal ones otherwise |
| Numerals.StoullReads | src/FileDeliveryTable.cpp:172 | `std::stoull` reads decimal digits below 2^64, and throws beyond or without a digit in front |
| FdtRoundTrip.TableRoundTrip | src/FileDeliveryTable.cpp:142-433 | Parsing the printed form of any table gives its normal form, entry by entry in the same order |
| FdtRoundTrip.NormalIsIdempotent | src/FileDeliveryTable.cpp:218-231 | Normalising twice is normalising once, if and only if the transfer length is not a non-zero multiple of 2^32 next to a non-zero content length |
| FdtRoundTrip.EntryKeepsItsCut | src/FileDeliveryTable.cpp:225-279 | With E and B set, a reader derives the sender's FEC values exactly for lengths below 2^32 |
| Versioning.StepsKeepVersioned | src/Transmitter.cpp:619-641 | Over every run the table's ID is the sent one or the next, and each announced table has the entries of the one before it under the same ID, or the next ID |
| Versioning.EqualWireIdsMeanEqualEntries | src/Transmitter.cpp:619-641 | Equal IDs on the wire mean equal entries while the ID changed fewer than 2^16 times; with exactly 2^16 changes the IDs are equal again |
| Composition.HeaderCarriesWireId | src/Transmitter.cpp:619-641 | The header received for the FDT file of any announcement has TOI 0 and that announcement's 16-bit ID |
| Composition.SkippedTableIsInstalled | src/Receiver.cpp:71-76 | Over every run, a receiver that has installed one announcement ignores the packets of a later one if and only if the ID changed a multiple of 2^16 times in between; if it changed fewer times, the ignored table has the installed entries |
| TransmitterObject.FileDescription.MergeFecOti | src/Transmitter.cpp:373-394 | Values that are not set are taken over, set ones stay |
| TransmitterObject.Transmitter.constructor | src/Transmitter.cpp:459-516 | The constructed state: FDT instance 1, TOI 1, symbol length equal to the payload size |
| PacketSizes.ConstructedFields | src/Transmitter.cpp:459-516 | For an MTU above 64, or 92 with a tunnel, payload size and symbol length are what that leaves, a block has 64 symbols, and counters start at 1 |
| PacketSizes.PacketsFitMtu | src/Transmitter.cpp:459-763 | Over every run, through any toggling of the tunnel: while the MTU leaves room for the headers in use, no packet with its IPv4 and UDP headers, and the tunnel's, is larger than the MTU |
| TransmitterObject.Transmitter.UdpTunnelAddress | src/Transmitter.cpp:535-550 | The payload size loses 28 bytes when the tunnel is switched on and gains them when it is switched off, modulo 2^32 |
| TransmitterObject.Transmitter.SendFdt | src/Transmitter.cpp:619-641 | A non-empty table becomes the file at TOI 0 and counts as sent; an empty one changes nothing |
| TransmitterObject.Transmitter.Send | src/Transmitter.cpp:643-670 | A new file is announced, then known under the next TOI; TOIs wrap to 1 |
| TransmitterObject.Transmitter.SendFile | src/Transmitter.cpp:672-700 | A description of another session, or without a TOI, gets the next one and the counter moves; any other keeps its TOI; an unsupported scheme throws with the TOI already taken |
| SendRules.FdtSent | src/Transmitter.cpp:619-641 | Nothing is announced without entries; otherwise the table expires ten seconds from now, its text is the new file of TOI 0 under the low 16 bits of its instance ID, and it counts as sent |
| SendRules.ChangesShareInstance | src/FileDeliveryTable.cpp:342-358 | The first change after a table was sent has the next instance ID, modulo 2^32, and the changes after it the same |
| SendRules.DataSent | src/Transmitter.cpp:643-670 | The new file, its entry and where it is known carry the TOI of the counter, which moves by one and from 65535 to 1; location, type, expiry, length and digest are those of the call |
| SendRules.DescriptionGetsToi | src/Transmitter.cpp:672-692 | Without a TOI in this session a description gets that of the counter, which moves; otherwise it keeps its own and the counter stays; FEC values not set are filled in one by one, and nothing else changes |
| SendRules.DescriptionSent | src/Transmitter.cpp:690-700 | The new file, its entry and where it is known all carry that TOI |
| SendRules.SentTwiceKeepsToi | src/Transmitter.cpp:672-688 | Sent again in the same session after any run, a description keeps its TOI and takes none from the counter |
| SendRules.CounterStaysPositive | src/Transmitter.cpp:651-652 | Over every run the counter is never 0, the TOI of FDTs |
| SendRules.FinishedFileGone | src/Transmitter.cpp:711-725 | A finished file is no longer known nor listed, the other entries stay in their order and are announced if there are any, and it is reported |
| SendRules.LowestUnfinishedGoesNext | src/Transmitter.cpp:727-746 | The file whose symbols go next is not complete, and every file known under a lower TOI is |
| SendRules.InactiveIsSilent | src/Transmitter.cpp:702-731 | A deactivated transmitter neither announces nor sends when its timers fire |
| TransmitterObject.Transmitter.FdtSendTick | src/Transmitter.cpp:702-709 | The timer announces again while active |
| TransmitterObject.Transmitter.FileTransmitted | src/Transmitter.cpp:711-725 | Whatever sits at the TOI is dropped; a file's entry goes, the FDT is sent again, the callback comes last |
| TransmitterObject.Transmitter.HandleSent | src/Transmitter.cpp:770-782 | An acknowledgement marks its symbols and, if that completes the file, reports it |
| TransmitterObject.Transmitter.FirstUnfinished | src/Transmitter.cpp:732-743 | The walk over the map finds the unfinished file with the lowest TOI, if any |
| TransmitterObject.Transmitter.SendNextPacket | src/Transmitter.cpp:727-755 | The packet of the next symbols of that file, which are then in flight; nothing is sent if there are none |
| Draining.ConstructedIsReady | src/Transmitter.cpp:459-516 | The constructed transmitter meets the drain's invariant |
| Draining.StepKeepsReady | src/Transmitter.cpp:619-805 | A step that adds no empty or clashing file, fails no send, leaves the tunnel and announces a text the widths allow keeps it: every queued symbol is in flight once, unfinished files are known under their TOI, callbacks match finished files |
| Draining.RunsStayReady | src/Transmitter.cpp:619-805 | So does every orderly run of sends, timers and acknowledgements |
| Draining.MoveIsCloser | src/Transmitter.cpp:711-805 | Every send and acknowledgement strictly decreases (outstanding file symbols, outstanding FDT symbols), although each finished file queues another FDT |
| Draining.UnfinishedCanMove | src/Transmitter.cpp:727-755 | While a file is known something can be sent or acknowledged |
| Draining.RunsDrain | src/Transmitter.cpp:711-805 | Where a run cannot go on, `_files` is empty, every accepted file is complete and was reported exactly once, and nothing else was |
| Draining.Drain | src/Transmitter.cpp:711-805 | From every such state whose remaining tables have texts within the widths a run to the empty state exists |
| Draining.CallbackAtLastSymbol | src/Transmitter.cpp:776-781 | The callback comes with the acknowledgement of a file's last incomplete symbol, and with no other |
| Draining.SentPacketIsObjectPacket | src/Transmitter.cpp:745-755 | What is handed to the socket is the packet of one symbol of one object, as `EndToEnd` receives it |
| Losses.FailedSendNeverFinishes | src/Transmitter.cpp:770-777 | After a send error the symbol is never handed out again: over every later run its file stays incomplete and unreported |
| Losses.OldFdtDropsNewOne | src/Transmitter.cpp:711-716 | An acknowledgement drops an unfinished file if and only if it completes an FDT that another one has replaced |
| Losses.RepetitionReplaces | src/Transmitter.cpp:702-709 | A timer tick while the last packet of the FDT is in flight leads to that state |
| Losses.OldFdtIsOvertaken | src/Transmitter.cpp:643-725 | From construction: send a file, send its one-packet FDT, tick; the acknowledgement of that packet then drops the repetition, unsent |
| Losses.EmptyDataNeverFinishes | src/Transmitter.cpp:643-670 | Sending no data in any state makes a file that is not finished after any later run |
| Losses.EmptyFileNeverFinishes | src/File.cpp:171-173 | A file without symbols is never finished, over every run |
| Losses.EmptyFileBlocksSending | src/Transmitter.cpp:732-748 | While it is the lowest unfinished one, nothing is sent |
| Losses.TunnelKeepsNextFlight | src/Transmitter.cpp:545-550 | After the tunnel is switched on the same symbol is sent next, unless no byte of room is left, when nothing is sent |
| Losses.FlightCarriesAll | src/Transmitter.cpp:745-755 | For any payload size the packet of a flight is its headers followed by all its symbols if and only if their lengths add up to at most the payload size |
| Losses.AcknowledgedCountComplete | src/Transmitter.cpp:770-782 | For any payload size the acknowledgement of a packet marks every symbol taken for it complete |
| Losses.UntunnelledSymbolCountsUnsent | src/Transmitter.cpp:540-782 | After the tunnel is switched off up to two symbols are taken for a packet, which carries both if and only if they fit 28 bytes more and the first alone otherwise; both are marked complete either way |
| Losses.TunnelledSymbolCountsUnsent | src/Transmitter.cpp:545-782 | The packet sent then carries its symbol if and only if that is no longer than the payload size less 28, and its acknowledgement marks the symbol complete either way |
| ReceiverObject.Receiver.HandleReceiveFrom | src/Receiver.cpp:56-148 | One packet changes tracked files, table and what was delivered exactly as the receiver machine says; a packet of another session changes nothing and throws nothing; files it starts are dated with its arrival |
| ReceiverObject.Receiver.OpenFdt | src/Receiver.cpp:71-76 | A packet of an instance that is not installed opens a file at TOI 0, unless there is one |
| ReceiverObject.Receiver.PutSymbols | src/Receiver.cpp:85-88 | The symbols go into the file one by one until one throws |
| ReceiverObject.Receiver.EraseReplaced | src/Receiver.cpp:92-103 | Erasing while iterating leaves the completed file and every file with another content location |
| ReceiverObject.Receiver.Install | src/Receiver.cpp:114-130 | The table is replaced, the FDT file dropped, and every listed object not yet tracked is started |
| ReceiverObject.Receiver.StartAll | src/Receiver.cpp:119-129 | Listed objects already tracked are left alone, the others start over fresh memory |
| ReceiverObject.Receiver.RemoveFileWithContentLocation | src/Receiver.cpp:173-184 | Exactly the files with that location go |
| ReceiverObject.Receiver.RemoveExpiredFiles | src/Receiver.cpp:159-171 | Of the files that arrived more than the given age ago exactly the bootstrap file stays |
| ReceiverRules.UnwantedPacketIgnored | src/Receiver.cpp:78-127 | A packet for an object that is not tracked, or complete, changes nothing |
| ReceiverRules.InstalledInstanceIgnored | src/Receiver.cpp:71-78 | So does one of the installed FDT instance, or for a complete file at TOI 0 |
| ReceiverRules.OtherInstanceOpens | src/Receiver.cpp:71-76 | One of another instance opens an empty file at TOI 0, sized and cut as its header says, and goes into it |
| ReceiverRules.WithoutCallbackKept | src/Receiver.cpp:107-110 | Without a callback a complete object stays tracked |
| ReceiverRules.WithCallbackDelivered | src/Receiver.cpp:90-110 | With one exactly it is delivered, and exactly the files with its content location are tracked no more |
| ReceiverRules.EncodedIsDecoded | src/Receiver.cpp:105-110 | With a content encoding the decoder's buffer and length are delivered under the same description |
| ReceiverRules.UndecodableStays | src/Receiver.cpp:105 | Where the decoder throws nothing is delivered and the complete file stays |
| ReceiverRules.FirstEntryStarts | src/Receiver.cpp:119-127 | Of listed entries with one TOI the first is started, empty, and none where the object is tracked |
| ReceiverRules.CaughtAreExceptions | src/Receiver.cpp:134-142 | The receiver listens on exactly after what returned or threw one of three exceptions |
| ReceiverRules.PayloadRefused | src/EncodingSymbol.cpp:24-36 | Which payloads are refused, and which are undefined |
| ReceiverRules.LocationRemoved | src/Receiver.cpp:173-184 | Exactly the files with the location go, the others stay as they are |
| ReceiverRules.ExpiredRemoved | src/Receiver.cpp:159-171 | Exactly the expired files go, but for those located at "bootstrap.multipart" |
| ForeignPackets.ForeignPacketIgnored | src/Receiver.cpp:68-133 | A packet of another session changes nothing, throws nothing, and the receiver listens on |
| ForeignPackets.HeardWithoutForeign | src/Receiver.cpp:65-148 | A run of any datagrams ends in the state, and with what is thrown, of the run without those of other sessions |
| ForeignPackets.ForeignUnnoticed | src/Receiver.cpp:65-184 | Where the steps of a session throw nothing, a run with packets of other sessions anywhere among them ends in the same state |
| ForeignPackets.SafeAmongForeign | src/Receiver.cpp:65-133 | So the callbacks are safe among packets of other sessions |
| ForeignPackets.DeliveredAmongForeign | src/Receiver.cpp:71-133 | And a listed object whose packets arrive is delivered among them |
| ReceiverSafety.DeliveryIsSafe | src/Receiver.cpp:90-112 | Completing an object hands over its bytes, keeps the invariant and leaves no tracked file with its content location |
| ReceiverSafety.InstallIsSafe | src/Receiver.cpp:114-130 | Completing an announced text throws nothing, installs the normal form of that table under the ID of the packet that completes it, frees TOI 0, tracks everything listed and keeps what was tracked elsewhere |
| ReceiverSafety.RunIsSafe | src/Receiver.cpp:65-136 | Over every run of genuine packets and removals in which FDT symbols fit the text being received, every step returns and the invariant holds |
| ReceiverSafety.UninterleavedRunFits | src/Receiver.cpp:71-88 | They fit in every run in which no packet of another text comes while one is being received |
| ReceiverSafety.CallbacksAreSafe | src/Receiver.cpp:65-133 | From a fresh receiver, for any number of announcements under equal or different IDs: nothing is thrown, every callback is for an object listed in an installed table and delivers exactly its bytes, and between two for the same object a table was installed |
| ReceiverLiveness.TrackedIsFinished | src/Receiver.cpp:78-112 | A tracked object whose missing symbols all arrive, in any order and among any other packets, is delivered, and an FDT installed |
| ReceiverLiveness.ListedIsDelivered | src/Receiver.cpp:71-133 | From a fresh receiver: once a table that lists an object is installed and then all its packets arrive, it has been delivered since the installation |
| ReceiverLiveness.DeliveredExactly | src/Receiver.cpp:78-112 | A tracked object is delivered over a run if and only if the packets of all the symbols it lacks are among it |
| ReceiverStalls.UnreadableFdtStalls | src/Receiver.cpp:113-117 | Completing an FDT leaves the complete file at TOI 0, and the installed table as it was, if and only if the text does not tokenise or parse; the receiver goes on listening if and only if what is thrown is a `std::exception` |
| ReceiverStalls.StalledForEver | src/Receiver.cpp:65-142 | After that no run of packets, genuine or not, installs a table |
| ReceiverStalls.MissingForEver | src/Receiver.cpp:65-142 | Nor does one while the FDT being received lacks a symbol that no packet of the run brings |
| ReceiverStalls.ShorterTextsStall | src/Receiver.cpp:65-142 | In particular, when one FDT packet is lost and no later text has that symbol, repeating the later texts installs nothing |
| Interleaving.InstancesAreNotSeparated | src/Receiver.cpp:71-88 | While an FDT is being received, a packet that does not complete it is handled alike whatever instance it names |
| Interleaving.FitsTextIsExact | src/Receiver.cpp:71-88 | Every packet of TOI 0, of whatever text, puts its symbol into the file being received, which stays on its way to its text if and only if the symbol fits |
| Interleaving.MixedTextIsParsed | src/Receiver.cpp:71-133 | After the first of two packets of one text and two packets of another, the first symbol of the one and the second of the other are read as one text under the ID of the other: it is installed, or the receiver is stalled |
| Interleaving.MixedHalves | src/File.cpp:142-164 | That text starts with the first symbol of the one, and goes on with the other's where both are equally long |
| Interleaving.SingleSymbolTablesAreSafe | src/Receiver.cpp:65-133 | When every announced text fits one symbol, the safety of every run needs no condition on the order of packets |
| InterleavingExample.TwoFilesSend | src/Transmitter.cpp:643-755 | A constructed transmitter whose first FDT takes two packets sends the first of them, a second file is sent, and then the packets of the FDT of both, in this order |
| InterleavingExample.OvertakenTextIsParsed | src/Receiver.cpp:71-133 | Delivered in order with nothing lost, these packets are read as such a mixed text, and packets of the second FDT are ignored from then on |
| InterleavingExample.InterleavedRunGoesWrong | src/Receiver.cpp:71-133 | There are a lossless printer and its tokenizer with which this run, for any two files, ends with any third table one names installed, which was never announced |
| Composition.SentInRunIsGenuine | src/Transmitter.cpp:727-755 | Every packet handed to the socket in an orderly run is a genuine packet of the session the run makes |
| Composition.SessionOfRunIsGood | src/Transmitter.cpp:619-805 | That session meets what the receiver theorems ask for: each announced entry, as read back, describes the transmitter's own object |
| Composition.LibraryToLibrary | src/Receiver.cpp:65-133 | Any sequence of packets sent in an orderly run, lost, repeated and reordered, is a run of the receiver that throws nothing and delivers only listed objects with exactly their bytes, if FDT symbols fit the text being received or each text fits one symbol |
| Delivery.HandedOutWasSent | src/Transmitter.cpp:727-782 | In an orderly run every symbol that becomes queued or complete was handed to the socket, in its own packet |
| Delivery.SentFileArrives | src/Receiver.cpp:71-133 | Over a channel that loses nothing: once a table that lists a file is installed and then every packet sent until the file is complete arrives, the file has been handed over byte for byte |
| Delivery.FileSentUnannounced | src/Transmitter.cpp:643-782 | A file sent with the lowest TOI in use while the last packet of the FDT is in flight is sent, finished and reported, with its packet the only one handed to the socket meanwhile |
| Delivery.UnannouncedIsReached | src/Transmitter.cpp:643-755 | From construction: send a description with a TOI above 1 and the packet of its FDT; the next file then has the lowest TOI while that packet is in flight |
| Composition.SentFileIsDelivered | src/Receiver.cpp:71-133 | Of an orderly transmitter's files with distinct TOIs and content locations: once a table that lists one is installed and then all its packets arrive, it has been handed over byte for byte since the installation |
| Checksums.CalculateSum | src/Transmitter.cpp:876-896 | For up to 131072 bytes, odd lengths included, the 32-bit sum does not overflow, folding ends, and the result is the Internet checksum (section 1 of RFC 1071) |
| Checksums.ChecksumVerifies | src/Transmitter.cpp:876-896 | Stored in a previously zero aligned field the checksum makes the checksum of the whole 0 |
| Checksums.CreateUdpPacket | src/Transmitter.cpp:831-855 | In place: a pseudo header with source at 0, destination at 4, protocol 17 and length, both ports the one sent to, the length, a checksum that verifies over all three, and the data |
| Checksums.CreateIpHeader | src/Transmitter.cpp:857-874 | In place: 0x45, the size at 2, no fragments, 63 hops, protocol 17, source at 12, destination at 16, and a checksum that verifies |
| Checksums.TunnelHeadersVerify | src/Transmitter.cpp:831-874 | IPv4 header and UDP packet with pseudo header both verify |
| Checksums.Tunnelled | src/Transmitter.cpp:757-763 | The tunnelled packet has source, destination, ports and both lengths at their positions, verifies, and carries the data behind its 28 bytes of headers |
| Pacing.RateIsKept | src/Transmitter.cpp:788-803 | In any window of W microseconds at most rate * W / 1000 bits are sent, plus one packet |
| Pacing.DelayIsTight | src/Transmitter.cpp:796-801 | Rounding up costs under a microsecond a packet, and the delay of a packet up to 65535 bytes fits a 32-bit int |

## Left out

- zlib: `File::encode` does not appear and `File::decode` is an arbitrary function; theorems about content are for files without content encoding.
- MD5, the XML tokenizer and printer, and what freshly allocated memory holds are arbitrary functions; escaping, whitespace and entity handling of XML are not part of this model.
- Sockets, timers, multicast, IPsec (src/IpSec.cpp), mutexes and threads: each handler is one atomic step, and packets in flight are a multiset. The example programs, logging and command lines are not part of this model.
- File mapping, copying and moving of `FileDescription`, and allocation failure.
- 16-bit keys: objects of more than 65536 blocks or 65536 symbols in a block, transfer lengths of 2^53 bytes and more and symbol counts of 2^32 and more are excluded by `Files.Supported`; in particular the wrap of an identifier of 65536 to 0 is not modelled.
- Texts of 2^32 characters and more, for which the 32-bit position of utils/base64.cpp:131 would wrap.
- Reads past an announced digest of fewer than 16 bytes count as a mismatch; reads past the receive buffer give 0.
- Numerals: leading white space, signs and overflow of `strtoul` are not modelled, nor is a cache expiry element without text.
- A UDP checksum that computes to 0 is sent as 0, as in the code; RFC 768 would send 0xFFFF.
- An FDT without `Expires` is undefined in the code and an error here.
- What a decoder of encoded contents throws is arbitrary, and counts as an exception only if its message is that of one.
- Liveness: a callback that is not registered, removals by the application and clashing content locations are outside `ReceiverLiveness`.
- FdtDocuments.DocumentRead: for documents whose FDT elements have no prefix, with one prefix each for the two 3GPP namespaces and declarations on the root only; how any prefix resolves is `Xml.PrefixResolves`.
- FileObject.File.CalculatePartitioning: asks for sizes within `Files.Supported`; above 2^53 bytes the source's `double` arithmetic is not exact.
- FileObject.File.CreateBlocks: asks for sizes within `Files.Supported`; the source's 16-bit block and symbol keys wrap beyond them.
- FileObject.File.CreateBlock: asks for sizes within `Files.Supported`, as CreateBlocks does.
- FileObject.File.Receive: asks for sizes within `Files.Supported`; a description without symbol length or block limit is refused by the receiver machine as undefined before this is called.
- FileObject.File.Send: asks for data within `Files.Supported`, which allows more than 4 GiB; its 32-bit content length wraps as in the code.
- FileObject.File.SendDescribed: asks for data within `Files.Supported` and a description without content encoding.
- FileObject.File.GetNextSymbols: the payload size is at least 4, where a smaller one wraps around in the code (src/File.cpp:235), and below 2^24, where `float` division is exact.
- EncodingSymbols.FromPayload: for payloads of 4 to 2^24 - 1 bytes; a UDP datagram has no more than 65535.
- TransmitterObject.Transmitter.constructor: asks for an MTU that leaves at least one byte of payload modulo 2^32; with a symbol length of 0 the code divides by 0.
- TransmitterObject.Transmitter.SendFdt: asks that the text of the table about to be announced stays within `Files.Supported`; the code does not check.
- TransmitterObject.Transmitter.Send: asks that the data and the text about to be announced stay within `Files.Supported`; the code does not check.
- TransmitterObject.Transmitter.SendFile: for descriptions without content encoding, within `Files.Supported`.
- TransmitterObject.Transmitter.FdtSendTick: asks the same of the table it announces, if active.
- TransmitterObject.Transmitter.FileTransmitted: asks the same of the table that remains, if it announces one.
- TransmitterObject.Transmitter.HandleSent: asks the same of the table that remains, if the acknowledgement finishes a file.
- TransmitterObject.Transmitter.SendNextPacket: up to the socket, for payload sizes from 4 to 2^24 - 1; the timer it sets for the next packet is in `Pacing`.
- ReceiverObject.Receiver.HandleReceiveFrom: asks that the lengths in the header, and in the table this packet completes if it does, stay within `Files.Supported` where they can cut an object at all, and that a datagram is shorter than 2^24 bytes.
- ReceiverObject.Receiver.OpenFdt: asks that the lengths in the header stay within `Files.Supported` where they can cut an object at all.
- ReceiverObject.Receiver.Install: asks that the lengths listed in the document at TOI 0 stay within `Files.Supported` where they can cut an object at all.
- ReceiverObject.Receiver.StartAll: asks the same of the entries it starts.
- ReceiverObject.Receiver.RemoveExpiredFiles: the clock is read once for all files; the code reads it for each.
- ReceiverSafety.CallbacksAreSafe: assumes that the symbols of FDT packets fit the text being received, because the receiver does not separate texts (`InterleavingExample.InterleavedRunGoesWrong`), that a callback is registered, and that a TOI stands for one object in a session.
- ReceiverLiveness.TrackedIsFinished: assumes besides that different objects have different content locations, none of them empty, since completing a file erases every other with its location.
- ReceiverStalls.MissingForEver: as StalledForEver.
- ReceiverStalls.StalledForEver: for a receiver that tracks no other object with the empty content location of the FDT; completing such an object would erase the stalled file.
- Composition.LibraryToLibrary: for texts below 65536 bytes that the receiver's tokenizer reads as the tree they were printed from, symbol lengths below 65536, descriptions without content encoding whose lengths the FDT carries, and TOIs that are not used twice.
- Composition.SentFileIsDelivered: the same, and like TrackedIsFinished for distinct, non-empty content locations and runs without removals.
- Delivery.SentFileArrives: the same; that the table is installed first is a condition, since the transmitter does not see to it (`Delivery.FileSentUnannounced`).
- Losses.UntunnelledSymbolCountsUnsent: for payload sizes of at least 24 bytes, below which more than two symbols are taken; `Losses.FlightCarriesAll` and `Losses.AcknowledgedCountComplete` hold for any size.
- Draining.RunsDrain: assumes no send errors, no empty files, distinct live TOIs, an unchanged payload size and announced texts within the widths; `Losses` shows why.
- Versioning.EqualWireIdsMeanEqualEntries: about announced tables; what a receiver makes of the IDs is `Composition.SkippedTableIsInstalled`.
- Pacing.RateIsKept: with the delay as the exact rounded-up quotient, a constant rate and an active session; the code computes it in floating point.
