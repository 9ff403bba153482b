# Verification of the audio, container and network cores

A model, in Dafny, of the parts of the repository with the most state and arithmetic, and proofs about it:

* **FLAC.** A resumable decoder of frames over a bit register of 32 or 64 bits: `BitReader`, `SubframeDecoder` and
  `FrameDecoder` are classes that can run out of input inside any read. Their meaning is a parser of bit lists
  (`FlacSpec`, `FrameSpec`), an encoder is the partner of the parser (`ResidualCoding`, `SubframeCoding`, `FrameCoding`),
  and the arithmetic beside them (`Lpc`, `Decorrelation`, `Crc16`, `Crc8`) is proved against its own definitions.
* **Ogg.** The demuxer as a class over its buffers (`OggDemuxer`), as a step on values (`OggSteps`), and whole runs of
  its two interfaces over streams of pages (`OggRuns`) and over any input (`OggPages`); and the loop that feeds its
  slices to the FLAC decoder (`OggFlac`), over whole streams (`OggFlacStream`). What answers say of their pages is in
  `OggMarks` and `OggEnds`, changes of the interface are in `OggSwitches`.
* **Artwork.** The protocol of the network, decode and main threads as a state machine over critical sections
  (`Artwork`, `ArtworkSafety`, `ArtworkProgress`), and the critical sections themselves (`ArtworkSlots`).
* **WebSocket.** Frames, the sender, the receiver, and both ends together (`WsFrames`, `WsSender`, `WsReceiver`,
  `WsLink`), control frames between fragments (`WsControls`), the UTF-8 automaton (`Utf8`), SHA-1 with rotating
  registers (`Sha1`) and the accept value (`HandshakeKey`).

What later calls will bring is foretold to an object in ghost fields (`later` and `cuts` of `BitReader`), so that a
method can say that the meaning of the whole input stays the same. A cut is named by the number of bits after it.
Machine integers are modelled where their width matters: wrapping 32-bit and 64-bit additions in the prediction loops
(also on the 32-bit path, where an overflow in the source would be undefined), 32-bit counters of zeros, bit vectors in
the checksums and in SHA-1.

## Findings

* **Cutting a frame can show.** The count of wasted bits of a subframe is kept in 32 bits, and zero stands for "no
  count" when a call resumes (`flac_decoder.cpp:1064-1077`). A call that ends after 2^32 - 1 zero bits of a count, or a
  multiple of 2^32 more, makes the next call read the contents at once. `FlacFrameCuts.CutsDoNotShow` says that there is
  no other such place, `FlacFrameStops.StopShows` that behind every such place there can follow bytes on which it shows,
  `EarlyCutsAreSafe` gives a condition to check before a call, and `FlacFrameStream.FeedRound` leads the decoder into it.
* The comment before the drain (`flac_decoder.cpp:1470`) says that fewer bits than the register holds are left; after a
  failed 33-bit read with a 32-bit register it can be exactly 32. `DrainRemaining` is proved for that case too.
* `FLAC_DECODER_END_OF_STREAM` of the header phase (`flac_decoder.cpp:802-805`) is never returned: five bytes are in the
  buffer there, so its length is not at most one. The model has no such result.
* The comment of the Ogg loop says that each iteration consumes bytes or returns; a zero-length terminator and the end
  of a page of empty packets consume none. The loop ends because they come closer to the end of the page
  (`OggAccounts.DataProgress`).
* The 64-bit form of the length is never written for a message, because no fragment has 65536 bytes
  (`IXWebSocketTransport.cpp:857-911`); reading it is proved all the same.

## Model

| member | source | states |
|---|---|---|
| `FlacFrameStream.Feed` | src/micro-flac/flac_decoder.cpp:680-930 | for every list of pieces, empty ones included, and whatever follows the frame: what the calls report is what the format (sections 9.1 to 9.3 of RFC 9639) makes of all the bytes, the channels lie in the block, and the bytes taken add up to the frame; no bound on the input |
| `FlacFrameStream.FeedTwoWays` | src/micro-flac/flac_decoder.cpp:680-1466 | any cutting of a frame gives the result code, length and samples of one call with all the bytes, unless a call ends where `Slips` says |
| `FlacFrameCuts.CutsDoNotShow` | src/micro-flac/flac_decoder.cpp:1058-1076 | the exact places where a call may not end are inside a count of wasted bits whose 32-bit counter has come round to zero; anywhere else the cutting changes nothing for any input |
| `FlacFrameCuts.SlipsExactly` | src/micro-flac/flac_decoder.cpp:1058-1076 | those places, counted: after a number of zero bits that brings the counter to a multiple of 2^32, and a call ends just there (both directions) |
| `FlacFrameCuts.CutShows` | src/micro-flac/flac_decoder.cpp:1058-1076 | both directions, for every depth and subframe type: a decoder stopped inside the count goes on correctly on all that can follow if and only if its counter is not zero |
| `FlacFrameStops.StopShows` | src/micro-flac/flac_decoder.cpp:680-930 | both directions, for every stream and every bytes so far: a decoder that stops behind them makes of everything that can follow what one call would make of it, if and only if they do not end in a count of wasted bits whose counter is zero |
| `FlacFrameStops.SlipsStop` | src/micro-flac/flac_decoder.cpp:1058-1076 | whether a stop is such a place is decided by the bytes before it |
| `FlacFrameStops.SubframeGoes` | src/micro-flac/flac_decoder.cpp:1030-1248 | a subframe that the bits complete, or on which they are refused, stays so whatever bits follow, for every type and coding |
| `FlacFrameCuts.EarlyCutsAreSafe` | src/micro-flac/flac_decoder.cpp:1058-1076 | a condition a caller can check: no call that ends less than 2^32 bits after the start of the frame slips |
| `FlacFrameCuts.RoundFrameShows` | src/micro-flac/flac_decoder.cpp:1058-1076 | the input on which the property fails: a stereo frame with a valid checksum that is a frame when cut four bytes before its end and is none in one piece |
| `FlacFrameStream.FeedRound` | src/micro-flac/flac_decoder.cpp:680-930 | the decoder itself on that input: two calls decode it, one call does not |
| `FlacFrameStream.FeedEncoded` | src/micro-flac/flac_decoder.cpp:680-930 | lossless: the channels that were coded, in any stereo mode, with any predictors, partitions and escapes, lie in the block after any cutting, and exactly the frame is consumed |
| `FlacFrameCoding.FrameInverts` | src/micro-flac/flac_decoder.cpp:680-930 | parsing a frame written by section 9 of RFC 9639 gives its channels and its length back, whatever follows it and wherever calls are cut |
| `FlacFrameCoding.StereoTable` | src/micro-flac/decorrelation.cpp:23-93 | section 9.1.3 from the number alone: for all stored samples a and b of their depths assignment 8 gives (a, a - b), 9 gives (a + b, b), 10 the pair with difference b and mean a rounded down; exact wherever a difference fits, modulo 2^32 otherwise |
| `FlacFrameCoding.HeaderSays` | src/micro-flac/frame_header.cpp:28-216 | both directions: a header is accepted exactly if its codes for block size, rate, depth and channels, read from front to back, say what the stream allows and its last byte is the CRC-8 of the others, and it is taken for what they say |
| `FlacFrameCoding.CodedByOnes` | src/micro-flac/frame_header.cpp:28-69 | the length of the coded number is the count of ones at the front of its first byte, for every byte |
| `FlacSubframeCoding.SubframeInverts` | src/micro-flac/flac_decoder.cpp:1030-1248 | constant, verbatim, fixed and LPC subframes with any wasted bits come back exactly |
| `FlacSubframeCoding.FixedDiffers` | src/micro-flac/flac_decoder.cpp:48-56 | section 9.2.5 of RFC 9639 without the coefficients: what the fixed predictor of order 0 to 4 leaves of any sample is its difference of that order, taken by repeated subtraction; the encoder codes those differences, so they parse back only with the right coefficients |
| `FlacSubframeCoding.LinearLeaves` | src/micro-flac/lpc.cpp:82-222 | section 9.2.6: the coefficient coded first belongs to the sample just before, the next to the one before that, and the sum is divided by a power of two and rounded down |
| `FlacResidualCoding.ResidualInverts` | src/micro-flac/flac_decoder.cpp:1254-1377 | the partitioned Rice coding of section 9.2.7 inverts for every residual list, order, parameter and escape width, and consumes exactly its bits |
| `FlacFrameDecoder.FrameDecoder.DecodeFrame` | src/micro-flac/flac_decoder.cpp:680-770 | one call keeps the meaning of the frame: it completes it, refuses it with its error, or stops after taking all input with nothing decided too early |
| `FlacFrameDecoder.FrameDecoder.HeaderPhase` | src/micro-flac/flac_decoder.cpp:786-862 | header bytes are gathered over calls without running past the header, and accepted or refused as the whole header would be |
| `FlacFrameDecoder.FrameDecoder.DecodeSubframes` | src/micro-flac/flac_decoder.cpp:932-1028 | channel by channel, resumed or not, the subframes give the channels of the format, each at its place, and joint stereo is undone in place |
| `FlacFrameDecoder.FrameDecoder.SubframePhase` | src/micro-flac/flac_decoder.cpp:864-885 | on suspension every bit left is kept for the pending read and the running CRC covers exactly the bytes of the frame taken so far |
| `FlacFrameDecoder.FrameDecoder.FooterPhase` | src/micro-flac/flac_decoder.cpp:887-930 | the CRC compared is that of exactly the bytes before the field, over any calls, and the bytes behind the footer are given back |
| `FlacSubframeDecoder.SubframeDecoder.DecodeSubframe` | src/micro-flac/flac_decoder.cpp:1030-1248 | from any suspension point: done with the samples of the format, stopped owing what it owed before, or refused with the error of the format; nothing outside the channel is written |
| `FlacSubframeDecoder.SubframeDecoder.CountWasted` | src/micro-flac/flac_decoder.cpp:1064-1077 | the count of wasted bits in 32 bits, over any suspensions, the wrapped ones included |
| `FlacSubframeDecoder.SubframeDecoder.DecodeResiduals` | src/micro-flac/flac_decoder.cpp:1254-1377 | each sample from the predictor order to the block size is written once, the rest of the buffer is untouched, and every suspension resumes exactly |
| `FlacSubframeDecoder.SubframeDecoder.ReadPartitionParam` | src/micro-flac/flac_decoder.cpp:1382-1418 | the parameter or the escape width of a partition, across a suspension between the two |
| `FlacBitReader.BitReader.ReadUint` | src/micro-flac/flac_decoder.cpp:1595-1624 | takes the first n bits of those in hand, for both register widths; fails exactly when there are fewer, and then consumes nothing |
| `FlacBitReader.BitReader.ReadSint` | src/micro-flac/flac_decoder.cpp:1627-1661 | the same for signed fields up to 33 bits, the two-part read included |
| `FlacBitReader.BitReader.ReadRice` | src/micro-flac/flac_decoder.cpp:1421-1466 | a Rice code begun in one call and ended in another has the value of the whole code |
| `FlacBitReader.BitReader.Refill` | src/micro-flac/flac_decoder.cpp:1483-1593 | loads whole bytes without changing the bits in hand |
| `FlacBitReader.BitReader.DrainRemaining` | src/micro-flac/flac_decoder.cpp:1468-1477 | after a failed read the bytes left fit the register and no bit is lost or reordered |
| `FlacBitReader.BitReader.ResetBitBuffer` | src/micro-flac/flac_decoder.cpp:1666-1677 | gives back exactly the whole bytes that were held |
| `FlacSubframe.Starved` | src/micro-flac/flac_decoder.cpp:1030-1248 | with fewer bits than the pending read needs nothing about the subframe is decided yet |
| `FlacFrameHeader.ComputeHeaderLength` | src/micro-flac/frame_header.cpp:28-69 | the mask loop gives the header length that section 9.1 fixes by the first five bytes |
| `FlacFrameHeader.ParseFrameHeader` | src/micro-flac/frame_header.cpp:71-216 | every field, check and error of the header, in the order of the checks |
| `Lpc.CanUseLpc32Bit` | src/micro-flac/lpc.cpp:56-79 | decides the bound under which the 32-bit loop is allowed |
| `Lpc.NarrowFits` | src/micro-flac/lpc.cpp:56-132 | whenever that bound holds every product, partial sum, prediction and residual of samples in the declared depth stays in an int32 |
| `Lpc.WideFits` | src/micro-flac/lpc.cpp:134-222 | in the 64-bit loops no product, no partial sum and no whole sum overflows for up to 32 taps and 33 bits |
| `Lpc.PathsAgree` | src/micro-flac/lpc.cpp:82-206 | the 32-bit and the 64-bit restore give the same block |
| `Lpc.RestoreInverts` | src/micro-flac/lpc.cpp:82-222 | restoring the prediction residuals of any block in the declared depth gives the block back, on every path, wrapping additions included |
| `Lpc.RestoreLpc` | src/micro-flac/lpc.cpp:186-222 | the loops compute that restoration in place and write nothing else |
| `Decorrelation.Apply` | src/micro-flac/decorrelation.cpp:23-93 | four at a time and then one by one, in place although the side channel aliases the output, every pair is decoded from the stored values |
| `Decorrelation.Recover` | src/micro-flac/decorrelation.cpp:23-93 | applied to what an encoder stores it gives exactly the left and right channels back, with the side in the block or in the 64-bit buffer |
| `Decorrelation.DecodeInverts` | src/micro-flac/decorrelation.cpp:23-93 | left-side, right-side and mid-side invert for all 32-bit pairs; the difference fits the side channel of its depth |
| `Crc16.Update` | src/micro-flac/crc.cpp:252-275 | slicing by eight and the byte loop equal the bit-serial CRC of polynomial 0x8005 for every start value and length |
| `Crc16.CrcConcat` | src/micro-flac/crc.cpp:252-275 | updating by two pieces equals updating by their concatenation |
| `Crc8.Calculate` | src/micro-flac/crc.cpp:244-250 | the byte loop is the CRC-8 of section 9.1.8 |
| `Crc32.Calculate` | src/micro-ogg-demuxer/ogg_demuxer.cpp:99-125 | the loop that takes two words at a time equals the byte loop for every table, seed and length |
| `Crc32.TableIsCrc` | src/micro-ogg-demuxer/ogg_demuxer.cpp:30-125 | the byte loop over the generated table is the bit-serial CRC of RFC 3533 |
| `OggSession.Use` | src/micro-ogg-demuxer/ogg_demuxer.cpp:172-388 | a caller of the object, any calls, any cutting, unconsumed bytes offered again: streaming calls alone need no bound on packets and give the bodies byte by byte and the non-empty packets; packet calls alone give every packet; with enough calls they come to the end |
| `OggRuns.DataCalls` | src/micro-ogg-demuxer/ogg_demuxer.cpp:172-322 | streaming calls on any well-formed stream, packets of any size: no call fails, the packets put together are the first non-empty packets of the lacing, they and the open slices are the first bytes of the bodies, at the end all of them, and calls with input do reach the end |
| `OggRuns.PacketCalls` | src/micro-ogg-demuxer/ogg_demuxer.cpp:328-388 | packet calls, packets within the buffer: each packet, the empty ones too, is returned once, in order, with its bytes, and enough calls return all |
| `OggRuns.AnyCalls` | src/micro-ogg-demuxer/ogg_demuxer.cpp:172-388 | any mixture of the two interfaces: only a mode switch inside a packet is refused, and no non-empty packet is lost, split or repeated |
| `OggRuns.BytesInOrder` | src/micro-ogg-demuxer/ogg_demuxer.cpp:172-388 | in any mixture the bytes of the packets are the bytes of the page bodies, in order |
| `OggRuns.LacingPartitions` | src/micro-ogg-demuxer/ogg_demuxer.cpp:996-1013 | lacing divides the bodies into packets and an open end, nothing left out or used twice, packets of multiples of 255 and terminators on the next page included |
| `OggRuns.CallProgress` | src/micro-ogg-demuxer/ogg_demuxer.cpp:172-388 | every call with input takes a byte or comes closer to the end of the page; at the last byte of the stream no input is needed for that |
| `OggDelivery.DataTracks` | src/micro-ogg-demuxer/ogg_demuxer.cpp:172-322 | each streaming call: the slice is the next bytes of the body, stays inside one packet and says exactly when the packet ends; it has the granule position of the page of the stream that it comes from, is marked as the end of the stream just if that page has the flag 4, and as the last of the page just with the last bytes of its body |
| `OggPackets.PacketTracks` | src/micro-ogg-demuxer/ogg_demuxer.cpp:328-388 | each packet call: the packet that is due, nothing yet, or the news that it was too long; it is marked as the last of its page just if the page is over, and then has its granule position, and is the end of the stream just if the page has the flag 4 too |
| `OggHeaders.HeaderTracks` | src/micro-ogg-demuxer/ogg_demuxer.cpp:831-944 | however a page header is cut it is staged, checked and entered, and no byte behind it is taken |
| `OggAccounts.DataKeeps` | src/micro-ogg-demuxer/ogg_demuxer.cpp:172-322 | every call on any input: inside a page the bytes seen are its header with the checksum zeroed and the body so far; between pages the bytes taken belong to a header, or complete one that follows the pages before and go on with its body; every page that is over, also one without lacing values or one whose header came in the same call, had the length of its lacing and the CRC of its header with a zero checksum and its body |
| `OggAccounts.PacketKeeps` | src/micro-ogg-demuxer/ogg_demuxer.cpp:328-388 | the same for the packet interface, assembling, skipping and zero-copy returns included |
| `OggPages.AcceptsOnlyPages` | src/micro-ogg-demuxer/ogg_demuxer.cpp:172-944 | the converse of the theorems about runs, for any input, calls and cutting: as long as no call fails, the bytes taken are whole pages of one logical stream, in sequence and with matching checksums, and the start of one more |
| `OggPages.FirstAnswerIsMarked` | src/micro-ogg-demuxer/ogg_demuxer.cpp:831-944 | for any input, calls and cutting without an error: an answer carries the mark of the first packet exactly if it is the first one and comes from the first page, skipped packets included |
| `OggSwitches.RefusedInsidePackets` | src/micro-ogg-demuxer/ogg_demuxer.cpp:500-546 | in any run on a well-formed stream: a call of the other interface is refused exactly while the caller holds slices of a packet that goes on, or a packet has been begun; between packets it is accepted |
| `OggAccounts.DataProgress` | src/micro-ogg-demuxer/ogg_demuxer.cpp:172-322 | no streaming call on any input stands still: it takes bytes or comes closer to the end of the page |
| `OggAccounts.PacketProgress` | src/micro-ogg-demuxer/ogg_demuxer.cpp:328-388 | no packet call stands still |
| `OggDemuxing.OggDemuxer.GetNextData` | src/micro-ogg-demuxer/ogg_demuxer.cpp:172-228 | the object, its segment table inside the staging buffer, answers and moves as the step on values |
| `OggDemuxing.OggDemuxer.GetNextPacket` | src/micro-ogg-demuxer/ogg_demuxer.cpp:328-388 | the same for whole packets, its assembly buffer growing |
| `OggDemuxing.OggDemuxer.OfferBodyData` | src/micro-ogg-demuxer/ogg_demuxer.cpp:230-322 | the loop that rests the cursor on the next bytes, and the terminator of a packet from earlier pages |
| `OggDemuxing.OggDemuxer.AccumulateHeader` | src/micro-ogg-demuxer/ogg_demuxer.cpp:657-706 | takes just the bytes that the header lacks |
| `OggDemuxing.OggDemuxer.ValidateStreamConsistency` | src/micro-ogg-demuxer/ogg_demuxer.cpp:708-758 | serial, sequence, first, last and continued flags, with the first error that applies |
| `OggDemuxing.OggDemuxer.HandleSkipping` | src/micro-ogg-demuxer/ogg_demuxer.cpp:548-602 | drops the rest of a packet and reports it once |
| `OggDemuxing.OggDemuxer.HandleAssembling` | src/micro-ogg-demuxer/ogg_demuxer.cpp:760-829 | gathers a packet over calls and pages, or gives it up when it outgrows the buffer |
| `OggDemuxing.OggDemuxer.EnforceMode` | src/micro-ogg-demuxer/ogg_demuxer.cpp:536-546 | refuses a change of interface inside a packet and changes nothing then |
| `OggFlac.OggFlacDecoder.DecodeOgg` | src/micro-flac/flac_decoder.cpp:388-499 | on any input: the loop ends and asks for more only when all is taken; the slices are those of the next streaming calls of the demuxer, byte for byte, and the native decoder has got them behind the nine-byte prefix, in order; it goes on exactly as long as the native decoder asks for more and takes all; it refuses the container only where the demuxer fails, the mark is wrong or the native decoder leaves bytes; and it reports the end of the stream only after the native decoder has or a slice that was the last of a page marked as the last one |
| `OggFlacStream.DecodeStream` | src/micro-flac/flac_decoder.cpp:211-499 | on every well-formed stream, cut in any way: the prefix and what the native decoder has got are the first bytes of the page bodies, and all of them once the stream is taken, to which enough calls come; the demuxer never fails, and the header is refused only without the mark; the end of the stream is reported only if the native decoder says so or a page with the flag 4 has been delivered, and always at the first news of no data after the body of such a page |
| `OggEnds.PlayAlong` | src/micro-ogg-demuxer/ogg_demuxer.cpp:230-322 | over any streaming calls on a well-formed stream: leaving a page with the flag 4 and a body is answered with its last slice marked as the end of the stream, and an answer so marked leaves such a page |
| `OggFlac.DataWithin` | src/micro-flac/flac_decoder.cpp:410-440 | a slice is the last of the bytes that its call takes, for any input |
| `ArtworkSafety.DecodesOneMessage` | src/sendspin/artwork_role.cpp:559-627 | in every interleaving of the three threads the bytes given to on_image_decode are the payload of one handle_binary message |
| `ArtworkSafety.Undisturbed` | src/sendspin/artwork_role.cpp:197-262 | while the callback runs no step of any thread changes those bytes |
| `ArtworkSafety.NothingFromBeforeTheEnd` | src/sendspin/artwork_role.cpp:363-505 | once the main thread has dispatched the end of a stream nothing received before that end is delivered, whatever is merged late |
| `ArtworkSafety.DeliveriesAreFresh` | src/sendspin/artwork_role.cpp:340-505 | the same as an order of events: behind a dispatched end every delivery was received after that end |
| `ArtworkSafety.DisplayedWasDecoded` | src/sendspin/artwork_role.cpp:405-505 | a delivered image was decoded before, belongs to its slot, and a clear is a message without payload |
| `ArtworkSafety.PlayKeeps` | src/sendspin/artwork_role.cpp:197-712 | the invariant behind these holds after every run |
| `ArtworkProgress.ProcessDecides` | src/sendspin/artwork_role.cpp:559-627 | in every reachable state: a notification is decoded, or handed on as a clear, if and only if its message is of the running stream, no later message has been written over its bytes, and its slot owes no acknowledgement; if only that is owed it is parked, otherwise dropped, and nothing else changes |
| `ArtworkProgress.ImageGetsThrough` | src/sendspin/artwork_role.cpp:197-712 | from any running stream with idle threads and an open gate: received, sent, taken, decoded, merged and due, an image is decoded and then delivered, a clear delivered as one, and the slot owes its acknowledgement |
| `ArtworkProgress.ParkedGetsThrough` | src/sendspin/artwork_role.cpp:533-645 | behind a closed gate the notification is parked, and decoded and delivered once the slot has acknowledged |
| `ArtworkProgress.RestartOpens` | src/sendspin/artwork_role.cpp:278-338 | a new stream has a new epoch, opens the gates that wait for a delivery of the old one and keeps nothing that was parked or merged |
| `ArtworkProgress.EndClears` | src/sendspin/artwork_role.cpp:363-403 | a dispatched end leaves nothing held, merged or parked, and each slot that acknowledges owes that for the clear |
| `ArtworkSlots.ImageSlot.StageImage` | src/sendspin/artwork_role.cpp:225-262 | the writer avoids the claimed buffer, renews the generation and leaves the other buffer alone |
| `ArtworkSlots.ImageSlot.TryClaim` | src/sendspin/artwork_role.cpp:570-611 | a stale notification is skipped, a gated one parked, and a claimed one names the bytes of its own generation |
| `ArtworkSlots.DisplayUpdate.Merge` | src/sendspin/artwork_role.cpp:130-148 | with its bit masks the merge is latest-wins slot by slot, as the sum of two maps |
| `ArtworkSlots.FoldsAnywhere` | src/sendspin/artwork_role.cpp:405-505 | at whatever moment between merges the main thread takes the slot, it holds the same in the end |
| `Utf8.ValidateUtf8` | src/ixwebsocket/IXUtf8Validator.h:168-176 | accepts exactly the strings of the grammar in section 4 of RFC 3629: no overlong form, no surrogate, nothing above U+10FFFF |
| `Utf8.RunConcat` | src/ixwebsocket/IXUtf8Validator.h:126-144 | decoding in pieces ends in the state of decoding whole |
| `Utf8.EncodingReads` | src/ixwebsocket/IXUtf8Validator.h:85-93 | decoding the encoding of any scalar value yields that value |
| `Utf8.EncodingsAreOctets` | src/ixwebsocket/IXUtf8Validator.h:85-93 | every encoded text is accepted |
| `Utf8.OctetsAreEncodings` | src/ixwebsocket/IXUtf8Validator.h:85-93 | every accepted text is the encoding of scalar values |
| `Sha1.Compression` | src/ixwebsocket/IXWebSocketHandshakeKeyGen.h:46-109 | rotating register indices and a circular schedule equal the 80-word compression of section 6.1.2 of FIPS 180-4 for every block and state |
| `Sha1.InPlaceIsRound` | src/ixwebsocket/IXWebSocketHandshakeKeyGen.h:58-97 | a round in place is a round of the shifting registers with the roles moved on by one |
| `HandshakeKey.Generate` | src/ixwebsocket/IXWebSocketHandshakeKeyGen.h:128-170 | for every key string the accept value of section 4.2.2 of RFC 6455 of the 24 characters used |
| `HandshakeKey.TakenWhole` | src/ixwebsocket/IXWebSocketHandshakeKeyGen.h:128-150 | a key of 24 characters without a zero byte is used as it is |
| `WsLink.Talk` | src/ixwebsocket/IXWebSocketTransport.cpp:354-1246 | any list of messages (text in UTF-8), mask on or off, any answers of the socket any flushes of the buffer between and after the messages, and any sizes of batches: the receiver emits the first of those messages and nothing else but notices of fragments, without a close; when all has gone out, all of them, and nothing is left over |
| `WsLink.Arrives` | src/ixwebsocket/IXWebSocketTransport.cpp:455-777 | the same for the bytes of some messages in any batches: a part of the bytes gives a part of the messages, all of them all |
| `WsLink.MessageMeans` | src/ixwebsocket/IXWebSocketTransport.cpp:823-937 | the frames of a message mean one message after notices for all but the last; text that is not UTF-8 means a close with 1007 and no message |
| `WsLink.TailMeans` | src/ixwebsocket/IXWebSocketTransport.cpp:540-600 | frames that continue a message complete the chunks that were there |
| `WsLink.SendAll` | src/ixwebsocket/IXWebSocketTransport.cpp:823-1246 | with any number of flushes before each message and after the last, what is on the wire and in the buffer is the frames of the messages, or, once the socket has failed, their first bytes |
| `WsControls.ArrivesAmongControls` | src/ixwebsocket/IXWebSocketTransport.cpp:559-725 | pings of up to 125 bytes, pongs and close frames anywhere between the frames of messages, in any batches: each is reported once, in order and with its payload; beside them exactly the messages are emitted, at least those that have come whole, without a complaint |
| `WsControls.ControlsAside` | src/ixwebsocket/IXWebSocketTransport.cpp:559-725 | for any frames and from any state: without the reports of control frames everything is as if they had not been there |
| `WsControls.ComplainsExactly` | src/ixwebsocket/IXWebSocketTransport.cpp:559-732 | section 5.4 of RFC 6455: close is called with 1002 for exactly the frames that are out of order, which are a new message inside one, a continuation outside and a reserved opcode |
| `WsControls.BadControlStops` | src/ixwebsocket/IXWebSocketTransport.cpp:547-640 | a control frame in fragments, or a longer ping, is answered with 1002 and nothing behind it is read |
| `WsControls.FragmentsInOrder` | src/ixwebsocket/IXWebSocketTransport.cpp:823-937 | the first frame of a message has its opcode, the others are continuations, and only the last is final |
| `WsSender.Sender.SendData` | src/ixwebsocket/IXWebSocketTransport.cpp:823-937 | fragments of one message are appended in order; a failed send leaves a prefix and closes the connection |
| `WsSender.Sender.SendOnSocket` | src/ixwebsocket/IXWebSocketTransport.cpp:1057-1089 | any partial writes: no byte is lost, repeated or reordered |
| `WsSender.Sender.SendFragment` | src/ixwebsocket/IXWebSocketTransport.cpp:939-1025 | one frame with its header, key and masked payload is appended |
| `WsSender.Sender.AppendToSendBuffer` | src/ixwebsocket/IXWebSocketTransport.cpp:402-420 | masking at the end of the buffer touches only the new payload |
| `WsReceiver.FeedIsDispatch` | src/ixwebsocket/IXWebSocketTransport.cpp:455-777 | any cutting of the bytes into batches comes to the state of one batch |
| `WsReceiver.FeedAll` | src/ixwebsocket/IXWebSocketTransport.cpp:455-777 | all frames are received in order and the buffer is empty |
| `WsReceiver.Receiver.DispatchBuffer` | src/ixwebsocket/IXWebSocketTransport.cpp:455-758 | the loop handles every whole frame at the front and keeps the rest |
| `WsReceiver.Receiver.Unmask` | src/ixwebsocket/IXWebSocketTransport.cpp:422-431 | unmasking in place changes just the payload |
| `WsFrames.ReadsBack` | src/ixwebsocket/IXWebSocketTransport.cpp:455-545 | a written frame is read as it was, for all three encodings of the length, masked or not, whatever follows |
| `WsFrames.PartWaits` | src/ixwebsocket/IXWebSocketTransport.cpp:455-545 | a part of a frame is not taken for one |

## Left out

- Metadata blocks and stream headers of FLAC, output packing of samples, seeking, and the size limits of metadata.
- Allocation failure everywhere, null inputs, and side buffers that are allocated late: buffers are there from the start.
- The literal CRC tables: they are defined by the recurrence that generates them.
- Calls after an error result, other than that a frame decoder is reset by it.
- Ogg packets beyond the buffer's size in packet mode: whether one is skipped depends on the cutting. The step that skips is modelled; no theorem about runs covers such streams.
- Chained and multiplexed Ogg streams: a run is over one logical stream.
- The deadlines of artwork displays: that a display is due is an input of the step.
- Exclusivity of the artwork acknowledgement gate across streams, delivery when the notification queue is full, and `cleanup()` beside a running message. Generations and epochs are unbounded counters.
- The listener being null, and the formats that are looked up for a slot.
- Compression of WebSocket messages, the close handshake and its callbacks, the reply to a ping, the checks of a close frame's code and reason, and aborting a send by the progress callback.
- WsSender.Sender.SendData: a blocking send's wait for the buffer to empty is not modelled, because it is a poll of the socket.
- Sockets, polling, TLS, timers and threads' scheduling: a socket is a list of answers, a receive is a batch of bytes.
- `sendData` for ping, pong and close frames, which take the same path as a short message.
- The Base64 routine's output buffer bounds, and request headers of the handshake.
