# Verified models of a WhatsApp messaging platform

Dafny models of the parts of the platform whose guarantees need several functions, or several
processes, to hold together, with proofs of those guarantees. `dafny verify dfyconfig.toml`
verifies everything.

| File | What it models |
|---|---|
| `opus_packet.dfy`, `opus_bytes.dfy`, `opus_tags.dfy`, `opus_profile.dfy` | the Ogg Opus upload profile: packet framing, also on its bytes, comment header, packets reassembled across pages |
| `ogg_pages.dfy`, `ogg_bytes.dfy`, `crc.dfy` | the Ogg page walk over whole files; pages as they are written; both table-driven CRC-32s |
| `png_chunks.dfy`, `png_bytes.dfy` | the PNG chunk walk over whole files; chunks as they are written |
| `audio_frames.dfy`, `audio_bytes.dfy`, `adif_header.dfy`, `adif_writer.dfy` | the AMR, ADTS and MPEG frame walks, and frame lengths and tags on their bytes; the bit reader, and the ADIF header read through it and written |
| `zip_directory.dfy` | the ZIP central directory and its end record |
| `message_row.dfy`, `delivery.dfy` | outbound delivery: message row, outbox, publishers, queues, workers, leases |
| `campaign_tables.dfy`, `campaign_run.dfy` | campaign lifecycle and fenced recipient claims |
| `conversation_sla.dfy` | the conversation row: activity times and the response-SLA cycle, with the database trigger on team assignments |
| `webhooks.dfy` | replayed customer messages; delivery receipts in any order |
| `rate_limiter.dfy` | the Redis slot limiter and its waiting callers |
| `inbox_skills.dfy`, `inbox_routing.dfy` | skill admission, least-loaded routing, capacity |
| `s3_query.dfy` | the SigV4 canonical query string |
| `media_assets.dfy` | one media asset: upload against cleanup replicas |
| `backoff.dfy`, `bytes.dfy`, `wrappers.dfy` | the retry delay, byte strings, `Option`, `Result`, unused numbers |

Files are sequences of bytes, a database row is a class whose methods are the guarded updates, and
each such method is proved against a function on row values. The protocols are transition systems
over those functions: every SQL statement, transaction or broker operation is one step, every
`await` between two of them is an interleaving point, and crashes are steps. A statement about a
protocol quantifies over all runs from its starting state.

What the models assume, because the code relies on it:

- The unique indexes on (tenant, phone), (campaign, contact), (tenant, sender, contact), provider
  message id and (tenant, idempotency key) (`prisma/schema.prisma` lines 230, 318, 438, 531, 554).
- Successive claims of one campaign recipient get strictly increasing lease tokens. Leases may
  otherwise run out at any moment.
- All callers of one sender ask the limiter with the same limit; a limit that changes within a
  window is outside the model.
- One clock for the limiter, whose scripts may run some time after the caller read it, and one for
  delivery, on which only the statements about leases depend.
- Queues are durable, and a delivery returns to its queue when its holder fails or stops.

Where a property one might expect does not hold, the code is modelled as it is and the exact
condition is proved, for all inputs:

- The provider may accept a message twice: it never does if and only if no dispatch outlasts its
  lease, no worker lets go of a message it saw accepted, no record of an acceptance reports an
  error, and no acceptance goes unseen because the request timed out or its reply was unusable
  (`AcceptedOnceExactly`; `AcceptedTwiceWithoutPromptness` has the runs).
- A window may exceed the rate limit: it never does if and only if scripts run before the counters
  of their window expire (`LimitHoldsExactly`, `LateScriptOverruns`).
- With small limits the clamp to one slot takes the headroom of one-time passwords
  (`TenthIsLeftExactly`, `OneSlotLeavesNothing`).
- The order of delivery receipts matters if and only if a message in flight gets both a failure
  and a delivery or read receipt (`FailuresDependOnOrder`).
- A team assignment can start an SLA cycle no later than a recorded reply (`RepliesAreOlderExactly`,
  `AssignmentBehindReplyHappens`). The cycle starts when the assigning transaction started, so this
  takes a customer message dated after that start: from a clock that runs ahead, or stored together
  with the reply while the transaction waited for the row (`lockConversation`,
  `src/inbox/inbox.service.ts:793-804`).
- Cleanup can leave a binary without a key: finding a keyed asset stale or expired is safe if and
  only if staging has ended (`FindIsSafeExactly`, `SlowStagingOrphans`).
- Nobody waits right after a campaign is cancelled or failed (`EndingClosesWaiters`), but a recipient
  may wait again later: if and only if it is being processed and its claim, or one more claim after
  it, may still end in an error that is retried (`WhoMayWaitAgain`); `CancelledRecipientWaitsAgain`
  has the runs.

## Model

| member | source | states |
|---|---|---|
| OpusPackets.MatchesOpusPacketFraming | src/media/media-ogg-opus-profile.ts:132-202 | accepts a packet exactly when it is the RFC 6716 section 3.2 encoding of some frame list in one of the four codes, at most 61,440 bytes, 1,275 bytes a frame and 120 ms; the early exit on declared bytes refuses no valid packet |
| OpusPackets.MatchesCodedFrames | src/media/media-ogg-opus-profile.ts:163-202 | the code-3 part alone: accepted exactly when the rest is the coding of the announced number of frames |
| OpusPackets.ReadPadding | src/media/media-ogg-opus-profile.ts:168-182 | the padding chain loop ends and reads exactly the chain that the padding length encodes to, whatever follows |
| OpusPackets.LengthCodeIsBijective | src/media/media-ogg-opus-profile.ts:183-195 | the one/two-byte length code is a bijection between 0..1275 and its code words |
| OpusPackets.EncodingIsUnambiguous | src/media/media-ogg-opus-profile.ts:132-202 | two valid packets with the same bytes are the same packet: frames, code and padding are determined |
| OpusBytes.OneByteFrames | src/media/media-ogg-opus-profile.ts:139-162 | for every configuration: a code-3 packet of n one-byte frames of one length is accepted if and only if 0 < n < 64 and n times the duration of RFC 6716 table 2 is at most 120 ms |
| OpusBytes.EqualFrames | src/media/media-ogg-opus-profile.ts:139-202 | the same for equal frames of any size, with the limit of 1,275 bytes |
| OpusBytes.SamplesLast | src/media/media-ogg-opus-profile.ts:139-143 | every configuration has 48 samples for each millisecond of its frame duration, listed as data |
| OpusBytes.SingleFrame | src/media/media-ogg-opus-profile.ts:145-147 | a code-0 packet is accepted if and only if its one frame has at most 1,275 bytes |
| OpusBytes.EqualPair | src/media/media-ogg-opus-profile.ts:148-150 | a code-1 packet is accepted if and only if the rest are two equal halves of at most 1,275 bytes |
| OpusBytes.CodedPair | src/media/media-ogg-opus-profile.ts:152-202 | a code-2 packet is accepted if and only if the coded length and what is left of the packet are each at most 1,275 bytes |
| OpusBytes.PaddedFrames | src/media/media-ogg-opus-profile.ts:163-182 | padding of any length is taken off before the frames are cut |
| OpusTags.MatchesOpusTags | src/media/media-ogg-opus-profile.ts:101-130 | accepts exactly the serialised comment headers of RFC 7845 section 5.2 (vendor string and comments, then anything), never reading outside the packet |
| OggLacing.ReassemblyInvertsLacing | src/media/media-ogg-opus-profile.ts:58-94 | the fold over segments returns exactly the packets whose RFC 3533 lacing the table is, so the decomposition is unique |
| OggLacing.FeedAppend | src/media/media-ogg-opus-profile.ts:58-94 | feeding two pages one after the other is feeding their concatenation: page breaks do not matter |
| OggOpus.OggOpusProfile.AcceptPage | src/media/media-ogg-opus-profile.ts:21-94 | a page is accepted exactly when the pages so far and this one are acceptable; the reused buffer holds exactly the unfinished packet |
| OggOpus.OggOpusProfile.AcceptSegments | src/media/media-ogg-opus-profile.ts:58-88 | the loop over the lacing table accepts exactly when all packets it completes and the one left open satisfy the profile, with the comment header alone at its page's end |
| OggOpus.OggOpusProfile.CompleteMeansWholeStream | src/media/media-ogg-opus-profile.ts:96-98 | after accepted pages `isComplete` is true exactly when the last page ends the stream and head, tags and at least one audio packet are whole with nothing pending |
| OggOpus.ReassembledPacketsAreLaced | src/media/media-ogg-opus-profile.ts:58-94 | the packets handed to the checks are the ones obtained by joining the bodies of all pages after the head and cutting after each lacing value below 255 |
| OggOpus.AcceptedToTheEndIffStream | src/media/media-ogg-opus-profile.ts:21-98 | page lists accepted up to an end page are exactly the profile's streams: one head page, one comment header, audio packets, granule positions where packets end |
| OggPages.MatchesOggStructure | src/media/media-audio-structure.ts:58-156 | a file is accepted exactly when it is a concatenation of valid pages, under the page cap and with some payload, whose projection to each serial is one whole logical stream (and, with the Opus profile, one of its streams) |
| OggPages.ReadPage | src/media/media-audio-structure.ts:77-112 | yields the page at an offset exactly when the bytes there start with a well-formed, CRC-valid page |
| OggPages.InterleavingDoesNotMatter | src/media/media-audio-structure.ts:105-143 | files with the same page list per serial get the same verdict, however the lists are interleaved |
| OggPages.SplitIsUnique | src/media/media-audio-structure.ts:75-141 | a byte string is a concatenation of pages in at most one way |
| OggPages.NoPageIsTooLong | src/media/media-audio-structure.ts:94-96 | no lacing table announces more than 65,307 bytes, so the page-size check never fires |
| OggBytes.PagesAreWritten | src/media/media-audio-structure.ts:76-112 | what the walk takes for a page is exactly what RFC 3533 section 6 writes for some flags, granule position, serial, sequence number, lacing table and body, with the checksum of the page written with a zero checksum |
| OggBytes.WrittenReads | src/media/media-audio-structure.ts:81-106 | every field of a written page is read back, the granule position as a signed 64-bit number |
| OggBytes.PacketsOnPage | src/media/media-audio-structure.ts:125-128 | a page with the lacing of whole packets and k segments of a further one leaves a packet open exactly if k > 0, and completes one exactly if there is a whole one |
| OggBytes.HeadPageExactly | src/media/media-ogg-opus-profile.ts:45-56 | the first page of a profile stream: only the begin flag, granule position zero, one 19-byte "OpusHead" packet, version 1, one channel, mapping family 0 |
| Crc.BuildOggCrcTable | src/media/media-audio-structure.ts:531-544 | entry b is the register after clocking eight message bits of b through the polynomial, one at a time |
| Crc.BuildCrc32Table | src/media/media-image-structure.ts:368-378 | the same for the reflected PNG polynomial |
| Crc.HasValidOggCrc | src/media/media-audio-structure.ts:517-529 | true exactly when the bit-serial CRC of the page with its checksum field zeroed equals the field |
| Crc.UpdateCrc32 | src/media/media-image-structure.ts:360-366 | the table-driven update equals the bit-serial register on every byte string |
| Crc.ValidatePngChunkCrc | src/media/media-image-structure.ts:331-358 | reading the chunk in 64 KiB pieces gives the verdict of one pass over type and data |
| Crc.PngCrcAppend | src/media/media-image-structure.ts:338-352 | the register after a concatenation is the register continued over the second part |
| Crc.OneByteChangeIsDetected | src/media/media-audio-structure.ts:517-529 | changing any single byte of a page whose checksum holds makes it fail |
| Crc.PngIsReversedOgg | src/media/media-image-structure.ts:360-378 | the PNG register is the bit reversal of the Ogg register fed with reversed bytes |
| CrcRegisters.OggTableStep | src/media/media-audio-structure.ts:517-529 | one table look-up equals eight single-bit clocks of the Ogg register |
| CrcRegisters.PngTableStep | src/media/media-image-structure.ts:360-366 | one table look-up equals eight single-bit clocks of the PNG register |
| CrcRegisters.Generator | src/media/media-audio-structure.ts:531-544 | both registers divide by the same polynomial, given by its exponents, one of them with its bits reversed |
| PngChunks.MatchesPngStructure | src/media/media-image-structure.ts:91-198 | a file is accepted exactly when it is the signature and a list of at most 10,000 chunks, each known, CRC-valid and in its place, ended by one empty end chunk after some image data |
| PngChunks.OrderMeans | src/media/media-image-structure.ts:138-186 | in an accepted file the header chunk is first and only there, the end chunk last and only there, the image data chunks are contiguous, and there is at most one palette, before all of them |
| PngChunks.ChunkFollows | src/media/media-image-structure.ts:120-180 | one round of the loop, which sees only its flags, decides exactly whether the chunk may follow the chunks before it |
| PngBytes.ChunksAreWritten | src/media/media-image-structure.ts:113-131 | what the walk takes for a chunk is exactly what RFC 2083 section 3.2 writes for some kind, data and checksum |
| PngBytes.WrittenReads | src/media/media-image-structure.ts:331-358 | kind and data of a written chunk are read back, and its checksum holds exactly if it is the complement of the register over both |
| PngBytes.KnownKindExactly | src/media/media-image-structure.ts:310-329 | a kind is four letters, the third upper case, and a critical one is one of the four known |
| PngBytes.HeaderExactly | src/media/media-image-structure.ts:277-308 | a header is accepted exactly with a positive width and height, one of the fifteen pairs of colour type and bit depth, and methods it may have |
| PngBytes.PaletteExactly | src/media/media-image-structure.ts:155-171 | a palette is accepted exactly with 1 to 256 colours, none for greyscale, and no more than an index of the bit depth can tell apart |
| FrameWalks.WalkFrames | src/media/media-audio-structure.ts:176-207 | the walk accepts exactly the concatenations of more than zero and less than the cap of frames |
| FrameWalks.SplitIsUnique | src/media/media-audio-structure.ts:176-207 | a region is a concatenation of frames in at most one way |
| AudioFrames.MatchesAmrStructure | src/media/media-audio-structure.ts:277-334 | accepts exactly a narrow- or wideband magic followed by such a concatenation of AMR frames |
| AudioFrames.AmrFramesAreSerialised | src/media/media-audio-structure.ts:302-325 | what the check takes for a frame is exactly what RFC 4867 section 5.3 writes for a frame type, a quality bit and that type's speech bits, zero-padded; reading and writing are inverse |
| AudioFrames.AmrRoundTrip | src/media/media-audio-structure.ts:299-329 | serialise any frame list and walk it: the only split reads back as that list |
| AudioBytes.AmrLengthExactly | src/media/media-audio-structure.ts:302-325 | a frame of n bytes starts a text exactly when n is the size of its mode (listed as data), its reserved bits are zero and the unused bits of its last byte are zero |
| AudioBytes.MagicSelectsBand | src/media/media-audio-structure.ts:285-298 | "#!AMR-WB" and "#!AMR" in front of any bytes decide which of the two mode tables the frames behind them follow |
| AudioFrames.MatchesAacStructure | src/media/media-audio-structure.ts:158-211 | accepts exactly the ADIF files of the next rows and, without the ADIF magic, the concatenations of ADTS frames under the cap |
| AdifHeaders.MatchesAdifStructure | src/media/media-audio-structure.ts:336-376 | accepts exactly the files whose bits after the magic spell some header (copyright, stream fields, program config elements) that ends within the first 64 KiB and before the file does |
| AdifWriter.AdifFilesAreWritten | src/media/media-audio-structure.ts:336-376 | those files are exactly a header written to bytes, field by field, followed by at least one byte of audio; the 64 KiB bound refuses no header |
| AdifWriter.HeaderRoundTrip | src/media/media-audio-structure.ts:345-375 | every header whose values fit their fields is read back from its bytes, to their end |
| AdifWriter.SpellsShows | src/media/media-audio-structure.ts:556-577 | reading fields finds their values exactly where these fit their widths and their binary digits stand |
| AdifHeaders.ParseProgramConfigElement | src/media/media-audio-structure.ts:378-441 | the reader, field by field, succeeds exactly where an element can be read and stops right behind it |
| AdifHeaders.ElementExactly | src/media/media-audio-structure.ts:378-441 | what is read is exactly what ISO/IEC 14496-3 writes for an element: counts, mixdowns, channel lists of the announced lengths, padding to a byte, comment; a sampling index below 13 and at least one channel |
| AdifHeaders.HeaderExactly | src/media/media-audio-structure.ts:345-375 | the same for the whole header with its 1 to 16 elements |
| AdifHeaders.HeaderIsDetermined | src/media/media-audio-structure.ts:345-375 | no bits spell two different headers |
| AudioFrames.AdtsFramesAreSerialised | src/media/media-audio-structure.ts:178-202 | what the check takes for a frame is exactly the ADTS header over some payload, with the 13-bit length field holding the whole length |
| AudioFrames.MatchesMpegAudioStructure | src/media/media-audio-structure.ts:213-275 | accepts exactly when the bytes between the ID3v2 and ID3v1 tags are such a concatenation of MPEG frames |
| AudioFrames.MpegFramesAreBounded | src/media/media-audio-structure.ts:443-487 | every computed frame length lies in 24..2881, for all versions, layers, bitrates and sample rates |
| AudioBytes.MpegLengthExactly | src/media/media-audio-structure.ts:443-487 | a header announces n bytes if and only if its fields are allowed and n bytes are the whole slots that 384, 576 or 1,152 samples take at the announced bit rate and sample rate, plus the padding slot |
| AudioBytes.KbpsAsStated | src/media/media-audio-structure.ts:489-502 | the five bit-rate tables follow their scales: 32 kbit/s a step, or 32, 40, 48, 56 and their doubles, or 8 and 16 kbit/s a step |
| AudioBytes.TagIsSkipped | src/media/media-audio-structure.ts:221-247 | the audio starts behind an ID3v2 header, a payload of the size written in four seven-bit digits and a version-4 footer, if four bytes are left |
| AudioBytes.TagsDoNotMatter | src/media/media-audio-structure.ts:213-275 | a tag of any size in front and an ID3v1 tag behind do not change the verdict on the audio between |
| BitReaders.BitReader.Read | src/media/media-audio-structure.ts:556-577 | up to 32 bits are the big-endian number at the offset, longer fields are skipped and read as zero, and a read that does not fit leaves the offset and never passes the buffer |
| BitReaders.BitReader.Skip | src/media/media-audio-structure.ts:579-585 | moves exactly when the buffer is long enough |
| BitReaders.BitReader.AlignToByte | src/media/media-audio-structure.ts:587-592 | reaches the next byte boundary, still inside the buffer |
| BitReaders.NumberFits | src/media/media-audio-structure.ts:570-575 | a field of w bits reads as a number below 2 to the power w |
| BitReaders.ReadsCompose | src/media/media-audio-structure.ts:556-577 | two reads in a row give the digits of one longer read |
| ZipDirectory.ParseCentralDirectory | src/media/media-content-signature.ts:297-349 | accepts exactly the concatenations of the stated number of well-formed records with distinct decoded names, and returns their name-to-offset map |
| ZipDirectory.RecordsArePrinted | src/media/media-content-signature.ts:305-336 | what the parser takes for a record is exactly what APPNOTE 4.3.12 writes for an unencrypted entry on this disk without ZIP64 fields |
| ZipDirectory.PrintThenParse | src/media/media-content-signature.ts:297-349 | printing records with distinct names and parsing the bytes gives back exactly their names and offsets |
| ZipDirectory.ParseEndOfCentralDirectory | src/media/media-content-signature.ts:253-295 | the backward scan decides on the last end record whose comment reaches exactly the end, and on no other |
| ZipDirectory.TailHidesNone | src/media/media-content-signature.ts:196-203 | every such end record of the file lies in the 65,557-byte tail |
| ZipDirectory.FindEndRecord | src/media/media-content-signature.ts:196-206 | searching only the tail finds the end record of the whole file |
| ZipDirectory.EndRoundTrip | src/media/media-content-signature.ts:253-295 | after any bytes, a written end record is found and gives its offset, size and entry count, unless one of them has the ZIP64 marker |
| ZipDirectory.EndsAreWritten | src/media/media-content-signature.ts:253-295 | a record the scan takes is exactly what APPNOTE 4.3.16 writes for one disk without ZIP64 markers, reaching the end of the bytes |
| MessageRows.OutboundMessage.ClaimMessage | src/worker/message-dispatcher.service.ts:347-380 | succeeds exactly when the message is unfinished and no other lease runs, and the claimer then holds a running lease; without a finite lease setting it is an error that changes nothing |
| MessageRows.OutboundMessage.MarkRetryableFailure | src/worker/message-dispatcher.service.ts:382-410 | back to queued without a lease, whatever its status, attempts and provider id kept: the row function that the protocol uses |
| MessageRows.OutboundMessage.MarkFailed | src/worker/message-dispatcher.service.ts:412-435 | failed without a lease, whatever its status, attempts and provider id kept: the row function that the protocol uses |
| MessageRows.OutboundMessage.MayGiveUp | src/worker/message-dispatcher.service.ts:149-161 | the read before giving up: true exactly when nothing was sent for the row and no lease runs |
| MessageRows.OutboundMessage.MarkRetryExhausted | src/worker/message-dispatcher.service.ts:149-169 | with nobody writing in between: fails the row unless it is finished or another worker's lease runs |
| MessageRows.OutboundMessage.RecordSubmitted | src/worker/message-dispatcher.service.ts:110-128 | ends any lease and stores the provider id |
| MessageRows.LeaseMs | src/worker/message-dispatcher.service.ts:349 | a lease never lasts less than five seconds; exactly a setting that is no finite number gives none |
| MessageRows.LeaseKeepsSetting | src/worker/message-dispatcher.service.ts:349 | thirty seconds unless configured; a configured time of five seconds or more is kept as it is |
| Delivery.OutboxEvent.ClaimEvent | src/outbox/outbox-publisher.service.ts:67-90 | takes an unpublished, due, unleased row and counts the attempt |
| Delivery.OutboxEvent.MarkPublished | src/outbox/outbox-publisher.service.ts:118-125 | ends the row's life in the outbox |
| Delivery.OutboxEvent.RecordFailure | src/outbox/outbox-publisher.service.ts:126-138 | frees the row for a later attempt after the backoff of its attempt count |
| Backoffs.Backoff | src/outbox/outbox-publisher.service.ts:128 | every delay is between one second and one minute |
| Backoffs.BackoffDoubles | src/campaigns/campaign-processor.service.ts:391 | each further failure doubles the delay, up to one minute |
| Backoffs.BackoffStarts | src/campaigns/campaign-processor.service.ts:391 | one second before and after the first failure, from where the doubling goes on |
| Delivery.RetryQueues.ScheduleRetry | src/queue/messaging-queue.service.ts:236-276 | refused exactly when the budget is spent; otherwise one copy with one more retry waits in the queue of its delay |
| Delivery.RetryQueues.ScheduleDeferredRetry | src/queue/messaging-queue.service.ts:200-234 | one copy with the same retry count waits for the shortest delay |
| Delivery.Least | src/queue/messaging-queue.service.ts:205 | the delay of a deferred copy is one of the configured ones and none is shorter |
| Delivery.StepCarries | src/worker/message-dispatcher.service.ts:50-169 | a worker whose copy is needed, and any worker that changes the row, still carries the row after its step, has finished it, or has left a copy in a queue |
| Delivery.StatusHasItsCause | src/worker/message-dispatcher.service.ts:110-169 | in every run the row is sent, delivered or read only after a receipt of that status, submitted only after a record of an acceptance, failed only after a failure or a failure receipt |
| Delivery.StatusAfter | src/worker/message-dispatcher.service.ts:50-169 | what every action leaves in the row: failed right after a failure, queued after a requeue, submitted after a record, processing with a fresh lease and one more attempt after a claim; every other action keeps the status |
| Delivery.ErrorsAreAnswered | src/worker/message-dispatcher.service.ts:112-147 | an error of the provider requeues the message if it is retryable and fails it otherwise |
| Delivery.RetriesFollowDelays | src/queue/messaging-queue.service.ts:236-276 | a requeued message gets the next configured delay until all are used, and then no other |
| Delivery.UndisturbedDelivery | src/worker/message-dispatcher.service.ts:50-128 | the run without faults takes the message from its creation to a read row, published, accepted and claimed once, with nothing left in any queue |
| Delivery.NoMessageIsLost | src/worker/message-dispatcher.service.ts:50-169 | at every point of every run with crashes, duplicates and expired leases: the message is finished, or its outbox row is unpublished, or a copy is queued, or a worker that will not drop it silently holds one |
| Delivery.EveryMessageCanStillFinish | src/queue/messaging-queue.service.ts:127-198 | from every reachable state some continuation without any further fault finishes the message |
| Delivery.SendsAreCounted | src/worker/message-dispatcher.service.ts:347-380 | in every run provider acceptances are at most provider calls, which are at most the recorded attempts, and no copy's retry count exceeds the number of configured delays |
| Delivery.NoClaimAfterProviderId | src/worker/message-dispatcher.service.ts:352-356 | once a provider id is recorded it stays for the rest of the run and no claim succeeds again |
| Delivery.PromptDispatchIsExclusive | src/worker/message-dispatcher.service.ts:50-147 | if every dispatch ends within its lease and acceptances are seen and recorded, dispatches never overlap and the provider accepts the message at most once |
| Delivery.AcceptedOnceExactly | src/worker/message-dispatcher.service.ts:50-147 | in every run the provider accepts the message at most once, if and only if dispatches may not outlast their lease, workers may not let go of a message they saw accepted, records may not report an error, and acceptances may not go unseen |
| Delivery.AcceptedTwiceWithoutPromptness | src/meta/meta-whatsapp.client.ts:38-75 | any one of the four alone lets some run accept it twice; for an acceptance that goes unseen, by the retry that the timeout's error asks for |
| CampaignTables.CampaignStore.Launch | src/campaigns/campaigns.service.ts:185-277 | snapshots the whole audience in batches or changes nothing; a repeated launch is answered without a second snapshot |
| CampaignTables.LaunchCountsRecipients | src/campaigns/campaigns.service.ts:241-268 | the launch leaves exactly the audience as recipients, as many as the stored total |
| CampaignTables.CampaignStore.Pause | src/campaigns/campaigns.service.ts:279-298 | only a running or scheduled campaign is paused |
| CampaignTables.CampaignStore.Resume | src/campaigns/campaigns.service.ts:300-326 | only a paused campaign is resumed, into the schedule if its time is still ahead |
| CampaignTables.CampaignStore.Cancel | src/campaigns/campaigns.service.ts:328-383 | ends every campaign that has not ended, with all its waiting recipients, and leaves recipients in process to their claim |
| CampaignTables.CampaignStore.FailCampaign | src/campaigns/campaigns.service.ts:416-444 | ends only a running or scheduled campaign, with its waiting recipients |
| CampaignTables.EndingLeavesNobodyWaiting | src/campaigns/campaigns.service.ts:342-370 | after a cancellation or a failure every recipient that waited has its end, and no other recipient was touched |
| CampaignTables.CampaignStore.ClaimRecipient | src/campaigns/campaign-processor.service.ts:102-139 | takes a due, waiting recipient of a running campaign, or one whose lease ran out in any campaign |
| CampaignTables.CampaignStore.CompleteClaim | src/campaigns/campaign-processor.service.ts:399-420 | changes the recipient, its next attempt included, only while it is processed under the claim's own lease |
| CampaignRuns.KeysAreDistinct | src/campaigns/campaign-processor.service.ts:300-302 | for campaign ids without a colon, equal idempotency keys mean the same campaign and the same contact |
| CampaignRuns.NeverBeforeItsTime | src/campaigns/campaigns.service.ts:249-262 | in every run whose times do not go back, a scheduled campaign never runs, and no waiting recipient is claimed, before its time; from then on it may be promoted |
| CampaignRuns.ClaimFollowsCampaign | src/campaigns/campaign-processor.service.ts:158-183 | a claim whose message exists completes as queued; otherwise a campaign that failed, ended, was cancelled or paused decides how it completes |
| CampaignRuns.CreationQueues | src/campaigns/campaign-processor.service.ts:185-233 | a created or already existing message completes its claim as queued, a refusal of the recipient as skipped |
| CampaignRuns.ErrorsAreRetried | src/campaigns/campaign-processor.service.ts:379-397 | an error is retried after the doubling delay until the last attempt, which fails the recipient |
| CampaignRuns.OperatorWrites | src/campaigns/campaigns.service.ts:279-326 | pausing, resuming and promoting change only the status: paused, running, or scheduled again if the scheduled time is still to come |
| CampaignRuns.ClaimsMayStopAnywhere | src/campaigns/campaign-processor.service.ts:141-251 | a claim may end in an error or stop at any point, and be refused only while its message is being created |
| CampaignRuns.UndisturbedCampaign | src/campaigns/campaign-processor.service.ts:102-251 | the run without faults launches a campaign to one contact, claims it once, creates one message under its key, and ends completed with the contact queued |
| CampaignRuns.OneMessagePerRecipient | src/campaigns/campaign-processor.service.ts:141-251 | in every run each key has at most one message, every message exactly one outbox event, and a queued recipient links exactly the message of its key |
| CampaignRuns.ClaimsAreFenced | src/campaigns/campaign-processor.service.ts:379-420 | in every reachable state a superseded claim's completion changes no row, and no recipient was put back after an error maxAttempts times |
| CampaignRuns.SupersededClaimCompletesNothing | src/campaigns/campaign-processor.service.ts:399-420 | the single-step form: an older lease token never completes |
| CampaignRuns.EndsAreFinal | src/campaigns/campaigns.service.ts:279-444 | over any continuation ended campaigns keep their state, recipients that reached an end keep their row, and after the launch the number of recipients stays the stored total |
| CampaignRuns.CompletedMeansNobodyWaits | src/campaigns/campaigns.service.ts:385-414 | a completed campaign has no waiting or processed recipient, although counting and completing are separate statements |
| CampaignRuns.EndingClosesWaiters | src/campaigns/campaigns.service.ts:328-444 | whichever step cancels or fails the campaign, right after it no recipient waits |
| CampaignRuns.WhoMayWaitAgain | src/campaigns/campaign-processor.service.ts:304-397 | in every reachable state of an ended campaign, a recipient that does not wait can wait again in some continuation if and only if it is processed and either two attempts are left, or its current claim has an attempt left, is about to put it back, or read a paused or scheduled campaign and will find no message |
| CampaignRuns.CancelledRecipientWaitsAgain | src/campaigns/campaign-processor.service.ts:379-397 | for every contact, a run from the launch in which the campaign is cancelled and its recipient ends waiting: by a retried error with two attempts or more, or by a claim that had read the campaign while it was paused with any number |
| ConversationSla.Conversation.RecordInbound | src/inbox/conversation-activity.service.ts:22-110 | the upsert's assignments all read the old row; a cycle starts exactly for a message newer than all activity on a row without an unanswered cycle |
| ConversationSla.Conversation.RecordOutbound | src/inbox/conversation-activity.service.ts:112-203 | a template, or a message to an unknown contact, changes nothing; any other reply closes an unanswered cycle it falls into, and drops the cycle of a resolved conversation |
| ConversationSla.Conversation.EscalateIfOverdue | src/inbox/inbox-response-sla-escalation.service.ts:44-76 | escalates exactly an open, unanswered, overdue cycle that was not escalated |
| ConversationSla.Conversation.ApplyTeamResponseSla | prisma/migrations/20260912131000_inbox_sla_escalation/migration.sql:34-69 | a team assignment starts a cycle exactly when the customer wrote last and no cycle is unanswered |
| ConversationSla.InboundWrites | src/inbox/conversation-activity.service.ts:61-98 | after any customer message the row is open with one more unread message and the later of the activity times |
| ConversationSla.InboundCycle | src/inbox/conversation-activity.service.ts:22-31 | a cycle starts exactly with a message newer than all activity in which no open conversation waits, due 60,000 ms a minute of the target after it |
| ConversationSla.OutboundWrites | src/inbox/conversation-activity.service.ts:112-203 | after any recorded reply the row is open, its unread count kept, its times moved forward |
| ConversationSla.OutboundCycle | src/inbox/conversation-activity.service.ts:112-203 | a reply answers, once, a cycle that it does not precede, and drops the one of a resolved conversation |
| ConversationSla.EscalationWrites | src/inbox/inbox-response-sla-escalation.service.ts:44-76 | only the escalation time is written, for an open unanswered cycle whose due time has come |
| ConversationSla.AssignmentWrites | prisma/migrations/20260912131000_inbox_sla_escalation/migration.sql:34-69 | a cycle starts exactly if the customer wrote last and no cycle waits, due 60,000 ms a minute of the target after the assignment |
| ConversationSla.NotOpenExactly | src/inbox/conversation-activity.service.ts:69-73 | over every history the row is not open if and only if a change to another status came after the last message |
| ConversationSla.UnreadOverHistory | src/inbox/conversation-activity.service.ts:69-77 | over every history the unread count is the number of customer messages since the conversation was last read |
| ConversationSla.DueFollowsTarget | src/inbox/conversation-activity.service.ts:33-60 | over every history a cycle was started by an event with a target, and is due that many minutes after it |
| ConversationSla.AlwaysWellTimed | prisma/migrations/20260912131000_inbox_sla_escalation/migration.sql:7-29 | for any events in any order the row keeps: started with due, due after start, answer between start and the last reply, escalation at or after due |
| ConversationSla.RepliesAreOlderExactly | src/inbox/conversation-activity.service.ts:23-31 | one event keeps every recorded reply older than an unanswered cycle if and only if it is not an assignment that starts a cycle at or before the last reply |
| ConversationSla.RepliesAlwaysOlder | src/inbox/conversation-activity.service.ts:22-203 | hence over whole histories without such an assignment |
| ConversationSla.BehindReplyMeansMessageAfterStart | prisma/migrations/20260912131000_inbox_sla_escalation/migration.sql:51-66 | such an assignment needs a customer message dated after the start of its transaction |
| ConversationSla.AssignmentBehindReplyHappens | prisma/migrations/20260912131000_inbox_sla_escalation/migration.sql:53-66 | a three-event history in which it happens |
| ConversationSla.WrittenOncePerCycle | src/inbox/conversation-activity.service.ts:61-98 | as long as no cycle begins or is dropped, start and due time stay and answer and escalation, once written, stay |
| ConversationSla.CustomerCannotMoveCycle | src/inbox/conversation-activity.service.ts:23-31 | no customer message changes an open unanswered cycle, and a late or repeated one changes none |
| ConversationSla.TimesAreMaxima | src/inbox/conversation-activity.service.ts:74-79 | last inbound, last outbound and last message times are the latest of the messages handled |
| ConversationSla.OrderDoesNotMatter | src/inbox/conversation-activity.service.ts:74-79 | histories with the same message times end with the same activity times, whatever their order |
| InboundMessages.InboundStore.PersistInboundMessage | src/webhooks/inbound-message.service.ts:67-157 | one transaction: nothing for a known provider id, otherwise contact, window, conversation and message together |
| InboundMessages.InboundStore.Process | src/webhooks/inbound-message.service.ts:26-65 | over all entries, changes and messages: stores, in order, exactly the messages before the first error, and succeeds exactly when there is none |
| InboundMessages.InboundStore.ProcessChange | src/webhooks/inbound-message.service.ts:40-62 | messages without id or sender are passed over; an unknown or missing number fails a change that has messages, a malformed sender fails the rest of it |
| InboundMessages.AcceptedExactly | src/webhooks/inbound-message.service.ts:26-65 | what is stored of a webhook are its messages up to the first error, and all of them if there is none |
| InboundMessages.OneMessage | src/webhooks/inbound-message.service.ts:40-62 | a message without id or sender is passed over; an unknown number or a malformed sender is an error; any other is stored with its own fields |
| InboundMessages.ManyMessages | src/webhooks/inbound-message.service.ts:40-62 | the messages of a change are treated one by one, in order; an unknown number is one error for all of them |
| InboundMessages.NewMessageIsStored | src/webhooks/inbound-message.service.ts:67-157 | a new message opens its conversation, and moves the contact time forward with the window 86,400,000 ms after it; all other rows stay |
| InboundMessages.ReplayIsFirstArrivals | src/webhooks/inbound-message.service.ts:79-84 | any at-least-once replay, with failed and repeated attempts, has the effect of handling each new provider id once in first-arrival order |
| InboundMessages.FirstArrivalsAreDistinct | src/webhooks/inbound-message.service.ts:79-84 | that order lists every new provider id at most once, and only messages that were delivered |
| InboundMessages.ReplaysDoNotAddUnread | src/inbox/conversation-activity.service.ts:71-73 | a conversation's unread count grows once per new provider id, however often messages are replayed |
| InboundMessages.LastInboundIsLatest | src/webhooks/inbound-message.service.ts:98-104 | a contact's last inbound time is the latest of its messages, whatever order they arrive in |
| InboundMessages.WindowsAlwaysFollow | src/webhooks/inbound-message.service.ts:76-104 | the service window of every contact closes 24 hours after its last inbound time |
| Receipts.TrackedMessage.ApplyStatus | src/webhooks/webhook-status.service.ts:46-99 | every receipt is recorded; status and its timestamp move only where the rank rule lets them |
| Receipts.EndsAtHighestRank | src/webhooks/webhook-status.service.ts:181-193 | receipts without a failure take a live message to the highest rank among them and its own |
| Receipts.OrderDoesNotMatter | src/webhooks/webhook-status.service.ts:181-193 | lists with the same failure-free receipts, in any order and multiplicity, end in the same status |
| Receipts.FailsExactlyWhenFirst | src/webhooks/webhook-status.service.ts:181-184 | a message in flight ends failed if and only if a failure arrives before any delivery or read receipt |
| Receipts.HighestRankUnlessFailedFirst | src/webhooks/webhook-status.service.ts:181-193 | unless a failure precedes every delivery and read receipt, a live message ends at the highest rank among its other receipts and its own |
| Receipts.ReceiptsDecide | src/webhooks/webhook-status.service.ts:181-193 | for every status and receipt list, the status left behind: ended messages only turn failed, messages in flight fail when a failure leads, all others end at the latest of read, delivered and sent |
| Receipts.FailuresDependOnOrder | src/webhooks/webhook-status.service.ts:181-193 | for every status and receipt list: all permutations end alike if and only if the message had ended or was delivered before, or the list does not hold both a failure and a delivery or read receipt |
| RateLimiter.RedisStore.ReserveSlot | src/worker/distributed-rate-limiter.service.ts:6-22 | both counters move together or not at all, and only below both limits |
| RateLimiter.WindowTotals | src/worker/distributed-rate-limiter.service.ts:6-22 | in every run the total counter of a window that can still be asked is the sum of its class counters and at most the limit |
| RateLimiter.ReservedPerClass | src/worker/distributed-rate-limiter.service.ts:94-104 | in every timely run, before the reserved phase of a window ends, each class takes at most its own share of the limit, rounded down and never below one; one-time passwords at most the limit |
| RateLimiter.ReservedSharesExactly | src/worker/distributed-rate-limiter.service.ts:94-104 | for each class, a number bounds its reserved slots in all runs if and only if it is at least that share, capped by the limit |
| RateLimiter.SharedPhaseExactly | src/worker/distributed-rate-limiter.service.ts:94-104 | after the reserved phase each class may take the whole limit, and no more |
| RateLimiter.SpanBound | src/worker/distributed-rate-limiter.service.ts:53-76 | any span of L milliseconds sees at most (ceil(L / 1000) + 1) times the limit in grants, dated by when the script runs, if scripts run in the window of their caller's reading, and (ceil(L / 1000) + 2) times if they run before the counters expire |
| RateLimiter.SpanBoundIsReached | src/worker/distributed-rate-limiter.service.ts:53-76 | for every limit and length some run of either kind reaches that bound |
| RateLimiter.LimitHoldsExactly | src/worker/distributed-rate-limiter.service.ts:6-22 | every window keeps its limit in all runs whose scripts run less than a given time after their window began, if and only if that time is at most the counters' two seconds |
| RateLimiter.LateScriptOverruns | src/worker/distributed-rate-limiter.service.ts:6-22 | for every limit: a full window and one script that runs when its counters are gone make one grant more than the limit |
| RateLimiter.TenthIsLeft | src/worker/distributed-rate-limiter.service.ts:94-115 | with both shares worth at least one slot, a tenth of the limit is free of other traffic when the reserved phase ends |
| RateLimiter.TenthIsLeftExactly | src/worker/distributed-rate-limiter.service.ts:94-104 | for every limit: that headroom holds in all runs if and only if the clamped class limits, capped by the limit, are at most nine tenths of it |
| RateLimiter.OneSlotLeavesNothing | src/worker/distributed-rate-limiter.service.ts:94-104 | a limit of one slot leaves none |
| RateLimiter.ReservationShares | src/worker/distributed-rate-limiter.service.ts:106-126 | the shares in force are positive and add up to at most nine tenths, whatever is configured |
| RateLimiter.SharesAreKept | src/worker/distributed-rate-limiter.service.ts:106-126 | configured shares that leave a tenth are kept, all others replaced by the defaults |
| RateLimiter.WindowIsKept | src/worker/distributed-rate-limiter.service.ts:117-120 | a reserved phase of up to 950 ms is kept without its fraction, anything else is 700 ms |
| RateLimiter.LimitIsKept | src/worker/distributed-rate-limiter.service.ts:47-50 | a configured limit is kept without its fraction and never below one, anything unusable is 75 |
| RateLimiter.ReservationWindowMs | src/worker/distributed-rate-limiter.service.ts:117-120 | the reserved phase never takes more than 950 of the 1,000 milliseconds, whatever is configured |
| RateLimiter.SenderLimit | src/worker/distributed-rate-limiter.service.ts:47-50 | a sender always has at least one slot a second |
| RateLimiter.NextAttemptIsLater | src/worker/distributed-rate-limiter.service.ts:78-83 | a refused caller's next attempt falls in a later phase |
| RateLimiter.WaitsIntoNextPhase | src/worker/distributed-rate-limiter.service.ts:78-83 | a refused caller waits until five milliseconds into the next phase, and at least 25 |
| RateLimiter.OneAttemptPerPhase | src/worker/distributed-rate-limiter.service.ts:42-86 | so a waiting caller asks at most once in each phase |
| InboxSkills.FilterAgentsBySkills | src/inbox/inbox-skill-admission.ts:43-79 | the nested-map filter keeps, in order, exactly the agents whose levels meet every requirement |
| InboxSkills.AssertAgentMeetsSkills | src/inbox/inbox-skill-admission.ts:19-41 | admits exactly an agent whose levels meet every requirement, all of them active |
| InboxSkills.FilterIsTheClaimRule | src/inbox/inbox-skill-admission.ts:19-79 | routing keeps an agent exactly when claiming would admit it |
| InboxSkills.MeetsSkillsExactly | src/inbox/inbox-skill-admission.ts:19-41 | on a table with one row for each agent and skill: a requirement is met by a row of at least its level, or without any row if level zero is enough |
| InboxRouting.InboxStore.RouteConversation | src/inbox/inbox.service.ts:535-687 | assigns exactly when the team is active and an eligible member exists, to one with the least (load, agent id); every load stays within the cap plus the reopened conversations the agent holds |
| InboxRouting.LeastLoaded | src/inbox/inbox.service.ts:645-653 | the selection loop returns a minimum in (load, agent id) |
| InboxRouting.FilteredAreEligible | src/inbox/inbox.service.ts:592-643 | the three filters together keep exactly the eligible members, in id order |
| InboxRouting.BestExactly | src/inbox/inbox.service.ts:592-653 | who may be chosen, on the columns, and that the chosen one has the least load and among those the smallest id |
| InboxRouting.LoadExactly | src/inbox/inbox-capacity-admission.ts:52-73 | an agent is busy with every conversation assigned to it that is not resolved |
| InboxRouting.InboxStore.ClaimConversation | src/inbox/inbox.service.ts:452-533 | succeeds exactly for an unassigned conversation and an active, available, skilled team member below cap; every load stays within the cap plus the reopened conversations the agent holds |
| InboxRouting.InboxStore.ReleaseConversation | src/inbox/inbox.service.ts:689-737 | succeeds exactly for the agent who holds the conversation |
| InboxRouting.InboxStore.UpdateConversation | src/inbox/inbox.service.ts:319-450 | succeeds exactly when a named agent is active and skilled, a named team active, the final agent in the final team, and a new agent available and below cap; a change of status alone is no admission; every load stays within the cap plus the reopened conversations the agent holds |
| InboxRouting.AssignExactly | src/inbox/inbox.service.ts:319-450 | who may be given a conversation by an update: an active, available, skilled agent below its cap, from the team if there is one |
| InboxRouting.AssignIntoTeamExactly | src/inbox/inbox.service.ts:319-450 | the same when the update names a team too |
| InboxRouting.KeepExactly | src/inbox/inbox.service.ts:319-450 | naming the present agent takes neither availability nor capacity |
| InboxRouting.TeamChangeExactly | src/inbox/inbox.service.ts:319-450 | a new team has to be active with the present agent among its members; dropping agent or team is free |
| InboxRouting.InboxStore.MessageArrives | src/inbox/conversation-activity.service.ts:69-73 | a message reopens a resolved conversation of its agent without an admission, which marks it as reopened until it changes hands |
| InboxRouting.CapsKept | src/inbox/inbox-capacity-admission.ts:52-73 | any change that hands a conversation over only within the new agent's cap keeps every load within the agent's cap plus the open conversations it holds that came back to it by a reopening |
| InboxRouting.WithinCapWithoutReopenings | src/inbox/inbox-capacity-admission.ts:52-73 | so an agent that holds none of those is within its cap |
| InboxRouting.RoutingEvensOut | src/inbox/inbox.service.ts:607-653 | routing any number of open conversations over one uncapped group keeps the load spread at most max(initial spread, 1) |
| S3Query.AwsUriEncode | src/media/media-s3-signature.ts:90-101 | the loop computes the byte-wise percent-encoding |
| S3Query.DecodeEncode | src/media/media-s3-signature.ts:90-101 | percent-encoding decodes back to the same bytes |
| S3Query.ByteSpelling | src/media/media-s3-signature.ts:90-101 | letters, digits and "._~-" stay, every other byte is a percent sign and two upper-case hexadecimal digits |
| S3Query.EncodeHasNoSeparators | src/media/media-s3-signature.ts:90-101 | encoded text contains neither '=' nor '&' |
| S3Query.PairOrderIsTotal | src/media/media-s3-signature.ts:69-77 | the comparison is a total order on parameters |
| S3Query.PairOrderIsByteOrder | src/media/media-s3-signature.ts:69-77 | it compares names and then values by the first byte in which they differ, a beginning coming before the whole |
| S3Query.QueryAscends | src/media/media-s3-signature.ts:66-80 | the string joins the encoded parameters, each as often as it was given, in ascending byte order |
| S3Query.TwoParameters | src/media/media-s3-signature.ts:66-80 | for two parameters in either order: the smaller one first, written name=value&name=value |
| S3Query.JoinIsInjective | src/media/media-s3-signature.ts:78-79 | lists of encoded parameters with the same joined string are the same list |
| S3Query.BuildCanonicalQuery | src/media/media-s3-signature.ts:66-80 | the pipeline of encoding, sorting and joining computes the string that the next row is about |
| S3Query.SameStringIffSameParameters | src/media/media-s3-signature.ts:66-80 | two URLs have the same canonical query string if and only if their parameters are the same with the same multiplicities |
| MediaAssets.AssetRegistry.Create | src/media/media.service.ts:137-165 | a row exists, pending and with its key, before anything is stored |
| MediaAssets.AssetRegistry.Complete | src/media/media.service.ts:208-220 | completes exactly a row that nobody completed or failed |
| MediaAssets.AssetRegistry.MarkAssetFailed | src/media/media.service.ts:284-296 | fails whatever row is still there |
| MediaAssets.AssetRegistry.ClaimAbandoned | src/media/media-asset-retention.service.ts:85-100 | abandons exactly a row that is still stale and that nobody completed or failed |
| MediaAssets.AssetRegistry.ClearKey | src/media/media-asset-retention.service.ts:116-128 | drops the key only of a row still abandoned |
| MediaAssets.NeverCompletedAndFailed | src/media/media.service.ts:137-258 | over any interleaving of upload, replicas and crashes the asset is never both completed and failed |
| MediaAssets.CompletedWithItsSend | src/media/media.service.ts:193-218 | a completed asset carries the provider id of an accepted send of its run |
| MediaAssets.UndisturbedUploadCompletes | src/media/media.service.ts:137-234 | the run without faults ends with a completed, stored row and, with a key, its binary |
| MediaAssets.FailureIsRecorded | src/media/media.service.ts:165-191 | whichever step fails, the next one marks the row failed and ends the upload |
| MediaAssets.StaleUploadIsCleaned | src/media/media-asset-retention.service.ts:53-128 | from every state with a stale keyed row, one replica leaves a failed row without key and no binary |
| MediaAssets.ExpiredAssetIsPurged | src/media/media-asset-retention.service.ts:140-179 | from every state with a row, one replica removes it and, with its key, the binary |
| MediaAssets.NoOrphanBinary | src/media/media-asset-retention.service.ts:53-179 | if staging ends before the row is stale or expired, every stored binary has a row holding its key, and a step that deletes the row or clears its key finds the binary gone |
| MediaAssets.FindIsSafeExactly | src/media/media-asset-retention.service.ts:53-128 | after any prompt run: once a keyed asset is found stale or expired, no continuation leaves a binary whose key no row holds, if and only if staging has ended |
| MediaAssets.SlowStagingOrphans | src/media/media-asset-retention.service.ts:103-179 | with slower staging some run leaves a binary whose row lost its key, and some run one whose row is gone |

## Left out

- HTTP controllers, guards, audit rows, realtime fan-out, metrics and tracing: they change none of the modelled state.
- Real files, sockets, Redis, RabbitMQ, the database and the provider: bytes, atomic steps, multisets of jobs and free choices of outcome stand for them. Partial reads of a file handle are one bounded read.
- SHA-256, HMAC and the rest of the SigV4 signature.
- The JPEG marker walk, PDF and ISO-BMFF checks, and the local-header and package-identity checks after the ZIP directory.
- UTF-8 decoding of ZIP names is a function parameter; query parameters are their UTF-8 bytes, so strings with lone surrogates are not distinguished.
- Delivery follows one message and campaigns one campaign; batches, orderings and `SKIP LOCKED` between rows are free choices of the scheduler. Status events, error texts and the choice between queues of one traffic class are not modelled, nor malformed queue messages.
- `matchesOggStructure` and the other walkers are methods over a byte sequence; the reader's buffer is not.
- MessageRows.OutboundMessage.MarkRetryExhausted: one call without interference; in the delivery protocol its read and its update are the two steps `ReadExhausted` and `MarkFailure`.
- Delivery.PromptDispatchIsExclusive: the safe side of `AcceptedOnceExactly`; nothing in the code rules the four faults out.
- Delivery.NoMessageIsLost: an error that keeps returning the job (for example a database that never recovers) leaves the message waiting, not lost; no bound on time is stated.
- CampaignRuns.ClaimsAreFenced: the lease token stands for the lease time; two claims of one recipient in the same millisecond are excluded by the assumption above.
- Campaign counters are not modelled: they are only as current as the last refresh. A launch reads one time for its rows and its schedule.
- RateLimiter.WindowTotals: requires each script to run before the counters of its window can expire, which `LimitHoldsExactly` shows to be needed. Shares are exact reals, not floating point.
- ConversationSla.Conversation.EscalateIfOverdue: one row; the batch size and order of the scan are left out.
- InboxRouting.InboxStore.RouteConversation: the ordered membership query is a parameter; locks on agents and teams make the load count current, so the transaction is one step.
- InboxRouting.InboxStore.UpdateConversation: priorities, and the refusal of an update without any field, are left out.
- InboxRouting.RoutingEvensOut: stated for groups without caps; a capped agent leaves the group when it is full.
- MediaAssets.NoOrphanBinary: the storage key of an asset never changes, discarding either removes the binary or fails, and staging ends only when the store can write no more, also for a request that was given up.
- The outbox flush loop, retry-delay parsing and prefetch sizes: easy members only.
