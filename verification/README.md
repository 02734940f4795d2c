# Open Sound System, user-space core: a Dafny model

A verification project beside the Open Sound System sources. It models four pieces of the user-space code
that keep state over long runs, and proves what they promise about all runs, all inputs or all files:

1. **Remote mixer** (`lib/libossmix`, `cmd/ossmixd`): the client and the daemon exchange packets without
   request numbers over two FIFO channels; the daemon keeps a cache with a change bit for every node.
2. **Sequencer and MIDI parser** (`lib/libOSSlib`, `include/soundcard.h`): 8-byte events are buffered,
   translated into timestamped MIDI packets, and parsed back by a state machine that works byte by byte.
3. **File headers and chunk walker** (`cmd/ossplay/ossplay_wparser.c`, `ossplay_parser.c`): the recorder
   writes WAV, AU, AIFF and CAF headers, the player reads them.
4. **ADPCM and delta decoders** (`cmd/ossplay/ossplay_decode.c`, `cmd/osstest/wavedata.c`): decoders with
   state, called with whatever `read` returns.

`dafny verify dfyconfig.toml` checks everything.

## How to read it

Code that changes state step by step is a class or a method with loops (`LocalMixer`, `Daemon`,
`RemoteMixer`, `MidiInput`, `SeqLib`, `FormReader`, `Decoder`, the header writer, the block decoders). Each
method is proved to do what a function says; the main results are lemmas about these functions. Where the
promise turned out to hold only sometimes, the lemma says exactly when, as an if-and-only-if.

| files | contents |
|---|---|
| Basics, Bytes | options, half bytes; numbers stored as bytes |
| ChangeMask, MixerCache | the change bits; the cache with its table of mixers, its refresh and its collection of news |
| MixerDaemon, MixerProtocol, MixerClient | the daemon; the system of client, daemon and two queues; the client's blocking calls |
| MixerCorrelation, MixerLoading, MixerView | replies reach their calls; node batches; what a client knows of the cache |
| MixerRuns, MixerService, MixerReturns, MixerStored | runs observed; what requests do to the daemon and its polls to the queue; what calls return; what an open call stores |
| MidiParser, MidiWire, MidiTimecode | the parser; wire forms; time code |
| Sequencer, SeqLibrary, SequencerRoundTrip | the player of events and its buffering; the library object; round trips through the parser |
| SampleRate, HeaderWriter, FileReaders, HeaderRoundTrip, CafWalker | rates; the recorder; the readers; recorded files played |
| ChunkWalker, ChunkReader, ChunkList | the walk over chunks; the reader object; files that are lists of chunks |
| Adpcm, AdpcmStream, AdpcmLaws | codes, states and samples; decoding a stream in portions; what codes can reach |
| Weave, Rounds, ImaDecoder, ImaBlocks, MsIma, MsAdpcm | several channels in one buffer; the IMA and Microsoft block decoders |
| BlockLaws, MsAdpcmLaws | bytes and headers of blocks read back; what Microsoft's half bytes can reach |

## What is assumed

- A channel is a queue of packets, a file a sequence of bytes with an offset, a device a map from node to
  value in which a failed read is a missing entry. A device describes the node it was asked about, with
  that number as its control number, and has at most 1024 nodes; there are at most 64 mixers. The daemon's
  cache is a table of objects with arrays, the table itself a map; what the client has loaded is a map.
- Packets carry lists: the buffers of fixed size that payloads are read into are not part of this model.
- The host stores numbers least significant byte first, client and daemon alike.
- The player is not asked to force a format, to seek, to print, or to read from standard input. A rate that
  does not fit an `int` becomes the smallest `int`. In the WAVE header the product of rate, channels and
  bits is not cut to an `int` before it is divided.
- MIDI callbacks do not call back into the parser.
- Arithmetic is over unbounded integers; where the original wraps or truncates (unsigned bytes, ticks of 64
  bits, the header fields, CAF offsets) the model does too. Division rounds toward zero in the decoders.
- Microsoft ADPCM: no `int` overflows. Rates are real numbers.

## Where the code and its intent part

- An open call that is told "0 nodes" sends a node request it does not wait for. From then on the reply to
  it may be taken for another one, as in the run of `MixerCorrelation.ReplyMisheard`;
  `MixerCorrelation.RepliesCorrelate` shows that requests and replies never part in another way.
- Asking for a node that is not cached ends the client's process when the daemon answers
  (`MixerClient.RemoteMixer.GetNode`).
- One-data-byte messages under running status are not parsed (`MidiWire.WireFormsParse`).
- Time code reports hour 24 instead of hour 0 when a cycle runs past midnight, and falls back by a day with
  the next cycle (`MidiTimecode.TimeFollowsMaster`, `MidiTimecode.QuarterFrameApart`).
- The recorder drops the last byte of an odd number of bytes of WAVE sound; the player drops eight bytes of
  AIFF sound and four of CAF sound, and may take the last bytes of an odd AIFF sound for a chunk header,
  without effect. AU files of unknown length lose 24 bytes.
- `AFMT_S24_PACKED_BE` is negative, so the recorder refuses it before it looks at the container. The AIFF
  writer divides by zero for formats without a sample size.
- Headers of Microsoft IMA ADPCM are read from outside a block whose size ends within one of them, say one of
  five bytes for two channels (`MsIma.HeadersInside`, `MsIma.HeaderOutside`).
- Of a Microsoft ADPCM block that has been read in full the player reads one byte too many when the block
  claims more samples than it holds, say 501 in 256 bytes of one channel (`MsAdpcm.PlayerReadsInside`,
  `MsAdpcm.PlayerReadsOutside`). It writes outside its output when a block has fewer bytes than channels
  (`MsAdpcm.PlayerWritesInside`), and with a full table of 32 pairs of coefficients a header may name a pair
  behind them (`MsAdpcm.CoeffsInside`).
- The test sounds never play their last block (`MsAdpcm.UncompressWave`).

## Model

| member | source | states |
|---|---|---|
| ChangeMask.SetFlag | lib/libossmix/libossmix_cache.c:138-143 | setting a node's bit in the mask sets its flag and disturbs no other node's |
| ChangeMask.ClearFlag | lib/libossmix/libossmix_cache.c:162-162 | clearing a node's bit clears its flag and disturbs no other |
| ChangeMask.SetBit | cmd/ossmixd/ossmixd.c:227-227 | the statement on the array of bytes sets one flag and no other |
| ChangeMask.ClearBit | cmd/ossmixd/ossmixd.c:232-232 | the statement on the array of bytes clears one flag and no other |
| MixerCache.RefreshMeaning | cmd/ossmixd/ossmixd.c:159-185 | after the refresh every visited leaf holds the value read and is flagged exactly when it is new; nothing else moves |
| MixerCache.CollectMeaning | lib/libossmix/libossmix_cache.c:167-210 | collecting lists exactly the reported leaves below nrext, each once, in ascending order, with its cached value |
| MixerCache.PollReportsNews | cmd/ossmixd/ossmixd.c:316-344 | one poll reports in ascending order exactly the leaves whose successful read differs from the cache, with the value read |
| MixerCache.PollLeavesNothing | lib/libossmix/libossmix_cache.c:108-120 | after a poll the cache holds all values read and no leaf is flagged |
| MixerCache.LocalMixer.Add | lib/libossmix/libossmix_cache.c:35-84 | a record goes to the place of its node, the count follows its control number, too large a node exits; where both are the same this is the specification's AddNode |
| MixerCache.LocalMixer.Set | lib/libossmix/libossmix_cache.c:122-144 | storing a value raises the node's bit exactly when it changes |
| MixerCache.LocalMixer.Get | lib/libossmix/libossmix_cache.c:145-165 | reading a value clears the node's bit only |
| MixerCache.LocalMixer.GetAllValues | lib/libossmix/libossmix_cache.c:166-210 | the loop over bytes and bits fills the packet with the specified records and leaves the specified mask |
| MixerCache.LocalMixer.UpdateValues | cmd/ossmixd/ossmixd.c:158-185 | the refresh loop on the arrays is the specified refresh |
| MixerCache.CacheTable.Insert | lib/libossmix/libossmix_cache.c:35-84 | a mixer is made when its first node comes; the node is added to its arrays and no other mixer changes |
| MixerCache.CacheTable.Store | lib/libossmix/libossmix_cache.c:122-143 | a value goes to its mixer's arrays; nothing happens without the mixer |
| MixerCache.CacheTable.Snapshot | cmd/ossmixd/ossmixd.c:289-302 | refresh, collection and clearing on one mixer's arrays give the specified records and leave every other mixer as it was |
| MixerCache.CacheTable.PollOne | cmd/ossmixd/ossmixd.c:315-338 | the same for the poll of one mixer |
| MixerDaemon.Daemon.SendMultipleNodes | cmd/ossmixd/ossmixd.c:128-156 | the batch loop sends exactly the specified batches, or one error, and caches what it sent |
| MixerDaemon.Daemon.ServeCommand | cmd/ossmixd/ossmixd.c:187-314 | every request leads to the specified packets and state, worked out on the table of mixer objects |
| MixerDaemon.Daemon.PollDevices | cmd/ossmixd/ossmixd.c:315-344 | the loop over the mask polls the mixer objects and sends the specified events for every open mixer |
| MixerClient.AttendReply | lib/libossmix/libossmix_tcp.c:207-261 | a blocked client passes over good events, exits on any other event, and hears the first packet that is none |
| MixerClient.ReadsAttend | lib/libossmix/libossmix_tcp.c:207-261 | the state machine that the calls are proved against is the client of the protocol's runs |
| MixerClient.RemoteMixer.NextPacket | lib/libossmix/libossmix_tcp.c:306-367 | the reading loop returns the first packet that is no event; calls that look at the size of its payload do so themselves |
| MixerClient.RemoteMixer.AskFor | lib/libossmix/libossmix_tcp.c:207-391 | a call that asks one thing returns what the reply says, or -1 for a payload of the wrong size, and does what the state machine does |
| MixerClient.RemoteMixer.OpenTheMixer | lib/libossmix/libossmix_tcp.c:564-639 | the whole open call, with its batch loop, asks, reads, stores and returns what the state machine does; it returns 0 if and only if it has heard a snapshot, whose values are then stored |
| MixerClient.RemoteMixer.GetNode | lib/libossmix/libossmix_tcp.c:654-677 | a cached node needs no packet; for another only a failure returns |
| MixerClient.RemoteMixer.GetValue | lib/libossmix/libossmix_cache.c:145-164 | the client's own cache is asked, which changes no value |
| MixerClient.RemoteMixer.PollCallback | lib/libossmix/libossmix_tcp.c:775-813 | one packet is taken for an event, whatever it is |
| MixerCorrelation.SendNodesBatches | cmd/ossmixd/ossmixd.c:128-156 | whatever the device answers, the daemon's batch sizes are the ones the client waits for, or end in one error |
| MixerCorrelation.RepliesCorrelate | lib/libossmix/libossmix_tcp.c:306-417 | in every run what the client heard, paired with its requests, is a prefix of what the daemon said, except exactly when a reply was read after an open call was told "0 nodes" |
| MixerCorrelation.ReplyMisheard | lib/libossmix/libossmix_tcp.c:581-614 | whatever the daemon has cached, a run of ten steps ends with the error about a node taken for the snapshot |
| MixerCorrelation.IdleMeetsOnlyEvents | lib/libossmix/libossmix_tcp.c:775-813 | without such a call an idle client's queue holds only good events and all replies have been heard, the client never exits, and a blocked call's answer is on its way |
| MixerReturns.CallsReturn | lib/libossmix/libossmix_tcp.c:369-391 | in every run all calls that had to wait but the last have returned, in order, each on a reply of its own; unless replies were misheard, that reply was given to the pending request, and the code is what the serving device makes of it: its numbers of mixers and nodes, 0 or -1 |
| MixerReturns.CodesAreReplies | lib/libossmix/libossmix_tcp.c:545-651 | whatever the reply, a call for a number returns it, and an open call 0 exactly after a snapshot that is no error, otherwise -1 |
| MixerReturns.ReadsReturn | lib/libossmix/libossmix_tcp.c:207-367 | the codes of the calls as they are written are those that the runs record |
| MixerService.FlagsFollowRequests | cmd/ossmixd/ossmixd.c:192-234 | in every run the daemon polls if and only if START_EVENTS came after the last INIT or EXIT, a mixer is open if and only if its last OPEN came after its last CLOSE or EXIT, and the number of mixers is the one last asked for, raised by polls |
| MixerService.PollsTellNews | cmd/ossmixd/ossmixd.c:315-377 | after START_EVENTS a poll is enabled, and puts an event with a node and a value into the queue if and only if the mixer is open, cached and counted, and the node a leaf whose read is that value and differs from the cached one |
| MixerService.PollTellsCount | cmd/ossmixd/ossmixd.c:337-343 | a poll tells the number of mixers if and only if it has grown |
| MixerStored.OpenStoresSnapshot | lib/libossmix/libossmix_tcp.c:618-639 | in every run without an open call told "0 nodes" the read that ends an open call leaves every leaf of the mixer at the value the daemon had cached when it served the request for all values, and every other node and mixer as it was |
| MixerStored.OnlySnapshotsStore | lib/libossmix/libossmix_tcp.c:628-636 | no other step moves a value that the client has cached |
| MixerLoading.BatchesLoadTheMixer | lib/libossmix/libossmix_tcp.c:584-614 | for every number of nodes the client's loop consumes exactly the daemon's packets, and ends with all nodes cached or with the one error |
| MixerView.FoldIsCache | cmd/ossmixd/ossmixd.c:289-343 | in every run all values in the fold of snapshots, events and stored values are the daemon's cached ones, and no leaf is missing that was one when a snapshot was taken, also when nodes have been cached again |
| MixerView.ListenerKnowsCache | lib/libossmix/libossmix_tcp.c:729-773 | a client that only listens has, whenever its channel is drained, only values that are cached, and those of all leaves that a snapshot has covered |
| MixerView.PeekHidesChange | lib/libossmix/libossmix_local.c:207-259 | a GET_VALUE keeps the view faithful exactly when it does not move a value the view holds |
| MidiParser.OrAdds | lib/libOSSlib/midiparser.c:166-200 | combining a nibble with a shifted nibble by "or" adds them |
| MidiParser.MidiInput.Input | lib/libOSSlib/midiparser.c:221-361 | one byte into the parser object is one step of the specification |
| MidiParser.MidiInput.InputBuf | lib/libOSSlib/midiparser.c:394-401 | a buffer is fed byte by byte |
| MidiWire.Interleaved | lib/libOSSlib/midiparser.c:242-300 | real-time bytes and F1 pairs inserted anywhere change no other callback and add exactly their own |
| MidiWire.SupportedParses | lib/libOSSlib/midiparser.c:295-339 | wire forms with and without running status parse to their messages, in order |
| MidiWire.CountReady | lib/libOSSlib/midiparser.c:295-339 | the parser never reports more messages than were sent |
| MidiWire.UnsupportedGoesWrong | lib/libOSSlib/midiparser.c:321-328 | a dropped status of a one-data-byte message spoils the list |
| MidiWire.WireFormsParse | lib/libOSSlib/midiparser.c:70-113 | a wire form with insertions parses to its messages if and only if no one-data-byte message dropped its status |
| MidiTimecode.ReportIsClock | lib/libOSSlib/midiparser.c:115-145 | a complete time code plus an offset is the clock that many quarter frames later, with no byte wrapping |
| MidiTimecode.TimeFollowsMaster | lib/libOSSlib/midiparser.c:146-219 | after one cycle every message reports the true time if and only if its cycle does not run past midnight; there it reports hour 24 |
| MidiTimecode.QuarterFrameApart | lib/libOSSlib/midiparser.c:115-219 | from one callback to the next the reported time is a quarter frame more, except exactly where a cycle that ran past midnight is replaced: there it is a day less a quarter frame less |
| MidiTimecode.ClockReads | lib/libOSSlib/midiparser.c:115-145 | the fields of a clock stand for the quarter frames it counts |
| MidiWire.CommonParses | lib/libOSSlib/midiparser.c:275-318 | a song position takes two data bytes and a song select one, and both leave the running status alone |
| Sequencer.PlayAllReceived | lib/libOSSlib/play_event.c:180-259 | playing events adds exactly their records to what has been received, each byte with its event's tick |
| Sequencer.BufferingIsInvisible | lib/libOSSlib/libmain.c:30-46 | for every event list, buffer length and placement of dumps the device receives the unbuffered stream, the start first and once |
| SeqLibrary.SeqLib.SeqbufDump | lib/libOSSlib/libmain.c:30-46 | the dump loop plays the buffer's events and empties it |
| SeqLibrary.SeqLib.StoreEvent | include/soundcard.h:683-760 | a macro makes room, stores its eight bytes and advances |
| SeqLibrary.SeqLib.Play | lib/libOSSlib/play_event.c:201-259 | one event is translated as specified |
| SequencerRoundTrip.OutputBytes | lib/libOSSlib/play_event.c:110-136 | the payloads written are the events' bytes, in order |
| SequencerRoundTrip.OutputSmall | lib/libOSSlib/play_event.c:110-136 | no packet holds more than 956 bytes |
| SequencerRoundTrip.ChannelEventsSurvive | lib/libOSSlib/play_event.c:180-241 | macros, buffered, translated and parsed give back their channel messages, velocity 0 as note off with 64 |
| SequencerRoundTrip.ChunksJoin | lib/libOSSlib/midiparser.c:341-357 | the pieces of a system exclusive message join to it, all but the last of 64 bytes |
| SequencerRoundTrip.SysexParses | lib/libOSSlib/midiparser.c:341-357 | the parser reports exactly these pieces |
| SequencerRoundTrip.SysexSurvives | include/soundcard.h:733-744 | a message of any length survives being cut into events, packed and parsed |
| SequencerRoundTrip.MixedEventsSurvive | include/soundcard.h:733-760 | any list of timing, channel events and complete system exclusive messages comes back, in order, however the buffer is dumped; every byte and every tempo stands at the parameter of the last SEQ_WAIT_TIME before it plus those of all SEQ_DELTA_TIME since, modulo 2 to the 64 |
| SequencerRoundTrip.ItemsPlayed | lib/libOSSlib/play_event.c:138-178 | these times and tempo values, worked out from the macros' own numbers, are those of the unbuffered stream |
| SequencerRoundTrip.TimerParm | include/soundcard.h:795-809 | the parameter of a timing macro comes back from its event, cut to 32 bits |
| Bytes.LeRoundTrip | cmd/ossplay/ossplay.c:117-132 | a number that fits is read back from its bytes, least significant first |
| Bytes.BeRoundTrip | cmd/ossplay/ossplay.c:101-115 | the same, most significant first |
| Bytes.BeInt | cmd/ossplay/ossplay.c:101-115 | the loop computes the value of the bytes |
| Bytes.LeInt | cmd/ossplay/ossplay.c:117-132 | the loop computes the value of the bytes |
| Bytes.SwapBytes | cmd/ossplay/ossplay_wparser.c:108-134 | the pointer swap reverses the bytes |
| Bytes.SwappedLe | cmd/ossplay/ossplay_wparser.c:108-134 | reversed, one order of storage is the other |
| HeaderWriter.Bswap | cmd/ossplay/ossplay_wparser.c:108-134 | a swapped number is stored as the number itself in the other order |
| SampleRate.Ldexpl | cmd/ossplay/ossplay.c:958-985 | the emulation of ldexpl multiplies by the power of two, for every exponent |
| SampleRate.ScaleMultiplies | cmd/ossplay/ossplay.c:958-985 | doubling n times is multiplying by two to the n |
| SampleRate.ScaleDivides | cmd/ossplay/ossplay.c:958-985 | halving n times is dividing by two to the n |
| SampleRate.FindExponent | cmd/ossplay/ossplay_wparser.c:311-315 | the search finds the position of the highest bit |
| SampleRate.AiffRateRoundTrip | cmd/ossplay/ossplay_parser.c:1184-1207 | the AIFF rate field gives back the rate if and only if it is at least 2; rate 1 comes back too large for an int |
| SampleRate.CafRateRoundTrip | cmd/ossplay/ossplay_parser.c:1690-1719 | the CAF rate field gives back the rate if and only if it is at least 2 and below 131072 |
| HeaderWriter.FillAiffRate | cmd/ossplay/ossplay_wparser.c:311-322 | the AIFF rate field, filled byte by byte |
| HeaderWriter.FillCafRate | cmd/ossplay/ossplay_wparser.c:256-267 | the CAF rate field, whose second byte is written twice |
| HeaderWriter.WriteHead | cmd/ossplay/ossplay_wparser.c:136-335 | for every container, format and length the header, the refusal or the division by zero that is specified |
| ChunkWalker.Iterate | cmd/ossplay/ossplay_parser.c:1082-1114 | every chunk that is delivered, also after empty ones, leaves strictly less before the end of the form |
| ChunkWalker.WalkInStep | cmd/ossplay/ossplay_parser.c:1082-1114 | at every header that is read the file stands at the computed offset, and the offsets ascend |
| ChunkWalker.WalkKeepsItsPlace | cmd/ossplay/ossplay_parser.c:1034-1065 | from the form header on, for every file; with its size known no header is missing |
| ChunkReader.FormReader.Iterator | cmd/ossplay/ossplay_parser.c:1082-1114 | the iterator, which calls itself after empty chunks, is the specified one |
| ChunkReader.FormReader.VisitOne | cmd/ossplay/ossplay_parser.c:568-606 | the loop body reads, handles and skips a chunk as specified |
| ChunkReader.FormReader.PlayIff | cmd/ossplay/ossplay_parser.c:529-633 | the loop is the specified walk and concludes as specified |
| ChunkReader.FormReader.WaveFmtParse | cmd/ossplay/ossplay_parser.c:1497-1601 | the handler of the fmt chunk |
| ChunkReader.FormReader.AiffCommParse | cmd/ossplay/ossplay_parser.c:1163-1211 | the handler of the COMM chunk |
| ChunkList.WalkVisitsChunks | cmd/ossplay/ossplay_parser.c:567-606 | on a list of non-empty chunks the walk visits exactly these, in order, or as many as it takes until a handler refuses one |
| ChunkList.FormFileVisited | cmd/ossplay/ossplay_parser.c:567-606 | the same for a whole file |
| FileReaders.PlayAu | cmd/ossplay/ossplay_parser.c:635-745 | the AU reader, with its error and its guess at an unknown length |
| FileReaders.CafDescParse | cmd/ossplay/ossplay_parser.c:1683-1771 | the handler of the CAF description |
| FileReaders.FindCafLinear | cmd/ossplay/ossplay_parser.c:1729-1756 | the switch over sample sizes, with the case that runs on into the next |
| HeaderRoundTrip.WavePlayed | cmd/ossplay/ossplay_parser.c:529-633 | the exact outcome for every recorded WAVE file |
| HeaderRoundTrip.WaveRoundTrip | cmd/ossplay/ossplay_wparser.c:148-190 | a recorded WAVE file comes back, with format, rate, channels, length and place of its data, if and only if the data are a positive even number of bytes that fits and the channels fit 16 bits |
| HeaderRoundTrip.WaveRates | cmd/ossplay/ossplay_wparser.c:148-190 | where samples are whole bytes the header's block alignment and byte rate agree with channels, bits and rate |
| HeaderRoundTrip.WaveFormatSize | cmd/ossplay/ossplay_parser.c:1536-1577 | the format found for a fmt chunk has the size that the chunk tells or its code implies |
| HeaderRoundTrip.WaveFormatsApart | cmd/ossplay/ossplay_parser.c:1536-1577 | sounds of different kinds, sizes or orders of bytes get different formats |
| HeaderRoundTrip.AuRoundTrip | cmd/ossplay/ossplay_wparser.c:191-216 | a recorded AU file comes back if and only if the length is not 0 and below the mark for unknown lengths |
| HeaderRoundTrip.AiffPlayed | cmd/ossplay/ossplay_parser.c:1164-1211 | the exact outcome for every recorded AIFF file, also with an odd number of bytes |
| HeaderRoundTrip.AiffRoundTrip | cmd/ossplay/ossplay_wparser.c:281-331 | a recorded AIFF file keeps format, channels and rate if and only if there are eight bytes of data or none, the channels fit 16 bits and the rate is at least 2 |
| HeaderRoundTrip.CafRoundTrip | cmd/ossplay/ossplay_wparser.c:217-280 | the description in a CAF header gives back format, channels and rate if and only if the rate is at least 2 and below 131072 |
| CafWalker.CafFileRoundTrip | cmd/ossplay/ossplay_parser.c:1604-1682 | the same for the player's walk over the whole file, if and only if the data are not 1 to 3 bytes long |
| Adpcm.Step | cmd/ossplay/ossplay_decode.c:1038-1055 | one sample keeps predictor, index and step within their ranges (index 0..88, Creative step shift..shift+3) |
| Adpcm.Resumed | cmd/ossplay/ossplay_decode.c:1004-1057 | decoding can be interrupted anywhere and taken up again from the state reached |
| Adpcm.SamplesInRange | cmd/ossplay/ossplay_decode.c:752-802 | every sample is in the range of its format |
| AdpcmLaws.StepsGrow | cmd/ossplay/ossplay_decode.c:1015-1028 | the steps ascend from 7 to 32767, each but the last less than 1 off eleven tenths of the one before |
| AdpcmLaws.ImaMoves | cmd/ossplay/ossplay_decode.c:1038-1050 | a code moves the predictor by its odd number of quarter steps, rounded toward where it was, up to the ends of the range |
| AdpcmLaws.ImaReaches | cmd/ossplay/ossplay_decode.c:1038-1050 | every 16-bit target within four steps (two with three bits) is reached to within a quarter step and the rounding, by the code an encoder would choose, whose sign bit tells the side |
| AdpcmLaws.ImaIndex | cmd/ossplay/ossplay_decode.c:1030-1041 | the index falls by 1 for the lower magnitudes and rises by 2 (1 with three bits) for each above, within 0..88 |
| AdpcmLaws.EncodedFollowed | cmd/ossplay/ossplay_decode.c:1004-1057 | any signal that never runs away from the steps, encoded and decoded, comes back with every sample within a quarter of its step and the rounding |
| AdpcmLaws.CreativeReaches | cmd/ossplay/ossplay_decode.c:761-773 | every target that the magnitudes span is reached from the near side to within less than one unit |
| AdpcmLaws.CreativeUnit | cmd/ossplay/ossplay_decode.c:771-772 | the unit doubles after a large code and halves after none, up to eight times the smallest |
| AdpcmLaws.DeltaTables | cmd/ossplay/ossplay_decode.c:579-584 | the entries of one delta table are each the sum of two neighbours, of the other twice a neighbour |
| AdpcmLaws.FibonacciReaches | cmd/ossplay/ossplay_decode.c:788-799 | every target that the table spans is reached up to a quarter of the way |
| AdpcmLaws.ExponentialReaches | cmd/ossplay/ossplay_decode.c:788-799 | the same up to a third of it |
| AdpcmStream.TableCodes | cmd/ossplay/ossplay_decode.c:599-617 | sign bit and masked value, picked by the table, are the code |
| AdpcmStream.Decoder.DecodeRawIma | cmd/ossplay/ossplay_decode.c:1216-1228 | the raw IMA decoder writes the samples of its bytes and reaches the state after them |
| AdpcmStream.Decoder.DecodeCr | cmd/ossplay/ossplay_decode.c:752-778 | the same for Creative ADPCM |
| AdpcmStream.Decoder.DecodeFib | cmd/ossplay/ossplay_decode.c:780-802 | the same for the delta codes |
| AdpcmStream.Play | cmd/ossplay/ossplay.c:1079-1143 | for every sequence of read sizes and every block size what is written is one decoding of all that was read, all of the sound when no read fails |
| Weave.SlotOf | cmd/ossplay/ossplay_decode.c:1050-1050 | every place in a buffer of several channels is that of exactly one sample of one channel |
| ImaDecoder.DecodeIma | cmd/ossplay/ossplay_decode.c:1004-1057 | four bits a sample: the samples go to their channel's places and nowhere else |
| ImaDecoder.DecodeIma3 | cmd/ossplay/ossplay_decode.c:1059-1115 | three bits a sample: likewise, for every length; one or two bytes left over are not looked at |
| BlockLaws.ByteOfCodes | cmd/ossplay/ossplay_decode.c:1036-1036 | a byte is made of its two codes, of IMA the low half first, of the delta codes the high half |
| BlockLaws.TripleOfCodes | cmd/ossplay/ossplay_decode.c:1089-1094 | three bytes are made of their eight codes of three bits |
| BlockLaws.MacHeaderBack | cmd/ossplay/ossplay_decode.c:1131-1133 | the predictor and index written into a packet's header are read back |
| BlockLaws.MsHeaderBack | cmd/ossplay/ossplay_decode.c:1156-1171 | the same for the header of a Microsoft block |
| Rounds.Finished | cmd/ossplay/ossplay_decode.c:1118-1145 | after complete rounds the output is the channels' streams side by side, every sample once |
| ImaBlocks.DecodeMacIma | cmd/ossplay/ossplay_decode.c:1118-1145 | for every number of channels and every length, also cut short, writes stay inside the output and sample s is sample s / c of channel s % c |
| MsIma.DecodeMsIma | cmd/ossplay/ossplay_decode.c:1147-1214 | the same for both Microsoft layouts, for every block size, length and number of channels, with the first samples from the headers; only headers are read outside the block, exactly when the last one ends there |
| MsIma.HeadersInside | cmd/ossplay/ossplay_decode.c:1156-1171 | headers are read inside the block if and only if the last one wanted ends in it; of a block read in full, if and only if its size is a multiple of four, one less, or reaches behind the third byte of the last header |
| ImaBlocks.MsOneDecoding | cmd/ossplay/ossplay_decode.c:1175-1212 | a channel's stream is its first sample and one decoding of all its codes, as if there were no rounds |
| MsAdpcm.DecodeMsAdpcm | cmd/ossplay/ossplay_decode.c:804-888 | for every header and length the player plays every sample of a whole block, and of one cut short as many as there are half bytes, with those of one byte more; it reads inside the block if and only if the headers fit and the block is cut short or holds all its samples |
| MsAdpcm.PlayerReadsInside | cmd/ossplay/ossplay_decode.c:864-888 | that condition, for the number of samples played |
| MsAdpcm.PlayerReadsOutside | cmd/ossplay/ossplay_decode.c:864-888 | a block of 256 bytes that claims 501 samples is read one byte too far |
| MsAdpcm.PlayerWritesInside | cmd/ossplay/ossplay_decode.c:804-888 | what is written stays inside the output if and only if there is a byte for every channel |
| MsAdpcmLaws.GoesOn | cmd/ossplay/ossplay_decode.c:867-885 | half byte 0 with the pair (256, 0) repeats the last sample, with (0, 256) the one before, with (512, -256) continues the straight line |
| MsAdpcmLaws.MsReaches | cmd/ossplay/ossplay_decode.c:867-885 | every 16-bit target from 8 deltas below to 7 above what half byte 0 gives is reached to within half a delta |
| MsAdpcmLaws.DeltaAdapts | cmd/ossplay/ossplay_decode.c:811-881 | the table holds whole tenths of 256, and the delta is multiplied by them, never below 16 |
| MsAdpcm.UncompressBlock | cmd/osstest/wavedata.c:106-171 | the other decoder plays the same samples of a block at its volume, cut to 16 bits |
| MsAdpcm.UncompressWave | cmd/osstest/wavedata.c:98-176 | all blocks but the last, one behind the other |
| MsAdpcm.DecodeBoth | cmd/osstest/wavedata.c:98-183 | both decoders at work on the same well-formed block, one at full volume: equal 16-bit samples, max(2, wSamplesPerBlock) a channel |
| MsAdpcm.BothPlayTheSame | cmd/osstest/wavedata.c:121-183 | the player plays all samples of such a block, and full volume leaves them as they are |
| MsAdpcm.SampleIs16Bit | cmd/ossplay/ossplay_decode.c:820-830 | every sample is a 16-bit number |

## Left out

- Sockets, `select`, `ioctl`, signals, memory and its exhaustion, and everything that prints.
- Remote mixer: byte swapping for an alien host, partial reads, enumerations and descriptions beyond their
  sizes, and what is stored of a reply that was taken for another one.
- MidiTimecode.TimeFollowsMaster: drop-frame time code is not covered, because the code
  counts 29 frames to its second.
- SequencerRoundTrip.ChannelEventsSurvive: pitch bend and 14-bit controllers are not covered, because the
  parser reports them in another form.
- Sequencer.BufferingIsInvisible: 4-byte events are not covered, because the dump drops what follows them.
- MixerView.FoldIsCache: does not claim that leaves are in the fold that became leaves after the last snapshot
  of their mixer, because no packet has told of them yet.
- MixerClient.RemoteMixer.NextPacket: what of a payload fits the caller's buffer is not modelled.
- MixerStored.OpenStoresSnapshot: says nothing of runs in which an open call was told "0 nodes", because there
  the call takes another reply for its snapshot.
- ChunkReader.FormReader.WaveFmtParse: block alignment, samples per block and coefficients are not parsed.
- The fmt chunk's coefficients for ADPCM are parameters of the decoders, not read from the file.
- WAVE and AIFF: texts in chunks are read and ignored; AIFC, 8SVX, 16SV and MAUD files are not covered.
- CafWalker.CafFileRoundTrip: the CAF walk is modelled on values, with a bound on the headers looked at,
  because offsets wrap and the walk need not end; on recorded files three headers are enough.
- Ogg, VOC and W64 files, seeking, 24-bit, float and double samples, mu-law and A-law tables, resampling.
- `AiffHeader.num_frames`: written as the original writes it, but the player does not read it.
- The GTK mixer, the command line tools, libsalsa and the kernel.
