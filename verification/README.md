# Verified model of the go-core-lab toolchain

Five linked parts of the toolchain are modelled here and proved correct: the
concurrent ingestion pipeline, the serial frame reader, the PCAP writer and
reader, the FLX container with its constant pool and disassembler, and the
packet dissector with its filter, together with the ELF table readers. The
parts share bytes, packets and events, and the last modules, `Pipeline` and
`Accounts`, join them: from raw frames through any schedule of the engine to a
recording and to counters, and through a second engine to a second recording.

`dafny verify dfyconfig.toml` checks everything. Nothing here executes the
original program.

## How the model is laid out

| module | models |
|---|---|
| `Prelude`, `Bytes`, `Clock`, `Streams`, `Permutations` | options, byte order and fixed-width fields, instants, reading fixed amounts from a stream, sums over sequences in any order |
| `Engine` | the pipeline engine as a labelled transition system: source, dispatcher, workers, sinks with locks and files, and a caller of `Stop`; one label is one atomic action of one goroutine |
| `EngineFlow`, `EngineSinks`, `EngineRuns` | the inductive invariants over every interleaving |
| `EngineTheorems`, `EngineLogs`, `EngineLiveness`, `EngineCompletion`, `RecordReplay` | conservation, shutdown, what sinks have seen, deadlock freedom, termination, runs to completion, recordings |
| `Stats`, `StatsCounters`, `StatsExtremes`, `StatsSink` | the statistics sink as atomic actions of any number of concurrent calls, and as the class whose methods perform them while other calls go on |
| `RingBuffer` | the ring buffer sink as a class over an array |
| `Framing`, `Overflow`, `Resuming`, `FrameReader` | the incremental frame reader against a one-pass automaton, across failed reads, and as a class over a Go slice |
| `Pcap` | PCAP layout, decoding, and the writer and reader classes |
| `Disasm`, `Pool`, `Container` | bytecode listing, constant pool, container |
| `Packets`, `Dissector`, `DissectorTheorems`, `Serialise`, `Subnets`, `Filter` | packets, dissection, its inverse, and filtering |
| `Elf`, `ElfTheorems`, `ElfAnswers`, `ElfImages` | ELF headers, tables and names in four encodings, what is answered on arbitrary bytes, and files laid out in each encoding |
| `Workers`, `Tallies`, `Pipeline`, `Accounts` | workers as dissection and filtering; the counters an event's bytes belong to; end-to-end statements on recordings and on counters |

Reading aids. A run is a list of labels, each enabled in the state the ones
before it lead to, so a theorem about `After(Init(c), ls)` for every run `ls`
speaks of every reachable state of every interleaving. Imperative code is a
method or a class whose contract equates it with a function on values, and the
theorems are about that function. Clocks are never read: instants and
latencies are given.

Where code and comments disagree the code is followed: the FLX header is 36
bytes (internal/binary/flx/container.go:20 says 32), a serial frame may be up
to four times the configured maximum because only that is enforced
(internal/hw/serial.go:97), the UDP length field never shortens a payload
(internal/net/dissect.go:189-202), and a boolean constant may be stored as any
byte (internal/binary/flx/pool.go:21 says 0 or 1).

Properties that fail of the code are stated with their exact condition. A
dissection takes a slice with crossed bounds if and only if an IPv4 total
length is smaller than the header (`DissectorTheorems.PanicsExactly`, with
`DissectorTheorems.EmptyPacketPanics` as an instance), so some schedule of the
engine crashes if and only if the source holds such a frame
(`Workers.CrashesExactly`). The serial reader loses frames if and only if its
overflow guard drops a byte of one (`Overflow.StreamingExactly`, with
`Framing.OverflowLosesBytes` as an instance). PCAP times survive if and only if
their seconds fit 32 bits (`Pcap.RoundTripExact`, with `Pcap.LateSecondsWrap`
as an instance). Encoding a decoded constant pool again gives its bytes back if
and only if every boolean was stored as 0 or 1 (`Pool.PoolConsumes`, with
`Pool.OtherTrue` as an instance).

## Model

| member | source | states |
|---|---|---|
| Engine.Normalised | internal/pipeline/engine.go:57-66 | sizes come out positive: as given when positive, otherwise the CPU count, 1024 queue slots and 256 ring buffer slots |
| EngineRuns.InvStep | internal/pipeline/engine.go:91-226 | every action of every goroutine, in any reachable order, keeps the whole invariant |
| EngineRuns.Reachable | internal/pipeline/engine.go:91-226 | the invariant holds after every run |
| EngineTheorems.Conservation | internal/pipeline/engine.go:115-186 | each received event is in exactly one place: held, queued, with one worker, filtered, broadcast, dropped or abandoned; unreceived ones are nowhere |
| EngineTheorems.Account | internal/pipeline/engine.go:115-186 | the numbers add up in every reachable state, and at the end received = filtered + broadcast + dropped + abandoned |
| EngineLogs.LogsFaithful | internal/pipeline/engine.go:145-197 | every event any sink has seen was received from the source, was to be kept, and carries what processing attaches |
| EngineTheorems.Losses | internal/pipeline/engine.go:127-139 | the drop counter counts the drops, blocking mode drops nothing, and at most one event is abandoned, only in blocking mode after cancellation |
| EngineTheorems.QueueDiscipline | internal/pipeline/engine.go:118-148 | the queue never exceeds its size, is first-in first-out in source order, and at most one event a worker is unfinished; when blocking, what was enqueued is a prefix of the source |
| EngineTheorems.SourceOrder | internal/pipeline/engine.go:145-197 | with one worker every sink sees events in source order |
| EngineTheorems.NoSendAfterClose | internal/pipeline/engine.go:115-142 | no send on, and no second close of, the closed channel |
| EngineTheorems.WaitMeansDrained | internal/pipeline/engine.go:115-148 | when the wait group is done the dispatcher, which is not in it, has finished, the channel is closed and empty, every accepted event was filtered or broadcast and has reached every sink of its snapshot |
| EngineTheorems.NoCallAfterSinkClose | internal/pipeline/engine.go:189-226 | once any sink is closed no worker can take a step, so no `OnEvent` follows a `Close` |
| EngineTheorems.StopClosesAll | internal/pipeline/engine.go:205-226 | when `Stop` returns the workers are done and every sink then registered is closed |
| EngineTheorems.Frozen | internal/pipeline/engine.go:205-226 | after the workers are done nothing changes drops, broadcasts, logs or recordings |
| EngineTheorems.CrashHasCause | internal/pipeline/engine.go:145-168 | the process goes down only by a source event whose processing panics |
| EngineTheorems.Outcome | internal/pipeline/engine.go:115-186 | with the workers done, in either mode, cancelled or not: the received events to be kept are those broadcast and those lost, counted |
| EngineTheorems.LosslessOutcome | internal/pipeline/engine.go:115-186 | a run that lost nothing has broadcast exactly the events to be kept, each once, under any schedule |
| EngineTheorems.BlockingIsLossless | internal/pipeline/engine.go:134-139 | blocking mode with the source exhausted before cancellation loses nothing, however the run goes on |
| EngineLiveness.NoDeadlock | internal/pipeline/engine.go:118-148 | until the workers are done the source, dispatcher or a worker can step without giving an event up; after that `Stop` can |
| EngineLiveness.LeftStep | internal/pipeline/engine.go:115-226 | the remaining work decreases with every step |
| EngineLiveness.Terminates | internal/pipeline/sources.go:172-197 | every run on a finite source is bounded in length by source size, workers and sinks |
| EngineCompletion.Completes | internal/pipeline/engine.go:115-186 | from every reachable state steps of source, dispatcher and workers alone lead to the end, giving nothing up |
| EngineCompletion.CompletedRun | internal/pipeline/engine.go:115-186 | in either mode, when no event panics, a whole run without cancellation or loss exists |
| EngineCompletion.CrashesExactly | internal/pipeline/engine.go:145-168 | some schedule takes the process down if and only if processing panics on some event of the source |
| EngineSinks.FilesStep | internal/pipeline/sinks.go:49-71 | whatever interleaves, a recording is its header and whole records, plus the unfinished record of the one lock holder |
| EngineSinks.DeliveriesStep | internal/pipeline/engine.go:189-197 | each broadcast reaches each sink of its snapshot exactly once |
| RecordReplay.ReadableAnyTime | internal/pipeline/sinks.go:49-58 | at every moment of every run a recording reads back as the packets whose calls took effect, in order |
| RecordReplay.Replay | internal/pipeline/engine.go:189-226 | with the workers done, in either mode and wherever cancelled, a recording reads back as exactly the multiset of broadcast network events that are not empty, floored to the microsecond |
| RecordReplay.ReplayLosses | internal/pipeline/engine.go:127-139 | the recording and what was dropped or abandoned make up a recording of all received events to be kept |
| RecordReplay.LosslessReplay | internal/pipeline/engine.go:189-226 | a run that lost nothing records exactly the events to be kept, the same collection for every schedule |
| StatsCounters.ProgramAmount | internal/pipeline/sinks.go:195-260 | what one call adds to each of the thirteen counters, given counter by counter: one to `TCPCount` exactly for an event that is not serial and has a packet with a TCP header, and so on |
| StatsCounters.Ledger | internal/pipeline/sinks.go:195-260 | at every moment processed = serial + TCP + UDP + ICMP + other + calls in flight |
| StatsCounters.LayerLedger | internal/pipeline/sinks.go:236-258 | IPv4 + IPv6 + ARP + serial never exceed processed, and transport packets never exceed IP ones when the calls are layered, as `Accounts.EngineLedger` shows the engine's to be |
| StatsCounters.AtRest | internal/pipeline/sinks.go:195-260 | when all calls have returned each counter is the sum due to it, at 64 bits |
| StatsCounters.SnapshotsMonotone | internal/pipeline/sinks.go:293-312 | a later load of a counter is never below an earlier one before it exceeds 64 bits |
| StatsExtremes.MinMaxCorrect | internal/pipeline/sinks.go:204-229 | minimum and maximum are those of the completed updates, zero meaning none, under any interleaving of the swap loops |
| StatsExtremes.Monotone | internal/pipeline/sinks.go:211-229 | once set the minimum only falls; the maximum only rises |
| StatsExtremes.RetriesBounded | internal/pipeline/sinks.go:211-229 | failed swaps are paid for by successful ones, so n calls take at most n(4n + 13) steps |
| StatsExtremes.AverageInRange | internal/pipeline/sinks.go:314-322 | the average latency lies between minimum and maximum at rest |
| StatsSink.StatsSink.OnEvent | internal/pipeline/sinks.go:195-260 | with any steps of other calls between its accesses, the body performs exactly the call's program of atomic actions, as a run of the transition system, ends with its latency between the extremes, and has added to each counter what is due to it; undisturbed, each counter is its old value plus that, at 64 bits |
| StatsSink.StatsSink.LowerSwap | internal/pipeline/sinks.go:216-218 | a swap that fails has been overtaken by steps of another call since the load |
| StatsSink.StatsSink.LowerLoop | internal/pipeline/sinks.go:211-219 | under interference the loop ends, having done one minimum update, and the word is then set and no higher than the latency |
| StatsSink.StatsSink.RaiseLoop | internal/pipeline/sinks.go:221-229 | the same for the maximum |
| StatsSink.StatsSink.RecordDrop | internal/pipeline/sinks.go:263-265 | one more drop, at 64 bits |
| StatsSink.StatsSink.TakeSnapshot | internal/pipeline/sinks.go:293-344 | while calls go on, each value is its word's at some moment during the snapshot, processed exceeds the categories by at most the calls in flight at the first load, and at rest all of it is exact with the average between the extremes |
| StatsSink.SnapshotsRise | internal/pipeline/sinks.go:293-312 | below 64 bits a snapshot taken after another shows no less in any counter |
| RingBuffer.RingBufferSink.constructor | internal/pipeline/sinks.go:87-95 | an empty buffer of the given capacity, or 256 |
| RingBuffer.RingBufferSink.OnEvent | internal/pipeline/sinks.go:98-109 | the history grows by the event, the array keeping its newest part across wrap-arounds |
| RingBuffer.RingBufferSink.Last | internal/pipeline/sinks.go:112-132 | exactly the last min(n, stored) events of the history in order |
| RingBuffer.RingBufferSink.Len | internal/pipeline/sinks.go:135-139 | the smaller of history length and capacity |
| Pcap.PcapWriter.constructor | pkg/export/pcap.go:46-62 | the file starts as a global header and no records |
| Pcap.PcapWriter.WritePacket | pkg/export/pcap.go:65-86 | the file becomes the one with the packet's record appended, stamped with the caller's instant, or with the clock when that is the zero time |
| Pcap.NewPcapReader | pkg/export/pcap.go:97-150 | header fields in the byte order and resolution the magic number picks, or the error and how the input was cut |
| Pcap.OpenExactly | pkg/export/pcap.go:97-150 | a file opens exactly when it has 24 bytes and one of four magic numbers; every header field is the bytes at its own offset |
| Pcap.PcapReader.NextPacket | pkg/export/pcap.go:167-191 | the next record or the reason there is none, and what is then unread, which `Pcap.NextExactly` gives byte by byte |
| Pcap.NextExactly | pkg/export/pcap.go:167-191 | on any bytes: a packet exactly when the header and as many bytes as its captured length, bytes 8 to 12, are there; its data, time and the unread rest by position, whatever the original length says |
| Pcap.ReadAll | internal/pipeline/sources.go:49-76 | the replay loop yields the packets and final error of the whole input |
| Pcap.SnappedRoundTrip | pkg/export/pcap.go:167-191 | records whose original length differs from the captured one read back one by one with the bytes captured |
| Pcap.RoundTrip | pkg/export/pcap.go:46-191 | any packets in any byte order and resolution read back as stored, then end of file |
| Pcap.RoundTripExact | pkg/export/pcap.go:65-86 | times come back floored to the tick if and only if every second count fits 32 bits |
| Pcap.LateSecondsWrap | pkg/export/pcap.go:70-75 | a packet stamped at second 2^32 comes back at second 0 |
| Pcap.Rerecord | pkg/export/pcap.go:65-191 | recording what was read reproduces the file |
| Pcap.PrefixSafety | pkg/export/pcap.go:167-191 | a file cut anywhere after its global header yields exactly the records it still holds whole |
| Pcap.WholeIsMaximal | pkg/export/pcap.go:167-191 | that number of records is the largest that fits |
| Framing.IndexByte | internal/hw/serial.go:117-133 | first position of a byte, or -1 when absent |
| Framing.TrimCR | internal/hw/serial.go:120-120 | every trailing carriage return goes and nothing else |
| Framing.ExtractScan | internal/hw/serial.go:114-159 | one extraction takes the automaton's first frame, or trims only bytes the automaton skipped |
| Framing.DrainBounded | internal/hw/serial.go:94-100 | every frame, guard or not, is well formed and at most max(4 * MaxFrameSize, 512) long |
| Framing.StreamingEqualsBatch | internal/hw/serial.go:82-159 | when no unfinished frame plus a chunk exceeds four maximal frames, repeated reads yield the automaton's frames |
| Framing.ChunkingIrrelevant | internal/hw/serial.go:82-111 | two ways of cutting one stream of short frames into reads give the same frames |
| Framing.OverflowLosesBytes | internal/hw/serial.go:97-100 | a concrete line that the guard cuts in half |
| Overflow.StreamingExactly | internal/hw/serial.go:82-159 | frames equal the automaton's if, and with distinct delimiters only if, every firing of the guard drops no byte of a frame |
| Overflow.MonitorExactly | internal/hw/serial.go:82-159 | the same for a reader starting empty |
| Overflow.CalmIsHarmless | internal/hw/serial.go:97-100 | short unfinished frames never wake the guard |
| Overflow.OutOfStepAgrees | internal/hw/serial.go:128-151 | with one byte for both delimiters frames can agree although bytes of one were dropped |
| Resuming.CallExactly | internal/hw/serial.go:82-111 | one call on a calm stream whose reads may fail anywhere: it uses reads up to the first that fails or completes a frame, returns the first frame or that failure, and leaves exactly the frames that come after |
| Resuming.CallsConserve | internal/hw/serial.go:82-111 | after any number of calls, errors among them, the frames returned are the first ones of the stream and what is left holds exactly the others |
| Resuming.AllHandedOut | internal/hw/serial.go:102-110 | calls that go on until the end of the file have returned every frame of the stream |
| FrameReader.FrameReader.constructor | internal/hw/serial.go:70-79 | a non-positive maximum means 4096; nothing buffered or issued |
| FrameReader.FrameReader.Append | internal/hw/serial.go:93-94 | the buffer grows by the chunk in place or in a fresh array, and no issued slice changes |
| FrameReader.FrameReader.Fill | internal/hw/serial.go:93-101 | append and guard, within the bound, all issued slices intact |
| FrameReader.FrameReader.Take | internal/hw/serial.go:119-130 | a frame whose windows show the raw bytes and payload, next number, earlier slices intact |
| FrameReader.FrameReader.TryLine | internal/hw/serial.go:116-130 | newline extraction on the slice is the extraction on its bytes |
| FrameReader.FrameReader.TrySync | internal/hw/serial.go:132-155 | start/end byte extraction on the slice, noise dropped, `[:0]` reset included |
| FrameReader.FrameReader.TryExtractFrame | internal/hw/serial.go:114-159 | dispatch on the mode |
| FrameReader.FrameReader.GiveUp | internal/hw/serial.go:102-110 | the last attempt at end of file, or the error |
| FrameReader.FrameReader.ReadNextFrame | internal/hw/serial.go:82-111 | result, buffer and remaining stream are those of the function on sequences; every slice issued before still shows its bytes |
| FrameReader.FrameReader.DrainAll | internal/hw/serial.go:192-206 | the monitor's loop returns the drained frames, numbered on at 32 bits, all still intact at the end, with their places in the stream on record |
| FrameReader.FrameReader.RecordedInOrder | internal/hw/serial.go:94-159 | frames on record are disjoint substrings of the stream, in order |
| FrameReader.Monitor | internal/hw/serial.go:179-211 | any input: frames are disjoint, in-order substrings of it, intact and within the guard's bound; a stream of short frames: exactly the automaton's frames, numbered from 1, whatever the chunks |
| Disasm.DecodeAt | internal/binary/flx/disasm.go:141-219 | one instruction with offset, bytes, operand and annotation, or nothing when its operand is cut off |
| Disasm.Disassemble | internal/binary/flx/disasm.go:137-222 | the listing and the offset of a truncated instruction |
| Disasm.Reassembly | internal/binary/flx/disasm.go:137-222 | re-encoding the listing gives the code up to its end or to the instruction that runs past it |
| Disasm.Offsets | internal/binary/flx/disasm.go:141-218 | each instruction starts where the last ends, shows the bytes there, and says what they say kind by kind: a jump the offset three on plus its signed 16-bit operand, a load the pool entry it indexes or that there is none |
| Disasm.OpcodesExactly | internal/binary/flx/disasm.go:81-124 | the operand kind of each of the 256 opcodes |
| Disasm.Concatenation | internal/binary/flx/disasm.go:137-222 | code that decodes fully followed by any other lists as both, the second moved with its jump targets |
| Disasm.AssembleThenDisassemble | internal/binary/flx/disasm.go:137-222 | assembling any program and disassembling it gives it back |
| Pool.ReadValue | internal/binary/flx/pool.go:129-173 | one constant of each tag, or which read failed and how |
| Pool.ValueExactly | internal/binary/flx/pool.go:129-173 | on any bytes, tag by tag: the value at its byte positions and what is left, or which read failed |
| Pool.DecodePool | internal/binary/flx/pool.go:124-184 | slots filled in order; after an error the rest stay blank |
| Pool.PoolRoundTrip | internal/binary/flx/pool.go:124-184 | any encodable values come back and exactly their encoding is consumed |
| Pool.PoolConsumes | internal/binary/flx/pool.go:124-184 | from any bytes, success has read as many as the values encode to, and they are that encoding if and only if every boolean was stored as 0 or 1 |
| Pool.OtherTrue | internal/binary/flx/pool.go:165-170 | a boolean stored as 2 reads as true, which is encoded as 1 |
| Pool.PoolCut | internal/binary/flx/pool.go:124-184 | an encoded pool cut anywhere gives the constants before the cut and reports the constant and the read it goes through |
| Container.ReadMetadata | internal/binary/flx/container.go:99-124 | the table loop builds the map pair by pair or reports the pair and part that was cut |
| Container.ParseReader | internal/binary/flx/container.go:77-158 | header, optional sections by seeks, disassembly with the pool, and every error |
| Container.HeaderFields | internal/binary/flx/container.go:20-32 | each field of the header is the bytes at its own offset |
| Container.HeaderRefused | internal/binary/flx/container.go:83-93 | refused for the header exactly when fewer than 36 bytes are there or the first four are not the magic number |
| Container.MetadataCut | internal/binary/flx/container.go:99-124 | a metadata table cut anywhere is refused with the pair and the part that is not whole |
| Container.ParsedListing | internal/binary/flx/container.go:126-158 | of any file that parses, the code is the bytes the header points at and the listing is all of it, each instruction saying what its bytes say with the file's own pool |
| Container.HeaderRoundTrip | internal/binary/flx/container.go:20-32 | a 36-byte header decodes to its fields |
| Container.HeaderExact | internal/binary/flx/container.go:83-93 | any 36 bytes with the magic number are the encoding of the header read from them |
| Container.LastWins | internal/binary/flx/container.go:122-122 | a key maps to the value of its last pair |
| Container.LayoutIndependent | internal/binary/flx/container.go:77-158 | metadata, pool and code are recovered from any offsets, in any order, with any gaps |
| Dissector.PacketRecord.constructor | internal/net/dissect.go:24-32 | a packet with only its link layer |
| Dissector.PacketRecord.DissectL4 | internal/net/dissect.go:161-221 | transport header and payload, with the fallback of an impossible TCP offset to 20 |
| Dissector.PacketRecord.DissectIPv4 | internal/net/dissect.go:59-102 | the IPv4 layer, its three errors and its one panic |
| Dissector.PacketRecord.DissectIPv6 | internal/net/dissect.go:104-137 | the IPv6 layer with the payload cut to its length |
| Dissector.PacketRecord.DissectARP | internal/net/dissect.go:139-159 | the ARP layer |
| Dissector.DissectWithTimestamp | internal/net/dissect.go:19-57 | dispatch on the EtherType |
| DissectorTheorems.PanicsExactly | internal/net/dissect.go:87-99 | slicing goes out of range if and only if the total length is under the header length |
| DissectorTheorems.EmptyPacketPanics | internal/net/dissect.go:87-99 | a 34-byte frame with total length 0 does it |
| DissectorTheorems.OutcomeExactly | internal/net/dissect.go:19-159 | how the dissection of any frame ends, each error with its number, by positions in the frame; link addresses at their places; on errors no other layer and the bytes behind the link header for payload |
| DissectorTheorems.AlwaysLayered | internal/net/dissect.go:19-221 | at most one network and one transport layer, the latter only under IP, even on errors |
| DissectorTheorems.PayloadTiles | internal/net/dissect.go:87-221 | the payload is the frame from after the headers to the end the network layer gives |
| Serialise.SegmentInverse | internal/net/dissect.go:161-221 | TCP, UDP and ICMP segments come back field for field |
| Serialise.IPv4FrameInverse | internal/net/dissect.go:59-102 | an IPv4 frame with any header options and trailer comes back field for field |
| Serialise.IPv6FrameInverse | internal/net/dissect.go:104-137 | the same for IPv6 |
| Serialise.ARPFrameInverse | internal/net/dissect.go:139-159 | the same for ARP |
| Subnets.EqualIsCanonical | internal/net/filter.go:129-147 | host comparison takes both forms of an IPv4 address as one |
| Subnets.ContainsIsPrefix | internal/net/filter.go:149-164 | the byte-wise mask test is agreement on the leading bits |
| Subnets.NestedSubnets | internal/net/filter.go:149-164 | what a subnet contains every network around it contains |
| Filter.ContainsIP | internal/net/filter.go:149-164 | the loop over mask bytes |
| Filter.MatchesPorts | internal/net/filter.go:96-127 | the three port criteria |
| Filter.MatchesHosts | internal/net/filter.go:129-164 | the host and subnet criteria |
| Filter.Matches | internal/net/filter.go:59-167 | true for missing or empty filters, otherwise exactly when all criteria accept |
| Filter.MatchesRaw | internal/net/filter.go:59-167 | on a frame that dissects, matching is the filter's criteria read off the raw bytes: protocol numbers, EtherTypes, ports and addresses at computed offsets, leading bits of a network |
| Filter.PayloadExactly | internal/net/dissect.go:87-221 | the payload of a frame that dissects, by positions in the frame, with a TCP header as long as it claims unless the claim is impossible |
| Filter.NarrowingShrinks | internal/net/filter.go:59-167 | adding a criterion, or taking a part of a network, never enlarges the match set |
| Elf.ExtractNullString | internal/binary/elf.go:326-335 | the bytes up to the first zero or the end, nothing past the end |
| Elf.ParseSegments | internal/binary/elf_segments.go:107-163 | the program header table in either class and byte order |
| Elf.ParseSections | internal/binary/elf.go:248-323 | the section header table with names resolved |
| Elf.ResolveNames | internal/binary/elf.go:306-320 | names assigned from the designated string table, or left alone |
| Elf.ParseSymbolTable | internal/binary/elf_symbols.go:144-247 | the symbols with names and places, or failure |
| Elf.ParseELFReader | internal/binary/elf.go:164-245 | identification, header, tables, and the last readable symbol tables |
| ElfTheorems.HeaderRecovered | internal/binary/elf.go:164-214 | a header of either class and byte order reads back from 64 bytes |
| ElfTheorems.SegmentsRecovered | internal/binary/elf_segments.go:107-163 | an encoded segment table comes back, flags in the place of its class |
| ElfTheorems.SectionsRecovered | internal/binary/elf.go:248-323 | an encoded section table comes back with its names, or nameless when the header designates no string table |
| ElfTheorems.SymbolsRecovered | internal/binary/elf_symbols.go:144-268 | an encoded symbol table comes back with names and bindings, each symbol placed by its own section index |
| ElfTheorems.ParsedPlaced | internal/binary/elf_symbols.go:250-268 | in any file that parses each symbol is undefined, absolute or common exactly for indices 0, 0xFFF1 and 0xFFF2, in the section of that very index when it is there and named, and under its number otherwise |
| ElfTheorems.TableRecovered | internal/binary/elf.go:225-241 | the last table of a kind is reported, and nothing when there is none |
| ElfTheorems.NameRecovered | internal/binary/elf.go:326-335 | a zero-terminated string at an offset is what is extracted there |
| ElfTheorems.BuiltTable | internal/binary/elf.go:326-335 | in a table built from names each is found at its offset |
| ElfTheorems.FileRecovered | internal/binary/elf.go:164-245 | a file holding a header and the given tables parses to exactly those, in any class, byte order and layout; segments, sections and either symbol table may be missing |
| ElfTheorems.EncodingIrrelevant | internal/binary/elf.go:164-335 | two files of any two of the four encodings, 32-bit and 64-bit among them, that hold the same tables parse to equal segments, symbols and dynamic symbols, and to sections equal up to offset, size and entry size |
| ElfAnswers.AnsweredExactly | internal/binary/elf.go:164-223 | any bytes are parsed, or refused for the first of six reasons in order: short, magic number, class, byte order, program headers or section headers not there |
| ElfAnswers.SectionsNamed | internal/binary/elf.go:306-335 | section names are the strings at their offsets in the designated table of type 3; without a readable one all sections are nameless |
| ElfAnswers.TableExactly | internal/binary/elf_symbols.go:144-247 | a symbol table is read exactly when its entries are in the file; names come from the linked table, missing bytes of which count as zero |
| ElfAnswers.TablesExactly | internal/binary/elf.go:225-241 | the symbols are those of the last readable section of type 2, the dynamic ones of type 11 |
| ElfImages.FourEncodings | internal/binary/elf.go:164-335 | any segments, symbols and names that fit 32-bit entries, laid out in any two encodings, parse back to themselves both times |
| Workers.Process | internal/pipeline/engine.go:148-183 | it panics exactly on a frame with its length under its header length, keeps exactly the other events whose bytes meet the filter, and attaches the dissected packet, none under 14 bytes, with an error exactly when the frame does not dissect, the bytes of a serial event, or nothing |
| Workers.LogsAttached | internal/pipeline/engine.go:145-197 | in every reachable state every event any sink has seen was sent by the source, meets the filter and carries what belongs to its bytes |
| Workers.CrashesExactly | internal/pipeline/engine.go:145-186 | some schedule crashes if and only if some network frame of the source has an IPv4 length under its header length |
| Pipeline.RecordedFrames | internal/pipeline/engine.go:160-168 | with the workers done, in either mode, the recording and what was lost read as exactly the received frames whose raw bytes meet the filter |
| Pipeline.LosslessFrames | internal/pipeline/engine.go:160-168 | a run that lost nothing records exactly the frames that meet the filter, for every schedule |
| Pipeline.ReplayedRecording | internal/pipeline/sources.go:35-88 | replaying a recording through any other engine with the same filter that loses nothing records the same packets, whatever the first engine lost |
| Pipeline.ReplayRuns | internal/pipeline/sources.go:35-88 | no frame of a recording takes a second engine down, and a whole run of it without loss exists |
| Accounts.CountedLayered | internal/pipeline/sinks.go:240-258 | every event the statistics sink has seen or is being called with is layered |
| Accounts.EngineLedger | internal/pipeline/sinks.go:236-258 | for the engine's own calls, at every moment, TCP + UDP + ICMP <= IPv4 + IPv6 and network layers + serial <= processed |
| Tallies.DueIsWorth | internal/pipeline/sinks.go:231-258 | each counter gets from a broadcast event what its kind and raw bytes call for: TCP exactly when the frame dissects and carries 20 bytes of protocol 6, IPv4 by EtherType, an error when it does not dissect |
| Accounts.FinalTallies | internal/pipeline/sinks.go:195-260 | at the end each counter is the number of broadcast events of its kind, read off their bytes, and the byte total their length at 64 bits |
| Accounts.TalliesOfInput | internal/pipeline/sinks.go:195-260 | the counters and what was lost make up the tally of the received events that meet the filter; with nothing lost, the tally of the whole source, for every schedule |
| Accounts.FinalAccount | internal/pipeline/sinks.go:195-260 | at the end processed = broadcast = serial + TCP + UDP + ICMP + other, each counter is the tally of the broadcast events by their bytes, and received = processed + filtered + dropped + abandoned |

## Left out

- Engine and Stats: step relations over values, because the interleaving is the point; goroutine scheduling fairness, memory reordering below the atomic actions and the race detector's view are not modelled. `StatsSink` also gives the class, other calls' steps between its accesses being an input.
- Engine: `Stop` is called at most once and after `Start`; an instance may be registered as a sink only once; sinks other than statistics, ring buffer and recording only log their calls.
- Engine: a failing file write, a full disk and errors of `OnEvent` or `Close` are not modelled; every write succeeds.
- Engine: the event counter of a source is kept below 2^64 and events carry a non-zero timestamp, as all three sources give them.
- StatsSink.StatsSink.TakeSnapshot: rates and elapsed time are floating point over the wall clock and left out; drops are counted by the dispatcher alone, and the schedule does not interleave them.
- Framing.StreamingEqualsBatch: it compares whole runs whose reads end at the end of the file; runs with failed reads are the subject of `Resuming`.
- Resuming.CallsConserve: for streams that keep the overflow guard asleep; what the guard drops is the subject of `Overflow`.
- Overflow.StreamingExactly: the only-if half needs distinct delimiters; `Overflow.OutOfStepAgrees` shows why.
- FrameReader: `DelimiterLengthPrefixed` has no case in the source and none here; frame timestamps come from the clock.
- Disasm: mnemonics and the text of annotations; the values they are formatted from are kept. No opcode of the table has a plain 16-bit operand, so results are stated for any table.
- Pool: floating-point values stay bit patterns; `Format`, `String` and `TagName` are display code.
- Container and Elf: allocation limits for huge declared sizes, memory mapping and file paths.
- Filter: parsing of addresses and networks from text; an address or address and prefix length is given. Protocol names are compared as given, already trimmed and lower case.
- Dissector: checksums are carried and never computed, as in the source.
- Elf: names of types, flags and bindings, and the printing methods.
- Serial source: the goroutine that wraps each frame in an event (`internal/pipeline/sources.go:122-147`) is not a member of its own; `FrameReader.Monitor` yields the frames and the engine numbers what a source sends.
- JSONL sink and writer, dashboard, hex dumps, raw sockets, bus and memory-mapped devices, `pkg/pool`, the command-line programs and the teaching code.
