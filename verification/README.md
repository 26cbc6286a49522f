# cppz-midi-player sequencing core in Dafny

A model of the sequencing core of `main.cpp` in the cppz-midi-player. The player loads a Standard MIDI File into per-track byte buffers and plays it back. Every track has a cursor that decodes delta times (variable-length quantities) and events with running status. The playback loop drains every track that is due at the global tick, hands channel messages to the synthesizer and handles meta events. It then moves the global tick forward to the earliest pending event.

The model is written as pure functions over immutable values:

- **`Bytes`** (`bytes.dfy`): bytes are `bv8`. It models the `ntohl`/`ntohs` macros. It also models the loader's word reads: bytes loaded into a little-endian word, then byte-swapped.
- **`Vlq`** (`vlq.dfy`): `Track::decode_variable_length`, plus a reference encoder it is proved against.
- **`Tracks`** (`tracks.dfy`): the `Track` class. `update_tick`, `update_command` and `update_message` are functions from the track before the call to the track after it. Registers keep their C widths: `message` and `temp` are `bv32`.
- **`Events`** (`events.dfy`): MIDI events as values and their byte form in a track chunk. Every event stored with its status byte is proved to be read back. A channel event stored without one keeps the running status and ORs its data bytes onto the previous word.
- **`Player`** (`player.dfy`): `process_meta_event`, and the dispatch and merge phases of `MIDIPlayer::play` without the wall-clock pacing. The output sink is a sequence of sent words, each stamped with its event's tick.
- **`Loader`** (`loader.dfy`): `MIDIPlayer::load_file` on the bytes of a file. It is proved against a reference file writer.
- **`Playback`** (`playback.dfy`): files written from (delta time, event) pairs, loaded and played. Every track sends exactly the packed words of its channel events, in file order, each at the sum of the delta times up to it.

Integer widths are explicit:

- The track tick is a C `int`. It is kept below 2^31 by precondition, because signed overflow is undefined in C.
- The global tick and `delta_tick` are `uint64_t` and wrap modulo 2^64 (`AddU64`, `TickDistance`).
- `track.tick - tick` converts the `int` to `uint64_t` before subtracting.

The source never checks a read against the end of a buffer or of the file. Such reads are excluded by preconditions (`HasVlq`, `MessageInBounds`, `CanStep`, `Playable`, `ChunksInBounds`, `LoadReadsInBounds`); the model does not add error results the code does not have.

Where the code departs from what the Standard MIDI File format leads one to expect, the model follows the code:

- A chunk with a tag other than `MTrk` is skipped by its 4 tag bytes only, not by its declared length. The next pass reads its tag from the foreign chunk's length word (`Loader.ForeignChunkHidesTrack`).
- Under running status the data bytes are OR-ed onto the previous event's word (`message |= temp`). They do not replace it, so a second Note-On in running status can carry the wrong key and velocity (`Events.RunningStatusOrExample`).
- A track is active while its buffer is non-empty, not while unread bytes remain. Only End of Track (meta type 0x2F) empties a buffer.
- A file that ends early is not reported as a load error. The read would simply fail, so the model states truncation as a precondition.
- When every track pushed in a round ran out during that round, `delta_tick` stays `UINT64_MAX` and the global tick wraps round to one below its value. The model keeps this case rather than excluding it, and the loop stops at the next iteration (`Player.MergeIdle`, `Player.Iterate`).

## Model

| member | source | states |
|---|---|---|
| Bytes.Ntohl | main.cpp:11-13 | the swapped word holds the four bytes of the input in reverse order |
| Bytes.NtohlInvolution | main.cpp:11-13 | swapping a 32-bit word twice gives back the word |
| Bytes.Ntohs | main.cpp:15-17 | the swapped half-word holds the two bytes of the input in reverse order |
| Bytes.NtohsInvolution | main.cpp:15-17 | swapping a 16-bit word twice gives back the word |
| Bytes.ReadU32Value | main.cpp:160-162 | four file bytes read into a little-endian word and passed through `ntohl` give their big-endian value |
| Bytes.ReadU16Value | main.cpp:172-174 | two file bytes read into a little-endian word and passed through `ntohs` give their big-endian value |
| Vlq.DecodeFrom | main.cpp:36-43 | the loop stops just after the first byte below 0x80 and returns the accumulator extended by the seven-bit groups it consumed |
| Vlq.DecodeVariableLength | main.cpp:33-45 | consumes 1 to 4 bytes, up to and including the first byte below 0x80, with every earlier byte at 0x80 or above; returns the big-endian seven-bit accumulation, below 2^28; a single byte below 0x80 decodes to itself |
| Vlq.DecodeEncode | main.cpp:33-45 | decoding the canonical encoding of any quantity below 2^28 gives the quantity back and consumes exactly the encoding, whatever follows it |
| Vlq.DecodeEncodeAt | main.cpp:33-45 | the same round trip at any position of a buffer |
| Vlq.EncodedLength | main.cpp:33-45 | the canonical encoding takes 1, 2, 3 or 4 bytes below 2^7, 2^14, 2^21 and 2^28 |
| Vlq.OneByteValues | main.cpp:33-45 | 0x00 and 0x7F decode to 0 and 127 in one byte |
| Vlq.TwoByteValues | main.cpp:33-45 | 81 00 and FF 7F decode to 128 and 16383 in two bytes |
| Vlq.ThreeByteValue | main.cpp:33-45 | FF FF 7F decodes to 2097151 in three bytes |
| Tracks.NewTrack | main.cpp:22-31 | a new track holds the chunk bytes, with cursor, tick, `message` and `temp` at zero, an empty payload buffer, and the register invariant holding |
| Tracks.UpdateTick | main.cpp:47-50 | the cursor moves past exactly one quantity (1 to 4 bytes ending in the first byte below 0x80), the tick grows by its value and stays an `int`, and nothing else changes |
| Tracks.UpdateCommand | main.cpp:52-62 | an empty track is unchanged; a byte at 0x80 or above becomes `message` and is consumed; a smaller byte leaves cursor and `message` as they were; the register invariant is kept |
| Tracks.ReadPayload | main.cpp:91-93 | the payload buffer holds exactly the bytes the length quantity announces, and the cursor ends just after them |
| Tracks.UpdateMessage | main.cpp:64-104 | an empty track is unchanged; otherwise the status byte of `message` survives the OR, the register invariant is kept, and the cursor only moves forward inside the buffer |
| Tracks.OrKeepsStatus | main.cpp:103 | OR-ing a word with a clear low byte keeps the status byte and the 24-bit width |
| Tracks.ChannelMessageRead | main.cpp:70-86 | status below 0xC0 or in 0xE0-0xEF consumes two data bytes and 0xC0-0xDF one; they land in bits 8-23 of `temp` and are OR-ed into `message`; the payload buffer is untouched |
| Tracks.MetaMessageRead | main.cpp:87-94 | a meta status reads the type byte into bits 8-15 of `temp`, then a length quantity and exactly that many payload bytes; the cursor ends after the payload |
| Tracks.MetaTypeRead | main.cpp:87-103 | after a meta event, bits 8-15 of `message` are the old bits OR the type byte |
| Tracks.SysExMessageRead | main.cpp:95-101 | a SysEx status reads a length quantity and exactly that many payload bytes, with `temp` cleared and `message` unchanged |
| Tracks.UnhandledStatusRead | main.cpp:64-104 | a status 0xF1-0xFE reads nothing and ORs the stale `temp` into `message` again |
| Events.PayloadRoundTrip | main.cpp:91-93 | a length-prefixed payload in a buffer is read back with its exact length, and the payload starts right after the length quantity |
| Events.StatusLoaded | main.cpp:52-62 | at a stored event, `update_command` loads its status byte and leaves the cursor at the event body |
| Events.ChannelDecoded | main.cpp:52-86 | a channel status followed by its data bytes decodes to the status in bits 0-7, the first data byte in bits 8-15 and the second in bits 16-23, consuming the status and the data bytes |
| Events.DecodeEncodedChannel | main.cpp:52-86 | a stored channel event decodes to its packed word and consumes exactly its bytes, whatever `message` held before |
| Events.DecodeEncodedMeta | main.cpp:52-103 | a stored meta event decodes to status 0xFF with its type in bits 8-15, its payload in the buffer, and exactly its bytes consumed |
| Events.DecodeEncodedSysEx | main.cpp:52-103 | a stored SysEx event decodes to status 0xF0 with its payload in the buffer and exactly its bytes consumed |
| Events.DecodeEncodedEvent | main.cpp:52-104 | round trip of the event decoder: every stored event with a status byte is decoded to its packed word and payload, consuming exactly its bytes |
| Events.DecodeRunningStatusEvent | main.cpp:52-103 | a channel event stored without its status byte keeps the running status, consumes only its data bytes, and ORs them onto the data bytes already in `message` |
| Events.RunningStatusOrExample | main.cpp:52-103 | Note-On 3C 40 followed by a running-status pair 3E 00 decodes the second event to word 0x403E90, not 0x003E90 |
| Player.TempoWord | main.cpp:362 | the three payload bytes shifted together are their big-endian value, below 2^24 |
| Player.ProcessMetaEvent | main.cpp:357-374 | type 0x51 sets the tempo to the big-endian value of the first three payload bytes and leaves the track alone; type 0x2F empties the track's buffer and keeps the tempo; every other type changes nothing |
| Player.DefaultTempoPayload | main.cpp:112 | the tempo payload 07 A1 20 sets the initial 500000 microseconds per quarter note |
| Player.Emit | main.cpp:280-290 | a word is sent, stamped with the event's tick, exactly when its status is below 0xF0 |
| Player.NoteOnIncrement | main.cpp:285-289 | the counter grows by the number of Note-Ons sent for the event |
| Player.TempoAfter | main.cpp:291-294 | only a tempo meta event changes the tempo; it becomes the big-endian value of the event's first three payload bytes, below 2^24 |
| Player.Advance | main.cpp:291-303 | after meta handling the next delta time is read unless the track was just emptied, which happens only on End of Track; the tick never decreases |
| Player.NextTrack | main.cpp:275-304 | one pass of the inner loop strictly reduces the bytes left in the track, and the tick never decreases |
| Player.Step | main.cpp:277-303 | one event yields at most one sent word, a channel word at the track's tick, with Note-Ons counted and the tempo kept 24-bit |
| Player.StepEvent | main.cpp:277-303 | a decoded channel event is sent as its packed word and nothing else is sent; a track goes quiet only on End of Track; only a tempo event changes the tempo; the register invariant survives |
| Player.DrainSplitsWords | main.cpp:275-304 | what a track sends to the end is what draining it at a global tick sends, followed by what the drained track sends to the end |
| Player.Drain | main.cpp:273-306 | the words sent are exactly the channel words of the track's events, in file order, from its cursor for as long as it has data and its tick is at most the global tick, each stamped with its event's tick; the track ends where that run stops; a track not due is left as it was and sends nothing; a due track ends emptied or past the global tick; the tempo left is the one `TempoAfter` gives after each drained event in turn (`DrainTempo`), so that of the last tempo event drained, or the tempo given when there was none; Note-Ons are counted and the track remains playable |
| Player.Dispatch | main.cpp:269-311 | the words sent are the drains of the tracks concatenated in declaration order, each track drained exactly as `Drain` states; the tracks afterwards are the drained tracks; the tempo one track's drain leaves is the tempo the next track's drain starts from (`DispatchTempo`); `active_tracks` is exactly the after-state of every track that had data before its turn, in declaration order (`PushedTracks`); all words are at the global tick when no track lagged behind it; Note-Ons are counted |
| Player.FromTrackDispatch | main.cpp:269-311 | the words of one dispatch that come from track `k` are exactly what draining track `k` sends |
| Player.DispatchAhead | main.cpp:269-311 | after dispatch every track with data is past the global tick and on the `active_tracks` list |
| Player.DispatchTempoIdle | main.cpp:269-311 | a dispatch in which no track is due keeps the tempo it was given |
| Player.ProgressLemma | main.cpp:269-311 | dispatch never adds work, takes some from every due track, and changes nothing when no track is due |
| Player.TickDistance | main.cpp:323 | `track->tick - tick` in `uint64_t` is the true distance when the track is ahead |
| Player.MinDelta | main.cpp:318-325 | the result is at most `UINT64_MAX`, at most the distance to every pushed track with data, and equal to one of them or to `UINT64_MAX` |
| Player.AddU64 | main.cpp:327 | `tick += delta_tick` wraps modulo 2^64 and is exact when the sum fits |
| Player.MergeActive | main.cpp:318-327 | when some track has data, the global tick moves forward, without wrapping, to the earliest tick among the tracks with data |
| Player.MergeIdle | main.cpp:313-327 | when every pushed track ran out, `delta_tick` stays `UINT64_MAX` and the tick wraps to one below its old value |
| Player.MergeForward | main.cpp:313-327 | after a dispatch that left some track with data, the new global tick is the earliest pending tick and strictly larger than the old one |
| Player.Start | main.cpp:110-112 | playback starts at tick 0 with tempo 500000 and meets the loop invariant |
| Player.Iterate | main.cpp:267-327 | the loop stops exactly when no track has data; otherwise the words sent are those of one dispatch at the current tick, the tracks become the drained tracks, the tempo becomes the one the dispatch hands on, the tick moves to the earliest pending event (or wraps when every track just ran out), every due track makes progress, and neither the tracks nor the tempo change when none is due |
| Player.PlayStep | main.cpp:267-327 | an iteration keeps the outer-loop invariant: the output so far is in order and, for every track, what it sent so far followed by what it has left to send is everything it sends; some track is due at the new tick unless every track has run out |
| Player.Round | main.cpp:267-327 | an iteration with output so far stops exactly when no track has data; otherwise it keeps the outer-loop invariant and either takes work from a due track or, when none was due, moves the tick to a due one |
| Player.Play | main.cpp:267-327 | playback ends with every track empty; the sink sees only channel words, in order of tick and, at equal ticks, of track number; the words from track `k` are exactly what track `k` sends from its first event to its last, in file order; `note_on_count` equals the number of Note-Ons sent |
| Loader.LoadTrack | main.cpp:198-201 | a loaded track holds exactly its body, with its tick set to the first delta time and its cursor just after it |
| Loader.ChunkBody | main.cpp:194-199 | the body of an `MTrk` chunk has exactly its declared length |
| Loader.TrackChunkOffsets | main.cpp:186-202 | the chunk loop meets at most the declared count of `MTrk` chunks, at strictly increasing offsets |
| Loader.ReadChunks | main.cpp:186-202 | the chunk loop yields at most the declared count of tracks |
| Loader.SkipStep | main.cpp:188-192 | a pass over a foreign tag adds no track |
| Loader.TrackStep | main.cpp:188-201 | a pass over an `MTrk` tag adds the track of its body in front of the rest |
| Loader.ReadChunksAtOffsets | main.cpp:186-202 | the tracks are the bodies of the `MTrk` chunks the loop meets, one per chunk, in file order |
| Loader.LoadFile | main.cpp:143-202 | the load fails with "Not a MIDI file" exactly when the tag is not MThd, with "Invalid header length" exactly when the length word is not 6, and with "SMPTE timing" exactly when the division is 0x8000 or more; otherwise it yields the division and at most the declared count of tracks |
| Loader.HeaderErrors | main.cpp:153-182 | a load fails exactly when one of the three header checks fails |
| Loader.ReadHeader | main.cpp:153-177 | a written header passes the tag and length checks and reads back its track count and division |
| Loader.ReadTrackChunk | main.cpp:188-199 | a written `MTrk` chunk reads back its tag, its length and its body |
| Loader.ReadTrackChunks | main.cpp:186-202 | written `MTrk` chunks read back as one track per body, in order |
| Loader.LoadEncodedFile | main.cpp:143-202 | round trip: a file written with a metrical division and one `MTrk` chunk per body loads as that division and one track per body, in order |
| Loader.ForeignChunkHidesTrack | main.cpp:186-192 | a header declaring two chunks, a 4-byte foreign chunk, then an `MTrk` chunk loads no track: the second pass reads the foreign chunk's length word as a tag |
| Playback.EmitPacked | main.cpp:279-283 | a valid event's packed word is sent exactly when the event is a channel event |
| Playback.InnerStep | main.cpp:275-304 | at a stored event other than End of Track followed by a delta time, one pass of the inner loop decodes the event's packed word and moves the cursor over the event and the delta time, adding the delta time to the tick |
| Playback.LastStep | main.cpp:275-304 | at a stored End of Track event, one pass of the inner loop decodes it and empties the track |
| Playback.PlaysFrom | main.cpp:275-304 | from any event of a track written from a score on, the track plays to its end and sends exactly the packed words of the remaining channel events, in order, at their cumulative ticks |
| Playback.LoadedAtFirst | main.cpp:198-201 | a track loaded from a body written from a score has its tick at the first delta time and its cursor at the first event |
| Playback.TrackPlaysScore | main.cpp:275-304 | a body written from a score loads as a playable track that sends exactly the packed words of the score's channel events, in order, each at the sum of the delta times up to it |
| Playback.PlayScores | main.cpp:267-327 | a file written with one `MTrk` chunk per score and loaded, then played: every track ends empty, the sink sees the words in order of tick and track, and the words from track `k` are exactly the channel events of score `k` |
| Playback.TwoNotePairs | main.cpp:267-327 | two tracks at division 480, each with one Note-On/Note-Off pair four beats apart: the sink is called exactly four times, in tick order, with each track's Note-On at tick 0 and its Note-Off at tick 1920, and playback stops |

## Left out

- Wall-clock pacing and drift correction (main.cpp:329-347), and the `double` tempo multiplier (main.cpp:363-364). They depend on the system clock, the sleep call and floating point. The tempo is kept as an integer.
- `initialize_midi` and `SendDirectData`: loading foreign functions from a DLL. The sink is modelled as appending to the output sequence.
- The notes-per-second logger thread and its reset of `note_on_count`: it is a concurrent thread over an unsynchronised counter. The model counts Note-Ons without resets.
- File opening and its "Could not open file" error, stream reads, chrono timing, console output (including the SysEx "TODO" line and the track count) and `main`. The file is its sequence of bytes.
- Reads past the end of a buffer or of the file: a missing quantity terminator, a payload longer than the remaining bytes, a zero-length track body, a tempo payload under three bytes, and a truncated file. The source reads out of bounds in all of these cases, so they are preconditions.
- Tracks.UpdateTick: requires the tick to stay below 2^31 rather than modelling signed `int` overflow, which is undefined behaviour in C.
- Vlq.DecodeVariableLength: covers quantities of at most four bytes (values up to 0x0FFFFFFF), the most the Standard MIDI File format allows. The source also decodes longer runs of continuation bytes, which the model excludes by precondition.
- The `length` and `long_msg_len` fields of `Track`: `length` is never read, and `long_msg_len` always equals the payload buffer's length. The format word of the header is read and ignored, and is not modelled.
- Playback.TrackPlaysScore: covers bodies whose every event is stored with its status byte. A body using running status is covered one event at a time by Events.DecodeRunningStatusEvent.
