# A verified model of a C# Standard MIDI File decoder

This project models the core of a small C# library that decodes Standard MIDI
Files (SMF 1.0) from a byte array. The library has two near-identical copies of
one class, `MidiFile.cs` and `src/MidiFile.cs`. Each has:

- a static class `Reader` with the big-endian, ASCII and variable-length
  readers, over a `ref int` cursor;
- the constructor `MidiFile(byte[])`. It checks the `MThd` header chunk
  (magic, length 6, no SMPTE timing), then fills `Tracks` with one
  `ParseTrack` per announced track;
- `ParseTrack`. It checks the `MTrk` magic, then runs the event loop up to the
  chunk end. The loop covers delta times, running status, channel events
  (note-on with velocity 0 becomes note-off), text meta events (types
  0x01..0x0F), SysEx skipping, and other 0xFx statuses;
- `ParseMetaEvent`. It interprets tempo (0x51), time signature (0x58) and key
  signature (0x59), and skips every other meta type by its length.

The two copies decode differently in one place. The root copy's `ReadVarInt`
masks the first byte of a multi-byte quantity to 7 bits; the `src` copy does
not. One decoder models both, parameterised by `VarIntVariant` (`Masked`,
`Unmasked`).

The two copies also expose different fields:

- the root copy keeps `Format`, `TicksPerQuarterNote`, `Tracks` and
  `TracksCount` (MidiFile.cs:10-16, assigned at 42-44). It is modelled by the
  record `SmfFile.MidiFile`;
- the `src` copy reads the format and the track count into locals
  (src/MidiFile.cs:27-28) and exposes only `TicksPerQuarterNote` and `Tracks`
  (src/MidiFile.cs:9-11). It is modelled by the record `SmfFile.SrcMidiFile`.

Layout:

- `types.dfy` (`SmfTypes`):
  - the `Byte` type, the error kinds and the event/track records;
  - the enum constants;
  - C#'s 32-bit wrap (`Wrap32`) and `Encoding.ASCII` decoding.
- `reader.dfy` (`SmfReader`):
  - specification functions for the five readers, with the methods that
    follow the source and are proved to agree with them;
  - encoders, and the round trips that show the readers invert them.
- `track.dfy` (`SmfTrack`):
  - one loop iteration as `Step` and the whole loop as `Run`;
  - a track chunk as `TrackSpec`;
  - the methods `ParseMetaEvent` and `ParseTrack`, whose `while` loop carries
    `Run` as its invariant, plus the pieces of its body.
- `track_facts.dfy` (`SmfTrackFacts`): what every decoded track satisfies.
  - Events are well formed, non-negatively stamped and in time order.
  - The running-status rule, and that omitting a repeated status byte changes
    nothing.
  - The SysEx and other-status paths emit nothing.
- `file.dfy` (`SmfFile`):
  - the header checks and the constructor of each copy;
  - the `Tracks` array filled by a `for` loop;
  - the if-and-only-if form of each header error.
- `examples.dfy` (`SmfExamples`):
  - concrete decodes: the quantity table of SMF 1.0, the three interpreted
    meta events, bad headers, and a 33-byte file with running status;
  - the 32-bit clock running backwards.

Conventions:

- The buffer is a `seq<Byte>` no longer than .NET's `Array.MaxLength`
  (0x7FFFFFC7). That bound keeps the cursor arithmetic inside C#'s `int`.
- C#'s `int` wrap is written out only where the source can overflow:
  - the signed `Read32`;
  - `trackEnd = position + trackLength`;
  - `position += length` when a meta event or SysEx is skipped.
- Every exception the source can throw becomes an `Err` of `Result`:
  - the three `FormatException`s of the header;
  - the one of the track magic;
  - every index or range out of the array (`OutOfBounds`).
  The readers, the header checks and the channel-event, meta-event, text,
  SysEx and other-status paths each state exactly when they succeed.
  `Step`, `Run` and `TrackSpec` compose them. Of their own errors only the
  track-magic error is stated as an if-and-only-if; the rest are the errors
  of the paths they run. No `requires` excludes malformed input.

## Model

| member | source | states |
|---|---|---|
| SmfTypes.Wrap32 | MidiFile.cs:102 | the result is the `int` congruent to the input modulo 2^32: unchanged inside the `int` range, minus 2^32 just above it |
| SmfTypes.AsciiChar | MidiFile.cs:227 | `Encoding.ASCII` yields a 7-bit character, and any character other than '?' is the byte itself |
| SmfTypes.AsciiString | MidiFile.cs:227 | the decoded string has one character per byte, character k being the ASCII decoding of byte k |
| SmfTypes.AsciiMatches | MidiFile.cs:32 | ASCII-decoded bytes equal an ASCII literal without '?' exactly when the bytes equal the literal's codes |
| SmfReader.Read8Spec | MidiFile.cs:205-208 | succeeds exactly when the cursor is inside the buffer, otherwise out of bounds; yields the byte under the cursor and the cursor plus one |
| SmfReader.Read16Spec | MidiFile.cs:195-198 | succeeds exactly when two bytes remain, otherwise out of bounds; the value is below 2^16, its high byte is the first byte and its low byte the second; the cursor advances by two |
| SmfReader.ReadStringSpec | MidiFile.cs:225-230 | succeeds exactly when the range lies in the buffer, otherwise out of bounds; the string has the requested length and the cursor advances by it |
| SmfReader.VarIntTail | MidiFile.cs:243-253 | the continuation loop succeeds exactly when every byte it reaches lies in the buffer (`TailInBuffer`); it reads at most `left` bytes and at least one when `left > 0`, keeps a non-negative accumulator non-negative, and fails only out of bounds (the `src` copy is src/MidiFile.cs:214-224) |
| SmfReader.TailFits | MidiFile.cs:243-253 | with `left` bytes left in the buffer the continuation loop never runs out of it, whatever their top bits |
| SmfReader.Encode16 | MidiFile.cs:195-198 | two bytes whose big-endian value is the input |
| SmfReader.Encode32 | MidiFile.cs:200-203 | four bytes whose leading bit is set exactly for a negative input |
| SmfReader.VarIntTailShift | MidiFile.cs:243-253 | inserting a byte before the continuation bytes moves the result one byte later and changes nothing else |
| SmfReader.ReadVarIntShift | MidiFile.cs:232-256 | inserting a byte before a quantity moves it one byte later: same value, same success, cursor plus one |
| SmfReader.Read8 | MidiFile.cs:205-208 | succeeds exactly inside the buffer; returns the byte under the cursor and advances it by one |
| SmfReader.Read16 | MidiFile.cs:195-198 | succeeds exactly when two bytes remain; returns their big-endian value, below 2^16, and advances by two |
| SmfReader.Read32 | MidiFile.cs:200-203 | succeeds exactly when four bytes remain; returns an `int` congruent to their big-endian value modulo 2^32 and advances by four |
| SmfReader.Read32Spec | MidiFile.cs:200-203 | the value is negative exactly when bit 7 of the first byte is set |
| SmfReader.ReadString | MidiFile.cs:225-230 | succeeds exactly when the range lies in the buffer; character k is the ASCII decoding of byte k; advances by the length |
| SmfReader.ReadVarInt | MidiFile.cs:232-256 | agrees with `ReadVarIntSpec` on value, cursor and error, for both copies (the `src` copy is src/MidiFile.cs:205-227) |
| SmfReader.ReadContinuation | MidiFile.cs:243-253 | the `for` loop over at most three continuation bytes agrees with `VarIntTail` |
| SmfReader.ReadVarIntSpec | MidiFile.cs:232-256 | succeeds exactly when the first byte is in the buffer and, if its bit 7 is set, so is every continuation byte the loop reaches; consumes 1 to 4 bytes inside the buffer; the value is below 2^28 masked and below 2^29 unmasked; a first byte below 0x80 is the whole value |
| SmfReader.ReadVarIntFits | MidiFile.cs:232-256 | a quantity with four bytes left in the buffer always decodes, within those four bytes |
| SmfReader.Read16RoundTrip | MidiFile.cs:195-198 | `Read16` decodes the big-endian encoding of every 16-bit value, whatever follows it |
| SmfReader.Read32RoundTrip | MidiFile.cs:200-203 | `Read32` decodes the two's-complement big-endian encoding of every `int`, whatever follows it |
| SmfReader.VarIntRoundTrip | MidiFile.cs:232-256 | the masked decoder inverts the standard variable-length encoding of every value below 2^28, consuming exactly its bytes |
| SmfReader.LeadingBitWeight | src/MidiFile.cs:214-224 | keeping bit 7 of the leading byte adds 2^(7(n+1)) when the loop consumes n continuation bytes (a quantity of n+1 bytes), and consumes the same bytes |
| SmfReader.UnmaskedKeepsLeadingBit | src/MidiFile.cs:205-227 | the unmasked decoder consumes the same bytes as the masked one, and its value exceeds the masked value by 2^(7n) for an n-byte quantity, n >= 2 |
| SmfReader.UnmaskedVarIntMisdecodes | src/MidiFile.cs:205-227 | the standard encoding of 128, [0x81, 0x00], decodes to 16512 unmasked and to 128 masked |
| SmfReader.ReadVarIntPrefix | MidiFile.cs:232-256 | a quantity depends only on the bytes it occupies |
| SmfTrack.Pow2 | MidiFile.cs:76 | `Math.Pow(2.0, e)` is at least 1, and for the exponents 0..7 it is 1, 2, 4, ..., 128, each of which fits a `byte` |
| SmfTrack.Pow2Monotone | MidiFile.cs:76 | `Pow2` grows with its exponent, so an exponent of at most 7 gives at most 128, a value `(byte)` keeps |
| SmfTrack.OneDataByte | MidiFile.cs:131 | `(eventType & 0xE0) == 0xC0` holds exactly for the event types 0xC0..0xDF |
| SmfTrack.Tempo | MidiFile.cs:69 | the 24-bit big-endian value of the three tempo bytes: the first byte is the top byte, the third the bottom byte |
| SmfTrack.TrackEnd | MidiFile.cs:101-102 | `position + trackLength` after the 8 chunk-header bytes, in C# `int`: congruent to the true end modulo 2^32 and equal to it whenever it fits an `int` |
| SmfTrack.DataBytes | MidiFile.cs:130-131 | program change (0xC_) and channel aftertouch (0xD_) carry one data byte; every other channel status carries two |
| SmfTrack.BeatsPerMinute | MidiFile.cs:69-70 | when defined, the truncated quotient v with v * mspqn <= 60000000 < (v + 1) * mspqn; undefined exactly for mspqn 0 or a quotient of 256 or more |
| SmfTrack.MetaEventSpec | MidiFile.cs:59-92 | tempo succeeds exactly when its three bytes after the length byte are present and give a byte-sized BPM, and advances 4; time signature succeeds exactly when its two bytes are present and the exponent is at most 7, gives the numerator and 2^e and advances 5; key signature succeeds exactly when its two bytes are present, gives them and advances 3; any other type succeeds exactly when its varint length decodes, and is skipped by that length in `int` arithmetic; only tempo and time signature raise the unspecified-conversion error |
| SmfTrack.ChannelEventSpec | MidiFile.cs:122-141 | succeeds exactly when the data bytes are in the buffer; appends one event with channel = low nibble + 1, the data bytes, and type = high nibble (note-on with velocity 0 becomes note-off); nothing else changes |
| SmfTrack.MetaBranchSpec | MidiFile.cs:144-176 | a meta event sets the status register to 0xFF, moves the cursor forward (or wraps it negative), and appends at most one well-formed event stamped with the clock |
| SmfTrack.MetaBranchEffect | MidiFile.cs:147-175 | a text type appends exactly the ASCII text of its varint-prefixed bytes; any other type appends no text, and appends a meta event exactly for tempo, time signature and key signature |
| SmfTrack.MetaBranchSuccess | MidiFile.cs:144-176 | the meta branch fails out of bounds without its type byte; a text type succeeds exactly when its varint length decodes and the text lies in the buffer; any other type succeeds exactly when `MetaEventSpec` does on the bytes after the type |
| SmfTrack.Step | MidiFile.cs:108-187 | one loop iteration moves the cursor forward (or wraps it negative), never decreases the clock, and leaves the status register unchanged or holding a status byte |
| SmfTrack.StepIsDispatch | MidiFile.cs:110-119 | after the delta time, a byte with bit 7 set becomes the status and is consumed; the clock advances by the delta; then the dispatch runs |
| SmfTrack.StepExtends | MidiFile.cs:121-187 | one iteration keeps both event lists as prefixes and appends at most one well-formed event, stamped with the new clock |
| SmfTrack.DispatchSpec | MidiFile.cs:121-187 | the four paths keep clock and status, move the cursor forward or wrap it, and append at most one well-formed event |
| SmfTrack.Run | MidiFile.cs:108-188 | the loop stops only at or past the track end, or with one of the two event-level errors |
| SmfTrack.TrackChunkSpec | MidiFile.cs:96-102 | a chunk is rejected for its magic exactly when its first 4 bytes are present and are not `MTrk` (the magic is read before the length); it succeeds exactly when all 8 header bytes are present and the magic matches; then the loop runs from byte 8 to `position + trackLength` in `int` arithmetic |
| SmfTrack.TrackSpec | MidiFile.cs:94-191 | the track keeps its index; the magic error occurs exactly as in `TrackChunkSpec`; the cursor ends at or past the track end |
| SmfTrack.ParseMetaEvent | MidiFile.cs:59-92 | agrees with `MetaEventSpec` on payload, cursor and error |
| SmfTrack.ParseTrack | MidiFile.cs:94-191 | agrees with `TrackSpec`; the `while` loop keeps `Run` of the current registers equal to `Run` of the initial ones |
| SmfTrack.ParseEvent | MidiFile.cs:110-119 | one iteration over the loop registers equals `Step` |
| SmfTrack.DispatchEvent | MidiFile.cs:121-187 | the dispatch on the status register equals `DispatchSpec` |
| SmfTrack.ParseMetaBranch | MidiFile.cs:144-176 | the meta-event branch equals `MetaBranchSpec` |
| SmfTrack.ParseChannelEvent | MidiFile.cs:122-141 | the channel-event branch yields `ChannelEventSpec`'s event and cursor, or its error |
| SmfTrackFacts.InitialGood | MidiFile.cs:104-106 | the loop starts with clock 0, status 0 and empty lists, which satisfy the invariant |
| SmfTrackFacts.StepKeepsGood | MidiFile.cs:108-188 | one iteration keeps every event well formed, stamped between 0 and the clock, and both lists in time order |
| SmfTrackFacts.RunKeepsGood | MidiFile.cs:108-188 | the whole loop keeps that invariant, never decreases the clock, and only appends to the lists |
| SmfTrackFacts.TrackWellFormed | MidiFile.cs:94-191 | every decoded track has well-formed events with non-negative times, both lists in time order |
| SmfTrackFacts.TrackFromRun | MidiFile.cs:96-108 | a chunk with the `MTrk` magic holds what the event loop produces from byte 8 up to the track end |
| SmfTrackFacts.RunningStatusRule | MidiFile.cs:112-131 | the status byte is taken and consumed exactly when bit 7 is set; a channel event's first data byte is the one after it, and its length is `DataBytes` |
| SmfTrackFacts.RunningStatusOmission | MidiFile.cs:112-131 | inserting the current channel status byte before a data byte gives the same event, clock and status, one byte later |
| SmfTrackFacts.PassIsStep | MidiFile.cs:108-141 | a loop iteration that sees a channel status (given or running) is exactly one `Step`, and every `Step` that ends under a channel status is such an iteration |
| SmfTrackFacts.ChannelRunIsRun | MidiFile.cs:108-141 | a stretch of the loop made only of channel events, when it reaches the track end, is what `Run` computes |
| SmfTrackFacts.ChannelEventPrefix | MidiFile.cs:128-131 | a channel event depends only on the bytes before the insertion point when its data bytes lie there |
| SmfTrackFacts.PassBefore | MidiFile.cs:108-141 | an iteration that ends at or before the insertion point decodes the same with the byte inserted |
| SmfTrackFacts.PassAfter | MidiFile.cs:108-141 | an iteration that starts at or after the insertion point decodes the same one byte later |
| SmfTrackFacts.PassAtOmission | MidiFile.cs:110-131 | the iteration whose delta time is followed by the omitted status byte decodes the same event, clock and status once that byte is restored, ending one byte later |
| SmfTrackFacts.ChannelRunIterates | MidiFile.cs:108-141 | the stretch of channel events is the iteration of one loop pass up to the track end |
| SmfTrackFacts.IterateShift | MidiFile.cs:108 | a loop whose passes all shift by one byte past a point shifts by one byte as a whole, track end included |
| SmfTrackFacts.IterateInsertion | MidiFile.cs:108 | a loop whose passes agree before a point, shift after it, and shift at the one pass that crosses it shifts by one byte as a whole |
| SmfTrackFacts.InsertionPasses | MidiFile.cs:108-141 | restoring an omitted status byte leaves the passes before it unchanged, shifts the passes after it, and shifts the pass that crosses it |
| SmfTrackFacts.RunningStatusStream | MidiFile.cs:108-141 | in a stretch in which every pass up to the track end is a channel event, restoring one omitted running-status byte anywhere in it decodes the same events, clock and status, ending one byte later at a track end one byte later; a stretch holding a meta, SysEx or other-status event, such as the end-of-track FF 2F 00 of a standard track, is not covered |
| SmfTrackFacts.RunningStatusRun | MidiFile.cs:108-141 | the same statement for the loop `Run` itself, on both buffers, for the same channel-event-only stretches |
| SmfTrackFacts.ChannelEventShift | MidiFile.cs:128-131 | a channel event decodes the same from a buffer with one byte inserted in front of it |
| SmfTrackFacts.SkippedEvents | MidiFile.cs:177-186 | SysEx (0xF0, 0xF7) decodes exactly when its varint length does, and then skips that length in `int` arithmetic; any other 0xF1..0xFE status always decodes and skips one byte; both keep clock, status and event lists, stating the whole new state |
| SmfTrackFacts.ChannelEventFields | MidiFile.cs:122-140 | a channel event's channel is 1..16; note-on with velocity 0 becomes note-off; one-data-byte types have arg3 = 0; the cursor advances 1 or 2 |
| SmfFile.HeaderSpec | MidiFile.cs:32-50 | a header is accepted only with at least 14 bytes; tracks then start at byte 14; the three words are 16-bit with the division below 0x8000 |
| SmfFile.TracksSpec | MidiFile.cs:51-56 | a successful decode yields exactly the announced number of tracks, track k with index k |
| SmfFile.NextTracks | MidiFile.cs:52-55 | from track i on, a successful decode has the remaining number of tracks, track k carrying index i + k; its errors are those a track can raise |
| SmfFile.MidiFileSpec | MidiFile.cs:28-57 | a decoded file has `TracksCount` tracks, track k with index k |
| SmfFile.SrcMidiFileSpec | src/MidiFile.cs:13-42 | the tracks of the `src` copy carry indexes 0, 1, 2, ... |
| SmfFile.ParseHeader | MidiFile.cs:30-50 | the header checks through the cursor equal `HeaderSpec` |
| SmfFile.ParseTracks | MidiFile.cs:51-56 | the fresh `Tracks` array holds exactly `TracksSpec`'s tracks, or the first error |
| SmfFile.ParseNextTrack | MidiFile.cs:54 | one `ParseTrack` call moves its track from the tracks still to decode to the decoded prefix, or ends the decode with its error |
| SmfFile.StoreTrack | MidiFile.cs:54 | `Tracks[i] = ...` changes only cell i: the new array is the old one with cell i replaced, so the filled prefix grows by the new track |
| SmfFile.ParseMidiFile | MidiFile.cs:28-57 | the root constructor equals `MidiFileSpec` |
| SmfFile.ParseSrcMidiFile | src/MidiFile.cs:13-42 | the `src` constructor equals `SrcMidiFileSpec` |
| SmfFile.HeaderFailures | MidiFile.cs:32-49 | with 14 bytes: bad magic iff the first four bytes are not `MThd`; bad length iff the magic is right and bytes 4..7 are not 00 00 00 06; SMPTE iff both pass and bit 7 of byte 12 is set; success iff all three pass |
| SmfFile.HeaderFields | MidiFile.cs:42-44 | an accepted header's format, track count and division are the big-endian words at bytes 8, 10 and 12 |
| SmfFile.MagicCheck | MidiFile.cs:32-35 | the string comparison with "MThd" is the byte comparison with 4D 54 68 64 |
| SmfFile.LengthCheck | MidiFile.cs:37-40 | the signed length equals 6 exactly when its bytes are 00 00 00 06 |
| SmfFile.DivisionCheck | MidiFile.cs:46-49 | `TicksPerQuarterNote & 0x8000` is bit 7 of byte 12 |
| SmfFile.ShortHeader | MidiFile.cs:32-44 | a buffer shorter than 14 bytes is always rejected |
| SmfFile.MidiFileTracks | MidiFile.cs:42-56 | a decoded file's fields are the header words, it has `TracksCount` tracks, and track k has index k and is well formed |
| SmfFile.TracksGood | MidiFile.cs:53-56 | every track the loop decodes is well formed |
| SmfFile.SameHeaderChecks | src/MidiFile.cs:17-41 | both copies reject a header with the same error; the `src` copy's track count and division are the header words and its tracks are well formed |
| SmfExamples.StandardVarIntTable | MidiFile.cs:232-256 | the table of quantities in SMF 1.0, from 00 to FF FF FF 7F, is the encoding the decoder inverts |
| SmfExamples.VarIntStopsAtFourBytes | MidiFile.cs:243-253 | a fifth continuation byte is not read; a truncated quantity is out of bounds |
| SmfExamples.TempoExample | MidiFile.cs:68-72 | 07 A1 20 (500000 microseconds) gives 120; a zero tempo has no specified value |
| SmfExamples.BeatsPerMinuteExample | MidiFile.cs:70 | 500000 gives 120, 235294 gives 255; 0 and 234375 have no specified byte |
| SmfExamples.TimeSignatureExample | MidiFile.cs:74-78 | 06 03 gives 6 and 8; an exponent of 8 has no specified byte |
| SmfExamples.KeySignatureExample | MidiFile.cs:80-84 | FE 01 is kept as it is |
| SmfExamples.SkippedMetaExample | MidiFile.cs:86-90 | end of track and a sequencer-specific event are skipped by their length |
| SmfExamples.BadMagicExample | MidiFile.cs:32-35 | a header starting `XXXX` is rejected for its magic |
| SmfExamples.BadLengthExample | MidiFile.cs:37-40 | a header length of 7 is rejected |
| SmfExamples.SmpteExample | MidiFile.cs:46-49 | division E7 28 is rejected as SMPTE timing |
| SmfExamples.SmallFileFirstEvent | MidiFile.cs:110-140 | the first event of the sample track is a note-on C4 on channel 1 |
| SmfExamples.SmallFileSecondEvent | MidiFile.cs:110-140 | under running status, note-on C4 with velocity 0 becomes a note-off stamped 0x60 |
| SmfExamples.SmallFileThirdEvent | MidiFile.cs:144-175 | end of track is skipped and sets the status register to 0xFF |
| SmfExamples.SmallFileTrack | MidiFile.cs:94-191 | the sample track decodes to those two events and stops at byte 33 |
| SmfExamples.SmallFileHeader | MidiFile.cs:32-50 | the sample header announces format 0, one track and 96 ticks per quarter note |
| SmfExamples.SmallFileExample | MidiFile.cs:28-57 | the sample file decodes to one track holding the note-on and the note-off |
| SmfExamples.Int32Clock | MidiFile.cs:110 | the clock as written: `time += delta` in C# `int` |
| SmfExamples.Int32ClockGoesBackwards | MidiFile.cs:105-110 | eight deltas of FF FF FF 7F bring the `int` clock to 2147483640, and a ninth wraps it to -1879048201 |

## Left out

- The `MidiFile(Stream)` and `MidiFile(string path)` constructors, and `Reader.ReadAllBytesFromStream` (MidiFile.cs:18-26, 210-223): they only read file or stream I/O into the byte array that `MidiFile(byte[])` decodes.
- `src/MidiFileHelper.cs` is not part of this model. It holds the enum types and one-line accessors that cast event fields to them (src/MidiFileHelper.cs:5-67, 79-102). Its `FromFile`, `FromStream` and `ReadAllBytesFromStream` (src/MidiFileHelper.cs:69-77, 104-117) only read I/O into the byte array the constructor decodes.
- `example/Program.cs` and `test/Program.cs` call the decoder and are not part of this model.
- The convenience getters of `MidiEvent` and `TextEvent` (MidiFile.cs:281-293, 304): they only cast fields to the enum types. The enum constants are in `SmfTypes`.
- Exceptions become `Err` values. The model keeps which check failed, not the exception type or message, and it does not keep whatever partial state a failed constructor leaves behind.
- Floating point: `(byte)(60000000.0 / mspqn)` is the exact integer quotient, and `(byte)Math.Pow(2.0, e)` is `Pow2(e)`. Both are exact wherever the conversion to `byte` is specified.
- SmfTrack.BeatsPerMinute: returns an error instead of a byte for mspqn 0 or a quotient of 256 or more. The C# conversion of an out-of-range double to `byte` is unspecified.
- SmfTrack.MetaEventSpec: returns an error for a time-signature exponent above 7, for the same reason.
- `MidiTrack` instances and their `List<T>` fields are built by appends inside `ParseTrack` and never shared before it returns. The model builds them in sequence-valued loop registers and returns a `MidiTrack` value. Object identity and aliasing are not modelled.
- SmfTrack.Step: the clock is an unbounded integer, not C#'s `int`. See the second finding below. `Int32Clock` is the clock as written.
- SmfTrackFacts.RunningStatusOmission: states one iteration. `RunningStatusStream` and `RunningStatusRun` lift it to the loop over a stretch of channel events, one restored byte at a time. They do not cover a stretch holding a meta, SysEx or other-status pass, so no standard track, which ends with the end-of-track event FF 2F 00, is covered as a whole: the corresponding shift lemmas for those passes are not stated. Neither is stated for the whole `TrackSpec`: restoring a byte also changes the chunk's length field, so the two chunks differ in their headers as well.
- Faithful to the source, and kept as it is:
  - the status register keeps 0xFF, 0xF0 or 0xF7 after a meta or SysEx event;
  - a data byte that comes before any status byte decodes under status 0.
- Faithful to the source, and kept as it is: ASCII text decoding turns every byte at or above 0x80 into '?'.

## Findings

| source | as written | input that shows it | evidently intended | confidence | as-written member | corrected member |
|---|---|---|---|---|---|---|
| src/MidiFile.cs:207-218 | the first byte of a multi-byte quantity keeps bit 7, so it adds 2^(7n) to an n-byte value | `[0x81, 0x00]`, the standard encoding of 128, decodes to 16512 | mask the first byte to 7 bits, as MidiFile.cs:241 does | high, not executed | SmfReader.UnmaskedVarIntMisdecodes | SmfReader.VarIntRoundTrip |
| MidiFile.cs:105-110 | the absolute time is a C# `int` and `time += ReadVarInt(...)` wraps | nine events with delta FF FF FF 7F: after eight the clock is 2147483640, and the ninth is stamped -1879048201, before all earlier events | event times never decrease | medium, not executed | SmfExamples.Int32ClockGoesBackwards | SmfTrackFacts.RunKeepsGood |
