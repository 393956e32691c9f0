/**
 * Concrete decodes: the variable-length quantities listed in Standard MIDI
 * Files 1.0, the three interpreted meta events, a header with a bad magic,
 * a small file using running status and a zero-velocity note-on, and the
 * 32-bit clock of the C# decoder running backwards.
 */
module SmfExamples {
  import opened SmfTypes
  import opened SmfReader
  import opened SmfTrack
  import opened SmfFile
  import opened SmfTrackFacts

  /** The example quantities of the variable-length-quantity table of Standard MIDI Files 1.0. */
  lemma StandardVarIntTable()
    ensures EncodeVarInt(0x00) == [0x00]
    ensures EncodeVarInt(0x7F) == [0x7F]
    ensures EncodeVarInt(0x80) == [0x81, 0x00]
    ensures EncodeVarInt(0x2000) == [0xC0, 0x00]
    ensures EncodeVarInt(0x3FFF) == [0xFF, 0x7F]
    ensures EncodeVarInt(0x4000) == [0x81, 0x80, 0x00]
    ensures EncodeVarInt(0x10_0000) == [0xC0, 0x80, 0x00]
    ensures EncodeVarInt(0x1F_FFFF) == [0xFF, 0xFF, 0x7F]
    ensures EncodeVarInt(0x20_0000) == [0x81, 0x80, 0x80, 0x00]
    ensures EncodeVarInt(0x800_0000) == [0xC0, 0x80, 0x80, 0x00]
    ensures EncodeVarInt(0xFFF_FFFF) == [0xFF, 0xFF, 0xFF, 0x7F]
    ensures ReadVarIntSpec(Masked, [0xFF, 0xFF, 0xFF, 0x7F], 0) == Ok(Read(0xFFF_FFFF, 4))
  {
    VarIntRoundTrip(0xFFF_FFFF, []);
    assert EncodeVarInt(0xFFF_FFFF) + [] == [0xFF, 0xFF, 0xFF, 0x7F];
  }

  /** A fifth continuation byte is not read: the quantity stops after four bytes. */
  lemma VarIntStopsAtFourBytes()
    ensures ReadVarIntSpec(Masked, [0x81, 0x81, 0x81, 0x81, 0x01], 0) == Ok(Read(0x20_4081, 4))
    ensures ReadVarIntSpec(Masked, [0x81, 0x81], 0) == Err(OutOfBounds)
  {
  }

  /** FF 51 03 07 A1 20: 500000 microseconds per quarter note is 120 per minute. */
  lemma TempoExample()
    ensures MetaEventSpec(Masked, [0x03, 0x07, 0xA1, 0x20], 0, MetaTempo) == Ok(Read(Recognised(120, 0), 4))
    ensures MetaEventSpec(Masked, [0x03, 0x00, 0x00, 0x00], 0, MetaTempo) == Err(UnspecifiedConversion)
  {
    BeatsPerMinuteExample();
  }

  lemma BeatsPerMinuteExample()
    ensures BeatsPerMinute(500_000) == Ok(120)
    ensures BeatsPerMinute(0) == Err(UnspecifiedConversion)
    ensures BeatsPerMinute(60_000_000 / 256) == Err(UnspecifiedConversion)
    ensures BeatsPerMinute(60_000_000 / 255) == Ok(255)
  {
  }

  /** FF 58 04 06 03 24 08: 6/8 time, the denominator given as a power of two. */
  lemma TimeSignatureExample()
    ensures MetaEventSpec(Masked, [0x04, 0x06, 0x03, 0x24, 0x08], 0, MetaTimeSignature) == Ok(Read(Recognised(6, 8), 5))
    ensures MetaEventSpec(Masked, [0x04, 0x06, 0x08, 0x24, 0x08], 0, MetaTimeSignature) == Err(UnspecifiedConversion)
  {
  }

  /** FF 59 02 FE 01: two flats, minor. */
  lemma KeySignatureExample()
    ensures MetaEventSpec(Masked, [0x02, 0xFE, 0x01], 0, MetaKeySignature) == Ok(Read(Recognised(0xFE, 0x01), 3))
  {
  }

  /** FF 2F 00 (end of track) and FF 7F 02 xx xx (sequencer specific) are skipped by their length. */
  lemma SkippedMetaExample()
    ensures MetaEventSpec(Masked, [0x00], 0, 0x2F) == Ok(Read(Skipped, 1))
    ensures MetaEventSpec(Masked, [0x02, 0x41, 0x42], 0, 0x7F) == Ok(Read(Skipped, 3))
  {
  }

  lemma BadMagicExample()
    ensures HeaderSpec([0x58, 0x58, 0x58, 0x58, 0, 0, 0, 6, 0, 0, 0, 1, 0, 0x60]) == Err(InvalidHeaderMagic)
  {
    var data: seq<Byte> := [0x58, 0x58, 0x58, 0x58, 0, 0, 0, 6, 0, 0, 0, 1, 0, 0x60];
    HeaderFailures(data);
    assert data[..4][0] != MThd[0];
  }

  lemma BadLengthExample()
    ensures HeaderSpec([0x4D, 0x54, 0x68, 0x64, 0, 0, 0, 7, 0, 0, 0, 1, 0, 0x60]) == Err(InvalidHeaderLength)
  {
    var data: seq<Byte> := [0x4D, 0x54, 0x68, 0x64, 0, 0, 0, 7, 0, 0, 0, 1, 0, 0x60];
    HeaderFailures(data);
    assert data[..4] == MThd;
    assert data[4..8][3] != 6;
  }

  /** Division E7 28: 25 frames per second, 40 ticks per frame. */
  lemma SmpteExample()
    ensures HeaderSpec([0x4D, 0x54, 0x68, 0x64, 0, 0, 0, 6, 0, 0, 0, 1, 0xE7, 0x28]) == Err(UnsupportedTimingMode)
  {
    var data: seq<Byte> := [0x4D, 0x54, 0x68, 0x64, 0, 0, 0, 6, 0, 0, 0, 1, 0xE7, 0x28];
    MagicCheck(data);
    assert data[..4] == MThd;
    LengthCheck(data);
    assert data[4..8] == [0, 0, 0, 6];
    DivisionCheck(data);
  }

  /**
   * A format-0 file with one track: note-on C4, then the same note released
   * 0x60 ticks later by a note-on of velocity 0 under running status, then
   * end of track.
   */
  const SmallFile: seq<Byte> := [
    0x4D, 0x54, 0x68, 0x64, 0x00, 0x00, 0x00, 0x06, 0x00, 0x00, 0x00, 0x01, 0x00, 0x60,
    0x4D, 0x54, 0x72, 0x6B, 0x00, 0x00, 0x00, 0x0B,
    0x00, 0x90, 0x3C, 0x40,
    0x60, 0x3C, 0x00,
    0x00, 0xFF, 0x2F, 0x00]

  const NoteOnC4: MidiEvent := MidiEvent(0, NoteOn, 1, 0x3C, 0x40)
  const NoteOffC4: MidiEvent := MidiEvent(0x60, NoteOff, 1, 0x3C, 0)

  /** Delta 0, status 90, note 3C, velocity 40. */
  lemma SmallFileFirstEvent()
    ensures Step(Masked, SmallFile, TrackState(22, 0, 0, [], [])) == Ok(TrackState(26, 0, 0x90, [NoteOnC4], []))
  {
    assert ReadVarIntSpec(Masked, SmallFile, 22) == Ok(Read(0, 23));
    assert DispatchSpec(Masked, SmallFile, 24, 0, 0x90, TrackState(22, 0, 0, [], [])) == Ok(TrackState(26, 0, 0x90, [NoteOnC4], []));
  }

  /** Delta 60, no status byte: running status 90, note 3C, velocity 0 becomes a note-off. */
  lemma SmallFileSecondEvent()
    ensures Step(Masked, SmallFile, TrackState(26, 0, 0x90, [NoteOnC4], [])) ==
            Ok(TrackState(29, 0x60, 0x90, [NoteOnC4, NoteOffC4], []))
  {
    assert ReadVarIntSpec(Masked, SmallFile, 26) == Ok(Read(0x60, 27));
    assert SmallFile[27] == 0x3C && SmallFile[28] == 0x00;
    assert ChannelEventSpec(SmallFile, 27, 0x60, 0x90, TrackState(26, 0, 0x90, [NoteOnC4], [])) ==
           Ok(TrackState(29, 0x60, 0x90, [NoteOnC4] + [NoteOffC4], []));
    assert [NoteOnC4] + [NoteOffC4] == [NoteOnC4, NoteOffC4];
    assert DispatchSpec(Masked, SmallFile, 27, 0x60, 0x90, TrackState(26, 0, 0x90, [NoteOnC4], [])) ==
           Ok(TrackState(29, 0x60, 0x90, [NoteOnC4, NoteOffC4], []));
  }

  /** Delta 0, FF 2F 00: end of track, skipped. */
  lemma SmallFileThirdEvent()
    ensures Step(Masked, SmallFile, TrackState(29, 0x60, 0x90, [NoteOnC4, NoteOffC4], [])) ==
            Ok(TrackState(33, 0x60, MetaEvent, [NoteOnC4, NoteOffC4], []))
  {
    assert ReadVarIntSpec(Masked, SmallFile, 29) == Ok(Read(0, 30));
    assert ReadVarIntSpec(Masked, SmallFile, 32) == Ok(Read(0, 33));
    assert MetaEventSpec(Masked, SmallFile, 32, 0x2F) == Ok(Read(Skipped, 33));
    assert MetaBranchSpec(Masked, SmallFile, 31, 0x60, TrackState(29, 0x60, 0x90, [NoteOnC4, NoteOffC4], [])) ==
           Ok(TrackState(33, 0x60, MetaEvent, [NoteOnC4, NoteOffC4], []));
  }

  lemma SmallFileTrackEnd()
    ensures TrackEnd(SmallFile, 14) == 33
  {
    assert SmallFile[18] == 0 && SmallFile[19] == 0 && SmallFile[20] == 0 && SmallFile[21] == 0x0B;
    assert BigEndian32(0, 0, 0, 0x0B) == 0x0B;
  }

  /** The three events in a row, and the loop stops at the track end. */
  lemma SmallFileRun()
    ensures Run(Masked, SmallFile, 33, TrackState(22, 0, 0, [], [])) ==
            Ok(TrackState(33, 0x60, MetaEvent, [NoteOnC4, NoteOffC4], []))
  {
    var s0 := TrackState(22, 0, 0, [], []);
    var s1 := TrackState(26, 0, 0x90, [NoteOnC4], []);
    var s2 := TrackState(29, 0x60, 0x90, [NoteOnC4, NoteOffC4], []);
    var s3 := TrackState(33, 0x60, MetaEvent, [NoteOnC4, NoteOffC4], []);
    SmallFileFirstEvent();
    RunUnfold(Masked, SmallFile, 33, s0, s1);
    SmallFileSecondEvent();
    RunUnfold(Masked, SmallFile, 33, s1, s2);
    SmallFileThirdEvent();
    RunUnfold(Masked, SmallFile, 33, s2, s3);
    assert Run(Masked, SmallFile, 33, s3) == Ok(s3);
  }

  lemma SmallFileTrack()
    ensures TrackSpec(Masked, 0, SmallFile, 14) == Ok(Read(MidiTrack(0, [NoteOnC4, NoteOffC4], []), 33))
  {
    assert SmallFile[14..18] == MTrk;
    SmallFileTrackEnd();
    SmallFileRun();
    TrackFromRun(Masked, 0, SmallFile, 14, 33, TrackState(33, 0x60, MetaEvent, [NoteOnC4, NoteOffC4], []));
  }

  /** A header announcing format 0, one track and 96 ticks per quarter note. */
  lemma Format0Header(data: seq<Byte>)
    requires 14 <= |data| && data[..4] == MThd && data[4..8] == [0, 0, 0, 6]
    requires data[8] == 0 && data[9] == 0 && data[10] == 0 && data[11] == 1 && data[12] == 0 && data[13] == 0x60
    ensures HeaderSpec(data) == Ok(Header(0, 1, 0x60, 14))
  {
    HeaderFields(data);
  }

  lemma SmallFileLength(data: seq<Byte>)
    requires data == SmallFile
    ensures data[4..8] == [0, 0, 0, 6]
  {
    LengthCheck(data);
  }

  lemma SmallFileHeaderBytes(data: seq<Byte>)
    requires data == SmallFile
    ensures 14 <= |data| && data[..4] == MThd
    ensures data[8] == 0 && data[9] == 0 && data[10] == 0 && data[11] == 1 && data[12] == 0 && data[13] == 0x60
  {
  }

  lemma SmallFileHeader()
    ensures HeaderSpec(SmallFile) == Ok(Header(0, 1, 0x60, 14))
  {
    SmallFileLength(SmallFile);
    SmallFileHeaderBytes(SmallFile);
    Format0Header(SmallFile);
  }

  lemma SmallFileTracks()
    ensures TracksSpec(Masked, SmallFile, 14, 0, 1) == Ok([MidiTrack(0, [NoteOnC4, NoteOffC4], [])])
  {
    SmallFileTrack();
    OneTrack(Masked, SmallFile, 14, Read(MidiTrack(0, [NoteOnC4, NoteOffC4], []), 33));
  }

  /** The whole file: one track with the note-on and the note-off it was rewritten to. */
  lemma SmallFileExample()
    ensures MidiFileSpec(SmallFile) == Ok(MidiFile(0, 0x60, [MidiTrack(0, [NoteOnC4, NoteOffC4], [])], 1))
  {
    SmallFileHeader();
    SmallFileTracks();
  }

  // ---------------------------------------------------------------------------
  // The clock as written

  /** `time += ReadVarInt(...)` on C#'s `int`. */
  function Int32Clock(time: int, delta: int): (r: int)
    ensures IsInt32(r)
  {
    Wrap32(time + delta)
  }

  /**
   * Eight deltas of the largest quantity bring the 32-bit clock to
   * 2147483640; a ninth wraps it to a negative value, so the event after it
   * would be stamped before the ones already decoded. The model's clock is
   * unbounded and keeps the events in time order.
   */
  lemma Int32ClockGoesBackwards()
    ensures ReadVarIntSpec(Masked, [0xFF, 0xFF, 0xFF, 0x7F], 0) == Ok(Read(0xFFF_FFFF, 4))
    ensures forall k :: 0 <= k < 8 ==> Int32Clock(k * 0xFFF_FFFF, 0xFFF_FFFF) == (k + 1) * 0xFFF_FFFF
    ensures 8 * 0xFFF_FFFF == 2147483640
    ensures Int32Clock(2147483640, 0xFFF_FFFF) == -1879048201
  {
    StandardVarIntTable();
    forall k | 0 <= k < 8
      ensures Int32Clock(k * 0xFFF_FFFF, 0xFFF_FFFF) == (k + 1) * 0xFFF_FFFF
    {
      assert IsInt32((k + 1) * 0xFFF_FFFF);
    }
    assert 0x8000_0000 <= 2147483640 + 0xFFF_FFFF < 0x1_8000_0000;
  }
}
