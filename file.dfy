/**
 * The `MidiFile(byte[])` constructor of both copies: the `MThd` header chunk,
 * then `TracksCount` track chunks decoded one after the other from wherever
 * the previous one left the cursor.
 */
module SmfFile {
  import opened SmfTypes
  import opened SmfReader
  import opened SmfTrack
  import opened SmfTrackFacts

  /** The file as the root copy exposes it. */
  datatype MidiFile = MidiFile(format: int, ticksPerQuarterNote: int, tracks: seq<MidiTrack>, tracksCount: int)

  /** The file as the `src` copy exposes it: the format word is read and dropped. */
  datatype SrcMidiFile = SrcMidiFile(ticksPerQuarterNote: int, tracks: seq<MidiTrack>)

  /** The three 16-bit words of the header chunk, and where the first track chunk starts. */
  datatype Header = Header(format: int, tracksCount: int, ticksPerQuarterNote: int, next: int)

  const MThd: seq<Byte> := [0x4D, 0x54, 0x68, 0x64]

  /** The header checks in the order the constructor makes them. */
  function HeaderSpec(data: seq<Byte>): (r: Result<Header>)
    ensures r.Err? ==> r.error in {InvalidHeaderMagic, InvalidHeaderLength, UnsupportedTimingMode, OutOfBounds}
    ensures r.Ok? ==>
              && 14 <= |data| && r.value.next == 14
              && 0 <= r.value.format < 0x1_0000
              && 0 <= r.value.tracksCount < 0x1_0000
              && 0 <= r.value.ticksPerQuarterNote < 0x8000
  {
    var magic :- ReadStringSpec(data, 0, 4);
    if magic.v != "MThd" then Err(InvalidHeaderMagic)
    else
      var length :- Read32Spec(data, magic.next);
      if length.v != 6 then Err(InvalidHeaderLength)
      else
        var format :- Read16Spec(data, length.next);
        var tracksCount :- Read16Spec(data, format.next);
        var ticks :- Read16Spec(data, tracksCount.next);
        if ticks.v >= 0x8000 then Err(UnsupportedTimingMode)
        else Ok(Header(format.v, tracksCount.v, ticks.v, ticks.next))
  }

  /** Tracks `i` to `n - 1`, each decoded where the previous one stopped. */
  function TracksSpec(variant: VarIntVariant, data: seq<Byte>, pos: int, i: int, n: int): (r: Result<seq<MidiTrack>>)
    requires |data| <= MaxArrayLength
    requires i <= n
    ensures r.Err? ==> r.error in {InvalidTrackMagic, OutOfBounds, UnspecifiedConversion}
    ensures r.Ok? ==> |r.value| == n - i
    ensures r.Ok? ==> forall k :: 0 <= k < |r.value| ==> r.value[k].index == i + k
    decreases n - i, 1
  {
    if i == n then Ok([]) else NextTracks(variant, data, pos, i, n)
  }

  /** Track `i` decoded at `pos`, then the tracks after it from where it stopped. */
  function NextTracks(variant: VarIntVariant, data: seq<Byte>, pos: int, i: int, n: int): (r: Result<seq<MidiTrack>>)
    requires |data| <= MaxArrayLength
    requires i < n
    ensures r.Err? ==> r.error in {InvalidTrackMagic, OutOfBounds, UnspecifiedConversion}
    ensures r.Ok? ==> |r.value| == n - i
    ensures r.Ok? ==> forall k :: 0 <= k < |r.value| ==> r.value[k].index == i + k
    decreases n - i, 0
  {
    var track :- TrackSpec(variant, i, data, pos);
    var rest :- TracksSpec(variant, data, track.next, i + 1, n);
    Ok([track.v] + rest)
  }

  function MidiFileSpec(data: seq<Byte>): (r: Result<MidiFile>)
    requires |data| <= MaxArrayLength
    ensures r.Ok? ==> |r.value.tracks| == r.value.tracksCount
    ensures r.Ok? ==> forall k :: 0 <= k < |r.value.tracks| ==> r.value.tracks[k].index == k
  {
    var header :- HeaderSpec(data);
    var tracks :- TracksSpec(Masked, data, header.next, 0, header.tracksCount);
    Ok(MidiFile(header.format, header.ticksPerQuarterNote, tracks, header.tracksCount))
  }

  function SrcMidiFileSpec(data: seq<Byte>): (r: Result<SrcMidiFile>)
    requires |data| <= MaxArrayLength
    ensures r.Ok? ==> forall k :: 0 <= k < |r.value.tracks| ==> r.value.tracks[k].index == k
  {
    var header :- HeaderSpec(data);
    var tracks :- TracksSpec(Unmasked, data, header.next, 0, header.tracksCount);
    Ok(SrcMidiFile(header.ticksPerQuarterNote, tracks))
  }

  // ---------------------------------------------------------------------------
  // The constructors

  /** `xs` in front of the tracks of a successful decode; an error stays as it is. */
  function Prepend(xs: seq<MidiTrack>, r: Result<seq<MidiTrack>>): (p: Result<seq<MidiTrack>>)
    ensures p.Ok? <==> r.Ok?
    ensures p.Err? ==> p.error == r.error
    ensures p.Ok? ==> |p.value| == |xs| + |r.value| && p.value[..|xs|] == xs && p.value[|xs|..] == r.value
  {
    match r
    case Ok(ys) => Ok(xs + ys)
    case Err(e) => Err(e)
  }

  /**
   * Decodes the tracks of the header into a fresh array, as the constructor's
   * `for` loop fills `Tracks`.
   */
  method ParseTracks(variant: VarIntVariant, data: seq<Byte>, position: int, tracksCount: int)
    returns (r: Result<array<MidiTrack>>)
    requires |data| <= MaxArrayLength
    requires 0 <= tracksCount
    ensures r.Ok? ==> fresh(r.value)
    ensures  match TracksSpec(variant, data, position, 0, tracksCount)
             case Ok(tracks) => r.Ok? && r.value[..] == tracks
             case Err(e) => r == Err(e)
  {
    var tracks := new MidiTrack[tracksCount];
    var p := position;
    ghost var all := TracksSpec(variant, data, position, 0, tracksCount);
    ghost var done: seq<MidiTrack> := [];
    assert Prepend(done, all) == all;
    for i := 0 to tracksCount
      invariant tracks[..i] == done
      invariant Prepend(done, TracksSpec(variant, data, p, i, tracksCount)) == all
    {
      var track, p' := ParseNextTrack(variant, data, p, i, tracksCount, done);
      if track.Err? {
        return Err(track.error);
      }
      StoreTrack(tracks, i, track.value);
      done := done + [track.value];
      p := p';
    }
    assert tracks[..tracksCount] == tracks[..];
    r := Ok(tracks);
  }

  lemma TracksStep(variant: VarIntVariant, data: seq<Byte>, pos: int, i: int, n: int)
    requires |data| <= MaxArrayLength
    requires i < n
    ensures TracksSpec(variant, data, pos, i, n) ==
            match TrackSpec(variant, i, data, pos)
            case Ok(track) => Prepend([track.v], TracksSpec(variant, data, track.next, i + 1, n))
            case Err(e) => Err(e)
  {
  }

  /** `Tracks[i] = ...`: only cell `i` changes, so the filled prefix of the array grows by the new track. */
  method StoreTrack(tracks: array<MidiTrack>, i: int, track: MidiTrack)
    requires 0 <= i < tracks.Length
    modifies tracks
    ensures tracks[..i + 1] == old(tracks[..i]) + [track]
    ensures tracks[..] == old(tracks[..])[i := track]
  {
    tracks[i] := track;
    assert tracks[..i + 1] == tracks[..i] + [track];
  }

  /** One iteration of the constructor's `for` loop: `ParseTrack` for track `i`, seen as a step through `TracksSpec`. */
  method ParseNextTrack(variant: VarIntVariant, data: seq<Byte>, position: int, i: int, n: int, ghost done: seq<MidiTrack>)
    returns (track: Result<MidiTrack>, position': int)
    requires |data| <= MaxArrayLength
    requires i < n
    ensures track.Ok? ==>
              Prepend(done, TracksSpec(variant, data, position, i, n)) ==
              Prepend(done + [track.value], TracksSpec(variant, data, position', i + 1, n))
    ensures track.Err? ==> Prepend(done, TracksSpec(variant, data, position, i, n)) == Err(track.error)
  {
    track, position' := ParseTrack(variant, i, data, position);
    TracksAdvance(variant, data, position, i, n, done, track, position');
  }

  /** One more decoded track moves from the rest of the chunk list to the done prefix; an error ends it. */
  lemma TracksAdvance(variant: VarIntVariant, data: seq<Byte>, pos: int, i: int, n: int,
                      done: seq<MidiTrack>, track: Result<MidiTrack>, next: int)
    requires |data| <= MaxArrayLength
    requires i < n
    requires Agrees(track, next, TrackSpec(variant, i, data, pos))
    ensures track.Ok? ==>
              Prepend(done, TracksSpec(variant, data, pos, i, n)) ==
              Prepend(done + [track.value], TracksSpec(variant, data, next, i + 1, n))
    ensures track.Err? ==> Prepend(done, TracksSpec(variant, data, pos, i, n)) == Err(track.error)
  {
    TracksStep(variant, data, pos, i, n);
    if track.Ok? {
      PrependTwice(done, [track.value], TracksSpec(variant, data, next, i + 1, n));
    }
  }

  lemma PrependTwice(xs: seq<MidiTrack>, ys: seq<MidiTrack>, r: Result<seq<MidiTrack>>)
    ensures Prepend(xs, Prepend(ys, r)) == Prepend(xs + ys, r)
  {
    if r.Ok? {
      assert xs + (ys + r.value) == (xs + ys) + r.value;
    }
  }

  /** `MidiFile(byte[])` of the root copy. */
  method ParseMidiFile(data: seq<Byte>) returns (r: Result<MidiFile>)
    requires |data| <= MaxArrayLength
    ensures r == MidiFileSpec(data)
  {
    var header := ParseHeader(data);
    if header.Err? {
      return Err(header.error);
    }
    var tracks := ParseTracks(Masked, data, header.value.next, header.value.tracksCount);
    if tracks.Err? {
      return Err(tracks.error);
    }
    r := Ok(MidiFile(header.value.format, header.value.ticksPerQuarterNote, tracks.value[..], header.value.tracksCount));
  }

  /** `MidiFile(byte[])` of the `src` copy: the unmasked varint, and no `Format` or `TracksCount` kept. */
  method ParseSrcMidiFile(data: seq<Byte>) returns (r: Result<SrcMidiFile>)
    requires |data| <= MaxArrayLength
    ensures r == SrcMidiFileSpec(data)
  {
    var header := ParseHeader(data);
    if header.Err? {
      return Err(header.error);
    }
    var tracks := ParseTracks(Unmasked, data, header.value.next, header.value.tracksCount);
    if tracks.Err? {
      return Err(tracks.error);
    }
    r := Ok(SrcMidiFile(header.value.ticksPerQuarterNote, tracks.value[..]));
  }

  /** The header part of the constructor, through the cursor. */
  method ParseHeader(data: seq<Byte>) returns (r: Result<Header>)
    ensures r == HeaderSpec(data)
  {
    var magic, p := ReadString(data, 0, 4);
    if magic.Err? {
      return Err(magic.error);
    }
    if magic.value != "MThd" {
      return Err(InvalidHeaderMagic);
    }
    var length;
    length, p := Read32(data, p);
    if length.Err? {
      return Err(length.error);
    }
    if length.value != 6 {
      return Err(InvalidHeaderLength);
    }
    var format, tracksCount, ticksPerQuarterNote;
    format, p := Read16(data, p);
    if format.Err? {
      return Err(format.error);
    }
    tracksCount, p := Read16(data, p);
    if tracksCount.Err? {
      return Err(tracksCount.error);
    }
    ticksPerQuarterNote, p := Read16(data, p);
    if ticksPerQuarterNote.Err? {
      return Err(ticksPerQuarterNote.error);
    }
    // bit 15 of the division word selects SMPTE time code
    if ticksPerQuarterNote.value >= 0x8000 {
      return Err(UnsupportedTimingMode);
    }
    r := Ok(Header(format.value, tracksCount.value, ticksPerQuarterNote.value, p));
  }

  // ---------------------------------------------------------------------------
  // Properties of the constructor

  /**
   * The three header errors, each exactly when its check fails and the
   * earlier ones pass; a buffer shorter than the header is out of bounds.
   */
  lemma HeaderFailures(data: seq<Byte>)
    requires 14 <= |data|
    ensures HeaderSpec(data) == Err(InvalidHeaderMagic) <==> data[..4] != MThd
    ensures HeaderSpec(data) == Err(InvalidHeaderLength) <==> data[..4] == MThd && data[4..8] != [0, 0, 0, 6]
    ensures HeaderSpec(data) == Err(UnsupportedTimingMode) <==> data[..4] == MThd && data[4..8] == [0, 0, 0, 6] && data[12] >= 0x80
    ensures HeaderSpec(data).Ok? <==> data[..4] == MThd && data[4..8] == [0, 0, 0, 6] && data[12] < 0x80
  {
    MagicCheck(data);
    LengthCheck(data);
    DivisionCheck(data);
  }

  /** A header that passes the three checks yields its three big-endian words, and the tracks start at byte 14. */
  lemma HeaderFields(data: seq<Byte>)
    requires 14 <= |data|
    requires data[..4] == MThd && data[4..8] == [0, 0, 0, 6] && data[12] < 0x80
    ensures HeaderSpec(data) ==
            Ok(Header(BigEndian16(data[8], data[9]), BigEndian16(data[10], data[11]), BigEndian16(data[12], data[13]), 14))
  {
    MagicCheck(data);
    LengthCheck(data);
    DivisionCheck(data);
  }

  /** A single track decodes to the sequence holding it. */
  lemma OneTrack(variant: VarIntVariant, data: seq<Byte>, pos: int, track: Read<MidiTrack>)
    requires |data| <= MaxArrayLength
    requires TrackSpec(variant, 0, data, pos) == Ok(track)
    ensures TracksSpec(variant, data, pos, 0, 1) == Ok([track.v])
  {
    assert [track.v] + [] == [track.v];
  }

  lemma MagicCheck(data: seq<Byte>)
    requires 4 <= |data|
    ensures ReadStringSpec(data, 0, 4) == Ok(Read(AsciiString(data[..4]), 4))
    ensures AsciiString(data[..4]) == "MThd" <==> data[..4] == MThd
  {
    assert data[0..4] == data[..4];
    AsciiMatches(data[..4], MThd, "MThd");
  }

  /** The only four bytes whose signed big-endian value is 6 are 00 00 00 06. */
  lemma LengthCheck(data: seq<Byte>)
    requires 8 <= |data|
    ensures Read32Spec(data, 4).Ok?
    ensures Read32Spec(data, 4).value.v == 6 <==> data[4..8] == [0, 0, 0, 6]
  {
    var x := BigEndian32(data[4], data[5], data[6], data[7]);
    if x < 0x8000_0000 {
      assert Wrap32(x) == x;
    } else {
      assert Wrap32(x) == x - 0x1_0000_0000;
    }
    assert Read32Spec(data, 4).value.v == 6 <==> x == 6;
    assert data[4..8] == [data[4], data[5], data[6], data[7]];
  }

  /** Bit 15 of the division word is bit 7 of its first byte. */
  lemma DivisionCheck(data: seq<Byte>)
    requires 14 <= |data|
    ensures Read16Spec(data, 12).Ok?
    ensures Read16Spec(data, 12).value.v >= 0x8000 <==> data[12] >= 0x80
  {
  }

  lemma ShortHeader(data: seq<Byte>)
    requires |data| < 14
    ensures HeaderSpec(data).Err?
  {
  }

  /**
   * A decoded file has `TracksCount` tracks, track `i` has index `i`, and
   * every track's events are well formed and in time order.
   */
  lemma MidiFileTracks(data: seq<Byte>)
    requires |data| <= MaxArrayLength
    requires MidiFileSpec(data).Ok?
    ensures var file := MidiFileSpec(data).value;
            && |file.tracks| == file.tracksCount
            && file.tracksCount == BigEndian16(data[10], data[11])
            && file.format == BigEndian16(data[8], data[9])
            && file.ticksPerQuarterNote == BigEndian16(data[12], data[13])
            && forall k :: 0 <= k < |file.tracks| ==>
                 && file.tracks[k].index == k
                 && WellFormedTrack(file.tracks[k])
  {
    var header := HeaderSpec(data).value;
    TracksGood(Masked, data, header.next, 0, header.tracksCount);
  }

  lemma {:induction false} TracksGood(variant: VarIntVariant, data: seq<Byte>, pos: int, i: int, n: int)
    requires |data| <= MaxArrayLength
    requires i <= n
    requires TracksSpec(variant, data, pos, i, n).Ok?
    ensures forall k :: 0 <= k < n - i ==> WellFormedTrack(TracksSpec(variant, data, pos, i, n).value[k])
    decreases n - i
  {
    if i < n {
      TracksStep(variant, data, pos, i, n);
      var track := TrackSpec(variant, i, data, pos).value;
      TrackWellFormed(variant, i, data, pos);
      TracksGood(variant, data, track.next, i + 1, n);
      assert TracksSpec(variant, data, pos, i, n).value == [track.v] + TracksSpec(variant, data, track.next, i + 1, n).value;
    }
  }

  /**
   * The `src` copy accepts and rejects headers exactly as the root copy does,
   * and its tracks are as well formed.
   */
  lemma SameHeaderChecks(data: seq<Byte>)
    requires |data| <= MaxArrayLength
    ensures HeaderSpec(data).Err? ==>
              MidiFileSpec(data) == Err(HeaderSpec(data).error) && SrcMidiFileSpec(data) == Err(HeaderSpec(data).error)
    ensures SrcMidiFileSpec(data).Ok? ==>
              && |SrcMidiFileSpec(data).value.tracks| == BigEndian16(data[10], data[11])
              && SrcMidiFileSpec(data).value.ticksPerQuarterNote == BigEndian16(data[12], data[13])
              && forall k :: 0 <= k < |SrcMidiFileSpec(data).value.tracks| ==> WellFormedTrack(SrcMidiFileSpec(data).value.tracks[k])
  {
    if SrcMidiFileSpec(data).Ok? {
      var header := HeaderSpec(data).value;
      TracksGood(Unmasked, data, header.next, 0, header.tracksCount);
    }
  }
}
