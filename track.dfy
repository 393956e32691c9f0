/**
 * The track decoder (`ParseTrack` and `ParseMetaEvent` of both copies). A
 * specification function gives the effect of one iteration of the event loop
 * (`Step`) and of the whole loop (`Run`); the methods `ParseMetaEvent` and
 * `ParseTrack` follow the source statement by statement and are proved equal
 * to them; the lemmas state what every decoded track satisfies.
 */
module SmfTrack {
  import opened SmfTypes
  import opened SmfReader

  /** What `ParseMetaEvent` returns: `false`, or `true` with its two `ref byte` results. */
  datatype MetaPayload = Skipped | Recognised(data1: Byte, data2: Byte)

  /** The loop registers of `ParseTrack` and the two event lists it appends to. */
  datatype TrackState = TrackState(
    pos: int,
    time: int,
    status: Byte,
    midiEvents: seq<MidiEvent>,
    textEvents: seq<TextEvent>)

  /** `Math.Pow(2.0, e)` on a non-negative integer exponent. */
  function Pow2(e: nat): (r: nat)
    ensures 1 <= r
    ensures e < 8 ==> r == [1, 2, 4, 8, 16, 32, 64, 128][e]
  {
    if e == 0 then 1 else 2 * Pow2(e - 1)
  }

  lemma {:induction false} Pow2Monotone(e: nat, k: nat)
    requires e <= k
    ensures Pow2(e) <= Pow2(k)
    decreases k
  {
    if e < k {
      Pow2Monotone(e, k - 1);
    }
  }

  /** `(eventType & 0xE0) == 0xC0`: ProgramChange and ChannelAfterTouch carry one data byte. */
  predicate OneDataByte(eventType: Byte)
    ensures OneDataByte(eventType) <==> 0xC0 <= eventType < 0xE0
  {
    eventType / 0x20 == 6
  }

  /** The number of data bytes a channel event with this status carries. */
  function DataBytes(status: Byte): (n: int)
    ensures n == (if status / 0x10 == 0xC || status / 0x10 == 0xD then 1 else 2)
  {
    if OneDataByte(status / 0x10 * 0x10) then 1 else 2
  }

  // ---------------------------------------------------------------------------
  // What a decoded event looks like

  /**
   * A channel event: its type is a status high nibble no larger than 0xE0,
   * its channel is 1..16, a note-on never has velocity 0, and a one-data-byte
   * event has `arg3 == 0`.
   */
  predicate ChannelEventShape(e: MidiEvent)
  {
    && e.kind % 0x10 == 0 && e.kind <= PitchBendChange
    && 1 <= e.arg1 <= 16
    && (e.kind == NoteOn ==> e.arg3 != 0)
    && (OneDataByte(e.kind) ==> e.arg3 == 0)
  }

  /** One of the three interpreted meta events, with tempo's `arg3 == 0`. */
  predicate MetaEventShape(e: MidiEvent)
  {
    && e.kind == MetaEvent
    && (e.arg1 == MetaTempo || e.arg1 == MetaTimeSignature || e.arg1 == MetaKeySignature)
    && (e.arg1 == MetaTempo ==> e.arg3 == 0)
    && (e.arg1 == MetaTimeSignature ==> 1 <= e.arg3)
  }

  predicate WellFormedEvent(e: MidiEvent)
  {
    ChannelEventShape(e) || MetaEventShape(e)
  }

  predicate IsTextType(kind: Byte)
  {
    0x01 <= kind <= 0x0F
  }

  /**
   * `t` is `s` with at most one event appended to one of the lists; the new
   * event carries `t`'s time, is well formed, and a new channel event's type
   * comes from `t`'s status register.
   */
  predicate Extends(s: TrackState, t: TrackState)
  {
    && |s.midiEvents| <= |t.midiEvents| && t.midiEvents[..|s.midiEvents|] == s.midiEvents
    && |s.textEvents| <= |t.textEvents| && t.textEvents[..|s.textEvents|] == s.textEvents
    && |t.midiEvents| - |s.midiEvents| + |t.textEvents| - |s.textEvents| <= 1
    && (forall k :: |s.midiEvents| <= k < |t.midiEvents| ==>
          && t.midiEvents[k].time == t.time
          && WellFormedEvent(t.midiEvents[k])
          && (t.midiEvents[k].kind == MetaEvent || t.midiEvents[k].kind == NoteOff ||
              t.midiEvents[k].kind == t.status / 0x10 * 0x10))
    && (forall k :: |s.textEvents| <= k < |t.textEvents| ==>
          t.textEvents[k].time == t.time && IsTextType(t.textEvents[k].kind))
  }

  // ---------------------------------------------------------------------------
  // Specification of one loop iteration

  /**
   * `ParseMetaEvent`: the three fixed-length meta events skip their length
   * byte (`pos` points at it) and read the payload after it; every other type
   * skips a length-prefixed payload. `60000000.0 / mspqn` cast to `byte` is the
   * truncated quotient when that fits a byte; otherwise, as for `2^e` with
   * `e > 7`, C# leaves the converted value unspecified.
   */
  function MetaEventSpec(variant: VarIntVariant, data: seq<Byte>, pos: int, metaType: Byte): (r: Result<Read<MetaPayload>>)
    ensures r.Err? ==> r.error == OutOfBounds || r.error == UnspecifiedConversion
    ensures r.Ok? && metaType == MetaTempo ==>
              && 0 <= pos + 1 && pos + 4 <= |data| && r.value.next == pos + 4
              && r.value.v.Recognised? && r.value.v.data2 == 0
              && BeatsPerMinute(Tempo(data[pos + 1], data[pos + 2], data[pos + 3])) == Ok(r.value.v.data1)
    ensures r.Ok? && metaType == MetaTimeSignature ==>
              && 0 <= pos + 1 && pos + 3 <= |data| && r.value.next == pos + 5
              && r.value.v.Recognised? && r.value.v.data1 == data[pos + 1]
              && data[pos + 2] <= 7 && r.value.v.data2 == Pow2(data[pos + 2])
    ensures r.Ok? && metaType == MetaKeySignature ==>
              && 0 <= pos + 1 && pos + 3 <= |data| && r.value.next == pos + 3
              && r.value.v == Recognised(data[pos + 1], data[pos + 2])
    ensures r.Ok? && metaType != MetaTempo && metaType != MetaTimeSignature && metaType != MetaKeySignature ==>
              && r.value.v == Skipped
              && var length := ReadVarIntSpec(variant, data, pos);
                 length.Ok? && r.value.next == Wrap32(length.value.next + length.value.v)
    ensures metaType == MetaTempo ==>
              (r.Ok? <==> 0 <= pos + 1 && pos + 4 <= |data|
                          && BeatsPerMinute(Tempo(data[pos + 1], data[pos + 2], data[pos + 3])).Ok?)
    ensures metaType == MetaTimeSignature ==> (r.Ok? <==> 0 <= pos + 1 && pos + 3 <= |data| && data[pos + 2] <= 7)
    ensures metaType == MetaKeySignature ==> (r.Ok? <==> 0 <= pos + 1 && pos + 3 <= |data|)
    ensures metaType != MetaTempo && metaType != MetaTimeSignature && metaType != MetaKeySignature ==>
              (r.Ok? <==> ReadVarIntSpec(variant, data, pos).Ok?)
    ensures r.Err? && r.error == UnspecifiedConversion ==> metaType == MetaTempo || metaType == MetaTimeSignature
  {
    if metaType == MetaTempo then
      if !(0 <= pos + 1 && pos + 3 < |data|) then Err(OutOfBounds)
      else
        var bpm :- BeatsPerMinute(Tempo(data[pos + 1], data[pos + 2], data[pos + 3]));
        Ok(Read(Recognised(bpm, 0), pos + 4))
    else if metaType == MetaTimeSignature then
      if !(0 <= pos + 1 && pos + 2 < |data|) then Err(OutOfBounds)
      else if data[pos + 2] > 7 then Err(UnspecifiedConversion)
      else
        Pow2Monotone(data[pos + 2], 7);
        Ok(Read(Recognised(data[pos + 1], Pow2(data[pos + 2])), pos + 5))
    else if metaType == MetaKeySignature then
      if !(0 <= pos + 1 && pos + 2 < |data|) then Err(OutOfBounds)
      else Ok(Read(Recognised(data[pos + 1], data[pos + 2]), pos + 3))
    else
      var length :- ReadVarIntSpec(variant, data, pos);
      Ok(Read(Skipped, Wrap32(length.next + length.v)))
  }

  /**
   * `(byte)(60000000.0 / mspqn)`: the quarter notes per minute, truncated.
   * The double quotient of two integers below 2^26 lies at least 2^-24 from
   * the next integer, so it truncates as the exact quotient does; a quotient
   * of 256 or more (or a zero divisor) has no specified byte value.
   */
  function BeatsPerMinute(mspqn: int): (r: Result<Byte>)
    requires 0 <= mspqn
    ensures r.Err? <==> mspqn == 0 || 256 * mspqn <= 60_000_000
    ensures r.Err? ==> r.error == UnspecifiedConversion
    ensures r.Ok? ==> r.value * mspqn <= 60_000_000 < (r.value + 1) * mspqn
  {
    if mspqn == 0 then Err(UnspecifiedConversion)
    else
      QuotientBounds(60_000_000, mspqn);
      if 60_000_000 / mspqn > 0xFF then Err(UnspecifiedConversion)
      else Ok(60_000_000 / mspqn)
  }

  lemma QuotientBounds(n: nat, d: int)
    requires 0 < d
    ensures (n / d) * d <= n < (n / d + 1) * d
    ensures n / d > 0xFF <==> 256 * d <= n
  {
    assert n == (n / d) * d + n % d;
    if n / d > 0xFF {
      assert (n / d) * d >= 256 * d;
    }
  }

  /** The tempo payload: microseconds per quarter note, `(b0 << 16) | (b1 << 8) | b2`. */
  function Tempo(b0: Byte, b1: Byte, b2: Byte): (r: int)
    ensures 0 <= r < 0x100_0000
    ensures r / 0x1_0000 == b0 as int && r / 0x100 % 0x100 == b1 as int && r % 0x100 == b2 as int
  {
    b0 as int * 0x1_0000 + b1 as int * 0x100 + b2 as int
  }

  /**
   * A channel event under `status` whose data bytes start at `pos`: type is
   * the status high nibble (note-on with velocity 0 becoming note-off), the
   * channel is the low nibble plus one.
   */
  function ChannelEventSpec(data: seq<Byte>, pos: int, time: int, status: Byte, s: TrackState): (r: Result<TrackState>)
    requires status < 0xF0
    ensures r.Ok? <==> 0 <= pos && pos + DataBytes(status) <= |data|
    ensures r.Err? ==> r.error == OutOfBounds
    ensures r.Ok? ==>
              && r.value.pos == pos + DataBytes(status)
              && r.value.time == time && r.value.status == status
              && r.value.textEvents == s.textEvents
              && |r.value.midiEvents| == |s.midiEvents| + 1
              && r.value.midiEvents[..|s.midiEvents|] == s.midiEvents
              && var e := r.value.midiEvents[|s.midiEvents|];
                 && e.time == time
                 && e.arg1 == status % 0x10 + 1
                 && e.arg2 == data[pos]
                 && e.arg3 == (if DataBytes(status) == 1 then 0 else data[pos + 1])
                 && e.kind == (if status / 0x10 * 0x10 == NoteOn && e.arg3 == 0 then NoteOff else status / 0x10 * 0x10)
  {
    var eventType: Byte := status / 0x10 * 0x10;
    var channel: Byte := status % 0x10 + 1;
    var data1 :- Read8Spec(data, pos);
    var data2 :- if OneDataByte(eventType) then Ok(Read(0, data1.next)) else Read8Spec(data, data1.next);
    var kind := if eventType == NoteOn && data2.v == 0 then NoteOff else eventType;
    Ok(TrackState(data2.next, time, status, s.midiEvents + [MidiEvent(time, kind, channel, data1.v, data2.v)], s.textEvents))
  }

  /** A meta event (status 0xFF) whose type byte is at `pos`. */
  function MetaBranchSpec(variant: VarIntVariant, data: seq<Byte>, pos: int, time: int, s: TrackState): (r: Result<TrackState>)
    requires |data| <= MaxArrayLength
    ensures r.Err? ==> r.error == OutOfBounds || r.error == UnspecifiedConversion
    ensures r.Ok? ==> r.value.time == time && r.value.status == MetaEvent
    ensures r.Ok? ==> Extends(s, r.value)
    ensures r.Ok? ==> 0 <= pos < |data| && (pos < r.value.pos || r.value.pos < 0) && IsInt32(r.value.pos)
  {
    var metaType :- Read8Spec(data, pos);
    if 0x01 <= metaType.v <= 0x0F then
      var length :- ReadVarIntSpec(variant, data, metaType.next);
      var text :- ReadStringSpec(data, length.next, length.v);
      Ok(TrackState(text.next, time, MetaEvent, s.midiEvents, s.textEvents + [TextEvent(time, metaType.v, text.v)]))
    else
      var meta :- MetaEventSpec(variant, data, metaType.next, metaType.v);
      var events :=
        if meta.v.Recognised? then s.midiEvents + [MidiEvent(time, MetaEvent, metaType.v, meta.v.data1, meta.v.data2)]
        else s.midiEvents;
      Ok(TrackState(meta.next, time, MetaEvent, events, s.textEvents))
  }

  /**
   * A text meta event appends one text event holding the varint-prefixed
   * string; any other meta event appends nothing to the text list and, for
   * tempo, time signature and key signature only, one meta event.
   */
  lemma MetaBranchEffect(variant: VarIntVariant, data: seq<Byte>, pos: int, time: int, s: TrackState, t: TrackState)
    requires |data| <= MaxArrayLength
    requires MetaBranchSpec(variant, data, pos, time, s) == Ok(t)
    ensures 0 <= pos < |data|
    ensures IsTextType(data[pos]) ==>
              && t.midiEvents == s.midiEvents
              && var length := ReadVarIntSpec(variant, data, pos + 1);
                 && length.Ok? && t.pos == length.value.next + length.value.v <= |data|
                 && t.textEvents ==
                    s.textEvents + [TextEvent(time, data[pos], AsciiString(data[length.value.next..t.pos]))]
    ensures !IsTextType(data[pos]) ==>
              && t.textEvents == s.textEvents
              && var meta := MetaEventSpec(variant, data, pos + 1, data[pos]);
                 && meta.Ok? && t.pos == meta.value.next
                 && if data[pos] == MetaTempo || data[pos] == MetaTimeSignature || data[pos] == MetaKeySignature then
                      t.midiEvents ==
                      s.midiEvents + [MidiEvent(time, MetaEvent, data[pos], meta.value.v.data1, meta.value.v.data2)]
                    else t.midiEvents == s.midiEvents
  {
  }

  /**
   * When a meta event decodes: its type byte must be in the buffer; a text
   * type needs its varint length and then that many bytes; any other type
   * succeeds exactly when `ParseMetaEvent` does.
   */
  lemma MetaBranchSuccess(variant: VarIntVariant, data: seq<Byte>, pos: int, time: int, s: TrackState)
    requires |data| <= MaxArrayLength
    ensures !(0 <= pos < |data|) ==> MetaBranchSpec(variant, data, pos, time, s) == Err(OutOfBounds)
    ensures 0 <= pos < |data| && IsTextType(data[pos]) ==>
              (MetaBranchSpec(variant, data, pos, time, s).Ok? <==>
               var length := ReadVarIntSpec(variant, data, pos + 1);
               length.Ok? && length.value.next + length.value.v <= |data|)
    ensures 0 <= pos < |data| && !IsTextType(data[pos]) ==>
              (MetaBranchSpec(variant, data, pos, time, s).Ok? <==> MetaEventSpec(variant, data, pos + 1, data[pos]).Ok?)
  {
  }

  /**
   * One iteration of the event loop of `ParseTrack`: the delta time, the
   * running-status rule, and the dispatch on the status register.
   */
  function Step(variant: VarIntVariant, data: seq<Byte>, s: TrackState): (r: Result<TrackState>)
    requires |data| <= MaxArrayLength
    ensures r.Err? ==> r.error == OutOfBounds || r.error == UnspecifiedConversion
    ensures r.Ok? ==> 0 <= s.pos && (s.pos < r.value.pos || r.value.pos < 0)
    ensures r.Ok? ==> IsInt32(r.value.pos)
    ensures r.Ok? ==> s.time <= r.value.time
    ensures r.Ok? ==> r.value.status == s.status || 0x80 <= r.value.status
  {
    var delta :- ReadVarIntSpec(variant, data, s.pos);
    var time := s.time + delta.v;
    if !(0 <= delta.next < |data|) then Err(OutOfBounds)
    else
      var peek := data[delta.next];
      var status := if peek >= 0x80 then peek else s.status;
      var pos := if peek >= 0x80 then delta.next + 1 else delta.next;
      DispatchSpec(variant, data, pos, time, status, s)
  }

  /** Once the delta time and the status byte are read, `Step` is the dispatch on the status register. */
  lemma StepIsDispatch(variant: VarIntVariant, data: seq<Byte>, s: TrackState)
    requires |data| <= MaxArrayLength
    requires ReadVarIntSpec(variant, data, s.pos).Ok?
    requires ReadVarIntSpec(variant, data, s.pos).value.next < |data|
    ensures var delta := ReadVarIntSpec(variant, data, s.pos).value;
            var d := delta.next;
            Step(variant, data, s) ==
              DispatchSpec(variant, data, if data[d] >= 0x80 then d + 1 else d, s.time + delta.v,
                           if data[d] >= 0x80 then data[d] else s.status, s)
  {
  }

  /** One iteration appends at most one well-formed event, stamped with the new clock. */
  lemma StepExtends(variant: VarIntVariant, data: seq<Byte>, s: TrackState)
    requires |data| <= MaxArrayLength
    requires Step(variant, data, s).Ok?
    ensures Extends(s, Step(variant, data, s).value)
  {
    StepIsDispatch(variant, data, s);
  }

  /** The four paths of the loop body, once the status register is settled and `pos` is past it. */
  function DispatchSpec(variant: VarIntVariant, data: seq<Byte>, pos: int, time: int, status: Byte, s: TrackState): (r: Result<TrackState>)
    requires |data| <= MaxArrayLength
    requires 0 <= pos <= |data|
    ensures r.Err? ==> r.error == OutOfBounds || r.error == UnspecifiedConversion
    ensures r.Ok? ==> (pos < r.value.pos || r.value.pos < 0) && IsInt32(r.value.pos)
    ensures r.Ok? ==> r.value.time == time && r.value.status == status
    ensures r.Ok? ==> Extends(s, r.value)
  {
    if status < 0xF0 then
      ChannelEventSpec(data, pos, time, status, s)
    else if status == MetaEvent then
      MetaBranchSpec(variant, data, pos, time, s)
    else if status == SysEx || status == SysExEscape then
      var length :- ReadVarIntSpec(variant, data, pos);
      Ok(TrackState(Wrap32(length.next + length.v), time, status, s.midiEvents, s.textEvents))
    else
      Ok(TrackState(pos + 1, time, status, s.midiEvents, s.textEvents))
  }

  /** The loop variant: the bytes left before `trackEnd`, and 0 once the cursor has wrapped negative. */
  function Remaining(trackEnd: int, pos: int): (r: nat)
  {
    if pos < 0 || trackEnd < pos then 0 else trackEnd - pos + 1
  }

  /** `while (position < trackEnd)` over `Step`. */
  function Run(variant: VarIntVariant, data: seq<Byte>, trackEnd: int, s: TrackState): (r: Result<TrackState>)
    requires |data| <= MaxArrayLength
    ensures r.Err? ==> r.error == OutOfBounds || r.error == UnspecifiedConversion
    ensures r.Ok? ==> trackEnd <= r.value.pos
    decreases Remaining(trackEnd, s.pos)
  {
    if trackEnd <= s.pos then Ok(s)
    else
      var next :- Step(variant, data, s);
      Run(variant, data, trackEnd, next)
  }

  const MTrk: seq<Byte> := [0x4D, 0x54, 0x72, 0x6B]

  /** Where the event loop of a track chunk starting at `pos` stops: `position + trackLength` in C# `int`. */
  function TrackEnd(data: seq<Byte>, pos: int): (r: int)
    requires 0 <= pos && pos + 8 <= |data|
    ensures IsInt32(r)
    ensures var end := pos + 8 + Read32Spec(data, pos + 4).value.v;
            && (end - r) % 0x1_0000_0000 == 0
            && (IsInt32(end) ==> r == end)
  {
    Wrap32(pos + 8 + Read32Spec(data, pos + 4).value.v)
  }

  /**
   * The chunk header of `ParseTrack`: the `MTrk` magic and the signed chunk
   * length; the result is where the event loop stops, and the cursor just
   * past the length field.
   */
  function TrackChunkSpec(data: seq<Byte>, pos: int): (r: Result<Read<int>>)
    ensures r.Err? ==> r.error == InvalidTrackMagic || r.error == OutOfBounds
    ensures r.Err? && r.error == InvalidTrackMagic <==>
              0 <= pos && pos + 4 <= |data| && data[pos..pos + 4] != MTrk
    ensures r.Ok? <==> 0 <= pos && pos + 8 <= |data| && data[pos..pos + 4] == MTrk
    ensures r.Ok? ==> r.value == Read(TrackEnd(data, pos), pos + 8)
  {
    var magic :- ReadStringSpec(data, pos, 4);
    AsciiMatches(data[pos..pos + 4], MTrk, "MTrk");
    if magic.v != "MTrk" then Err(InvalidTrackMagic)
    else
      var length :- Read32Spec(data, magic.next);
      Ok(Read(Wrap32(length.next + length.v), length.next))
  }

  /** `ParseTrack`: the chunk header, then the event loop from a zero clock and a zero status register. */
  function TrackSpec(variant: VarIntVariant, index: int, data: seq<Byte>, pos: int): (r: Result<Read<MidiTrack>>)
    requires |data| <= MaxArrayLength
    ensures r.Err? ==> r.error == InvalidTrackMagic || r.error == OutOfBounds || r.error == UnspecifiedConversion
    ensures r.Err? && r.error == InvalidTrackMagic <==>
              0 <= pos && pos + 4 <= |data| && data[pos..pos + 4] != MTrk
    ensures r.Ok? ==>
              && r.value.v.index == index
              && 0 <= pos && pos + 8 <= |data| && data[pos..pos + 4] == MTrk
              && TrackEnd(data, pos) <= r.value.next
  {
    var chunk :- TrackChunkSpec(data, pos);
    var s :- Run(variant, data, chunk.v, TrackState(chunk.next, 0, 0, [], []));
    Ok(Read(MidiTrack(index, s.midiEvents, s.textEvents), s.pos))
  }

  // ---------------------------------------------------------------------------
  // The methods

  /** `ParseMetaEvent`, with its `bool` result and `ref byte` outputs folded into one payload. */
  method ParseMetaEvent(variant: VarIntVariant, data: seq<Byte>, position: int, metaType: Byte)
    returns (r: Result<MetaPayload>, position': int)
    ensures Agrees(r, position', MetaEventSpec(variant, data, position, metaType))
  {
    position' := position;
    if metaType == MetaTempo {
      if !(0 <= position + 1 && position + 3 < |data|) {
        return Err(OutOfBounds), position';
      }
      var microsecondsPerQuarterNote := Tempo(data[position + 1], data[position + 2], data[position + 3]);
      var bpm := BeatsPerMinute(microsecondsPerQuarterNote);
      if bpm.Err? {
        return Err(bpm.error), position';
      }
      r := Ok(Recognised(bpm.value, 0));
      position' := position + 4;
    } else if metaType == MetaTimeSignature {
      if !(0 <= position + 1 && position + 2 < |data|) {
        return Err(OutOfBounds), position';
      }
      var exponent := data[position + 2];
      if exponent > 7 {
        return Err(UnspecifiedConversion), position';
      }
      Pow2Monotone(exponent, 7);
      r := Ok(Recognised(data[position + 1], Pow2(exponent)));
      position' := position + 5;
    } else if metaType == MetaKeySignature {
      if !(0 <= position + 1 && position + 2 < |data|) {
        return Err(OutOfBounds), position';
      }
      r := Ok(Recognised(data[position + 1], data[position + 2]));
      position' := position + 3;
    } else {
      var length;
      length, position' := ReadVarInt(variant, data, position);
      if length.Err? {
        return Err(length.error), position';
      }
      position' := Wrap32(position' + length.value);
      r := Ok(Skipped);
    }
  }

  /**
   * `ParseTrack`: checks the `MTrk` magic, reads the chunk length, and runs
   * the event loop, appending to the two event lists.
   */
  method ParseTrack(variant: VarIntVariant, index: int, data: seq<Byte>, position: int)
    returns (r: Result<MidiTrack>, position': int)
    requires |data| <= MaxArrayLength
    ensures Agrees(r, position', TrackSpec(variant, index, data, position))
  {
    var magic, p := ReadString(data, position, 4);
    if magic.Err? {
      return Err(magic.error), p;
    }
    if magic.value != "MTrk" {
      return Err(InvalidTrackMagic), p;
    }
    var trackLength;
    trackLength, p := Read32(data, p);
    if trackLength.Err? {
      return Err(trackLength.error), p;
    }
    var trackEnd := Wrap32(p + trackLength.value);
    ghost var start := TrackState(p, 0, 0, [], []);
    assert TrackChunkSpec(data, position) == Ok(Read(trackEnd, p));
    assert TrackSpec(variant, index, data, position) ==
      (match Run(variant, data, trackEnd, start)
       case Ok(s) => Ok(Read(MidiTrack(index, s.midiEvents, s.textEvents), s.pos))
       case Err(e) => Err(e));

    var time := 0;
    var status: Byte := 0;
    var midiEvents: seq<MidiEvent> := [];
    var textEvents: seq<TextEvent> := [];
    while p < trackEnd
      invariant Run(variant, data, trackEnd, TrackState(p, time, status, midiEvents, textEvents))
             == Run(variant, data, trackEnd, start)
      decreases Remaining(trackEnd, p)
    {
      var next := ParseEvent(variant, data, p, time, status, midiEvents, textEvents);
      if next.Err? {
        return Err(next.error), p;
      }
      p, time, status, midiEvents, textEvents :=
        next.value.pos, next.value.time, next.value.status, next.value.midiEvents, next.value.textEvents;
    }
    r := Ok(MidiTrack(index, midiEvents, textEvents));
    position' := p;
  }

  /** One iteration of the event loop of `ParseTrack`, on its registers; the result holds their new values. */
  method ParseEvent(variant: VarIntVariant, data: seq<Byte>, position: int, time: int, status: Byte,
                    midiEvents: seq<MidiEvent>, textEvents: seq<TextEvent>)
    returns (r: Result<TrackState>)
    requires |data| <= MaxArrayLength
    ensures r == Step(variant, data, TrackState(position, time, status, midiEvents, textEvents))
  {
    var before := TrackState(position, time, status, midiEvents, textEvents);
    var delta, p := ReadVarInt(variant, data, position);
    if delta.Err? {
      return Err(delta.error);
    }
    assert ReadVarIntSpec(variant, data, position) == Ok(Read(delta.value, p));
    var time' := time + delta.value;
    if !(0 <= p < |data|) {
      return Err(OutOfBounds);
    }
    var status' := status;
    var peekByte := data[p];
    // a byte with bit 7 set is a new status byte; otherwise it is the first data byte
    if peekByte >= 0x80 {
      status' := peekByte;
      p := p + 1;
    }
    StepIsDispatch(variant, data, before);
    r := DispatchEvent(variant, data, p, time', status', before);
  }

  /** The dispatch on the status register in the loop body of `ParseTrack`. */
  method DispatchEvent(variant: VarIntVariant, data: seq<Byte>, position: int, time: int, status: Byte, s: TrackState)
    returns (r: Result<TrackState>)
    requires |data| <= MaxArrayLength
    requires 0 <= position <= |data|
    ensures r == DispatchSpec(variant, data, position, time, status, s)
  {
    if status < 0xF0 {
      var event, p := ParseChannelEvent(data, position, status);
      if event.Err? {
        return Err(event.error);
      }
      r := Ok(TrackState(p, time, status, s.midiEvents + [event.value.(time := time)], s.textEvents));
      assert r == ChannelEventSpec(data, position, time, status, s);
    } else if status == MetaEvent {
      r := ParseMetaBranch(variant, data, position, time, s);
    } else if status == SysEx || status == SysExEscape {
      var length, p := ReadVarInt(variant, data, position);
      if length.Err? {
        return Err(length.error);
      }
      r := Ok(TrackState(Wrap32(p + length.value), time, status, s.midiEvents, s.textEvents));
    } else {
      r := Ok(TrackState(position + 1, time, status, s.midiEvents, s.textEvents));
    }
  }

  /** The meta-event branch of the loop body: a text event, an interpreted meta event, or a skipped one. */
  method ParseMetaBranch(variant: VarIntVariant, data: seq<Byte>, position: int, time: int, s: TrackState)
    returns (r: Result<TrackState>)
    requires |data| <= MaxArrayLength
    ensures r == MetaBranchSpec(variant, data, position, time, s)
  {
    var metaEventType, p := Read8(data, position);
    if metaEventType.Err? {
      return Err(metaEventType.error);
    }
    // meta types 0x01..0x0F are the text events, kept in their own list
    if 0x01 <= metaEventType.value <= 0x0F {
      var textLength;
      textLength, p := ReadVarInt(variant, data, p);
      if textLength.Err? {
        return Err(textLength.error);
      }
      var textValue;
      textValue, p := ReadString(data, p, textLength.value);
      if textValue.Err? {
        return Err(textValue.error);
      }
      r := Ok(TrackState(p, time, MetaEvent, s.midiEvents, s.textEvents + [TextEvent(time, metaEventType.value, textValue.value)]));
    } else {
      var meta;
      meta, p := ParseMetaEvent(variant, data, p, metaEventType.value);
      if meta.Err? {
        return Err(meta.error);
      }
      var midiEvents := s.midiEvents;
      if meta.value.Recognised? {
        midiEvents := midiEvents + [MidiEvent(time, MetaEvent, metaEventType.value, meta.value.data1, meta.value.data2)];
      }
      r := Ok(TrackState(p, time, MetaEvent, midiEvents, s.textEvents));
    }
  }

  /**
   * The channel-event branch of the loop body, with its data bytes read
   * through the cursor; its result is the event without its time.
   */
  method ParseChannelEvent(data: seq<Byte>, position: int, status: Byte) returns (r: Result<MidiEvent>, position': int)
    requires status < 0xF0
    ensures r.Ok? ==> r.value.time == 0
    ensures var spec := ChannelEventSpec(data, position, 0, status, TrackState(0, 0, 0, [], []));
            match spec
            case Ok(t) => r == Ok(t.midiEvents[0]) && position' == t.pos
            case Err(e) => r == Err(e)
  {
    var eventType: Byte := status / 0x10 * 0x10;
    var channel: Byte := status % 0x10 + 1;
    var data1;
    data1, position' := Read8(data, position);
    if data1.Err? {
      return Err(data1.error), position';
    }
    var data2: Byte := 0;
    if !OneDataByte(eventType) {
      var second;
      second, position' := Read8(data, position');
      if second.Err? {
        return Err(second.error), position';
      }
      data2 := second.value;
    }
    if eventType == NoteOn && data2 == 0 {
      eventType := NoteOff;
    }
    r := Ok(MidiEvent(0, eventType, channel, data1.value, data2));
  }
}
