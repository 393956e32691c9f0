/**
 * What every decoded track satisfies: well-formed events in time order with
 * non-negative times, the running-status rule, and the paths of the loop
 * body that emit nothing.
 */
module SmfTrackFacts {
  import opened SmfTypes
  import opened SmfReader
  import opened SmfTrack

  predicate MidiTimesOrdered(events: seq<MidiEvent>)
  {
    forall j, k :: 0 <= j < k < |events| ==> events[j].time <= events[k].time
  }

  predicate TextTimesOrdered(events: seq<TextEvent>)
  {
    forall j, k :: 0 <= j < k < |events| ==> events[j].time <= events[k].time
  }

  /**
   * The invariant of the event loop: the clock is non-negative, every event
   * so far is well formed and stamped between 0 and the clock, and both lists
   * are in time order.
   */
  predicate Good(s: TrackState)
  {
    && 0 <= s.time
    && (forall k :: 0 <= k < |s.midiEvents| ==>
          WellFormedEvent(s.midiEvents[k]) && 0 <= s.midiEvents[k].time <= s.time)
    && (forall k :: 0 <= k < |s.textEvents| ==>
          IsTextType(s.textEvents[k].kind) && 0 <= s.textEvents[k].time <= s.time)
    && MidiTimesOrdered(s.midiEvents)
    && TextTimesOrdered(s.textEvents)
  }

  /**
   * Every event is a well-formed channel or meta event, or a text event of
   * type 0x01..0x0F; all times are non-negative; both lists are in time order.
   */
  predicate WellFormedTrack(track: MidiTrack)
  {
    && (forall k :: 0 <= k < |track.midiEvents| ==>
          WellFormedEvent(track.midiEvents[k]) && 0 <= track.midiEvents[k].time)
    && (forall k :: 0 <= k < |track.textEvents| ==>
          IsTextType(track.textEvents[k].kind) && 0 <= track.textEvents[k].time)
    && MidiTimesOrdered(track.midiEvents)
    && TextTimesOrdered(track.textEvents)
  }

  /** The state the event loop starts from. */
  lemma InitialGood(pos: int)
    ensures Good(TrackState(pos, 0, 0, [], []))
  {
  }

  lemma StepKeepsGood(variant: VarIntVariant, data: seq<Byte>, s: TrackState)
    requires |data| <= MaxArrayLength
    requires Good(s)
    requires Step(variant, data, s).Ok?
    ensures Good(Step(variant, data, s).value)
  {
    var t := Step(variant, data, s).value;
    StepExtends(variant, data, s);
    var n := |s.midiEvents|;
    var m := |s.textEvents|;
    forall k | 0 <= k < |t.midiEvents|
      ensures WellFormedEvent(t.midiEvents[k]) && 0 <= t.midiEvents[k].time <= t.time
    {
      if k < n {
        assert t.midiEvents[k] == t.midiEvents[..n][k] == s.midiEvents[k];
      }
    }
    forall k | 0 <= k < |t.textEvents|
      ensures IsTextType(t.textEvents[k].kind) && 0 <= t.textEvents[k].time <= t.time
    {
      if k < m {
        assert t.textEvents[k] == t.textEvents[..m][k] == s.textEvents[k];
      }
    }
    forall j, k | 0 <= j < k < |t.midiEvents|
      ensures t.midiEvents[j].time <= t.midiEvents[k].time
    {
      assert t.midiEvents[j] == t.midiEvents[..n][j] == s.midiEvents[j];
      if k < n {
        assert t.midiEvents[k] == t.midiEvents[..n][k] == s.midiEvents[k];
      }
    }
    forall j, k | 0 <= j < k < |t.textEvents|
      ensures t.textEvents[j].time <= t.textEvents[k].time
    {
      assert t.textEvents[j] == t.textEvents[..m][j] == s.textEvents[j];
      if k < m {
        assert t.textEvents[k] == t.textEvents[..m][k] == s.textEvents[k];
      }
    }
  }

  /** The event loop keeps `Good`, and only appends to the lists it started with. */
  lemma {:induction false} RunKeepsGood(variant: VarIntVariant, data: seq<Byte>, trackEnd: int, s: TrackState)
    requires |data| <= MaxArrayLength
    requires Good(s)
    requires Run(variant, data, trackEnd, s).Ok?
    ensures Good(Run(variant, data, trackEnd, s).value)
    ensures s.time <= Run(variant, data, trackEnd, s).value.time
    ensures |s.midiEvents| <= |Run(variant, data, trackEnd, s).value.midiEvents|
    ensures Run(variant, data, trackEnd, s).value.midiEvents[..|s.midiEvents|] == s.midiEvents
    ensures |s.textEvents| <= |Run(variant, data, trackEnd, s).value.textEvents|
    ensures Run(variant, data, trackEnd, s).value.textEvents[..|s.textEvents|] == s.textEvents
    decreases Remaining(trackEnd, s.pos)
  {
    if s.pos < trackEnd {
      var t := Step(variant, data, s).value;
      StepKeepsGood(variant, data, s);
      RunKeepsGood(variant, data, trackEnd, t);
      var u := Run(variant, data, trackEnd, t).value;
      assert u.midiEvents[..|s.midiEvents|] == u.midiEvents[..|t.midiEvents|][..|s.midiEvents|];
      assert u.textEvents[..|s.textEvents|] == u.textEvents[..|t.textEvents|][..|s.textEvents|];
    }
  }

  /** Every track `ParseTrack` returns is well formed. */
  lemma TrackWellFormed(variant: VarIntVariant, index: int, data: seq<Byte>, pos: int)
    requires |data| <= MaxArrayLength
    requires TrackSpec(variant, index, data, pos).Ok?
    ensures WellFormedTrack(TrackSpec(variant, index, data, pos).value.v)
  {
    var chunk := TrackChunkSpec(data, pos).value;
    InitialGood(chunk.next);
    RunKeepsGood(variant, data, chunk.v, TrackState(chunk.next, 0, 0, [], []));
  }

  /**
   * A chunk that starts with `MTrk` holds whatever the event loop produces
   * from just past its length field up to `TrackEnd`.
   */
  lemma TrackFromRun(variant: VarIntVariant, index: int, data: seq<Byte>, pos: int, trackEnd: int, t: TrackState)
    requires |data| <= MaxArrayLength
    requires 0 <= pos && pos + 8 <= |data| && data[pos..pos + 4] == MTrk
    requires trackEnd == TrackEnd(data, pos)
    requires Run(variant, data, trackEnd, TrackState(pos + 8, 0, 0, [], [])) == Ok(t)
    ensures TrackSpec(variant, index, data, pos) == Ok(Read(MidiTrack(index, t.midiEvents, t.textEvents), t.pos))
  {
  }

  // ---------------------------------------------------------------------------
  // Running status

  /**
   * The byte after the delta time: one with bit 7 set becomes the status and
   * is consumed, so a channel event's first data byte is the one after it;
   * otherwise the status is unchanged and that byte is the first data byte.
   */
  lemma RunningStatusRule(variant: VarIntVariant, data: seq<Byte>, s: TrackState)
    requires |data| <= MaxArrayLength
    requires Step(variant, data, s).Ok?
    ensures var delta := ReadVarIntSpec(variant, data, s.pos).value;
            var t := Step(variant, data, s).value;
            && delta.next < |data|
            && t.status == (if data[delta.next] >= 0x80 then data[delta.next] else s.status)
            && t.time == s.time + delta.v
            && (t.status < 0xF0 ==>
                  var first := if data[delta.next] >= 0x80 then delta.next + 1 else delta.next;
                  && first < |data|
                  && t.midiEvents[|s.midiEvents|].arg2 == data[first]
                  && t.pos == first + DataBytes(t.status))
  {
  }

  /**
   * Omitting a repeated channel status byte changes nothing but the cursor:
   * inserting the current status byte in front of a data byte decodes to the
   * same event, the same clock and the same register, one byte further on.
   */
  lemma RunningStatusOmission(variant: VarIntVariant, data: seq<Byte>, s: TrackState)
    requires |data| < MaxArrayLength
    requires 0x80 <= s.status < 0xF0
    requires ReadVarIntSpec(variant, data, s.pos).Ok?
    requires var d := ReadVarIntSpec(variant, data, s.pos).value.next; d < |data| && data[d] < 0x80
    ensures var d := ReadVarIntSpec(variant, data, s.pos).value.next;
            var explicit := data[..d] + [s.status] + data[d..];
            && (Step(variant, data, s).Ok? <==> Step(variant, explicit, s).Ok?)
            && (Step(variant, data, s).Ok? ==>
                  Step(variant, explicit, s).value == Step(variant, data, s).value.(pos := Step(variant, data, s).value.pos + 1))
  {
    var delta := ReadVarIntSpec(variant, data, s.pos).value;
    var d := delta.next;
    var explicit := data[..d] + [s.status] + data[d..];
    assert explicit[..d] == data[..d];
    ReadVarIntPrefix(variant, data, explicit, s.pos, d);
    assert explicit[d] == s.status;
    StepIsDispatch(variant, data, s);
    StepIsDispatch(variant, explicit, s);
    ChannelEventShift(data, explicit, d, s.time + delta.v, s.status, s);
  }

  /** A channel event decodes the same from a buffer with one byte inserted in front of it. */
  lemma ChannelEventShift(data: seq<Byte>, explicit: seq<Byte>, d: int, time: int, status: Byte, s: TrackState)
    requires status < 0xF0
    requires 0 <= d && |explicit| == |data| + 1
    requires forall j :: d <= j < |data| ==> explicit[j + 1] == data[j]
    ensures ChannelEventSpec(explicit, d + 1, time, status, s).Ok? == ChannelEventSpec(data, d, time, status, s).Ok?
    ensures ChannelEventSpec(data, d, time, status, s).Ok? ==>
              ChannelEventSpec(explicit, d + 1, time, status, s) ==
              Ok(ChannelEventSpec(data, d, time, status, s).value.(pos := ChannelEventSpec(data, d, time, status, s).value.pos + 1))
  {
    if ChannelEventSpec(data, d, time, status, s).Ok? {
      assert explicit[d + 1] == data[d];
      if DataBytes(status) == 2 {
        assert explicit[d + 2] == data[d + 1];
      }
    }
  }

  // ---------------------------------------------------------------------------
  // The loop body's paths that emit nothing

  /**
   * A SysEx status (0xF0, 0xF7) decodes exactly when its varint length does,
   * and skips that many bytes after it; any other 0xF1..0xFE status always
   * decodes and skips one byte; neither appends an event.
   */
  lemma SkippedEvents(variant: VarIntVariant, data: seq<Byte>, pos: int, time: int, status: Byte, s: TrackState)
    requires |data| <= MaxArrayLength
    requires 0 <= pos <= |data|
    requires 0xF0 <= status < MetaEvent
    ensures status == SysEx || status == SysExEscape ==>
              var length := ReadVarIntSpec(variant, data, pos);
              DispatchSpec(variant, data, pos, time, status, s) ==
                if length.Ok? then Ok(s.(pos := Wrap32(length.value.next + length.value.v), time := time, status := status))
                else Err(length.error)
    ensures status != SysEx && status != SysExEscape ==>
              DispatchSpec(variant, data, pos, time, status, s) == Ok(s.(pos := pos + 1, time := time, status := status))
  {
  }

  /** A channel event's type, channel and data bytes, including the note-on with velocity 0 that becomes a note-off. */
  lemma ChannelEventFields(data: seq<Byte>, pos: int, time: int, status: Byte, s: TrackState)
    requires status < 0xF0
    requires ChannelEventSpec(data, pos, time, status, s).Ok?
    ensures var e := ChannelEventSpec(data, pos, time, status, s).value.midiEvents[|s.midiEvents|];
            && 1 <= e.arg1 <= 16
            && (status / 0x10 * 0x10 == NoteOn && e.arg3 == 0 ==> e.kind == NoteOff)
            && (status / 0x10 * 0x10 != NoteOn || e.arg3 != 0 ==> e.kind == status / 0x10 * 0x10)
            && (status / 0x10 == 0xC || status / 0x10 == 0xD ==> e.arg3 == 0 && ChannelEventSpec(data, pos, time, status, s).value.pos == pos + 1)
            && (status / 0x10 != 0xC && status / 0x10 != 0xD ==> ChannelEventSpec(data, pos, time, status, s).value.pos == pos + 2)
  {
  }

  // ---------------------------------------------------------------------------
  // Running status over a stream of channel events

  datatype Option<T> = None | Some(value: T)

  /** A decoded pass, or `None` for any error. */
  function Just(r: Result<TrackState>): Option<TrackState>
  {
    match r
    case Err(_) => None
    case Ok(t) => Some(t)
  }

  /** The same state with the cursor one byte further on. */
  function Later(r: Option<TrackState>): Option<TrackState>
  {
    match r
    case None => None
    case Some(t) => Some(t.(pos := t.pos + 1))
  }

  /**
   * A pass of the event loop that meets a channel event: the delta time, then
   * `ChannelEventAfter`. `None` when the pass fails or its status is 0xF0 or
   * more.
   */
  function ChannelPass(variant: VarIntVariant, data: seq<Byte>, s: TrackState): (r: Option<TrackState>)
    ensures r.Some? ==> ReadVarIntSpec(variant, data, s.pos).Ok?
    ensures r.Some? ==> 0 <= s.pos < ReadVarIntSpec(variant, data, s.pos).value.next < r.value.pos
    ensures r.Some? ==> r.value.status < 0xF0 && s.time <= r.value.time
    ensures r.Some? ==> |r.value.midiEvents| == |s.midiEvents| + 1 && r.value.textEvents == s.textEvents
  {
    PassFrom(data, s, ReadVarIntSpec(variant, data, s.pos))
  }

  /** The pass once the delta time is read, or has failed. */
  function PassFrom(data: seq<Byte>, s: TrackState, delta: Result<Read<int>>): (r: Option<TrackState>)
    requires delta.Ok? ==> 0 <= delta.value.next
    ensures r.Some? ==> delta.Ok? && delta.value.next < r.value.pos
  {
    match delta
    case Err(_) => None
    case Ok(delta) => ChannelEventAfter(data, delta.next, s.time + delta.v, s)
  }

  /** A delta time read one byte further on. */
  function ShiftRead(r: Result<Read<int>>): Result<Read<int>>
  {
    match r
    case Err(e) => Err(e)
    case Ok(x) => Ok(Read(x.v, x.next + 1))
  }

  /**
   * The running-status rule and `ChannelEventSpec` once the delta time ends
   * at `next`: a byte with bit 7 set there is the status and the data bytes
   * follow it, otherwise the register's status applies and the data start
   * at `next`.
   */
  function ChannelEventAfter(data: seq<Byte>, next: int, time: int, s: TrackState): (r: Option<TrackState>)
    requires 0 <= next
    ensures r.Some? ==> next < r.value.pos && r.value.status < 0xF0 && r.value.time == time
    ensures r.Some? ==> |r.value.midiEvents| == |s.midiEvents| + 1 && r.value.textEvents == s.textEvents
  {
    if next >= |data| then None
    else
      var status := if data[next] >= 0x80 then data[next] else s.status;
      var first := if data[next] >= 0x80 then next + 1 else next;
      if status >= 0xF0 then None
      else Just(ChannelEventSpec(data, first, time, status, s))
  }

  /** `ChannelPass` is exactly `Step` on the passes whose status register ends below 0xF0. */
  lemma PassIsStep(variant: VarIntVariant, data: seq<Byte>, s: TrackState)
    requires |data| <= MaxArrayLength
    ensures ChannelPass(variant, data, s).Some? ==> Step(variant, data, s) == Ok(ChannelPass(variant, data, s).value)
    ensures Step(variant, data, s).Ok? && Step(variant, data, s).value.status < 0xF0 ==>
              ChannelPass(variant, data, s) == Some(Step(variant, data, s).value)
  {
    var delta := ReadVarIntSpec(variant, data, s.pos);
    if delta.Ok? && delta.value.next < |data| {
      StepIsDispatch(variant, data, s);
    }
  }

  /** The event loop over channel events only: `None` once a pass fails or meets any other event. */
  function ChannelRunSpec(variant: VarIntVariant, data: seq<Byte>, trackEnd: int, s: TrackState): (r: Option<TrackState>)
    ensures r.Some? ==> trackEnd <= r.value.pos && s.time <= r.value.time
    ensures r.Some? ==> |s.midiEvents| <= |r.value.midiEvents| && r.value.textEvents == s.textEvents
    decreases Remaining(trackEnd, s.pos)
  {
    if trackEnd <= s.pos then Some(s)
    else
      match ChannelPass(variant, data, s)
      case None => None
      case Some(t) => ChannelRunSpec(variant, data, trackEnd, t)
  }

  lemma RunUnfold(variant: VarIntVariant, data: seq<Byte>, trackEnd: int, s: TrackState, t: TrackState)
    requires |data| <= MaxArrayLength
    requires s.pos < trackEnd && Step(variant, data, s) == Ok(t)
    ensures Run(variant, data, trackEnd, s) == Run(variant, data, trackEnd, t)
  {
  }

  /** Where the channel-only loop gets through, `Run` gets through too, to the same state. */
  lemma {:induction false} ChannelRunIsRun(variant: VarIntVariant, data: seq<Byte>, trackEnd: int, s: TrackState)
    requires |data| <= MaxArrayLength
    ensures ChannelRunSpec(variant, data, trackEnd, s).Some? ==>
              Run(variant, data, trackEnd, s) == Ok(ChannelRunSpec(variant, data, trackEnd, s).value)
    decreases Remaining(trackEnd, s.pos)
  {
    if s.pos < trackEnd && ChannelPass(variant, data, s).Some? {
      var t := ChannelPass(variant, data, s).value;
      PassIsStep(variant, data, s);
      RunUnfold(variant, data, trackEnd, s, t);
      ChannelRunIsRun(variant, data, trackEnd, t);
    }
  }

  /** `explicit` is `data` with one byte inserted at index `d`. */
  predicate InsertedAt(data: seq<Byte>, explicit: seq<Byte>, d: int)
  {
    && 0 <= d <= |data| && |explicit| == |data| + 1
    && explicit[..d] == data[..d]
    && (forall j :: d <= j < |data| ==> explicit[j + 1] == data[j])
  }

  lemma Insertion(data: seq<Byte>, d: int, b: Byte)
    requires 0 <= d <= |data|
    ensures InsertedAt(data, data[..d] + [b] + data[d..], d)
    ensures (data[..d] + [b] + data[d..])[d] == b
  {
    var explicit := data[..d] + [b] + data[d..];
    assert explicit[..d] == data[..d];
    forall j | d <= j < |data|
      ensures explicit[j + 1] == data[j]
    {
      assert explicit[j + 1] == data[d..][j - d];
    }
  }

  /** A channel event reads only its own data bytes. */
  lemma ChannelEventPrefix(data: seq<Byte>, explicit: seq<Byte>, d: int, pos: int, time: int, status: Byte, s: TrackState)
    requires status < 0xF0
    requires 0 <= d <= |data| && d <= |explicit| && explicit[..d] == data[..d]
    requires 0 <= pos && pos + DataBytes(status) <= d
    ensures ChannelEventSpec(explicit, pos, time, status, s) == ChannelEventSpec(data, pos, time, status, s)
  {
    assert explicit[pos] == explicit[..d][pos];
    if DataBytes(status) == 2 {
      assert explicit[pos + 1] == explicit[..d][pos + 1];
    }
  }

  /** A channel event depends on the state only through its event lists. */
  lemma ChannelEventLists(data: seq<Byte>, pos: int, time: int, status: Byte, s: TrackState, p: int)
    requires status < 0xF0
    ensures ChannelEventSpec(data, pos, time, status, s.(pos := p)) == ChannelEventSpec(data, pos, time, status, s)
  {
  }

  /** A pass that ends at or before `d` is the same once a byte is inserted at `d`. */
  lemma PassBefore(variant: VarIntVariant, data: seq<Byte>, explicit: seq<Byte>, d: int, s: TrackState)
    requires InsertedAt(data, explicit, d)
    requires ChannelPass(variant, data, s).Some? && ChannelPass(variant, data, s).value.pos <= d
    ensures ChannelPass(variant, explicit, s) == ChannelPass(variant, data, s)
  {
    var delta := ReadVarIntSpec(variant, data, s.pos).value;
    ReadVarIntPrefix(variant, data, explicit, s.pos, d);
    EventBefore(data, explicit, d, delta.next, s.time + delta.v, s);
  }

  lemma EventBefore(data: seq<Byte>, explicit: seq<Byte>, d: int, next: int, time: int, s: TrackState)
    requires InsertedAt(data, explicit, d) && 0 <= next
    requires ChannelEventAfter(data, next, time, s).Some? && ChannelEventAfter(data, next, time, s).value.pos <= d
    ensures ChannelEventAfter(explicit, next, time, s) == ChannelEventAfter(data, next, time, s)
  {
    assert explicit[next] == explicit[..d][next];
    var status := if data[next] >= 0x80 then data[next] else s.status;
    var first := if data[next] >= 0x80 then next + 1 else next;
    ChannelEventPrefix(data, explicit, d, first, time, status, s);
  }

  /** A pass that starts at or after `d` is the same, one byte further on, once a byte is inserted at `d`. */
  lemma PassAfter(variant: VarIntVariant, data: seq<Byte>, explicit: seq<Byte>, d: int, s: TrackState)
    requires InsertedAt(data, explicit, d) && d <= s.pos
    ensures ChannelPass(variant, explicit, s.(pos := s.pos + 1)) == Later(ChannelPass(variant, data, s))
  {
    ReadVarIntShift(variant, data, explicit, d, s.pos);
    var delta := ReadVarIntSpec(variant, data, s.pos);
    assert ReadVarIntSpec(variant, explicit, s.pos + 1) == ShiftRead(delta);
    PassFromAfter(data, explicit, d, s, delta);
  }

  lemma PassFromAfter(data: seq<Byte>, explicit: seq<Byte>, d: int, s: TrackState, delta: Result<Read<int>>)
    requires InsertedAt(data, explicit, d)
    requires delta.Ok? ==> d <= delta.value.next
    ensures PassFrom(explicit, s.(pos := s.pos + 1), ShiftRead(delta)) == Later(PassFrom(data, s, delta))
  {
    if delta.Ok? {
      EventAfter(data, explicit, d, delta.value.next, s.time + delta.value.v, s);
    }
  }

  lemma EventAfter(data: seq<Byte>, explicit: seq<Byte>, d: int, next: int, time: int, s: TrackState)
    requires InsertedAt(data, explicit, d) && d <= next
    ensures ChannelEventAfter(explicit, next + 1, time, s.(pos := s.pos + 1)) == Later(ChannelEventAfter(data, next, time, s))
  {
    if next < |data| {
      assert explicit[next + 1] == data[next];
      var status := if data[next] >= 0x80 then data[next] else s.status;
      var first := if data[next] >= 0x80 then next + 1 else next;
      if status < 0xF0 {
        ChannelEventShift(data, explicit, first, time, status, s);
        ChannelEventLists(explicit, first + 1, time, status, s, s.pos + 1);
      }
    }
  }

  /**
   * The pass whose status byte is left out at `d`, against the same pass with
   * the current status written there: the same event, one byte further on.
   */
  lemma PassAtOmission(variant: VarIntVariant, data: seq<Byte>, explicit: seq<Byte>, s: TrackState)
    requires 0x80 <= s.status < 0xF0
    requires ReadVarIntSpec(variant, data, s.pos).Ok?
    requires var d := ReadVarIntSpec(variant, data, s.pos).value.next;
             && d < |data| && data[d] < 0x80
             && InsertedAt(data, explicit, d) && explicit[d] == s.status
    ensures ChannelPass(variant, explicit, s) == Later(ChannelPass(variant, data, s))
  {
    var delta := ReadVarIntSpec(variant, data, s.pos).value;
    var d := delta.next;
    ReadVarIntPrefix(variant, data, explicit, s.pos, d);
    ChannelEventShift(data, explicit, d, s.time + delta.v, s.status, s);
  }

  /**
   * The channel-only loop over any pass `f`: passes run until the cursor
   * reaches `trackEnd`; a failed pass, or one that does not move the cursor
   * forward, stops it.
   */
  function Iterate(f: TrackState -> Option<TrackState>, trackEnd: int, s: TrackState): (r: Option<TrackState>)
    ensures r.Some? ==> trackEnd <= r.value.pos
    decreases if trackEnd <= s.pos then 0 else trackEnd - s.pos
  {
    if trackEnd <= s.pos then Some(s)
    else
      match f(s)
      case None => None
      case Some(t) => if t.pos <= s.pos then None else Iterate(f, trackEnd, t)
  }

  /** `ChannelPass` over one buffer, as a function of the state. */
  function Passes(variant: VarIntVariant, data: seq<Byte>): TrackState -> Option<TrackState>
  {
    u => ChannelPass(variant, data, u)
  }

  /** The channel-only loop is `Iterate` over `ChannelPass`. */
  lemma {:induction false} ChannelRunIterates(variant: VarIntVariant, data: seq<Byte>, trackEnd: int, s: TrackState)
    ensures ChannelRunSpec(variant, data, trackEnd, s) == Iterate(Passes(variant, data), trackEnd, s)
    decreases Remaining(trackEnd, s.pos)
  {
    if s.pos < trackEnd {
      assert Passes(variant, data)(s) == ChannelPass(variant, data, s);
      match ChannelPass(variant, data, s)
      case None =>
      case Some(t) => ChannelRunIterates(variant, data, trackEnd, t);
    }
  }

  /** The loop over `f` from `s` reaches `s0`, each pass moving the cursor forward. */
  ghost predicate Reaches(f: TrackState -> Option<TrackState>, trackEnd: int, s: TrackState, s0: TrackState)
    decreases if trackEnd <= s.pos then 0 else trackEnd - s.pos
  {
    || s == s0
    || (&& s.pos < trackEnd && f(s).Some? && s.pos < f(s).value.pos
        && Reaches(f, trackEnd, f(s).value, s0))
  }

  lemma {:induction false} ReachesForward(f: TrackState -> Option<TrackState>, trackEnd: int, s: TrackState, s0: TrackState)
    requires Reaches(f, trackEnd, s, s0)
    ensures s.pos <= s0.pos
    decreases if trackEnd <= s.pos then 0 else trackEnd - s.pos
  {
    if s != s0 {
      ReachesForward(f, trackEnd, f(s).value, s0);
    }
  }

  /** Passes of `f` and `g` that end at or before `d` are the same. */
  ghost predicate AgreeBefore(f: TrackState -> Option<TrackState>, g: TrackState -> Option<TrackState>, d: int)
  {
    forall u: TrackState {:trigger f(u)} :: f(u).Some? && f(u).value.pos <= d ==> g(u) == f(u)
  }

  /** Passes of `f` that start at or after `d` are those of `g`, one byte further on. */
  ghost predicate AgreeAfter(f: TrackState -> Option<TrackState>, g: TrackState -> Option<TrackState>, d: int)
  {
    forall u: TrackState {:trigger f(u)} :: d <= u.pos ==> g(u.(pos := u.pos + 1)) == Later(f(u))
  }

  /**
   * Two loops whose passes agree one byte apart from `d` on agree one byte
   * apart, over a track one byte longer.
   */
  lemma {:induction false} IterateShift(f: TrackState -> Option<TrackState>, g: TrackState -> Option<TrackState>, d: int, trackEnd: int, s: TrackState)
    requires AgreeAfter(f, g, d) && d <= s.pos
    ensures Iterate(g, trackEnd + 1, s.(pos := s.pos + 1)) == Later(Iterate(f, trackEnd, s))
    decreases if trackEnd <= s.pos then 0 else trackEnd - s.pos
  {
    if s.pos < trackEnd {
      assert g(s.(pos := s.pos + 1)) == Later(f(s));
      match f(s)
      case None =>
      case Some(t) =>
        if s.pos < t.pos {
          IterateShift(f, g, d, trackEnd, t);
        }
    }
  }

  /**
   * Two loops that agree before `d`, whose passes from `s0` on agree one byte
   * apart, agree one byte apart from every state that reaches `s0`.
   */
  lemma {:induction false} IterateInsertion(f: TrackState -> Option<TrackState>, g: TrackState -> Option<TrackState>,
                                            d: int, trackEnd: int, s: TrackState, s0: TrackState)
    requires Reaches(f, trackEnd, s, s0) && s0.pos < trackEnd && s0.pos < d
    requires AgreeBefore(f, g, d) && AgreeAfter(f, g, d)
    requires g(s0) == Later(f(s0)) && (f(s0).Some? ==> d <= f(s0).value.pos)
    ensures Iterate(g, trackEnd + 1, s) == Later(Iterate(f, trackEnd, s))
    decreases if trackEnd <= s.pos then 0 else trackEnd - s.pos
  {
    if s == s0 {
      if f(s0).Some? {
        IterateShift(f, g, d, trackEnd, f(s0).value);
      }
    } else {
      var t := f(s).value;
      ReachesForward(f, trackEnd, t, s0);
      assert g(s) == f(s);
      IterateInsertion(f, g, d, trackEnd, t, s0);
    }
  }

  /**
   * The pass from `s0` reads its delta time and then finds a data byte at
   * `d` while the status register holds `status`: that event's status byte
   * is left out.
   */
  predicate OmitsStatus(variant: VarIntVariant, data: seq<Byte>, trackEnd: int, s0: TrackState, d: int, status: Byte)
  {
    && s0.pos < trackEnd
    && ReadVarIntSpec(variant, data, s0.pos).Ok?
    && ReadVarIntSpec(variant, data, s0.pos).value.next == d
    && d < |data| && data[d] < 0x80 && s0.status == status
  }

  /**
   * What the inserted status byte does to the passes of the channel-only
   * loop: those that end before it are unchanged, those that start after it
   * move one byte further on, and so does the pass from `s0` whose status
   * byte it writes out.
   */
  lemma InsertionPasses(variant: VarIntVariant, data: seq<Byte>, explicit: seq<Byte>, trackEnd: int, s0: TrackState, d: int, status: Byte)
    requires 0x80 <= status < 0xF0
    requires OmitsStatus(variant, data, trackEnd, s0, d, status)
    requires InsertedAt(data, explicit, d) && explicit[d] == status
    ensures AgreeBefore(Passes(variant, data), Passes(variant, explicit), d)
    ensures AgreeAfter(Passes(variant, data), Passes(variant, explicit), d)
    ensures s0.pos < d
    ensures Passes(variant, explicit)(s0) == Later(Passes(variant, data)(s0))
    ensures Passes(variant, data)(s0).Some? ==> d <= Passes(variant, data)(s0).value.pos
  {
    forall u: TrackState | ChannelPass(variant, data, u).Some? && ChannelPass(variant, data, u).value.pos <= d
      ensures ChannelPass(variant, explicit, u) == ChannelPass(variant, data, u)
    {
      PassBefore(variant, data, explicit, d, u);
    }
    forall u: TrackState | d <= u.pos
      ensures ChannelPass(variant, explicit, u.(pos := u.pos + 1)) == Later(ChannelPass(variant, data, u))
    {
      PassAfter(variant, data, explicit, d, u);
    }
    PassAtOmission(variant, data, explicit, s0);
  }

  /**
   * Running status over a stream of channel events: writing out, anywhere in
   * the stream, a status byte that running status let the encoder leave out
   * gives a track one byte longer (`explicit`, `data` with `status` inserted
   * at `d`) that the channel-only loop decodes to the same events, clock and
   * status register, or that it rejects exactly when it rejects the
   * original. The omission is in the pass from `s0`, which the loop from
   * `s` reaches. Applied once per omitted byte, it relates a stream with its
   * repeated status bytes left out to the one with every status byte written.
   */
  lemma RunningStatusStream(variant: VarIntVariant, data: seq<Byte>, explicit: seq<Byte>, trackEnd: int,
                            s: TrackState, s0: TrackState, d: int, status: Byte)
    requires 0x80 <= status < 0xF0
    requires Reaches(Passes(variant, data), trackEnd, s, s0) && OmitsStatus(variant, data, trackEnd, s0, d, status)
    requires InsertedAt(data, explicit, d) && explicit[d] == status
    ensures ChannelRunSpec(variant, explicit, trackEnd + 1, s) == Later(ChannelRunSpec(variant, data, trackEnd, s))
  {
    StreamIterates(variant, data, explicit, trackEnd, s, s0, d, status);
    ChannelRunIterates(variant, data, trackEnd, s);
    ChannelRunIterates(variant, explicit, trackEnd + 1, s);
  }

  /** `RunningStatusStream` stated over `Iterate`. */
  lemma StreamIterates(variant: VarIntVariant, data: seq<Byte>, explicit: seq<Byte>, trackEnd: int,
                       s: TrackState, s0: TrackState, d: int, status: Byte)
    requires 0x80 <= status < 0xF0
    requires Reaches(Passes(variant, data), trackEnd, s, s0) && OmitsStatus(variant, data, trackEnd, s0, d, status)
    requires InsertedAt(data, explicit, d) && explicit[d] == status
    ensures Iterate(Passes(variant, explicit), trackEnd + 1, s) == Later(Iterate(Passes(variant, data), trackEnd, s))
  {
    InsertionPasses(variant, data, explicit, trackEnd, s0, d, status);
    IterateInsertion(Passes(variant, data), Passes(variant, explicit), d, trackEnd, s, s0);
  }

  /**
   * The same for the event loop itself: when every pass from `s` to the
   * track end is a channel event that decodes, `Run` over `explicit`, the
   * buffer with the status byte written out at `d` and one byte longer,
   * ends in the same state as `Run` over `data`, one byte further on.
   * `Insertion` shows `data[..d] + [status] + data[d..]` is such a buffer.
   */
  lemma RunningStatusRun(variant: VarIntVariant, data: seq<Byte>, explicit: seq<Byte>, trackEnd: int,
                         s: TrackState, s0: TrackState, d: int, status: Byte)
    requires |explicit| <= MaxArrayLength
    requires 0x80 <= status < 0xF0
    requires Reaches(Passes(variant, data), trackEnd, s, s0) && OmitsStatus(variant, data, trackEnd, s0, d, status)
    requires InsertedAt(data, explicit, d) && explicit[d] == status
    requires ChannelRunSpec(variant, data, trackEnd, s).Some?
    ensures Run(variant, data, trackEnd, s) == Ok(ChannelRunSpec(variant, data, trackEnd, s).value)
    ensures var u := ChannelRunSpec(variant, data, trackEnd, s).value;
            Run(variant, explicit, trackEnd + 1, s) == Ok(u.(pos := u.pos + 1))
  {
    RunningStatusStream(variant, data, explicit, trackEnd, s, s0, d, status);
    RunsAgree(variant, data, explicit, trackEnd, s);
  }

  /** Two channel-only runs that agree up to the cursor are two runs of the event loop that agree. */
  lemma RunsAgree(variant: VarIntVariant, data: seq<Byte>, explicit: seq<Byte>, trackEnd: int, s: TrackState)
    requires |data| <= MaxArrayLength && |explicit| <= MaxArrayLength
    requires ChannelRunSpec(variant, data, trackEnd, s).Some?
    requires ChannelRunSpec(variant, explicit, trackEnd + 1, s) == Later(ChannelRunSpec(variant, data, trackEnd, s))
    ensures Run(variant, data, trackEnd, s) == Ok(ChannelRunSpec(variant, data, trackEnd, s).value)
    ensures var u := ChannelRunSpec(variant, data, trackEnd, s).value;
            Run(variant, explicit, trackEnd + 1, s) == Ok(u.(pos := u.pos + 1))
  {
    ChannelRunIsRun(variant, data, trackEnd, s);
    ChannelRunIsRun(variant, explicit, trackEnd + 1, s);
  }
}
