/**
 * The data model of the Standard MIDI File decoder: bytes, the C# integer
 * arithmetic the decoder relies on, the error kinds, and the decoded events
 * and tracks.
 */
module SmfTypes {

  /** An unsigned 8-bit value, as C#'s `byte`. */
  type Byte = b: int | 0 <= b < 0x100

  /** The largest number of elements a .NET byte array can hold (`Array.MaxLength`). */
  const MaxArrayLength: int := 0x7FFF_FFC7

  /** The range of C#'s `int`. */
  predicate IsInt32(x: int)
  {
    -0x8000_0000 <= x < 0x8000_0000
  }

  /**
   * C#'s unchecked `int` addition: the mathematical result reduced modulo 2^32
   * into the signed 32-bit range.
   */
  function Wrap32(x: int): (r: int)
    ensures IsInt32(r)
    ensures (x - r) % 0x1_0000_0000 == 0
    ensures IsInt32(x) ==> r == x
    ensures 0x8000_0000 <= x < 0x1_8000_0000 ==> r == x - 0x1_0000_0000
  {
    (x + 0x8000_0000) % 0x1_0000_0000 - 0x8000_0000
  }

  /** Why a decode is abandoned; every error aborts the whole file. */
  datatype Error =
    | InvalidHeaderMagic     // the first four bytes are not "MThd"
    | InvalidHeaderLength    // the header chunk length is not 6
    | UnsupportedTimingMode  // bit 15 of the division word is set (SMPTE time code)
    | InvalidTrackMagic      // a track chunk does not start with "MTrk"
    | OutOfBounds            // a read past either end of the buffer
    | UnspecifiedConversion  // a double-to-byte conversion whose C# result is unspecified

  /** The outcome of a decoding step; failure-compatible so that `:-` propagates errors. */
  datatype Result<+T> = Ok(value: T) | Err(error: Error)
  {
    predicate IsFailure()
    {
      Err?
    }

    function PropagateFailure<U>(): Result<U>
      requires Err?
    {
      Err(error)
    }

    function Extract(): T
      requires Ok?
    {
      value
    }
  }

  /** A value read from the buffer together with the cursor just past it. */
  datatype Read<+T> = Read(v: T, next: int)

  /**
   * A method that returns a value and advances a cursor agrees with a
   * specification function that returns both: on success the value and the
   * cursor match, on failure the error matches (the cursor is then irrelevant,
   * since the error aborts the decode).
   */
  predicate Agrees<T(==)>(r: Result<T>, next: int, spec: Result<Read<T>>)
  {
    match spec
    case Ok(read) => r == Ok(read.v) && next == read.next
    case Err(e) => r == Err(e)
  }

  // Channel event types (the high nibble of a status byte) and the meta marker.
  const NoteOff: Byte := 0x80
  const NoteOn: Byte := 0x90
  const KeyAfterTouch: Byte := 0xA0
  const ControlChange: Byte := 0xB0
  const ProgramChange: Byte := 0xC0
  const ChannelAfterTouch: Byte := 0xD0
  const PitchBendChange: Byte := 0xE0
  const MetaEvent: Byte := 0xFF

  // System-exclusive status bytes.
  const SysEx: Byte := 0xF0
  const SysExEscape: Byte := 0xF7

  // The meta event types the decoder interprets.
  const MetaTempo: Byte := 0x51
  const MetaTimeSignature: Byte := 0x58
  const MetaKeySignature: Byte := 0x59

  // Named text event types (every type 0x01..0x0F is stored as text).
  const TextType: Byte := 0x01
  const TrackNameType: Byte := 0x03
  const LyricType: Byte := 0x05

  // Named controller numbers of a ControlChange event.
  const BankSelect: Byte := 0x00
  const Modulation: Byte := 0x01
  const Volume: Byte := 0x07
  const Balance: Byte := 0x08
  const Pan: Byte := 0x0A
  const Sustain: Byte := 0x40

  /**
   * A channel event, or one of the three interpreted meta events. For a
   * channel event `arg1` is the channel (1..16) and `arg2`, `arg3` the data
   * bytes; for a meta event (`kind == MetaEvent`) `arg1` is the meta type and
   * `arg2`, `arg3` the decoded payload. `time` is the absolute tick count.
   */
  datatype MidiEvent = MidiEvent(time: int, kind: Byte, arg1: Byte, arg2: Byte, arg3: Byte)

  /** A text meta event (meta types 0x01..0x0F) with its ASCII-decoded value. */
  datatype TextEvent = TextEvent(time: int, kind: Byte, value: string)

  /** A decoded track: its position in the file and its two event lists. */
  datatype MidiTrack = MidiTrack(index: int, midiEvents: seq<MidiEvent>, textEvents: seq<TextEvent>)

  /** `Encoding.ASCII` decoding of one byte: bytes above 0x7F become '?'. */
  function AsciiChar(b: Byte): (c: char)
    ensures c as int < 0x80
    ensures c != '?' ==> c as int == b
  {
    if b < 0x80 then b as char else '?'
  }

  /** `Encoding.ASCII.GetString` over a whole byte sequence. */
  function AsciiString(bs: seq<Byte>): (s: string)
    ensures |s| == |bs|
    ensures forall k :: 0 <= k < |bs| ==> s[k] == AsciiChar(bs[k])
  {
    seq(|bs|, k requires 0 <= k < |bs| => AsciiChar(bs[k]))
  }

  /**
   * Comparing decoded ASCII text against a literal made of ASCII characters
   * other than '?' is the same as comparing the bytes against that literal's
   * codes.
   */
  lemma AsciiMatches(bs: seq<Byte>, code: seq<Byte>, text: string)
    requires |bs| == |code| == |text|
    requires forall k :: 0 <= k < |code| ==> code[k] < 0x80 && code[k] != 0x3F && text[k] == code[k] as char
    ensures AsciiString(bs) == text <==> bs == code
  {
    if AsciiString(bs) == text {
      forall k | 0 <= k < |bs|
        ensures bs[k] == code[k]
      {
        assert AsciiChar(bs[k]) == text[k];
      }
    }
  }
}
