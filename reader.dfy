/**
 * The byte cursor and the primitive readers of the decoder (the `Reader`
 * class of both copies). Each reader is a method that takes the cursor and
 * returns the value and the advanced cursor, as the `ref int` parameter does;
 * each has a specification function of the same shape, which the track and
 * file specifications are built from.
 */
module SmfReader {
  import opened SmfTypes

  /**
   * The two copies differ only in `ReadVarInt`: `MidiFile.cs` masks the first
   * byte of a multi-byte quantity to its low 7 bits, `src/MidiFile.cs` does not.
   */
  datatype VarIntVariant = Masked | Unmasked

  // ---------------------------------------------------------------------------
  // Specification functions

  /** The unsigned big-endian value of two bytes: `(b0 << 8) | b1`. */
  function BigEndian16(b0: Byte, b1: Byte): (r: int)
    ensures 0 <= r < 0x1_0000
  {
    b0 as int * 0x100 + b1 as int
  }

  /** The unsigned big-endian value of four bytes, before C#'s 32-bit wrap. */
  function BigEndian32(b0: Byte, b1: Byte, b2: Byte, b3: Byte): (r: int)
    ensures 0 <= r < 0x1_0000_0000
  {
    b0 as int * 0x100_0000 + b1 as int * 0x1_0000 + b2 as int * 0x100 + b3 as int
  }

  function Read8Spec(data: seq<Byte>, i: int): (r: Result<Read<Byte>>)
    ensures r.Ok? <==> 0 <= i < |data|
    ensures r.Err? ==> r.error == OutOfBounds
    ensures r.Ok? ==> r.value.v == data[i] && r.value.next == i + 1
  {
    if 0 <= i < |data| then Ok(Read(data[i], i + 1)) else Err(OutOfBounds)
  }

  function Read16Spec(data: seq<Byte>, i: int): (r: Result<Read<int>>)
    ensures r.Ok? <==> 0 <= i && i + 2 <= |data|
    ensures r.Err? ==> r.error == OutOfBounds
    ensures r.Ok? ==> 0 <= r.value.v < 0x1_0000 && r.value.next == i + 2
    ensures r.Ok? ==> r.value.v / 0x100 == data[i] && r.value.v % 0x100 == data[i + 1]
  {
    if 0 <= i && i + 2 <= |data| then Ok(Read(BigEndian16(data[i], data[i + 1]), i + 2))
    else Err(OutOfBounds)
  }

  /** Big-endian, and signed: C#'s `b0 << 24` moves bit 7 of b0 into the sign bit. */
  function Read32Spec(data: seq<Byte>, i: int): (r: Result<Read<int>>)
    ensures r.Ok? ==> IsInt32(r.value.v)
    ensures r.Ok? ==> 0 <= i && i + 4 <= |data| && (r.value.v < 0 <==> data[i] >= 0x80)
  {
    if 0 <= i && i + 4 <= |data| then
      Ok(Read(Wrap32(BigEndian32(data[i], data[i + 1], data[i + 2], data[i + 3])), i + 4))
    else Err(OutOfBounds)
  }

  /** `Encoding.ASCII.GetString(data, i, length)` rejects a range outside the buffer. */
  function ReadStringSpec(data: seq<Byte>, i: int, length: nat): (r: Result<Read<string>>)
    ensures r.Ok? <==> 0 <= i && i + length <= |data|
    ensures r.Err? ==> r.error == OutOfBounds
    ensures r.Ok? ==> |r.value.v| == length && r.value.next == i + length
  {
    if 0 <= i && i + length <= |data| then Ok(Read(AsciiString(data[i..i + length]), i + length))
    else Err(OutOfBounds)
  }

  function Pow128(n: nat): (r: nat)
    ensures 1 <= r
  {
    if n == 0 then 1 else 0x80 * Pow128(n - 1)
  }

  /**
   * The continuation bytes of a variable-length quantity: at most `left` more
   * bytes, each contributing its low 7 bits (`(acc << 7) | (b & 0x7F)`), up to
   * and including the first byte with bit 7 clear.
   */
  function VarIntTail(data: seq<Byte>, i: int, acc: int, left: nat): (r: Result<Read<int>>)
    ensures r.Ok? <==> TailInBuffer(data, i, left)
    ensures r.Ok? ==> i <= r.value.next <= i + left
    ensures r.Ok? && 0 < left ==> i < r.value.next
    ensures r.Ok? && 0 <= acc ==> 0 <= r.value.v
    ensures r.Err? ==> r.error == OutOfBounds
    decreases left
  {
    if left == 0 then Ok(Read(acc, i))
    else if !(0 <= i < |data|) then Err(OutOfBounds)
    else
      var acc' := acc * 0x80 + data[i] % 0x80;
      if data[i] < 0x80 then Ok(Read(acc', i + 1)) else VarIntTail(data, i + 1, acc', left - 1)
  }

  /**
   * Every byte the continuation loop reads lies in the buffer: a byte is read
   * while the one before it had bit 7 set, at most `left` of them.
   */
  predicate TailInBuffer(data: seq<Byte>, i: int, left: nat)
    decreases left
  {
    left == 0 || (0 <= i < |data| && (data[i] < 0x80 || TailInBuffer(data, i + 1, left - 1)))
  }

  /** With `left` bytes remaining the continuation loop never runs out of buffer. */
  lemma {:induction false} TailFits(data: seq<Byte>, i: int, left: nat)
    requires 0 <= i && i + left <= |data|
    ensures TailInBuffer(data, i, left)
    decreases left
  {
    if left > 0 {
      TailFits(data, i + 1, left - 1);
    }
  }

  lemma {:induction false} VarIntTailBound(data: seq<Byte>, i: int, acc: int, left: nat)
    requires 0 <= acc
    ensures VarIntTail(data, i, acc, left).Ok? ==>
              VarIntTail(data, i, acc, left).value.v < (acc + 1) * Pow128(left)
    decreases left
  {
    if left > 0 && 0 <= i < |data| {
      var acc' := acc * 0x80 + data[i] % 0x80;
      var p := Pow128(left - 1);
      assert Pow128(left) == 0x80 * p;
      AppendGroupBound(acc, data[i] % 0x80, p);
      if data[i] >= 0x80 {
        VarIntTailBound(data, i + 1, acc', left - 1);
      }
    }
  }

  /** Three continuation bytes after a leading 7-bit (or 8-bit) group stay below 2^28 (or 2^29). */
  lemma LeadingByteBound(data: seq<Byte>, i: int, first: int)
    requires 0 <= first < 0x100
    ensures VarIntTail(data, i, first, 3).Ok? ==>
              VarIntTail(data, i, first, 3).value.v < (if first < 0x80 then 0x1000_0000 else 0x2000_0000)
  {
    VarIntTailBound(data, i, first, 3);
    assert Pow128(3) == 0x20_0000;
    MulLeftMonotone(first + 1, if first < 0x80 then 0x80 else 0x100, 0x20_0000);
  }

  /** Appending a 7-bit group multiplies the bound by 128: `(128a + d + 1) p <= (a + 1) (128 p)`. */
  lemma AppendGroupBound(a: int, d: int, p: nat)
    requires 0 <= a && 0 <= d < 0x80 && 1 <= p
    ensures a * 0x80 + d < (a * 0x80 + d + 1) * p <= (a + 1) * (0x80 * p)
  {
    MulLeftMonotone(1, p, a * 0x80 + d + 1);
    MulLeftMonotone(a * 0x80 + d + 1, (a + 1) * 0x80, p);
    assert (a + 1) * 0x80 * p == (a + 1) * (0x80 * p);
  }

  lemma MulLeftMonotone(a: int, b: int, c: nat)
    requires a <= b
    ensures a * c <= b * c
  {
  }

  /**
   * `ReadVarInt`: one byte below 0x80 is the whole value; otherwise the first
   * byte (masked or not, by variant) is followed by at most three more, so at
   * most four bytes are consumed whatever their top bits.
   */
  function ReadVarIntSpec(variant: VarIntVariant, data: seq<Byte>, i: int): (r: Result<Read<int>>)
    ensures r.Ok? ==> 0 <= i && i + 1 <= r.value.next <= i + 4 && r.value.next <= |data|
    ensures r.Ok? ==> 0 <= r.value.v < (if variant == Masked then 0x1000_0000 else 0x2000_0000)
    ensures r.Err? ==> r.error == OutOfBounds
    ensures 0 <= i < |data| && data[i] < 0x80 ==> r == Ok(Read(data[i], i + 1))
    ensures r.Ok? <==> 0 <= i < |data| && (data[i] < 0x80 || TailInBuffer(data, i + 1, 3))
  {
    if !(0 <= i < |data|) then Err(OutOfBounds)
    else if data[i] < 0x80 then Ok(Read(data[i], i + 1))
    else
      var first := if variant == Masked then data[i] % 0x80 else data[i];
      LeadingByteBound(data, i + 1, first);
      VarIntTailWithin(data, i + 1, first, 3);
      VarIntTail(data, i + 1, first, 3)
  }

  lemma {:induction false} VarIntTailWithin(data: seq<Byte>, i: int, acc: int, left: nat)
    ensures VarIntTail(data, i, acc, left).Ok? && 0 < left ==> VarIntTail(data, i, acc, left).value.next <= |data|
    decreases left
  {
    if left > 1 && 0 <= i < |data| && data[i] >= 0x80 {
      VarIntTailWithin(data, i + 1, acc * 0x80 + data[i] % 0x80, left - 1);
    }
  }

  // ---------------------------------------------------------------------------
  // The reader methods

  /** `Read8`: the byte under the cursor; the cursor advances by one. */
  method Read8(data: seq<Byte>, i: int) returns (r: Result<Byte>, i': int)
    ensures r.Ok? <==> 0 <= i < |data|
    ensures r.Ok? ==> r.value == data[i] && i' == i + 1
    ensures Agrees(r, i', Read8Spec(data, i))
  {
    if !(0 <= i < |data|) {
      return Err(OutOfBounds), i;
    }
    r := Ok(data[i]);
    i' := i + 1;
  }

  /** `Read16`: the big-endian value of the next two bytes; the cursor advances by two. */
  method Read16(data: seq<Byte>, i: int) returns (r: Result<int>, i': int)
    ensures r.Ok? <==> 0 <= i && i + 2 <= |data|
    ensures r.Ok? ==> r.value == BigEndian16(data[i], data[i + 1]) && i' == i + 2
    ensures r.Ok? ==> 0 <= r.value < 0x1_0000
    ensures Agrees(r, i', Read16Spec(data, i))
  {
    i' := i;
    if !(0 <= i' < |data|) {
      return Err(OutOfBounds), i';
    }
    var hi := data[i'];
    i' := i' + 1;
    if !(i' < |data|) {
      return Err(OutOfBounds), i';
    }
    var lo := data[i'];
    i' := i' + 1;
    // (hi << 8) | lo, with lo < 0x100
    r := Ok(BigEndian16(hi, lo));
  }

  /**
   * `Read32`: the big-endian value of the next four bytes as a C# `int`
   * (negative when the first byte has bit 7 set); the cursor advances by four.
   */
  method Read32(data: seq<Byte>, i: int) returns (r: Result<int>, i': int)
    ensures r.Ok? <==> 0 <= i && i + 4 <= |data|
    ensures r.Ok? ==> i' == i + 4
    ensures r.Ok? ==> (r.value - BigEndian32(data[i], data[i + 1], data[i + 2], data[i + 3])) % 0x1_0000_0000 == 0
    ensures r.Ok? ==> IsInt32(r.value)
    ensures Agrees(r, i', Read32Spec(data, i))
  {
    i' := i;
    if !(0 <= i' && i' + 4 <= |data|) {
      // whichever of the four reads fails first, the error is the same
      return Err(OutOfBounds), i';
    }
    var b0 := data[i'];
    i' := i' + 1;
    var b1 := data[i'];
    i' := i' + 1;
    var b2 := data[i'];
    i' := i' + 1;
    var b3 := data[i'];
    i' := i' + 1;
    // (b0 << 24) | (b1 << 16) | (b2 << 8) | b3 in 32-bit arithmetic
    r := Ok(Wrap32(BigEndian32(b0, b1, b2, b3)));
  }

  /** `ReadString`: `length` bytes decoded as ASCII; the cursor advances by `length`. */
  method ReadString(data: seq<Byte>, i: int, length: nat) returns (r: Result<string>, i': int)
    ensures r.Ok? <==> 0 <= i && i + length <= |data|
    ensures r.Ok? ==> i' == i + length && |r.value| == length
    ensures r.Ok? ==> forall k :: 0 <= k < length ==> r.value[k] == AsciiChar(data[i + k])
    ensures Agrees(r, i', ReadStringSpec(data, i, length))
  {
    if !(0 <= i && i + length <= |data|) {
      return Err(OutOfBounds), i;
    }
    r := Ok(AsciiString(data[i..i + length]));
    i' := i + length;
  }

  /**
   * `ReadVarInt`: the first byte, returned as it is when below 0x80; otherwise
   * up to three more bytes accumulated 7 bits at a time, stopping after the
   * first whose bit 7 is clear.
   */
  method ReadVarInt(variant: VarIntVariant, data: seq<Byte>, i: int) returns (r: Result<int>, i': int)
    ensures Agrees(r, i', ReadVarIntSpec(variant, data, i))
  {
    i' := i;
    if !(0 <= i' < |data|) {
      return Err(OutOfBounds), i';
    }
    var result: int := data[i'];
    i' := i' + 1;
    if result < 0x80 {
      return Ok(result), i';
    }
    if variant == Masked {
      result := result % 0x80;
    }
    assert ReadVarIntSpec(variant, data, i) == VarIntTail(data, i', result, 3);
    r, i' := ReadContinuation(data, i', result);
  }

  /** The loop of `ReadVarInt`: up to three continuation bytes, 7 bits each. */
  method ReadContinuation(data: seq<Byte>, i: int, first: int) returns (r: Result<int>, i': int)
    ensures Agrees(r, i', VarIntTail(data, i, first, 3))
  {
    i' := i;
    var result := first;
    for j := 0 to 3
      invariant VarIntTail(data, i', result, 3 - j) == VarIntTail(data, i, first, 3)
    {
      if !(0 <= i' < |data|) {
        return Err(OutOfBounds), i';
      }
      var value := data[i'];
      i' := i' + 1;
      // (result << 7) | (value & 0x7F)
      result := result * 0x80 + value % 0x80;
      if value < 0x80 {
        break;
      }
    }
    r := Ok(result);
  }

  // ---------------------------------------------------------------------------
  // Encoders: the inverses the readers are proved against

  function Encode16(x: int): (bs: seq<Byte>)
    requires 0 <= x < 0x1_0000
    ensures |bs| == 2 && BigEndian16(bs[0], bs[1]) == x
  {
    [x / 0x100, x % 0x100]
  }

  /** The four big-endian bytes of a C# `int` in two's complement. */
  function Encode32(x: int): (bs: seq<Byte>)
    requires IsInt32(x)
    ensures |bs| == 4 && (bs[0] >= 0x80 <==> x < 0)
  {
    var u := if x < 0 then x + 0x1_0000_0000 else x;
    [u / 0x100 / 0x100 / 0x100, u / 0x100 / 0x100 % 0x100, u / 0x100 % 0x100, u % 0x100]
  }

  /**
   * The standard variable-length quantity of Standard MIDI Files 1.0: 7 bits
   * per byte, most significant group first, bit 7 set on every byte but the last.
   */
  function EncodeVarInt(x: int): (bs: seq<Byte>)
    requires 0 <= x < 0x1000_0000
    ensures 1 <= |bs| <= 4
    ensures forall k :: 0 <= k < |bs| - 1 ==> bs[k] >= 0x80
    ensures bs[|bs| - 1] < 0x80
  {
    if x < 0x80 then [x]
    else if x < 0x4000 then [0x80 + x / 0x80, x % 0x80]
    else if x < 0x20_0000 then [0x80 + x / 0x4000, 0x80 + x / 0x80 % 0x80, x % 0x80]
    else [0x80 + x / 0x20_0000, 0x80 + x / 0x4000 % 0x80, 0x80 + x / 0x80 % 0x80, x % 0x80]
  }

  lemma Read16RoundTrip(x: int, rest: seq<Byte>)
    requires 0 <= x < 0x1_0000
    ensures Read16Spec(Encode16(x) + rest, 0) == Ok(Read(x, 2))
  {
  }

  lemma Read32RoundTrip(x: int, rest: seq<Byte>)
    requires IsInt32(x)
    ensures Read32Spec(Encode32(x) + rest, 0) == Ok(Read(x, 4))
  {
    var bs := Encode32(x) + rest;
    var u := if x < 0 then x + 0x1_0000_0000 else x;
    var r1 := u / 0x100;
    var r2 := r1 / 0x100;
    assert u == r1 * 0x100 + u % 0x100;
    assert r1 == r2 * 0x100 + r1 % 0x100;
    assert r2 == r2 / 0x100 * 0x100 + r2 % 0x100;
    assert bs[..4] == [r2 / 0x100, r2 % 0x100, r1 % 0x100, u % 0x100];
    assert BigEndian32(bs[0], bs[1], bs[2], bs[3]) == u;
    if x >= 0 {
      assert Wrap32(u) == x;
    } else {
      assert Wrap32(u) == x;
    }
  }

  /** The masked decoder inverts the standard encoding of every value below 2^28. */
  lemma VarIntRoundTrip(x: int, rest: seq<Byte>)
    requires 0 <= x < 0x1000_0000
    ensures ReadVarIntSpec(Masked, EncodeVarInt(x) + rest, 0) == Ok(Read(x, |EncodeVarInt(x)|))
  {
    if x < 0x80 {
    } else if x < 0x4000 {
      VarIntRoundTrip2(x, rest);
    } else if x < 0x20_0000 {
      VarIntRoundTrip3(x, rest);
    } else {
      VarIntRoundTrip4(x, rest);
    }
  }

  lemma VarIntRoundTrip2(x: int, rest: seq<Byte>)
    requires 0x80 <= x < 0x4000
    ensures ReadVarIntSpec(Masked, EncodeVarInt(x) + rest, 0) == Ok(Read(x, 2))
  {
    var bs := EncodeVarInt(x) + rest;
    assert bs[0] == 0x80 + x / 0x80 && bs[1] == x % 0x80;
    LeadingGroup(bs, x / 0x80);
    LastGroup(bs, 1, x / 0x80, x % 0x80, 2);
  }

  lemma VarIntRoundTrip3(x: int, rest: seq<Byte>)
    requires 0x4000 <= x < 0x20_0000
    ensures ReadVarIntSpec(Masked, EncodeVarInt(x) + rest, 0) == Ok(Read(x, 3))
  {
    var bs := EncodeVarInt(x) + rest;
    assert bs[0] == 0x80 + x / 0x4000 && bs[1] == 0x80 + x / 0x80 % 0x80 && bs[2] == x % 0x80;
    assert x / 0x4000 * 0x80 + x / 0x80 % 0x80 == x / 0x80;
    LeadingGroup(bs, x / 0x4000);
    ContinuationGroup(bs, 1, x / 0x4000, x / 0x80 % 0x80, 2);
    LastGroup(bs, 2, x / 0x80, x % 0x80, 1);
  }

  lemma VarIntRoundTrip4(x: int, rest: seq<Byte>)
    requires 0x20_0000 <= x < 0x1000_0000
    ensures ReadVarIntSpec(Masked, EncodeVarInt(x) + rest, 0) == Ok(Read(x, 4))
  {
    var bs := EncodeVarInt(x) + rest;
    assert bs[0] == 0x80 + x / 0x20_0000 && bs[1] == 0x80 + x / 0x4000 % 0x80;
    assert bs[2] == 0x80 + x / 0x80 % 0x80 && bs[3] == x % 0x80;
    assert x / 0x20_0000 * 0x80 + x / 0x4000 % 0x80 == x / 0x4000;
    assert x / 0x4000 * 0x80 + x / 0x80 % 0x80 == x / 0x80;
    LeadingGroup(bs, x / 0x20_0000);
    ContinuationGroup(bs, 1, x / 0x20_0000, x / 0x4000 % 0x80, 2);
    ContinuationGroup(bs, 2, x / 0x4000, x / 0x80 % 0x80, 1);
    LastGroup(bs, 3, x / 0x80, x % 0x80, 0);
  }

  /** A leading byte with bit 7 set contributes its low 7 bits to the masked decoder. */
  lemma LeadingGroup(data: seq<Byte>, g: int)
    requires 0 < |data| && 0 <= g < 0x80 && data[0] == 0x80 + g
    ensures ReadVarIntSpec(Masked, data, 0) == VarIntTail(data, 1, g, 3)
  {
    assert data[0] % 0x80 == g;
  }

  /** A continuation byte with bit 7 set appends its 7-bit group and reading goes on. */
  lemma ContinuationGroup(data: seq<Byte>, k: int, acc: int, g: int, left: nat)
    requires 0 <= k < |data| && 0 <= g < 0x80 && data[k] == 0x80 + g
    ensures VarIntTail(data, k, acc, left + 1) == VarIntTail(data, k + 1, acc * 0x80 + g, left)
  {
    assert data[k] % 0x80 == g;
  }

  /** A byte with bit 7 clear appends its group and ends the quantity. */
  lemma LastGroup(data: seq<Byte>, k: int, acc: int, g: int, left: nat)
    requires 0 <= k < |data| && 0 <= g < 0x80 && data[k] == g
    ensures VarIntTail(data, k, acc, left + 1) == Ok(Read(acc * 0x80 + g, k + 1))
  {
  }

  /**
   * The unmasked decoder of `src/MidiFile.cs` consumes the same bytes as the
   * masked one, and adds 2^(7n) to its result when the quantity spans n >= 2
   * bytes: the leading byte's continuation bit is kept as a value bit.
   */
  lemma UnmaskedKeepsLeadingBit(data: seq<Byte>, i: int)
    ensures var m := ReadVarIntSpec(Masked, data, i);
            var u := ReadVarIntSpec(Unmasked, data, i);
            m.Ok? == u.Ok? &&
            (m.Ok? ==> u.value.next == m.value.next &&
                       u.value.v == m.value.v + (if data[i] < 0x80 then 0 else Pow128(m.value.next - i)))
  {
    if 0 <= i < |data| && data[i] >= 0x80 {
      LeadingBitWeight(data, i + 1, data[i]);
    }
  }

  /**
   * The continuation bytes after a leading byte whose bit 7 is kept: the extra
   * 0x80 in the accumulator is shifted left 7 bits by each byte consumed.
   */
  lemma LeadingBitWeight(data: seq<Byte>, j: int, first: Byte)
    requires 0x80 <= first
    ensures var m := VarIntTail(data, j, first % 0x80, 3);
            var u := VarIntTail(data, j, first, 3);
            m.Ok? == u.Ok? &&
            (m.Ok? ==> u.value.next == m.value.next && u.value.v == m.value.v + Pow128(m.value.next - j + 1))
  {
    var low := first % 0x80;
    assert first == low + 0x80;
    assert Pow128(2) == 0x4000 && Pow128(3) == 0x20_0000 && Pow128(4) == 0x1000_0000;
    if 0 <= j < |data| {
      var a1 := low * 0x80 + data[j] % 0x80;
      assert (low + 0x80) * 0x80 + data[j] % 0x80 == a1 + 0x4000;
      if data[j] >= 0x80 && j + 1 < |data| {
        var a2 := a1 * 0x80 + data[j + 1] % 0x80;
        assert (a1 + 0x4000) * 0x80 + data[j + 1] % 0x80 == a2 + 0x20_0000;
        if data[j + 1] >= 0x80 && j + 2 < |data| {
          var a3 := a2 * 0x80 + data[j + 2] % 0x80;
          assert (a2 + 0x20_0000) * 0x80 + data[j + 2] % 0x80 == a3 + 0x1000_0000;
        }
      }
    }
  }

  /**
   * The unmasked decoder misreads the standard two-byte encoding of 128,
   * [0x81, 0x00], as 16512 (0x81 << 7); the masked decoder reads 128.
   */
  lemma UnmaskedVarIntMisdecodes()
    ensures EncodeVarInt(0x80) == [0x81, 0x00]
    ensures ReadVarIntSpec(Unmasked, [0x81, 0x00], 0) == Ok(Read(0x4080, 2))
    ensures ReadVarIntSpec(Masked, [0x81, 0x00], 0) == Ok(Read(0x80, 2))
  {
  }

  /** A variable-length quantity depends only on the bytes it occupies. */
  lemma {:induction false} VarIntTailPrefix(data: seq<Byte>, data': seq<Byte>, i: int, acc: int, left: nat, k: int)
    requires 0 <= k <= |data| && k <= |data'| && data[..k] == data'[..k]
    requires VarIntTail(data, i, acc, left).Ok? && VarIntTail(data, i, acc, left).value.next <= k
    ensures VarIntTail(data', i, acc, left) == VarIntTail(data, i, acc, left)
    decreases left
  {
    if left > 0 {
      assert data'[i] == data'[..k][i] == data[..k][i] == data[i];
      if data[i] >= 0x80 {
        VarIntTailPrefix(data, data', i + 1, acc * 0x80 + data[i] % 0x80, left - 1, k);
      }
    }
  }

  /** A quantity never runs out of buffer when four bytes remain, whatever their top bits. */
  lemma ReadVarIntFits(variant: VarIntVariant, data: seq<Byte>, i: int)
    requires 0 <= i && i + 4 <= |data|
    ensures ReadVarIntSpec(variant, data, i).Ok?
    ensures ReadVarIntSpec(variant, data, i).value.next <= i + 4
  {
    TailFits(data, i + 1, 3);
  }

  lemma ReadVarIntPrefix(variant: VarIntVariant, data: seq<Byte>, data': seq<Byte>, i: int, k: int)
    requires 0 <= k <= |data| && k <= |data'| && data[..k] == data'[..k]
    requires ReadVarIntSpec(variant, data, i).Ok? && ReadVarIntSpec(variant, data, i).value.next <= k
    ensures ReadVarIntSpec(variant, data', i) == ReadVarIntSpec(variant, data, i)
  {
    assert data'[i] == data'[..k][i] == data[..k][i] == data[i];
    if data[i] >= 0x80 {
      var first := if variant == Masked then data[i] % 0x80 else data[i];
      VarIntTailPrefix(data, data', i + 1, first, 3, k);
    }
  }

  /**
   * A quantity reads the same, one byte further on, from a buffer in which
   * one byte was inserted somewhere at or before `d`, its first byte.
   */
  lemma {:induction false} VarIntTailShift(data: seq<Byte>, data': seq<Byte>, d: int, i: int, acc: int, left: nat)
    requires 0 <= d <= i && |data'| == |data| + 1
    requires forall j :: d <= j < |data| ==> data'[j + 1] == data[j]
    ensures VarIntTail(data', i + 1, acc, left).Ok? == VarIntTail(data, i, acc, left).Ok?
    ensures VarIntTail(data, i, acc, left).Ok? ==>
              VarIntTail(data', i + 1, acc, left).value ==
              Read(VarIntTail(data, i, acc, left).value.v, VarIntTail(data, i, acc, left).value.next + 1)
    decreases left
  {
    if left > 0 && i < |data| {
      assert data'[i + 1] == data[i];
      if data[i] >= 0x80 {
        VarIntTailShift(data, data', d, i + 1, acc * 0x80 + data[i] % 0x80, left - 1);
      }
    }
  }

  lemma ReadVarIntShift(variant: VarIntVariant, data: seq<Byte>, data': seq<Byte>, d: int, i: int)
    requires 0 <= d <= i && |data'| == |data| + 1
    requires forall j :: d <= j < |data| ==> data'[j + 1] == data[j]
    ensures ReadVarIntSpec(variant, data', i + 1).Ok? == ReadVarIntSpec(variant, data, i).Ok?
    ensures ReadVarIntSpec(variant, data, i).Ok? ==>
              ReadVarIntSpec(variant, data', i + 1).value ==
              Read(ReadVarIntSpec(variant, data, i).value.v, ReadVarIntSpec(variant, data, i).value.next + 1)
  {
    if i < |data| {
      assert data'[i + 1] == data[i];
      if data[i] >= 0x80 {
        var first := if variant == Masked then data[i] % 0x80 else data[i];
        VarIntTailShift(data, data', d, i + 1, first, 3);
      }
    }
  }
}
