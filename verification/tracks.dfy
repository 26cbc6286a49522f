/** The `Track` class of main.cpp: one track chunk's bytes, a read cursor, the
    track's absolute tick, the running-status register `message`, the scratch
    word `temp` and the payload buffer `long_msg` of the last meta or SysEx event.
    Every member function of the class becomes a pure function from the track
    before the call to the track after it. */
module Tracks {
  import opened Bytes
  import opened Vlq

  /** `INT_MAX + 1`: the track tick is a C `int`. */
  const INT_LIMIT: nat := 0x8000_0000

  /** Bits 24 and up of a packed word are never set. */
  const PACKED_LIMIT: bv32 := 0x100_0000

  /** `length` and `long_msg_len` are left out: `length` is never read and
      `long_msg_len` always equals `|longMsg|`. */
  datatype Track = Track(
    data: seq<byte>,
    tick: nat,
    offset: nat,
    message: bv32,
    temp: bv32,
    longMsg: seq<byte>)

  /** The constructor: the chunk bytes with every other field zero or empty. */
  function NewTrack(data: seq<byte>): (t: Track)
    ensures t.data == data && t.offset == 0 && t.tick == 0
    ensures t.message == 0 && t.temp == 0 && t.longMsg == []
    ensures WellPacked(t)
  {
    Track(data, 0, 0, 0, 0, [])
  }

  /** A track still takes part in playback while its buffer is non-empty. */
  predicate Active(t: Track)
  {
    |t.data| > 0
  }

  /** The status byte of a packed word: `message & 0xFF`. */
  function Status(m: bv32): byte
  {
    (m & 0xFF) as byte
  }

  /** The second byte of a packed word: `message >> 8 & 0xFF`. */
  function Byte1(m: bv32): byte
  {
    ((m >> 8) & 0xFF) as byte
  }

  /** The register invariant the class keeps: `temp` never has its low byte set,
      and neither register uses bits 24 and up. */
  predicate WellPacked(t: Track)
  {
    t.temp & 0xFF == 0 && t.temp < PACKED_LIMIT && t.message < PACKED_LIMIT
  }

  /** Number of data bytes the decoder reads after a channel status. */
  function DataByteCount(status: byte): nat
  {
    if status < 0xC0 then 2 else if status < 0xE0 then 1 else if status < 0xF0 then 2 else 0
  }

  /** Data bytes shifted into bits 8-15 and 16-23, as `temp` holds them. */
  function DataWord(d1: byte, d2: byte): (w: bv32)
    ensures w & 0xFF == 0 && w < PACKED_LIMIT
    ensures Byte1(w) == d1
  {
    (d1 as bv32 << 8) | (d2 as bv32 << 16)
  }

  // ---------------------------------------------------------------- update_tick

  /** `update_tick` reads a whole quantity inside the buffer and the sum fits an `int`. */
  predicate TickInBounds(t: Track)
  {
    HasVlq(t.data, t.offset) && t.tick + DecodeVariableLength(t.data, t.offset).value < INT_LIMIT
  }

  /** `Track::update_tick`: adds the next delta time to the track's tick. */
  function UpdateTick(t: Track): (r: Track)
    requires TickInBounds(t)
    ensures t.offset < r.offset <= t.offset + 4 && r.offset <= |t.data|
    ensures IsFinal(t.data[r.offset - 1])
    ensures forall k :: t.offset <= k < r.offset - 1 ==> !IsFinal(t.data[k])
    ensures r.tick == t.tick + Horner(0, t.data[t.offset..r.offset])
    ensures t.tick <= r.tick < INT_LIMIT
    ensures r == t.(tick := r.tick, offset := r.offset)
  {
    var d := DecodeVariableLength(t.data, t.offset);
    t.(tick := t.tick + d.value, offset := d.next)
  }

  // ------------------------------------------------------------- update_command

  /** `update_command` reads `data[offset]` unless the buffer is empty. */
  predicate CommandInBounds(t: Track)
  {
    !Active(t) || t.offset < |t.data|
  }

  /** `Track::update_command`: a byte of 0x80 or more is a new status, consumed and
      stored in `message`; a smaller byte leaves the previous status in force. */
  function UpdateCommand(t: Track): (r: Track)
    requires CommandInBounds(t)
    ensures !Active(t) ==> r == t
    ensures Active(t) && t.data[t.offset] >= 0x80 ==>
              r == t.(offset := t.offset + 1, message := t.data[t.offset] as bv32)
    ensures Active(t) && t.data[t.offset] < 0x80 ==> r == t
    ensures WellPacked(t) ==> WellPacked(r)
  {
    if !Active(t) then t
    else
      var b := t.data[t.offset];
      if b >= 0x80 then t.(offset := t.offset + 1, message := b as bv32) else t
  }

  // ------------------------------------------------------------- update_message

  /** A length quantity starts at `p` and the payload it announces lies inside `data`. */
  predicate PayloadInBounds(data: seq<byte>, p: nat)
  {
    HasVlq(data, p) && DecodeVariableLength(data, p).next + DecodeVariableLength(data, p).value <= |data|
  }

  /** Every read `update_message` makes for the current status lies inside the buffer. */
  predicate MessageInBounds(t: Track)
  {
    if !Active(t) then true
    else
      var s := Status(t.message);
      if s < 0xF0 then t.offset + DataByteCount(s) <= |t.data|
      else if s == 0xFF then t.offset < |t.data| && PayloadInBounds(t.data, t.offset + 1)
      else if s == 0xF0 then PayloadInBounds(t.data, t.offset)
      else true
  }

  /** Reads a length quantity at `p` and the payload after it into `longMsg`. */
  function ReadPayload(t: Track, p: nat): (r: Track)
    requires PayloadInBounds(t.data, p)
    ensures var d := DecodeVariableLength(t.data, p);
            && r.longMsg == t.data[d.next..d.next + d.value]
            && r.offset == d.next + d.value
            && p < r.offset <= |t.data|
    ensures r == t.(longMsg := r.longMsg, offset := r.offset)
  {
    var d := DecodeVariableLength(t.data, p);
    t.(longMsg := t.data[d.next..d.next + d.value], offset := d.next + d.value)
  }

  /** The body reads of `update_message`, before `message |= temp`. */
  function ReadBody(t: Track): (r: Track)
    requires Active(t) && MessageInBounds(t)
    ensures r.data == t.data && r.tick == t.tick && r.message == t.message
    ensures t.offset <= r.offset && (t.offset <= |t.data| ==> r.offset <= |t.data|)
    ensures WellPacked(t) ==> r.temp & 0xFF == 0 && r.temp < PACKED_LIMIT
  {
    var s := Status(t.message);
    var o := t.offset;
    if s < 0xC0 then t.(temp := DataWord(t.data[o], t.data[o + 1]), offset := o + 2)
    else if s < 0xE0 then t.(temp := DataWord(t.data[o], 0), offset := o + 1)
    else if s < 0xF0 then t.(temp := DataWord(t.data[o], t.data[o + 1]), offset := o + 2)
    else if s == 0xFF then ReadPayload(t.(temp := DataWord(t.data[o], 0)), o + 1)
    else if s == 0xF0 then ReadPayload(t.(temp := 0), o)
    else t
  }

  /** OR-ing a word with a clear low byte into a packed word keeps its status and
      its width. */
  lemma OrKeepsStatus(m: bv32, w: bv32)
    ensures w & 0xFF == 0 ==> Status(m | w) == Status(m)
    ensures m < PACKED_LIMIT && w < PACKED_LIMIT ==> m | w < PACKED_LIMIT
  {
  }

  /** `Track::update_message`: reads the event body for the status in `message`
      and ORs the data bytes, held in `temp`, into `message`. Under running status
      `message` still holds the previous event's data bytes, so the new ones are
      OR-ed onto the old ones; a status 0xF1-0xFE reads nothing and ORs in the
      `temp` left by an earlier event. */
  function UpdateMessage(t: Track): (r: Track)
    requires MessageInBounds(t)
    ensures !Active(t) ==> r == t
    ensures WellPacked(t) ==> WellPacked(r) && Status(r.message) == Status(t.message)
    ensures r.data == t.data && r.tick == t.tick
    ensures t.offset <= r.offset && (t.offset <= |t.data| ==> r.offset <= |t.data|)
  {
    if !Active(t) then t
    else
      var b := ReadBody(t);
      OrKeepsStatus(b.message, b.temp);
      b.(message := b.message | b.temp)
  }

  /** A channel status (below 0xF0) makes `update_message` read exactly
      `DataByteCount` data bytes into bits 8-23 of `temp` and OR them into `message`. */
  lemma ChannelMessageRead(t: Track)
    requires Active(t) && MessageInBounds(t) && Status(t.message) < 0xF0
    ensures var r := UpdateMessage(t);
            var n := DataByteCount(Status(t.message));
            && r.offset == t.offset + n
            && r.temp == DataWord(t.data[t.offset], if n == 2 then t.data[t.offset + 1] else 0)
            && r.message == t.message | r.temp
            && r.longMsg == t.longMsg
  {
  }

  /** A meta status (0xFF) makes `update_message` read the type byte into bits
      8-15 of `temp`, then a length quantity and exactly that many payload bytes
      into `longMsg`. */
  lemma MetaMessageRead(t: Track)
    requires Status(t.message) == 0xFF
    requires t.offset < |t.data| && PayloadInBounds(t.data, t.offset + 1)
    ensures Active(t) && MessageInBounds(t)
    ensures var r := UpdateMessage(t);
            var d := DecodeVariableLength(t.data, t.offset + 1);
            && r.offset == d.next + d.value
            && r.longMsg == t.data[d.next..d.next + d.value]
            && r.temp == DataWord(t.data[t.offset], 0)
            && r.message == t.message | r.temp
  {
    MetaBody(t);
  }

  /** The body reads for a meta status: the type byte, then the payload. */
  lemma MetaBody(t: Track)
    requires Status(t.message) == 0xFF
    requires t.offset < |t.data| && PayloadInBounds(t.data, t.offset + 1)
    ensures Active(t) && MessageInBounds(t)
    ensures ReadBody(t) == ReadPayload(t.(temp := DataWord(t.data[t.offset], 0)), t.offset + 1)
    ensures UpdateMessage(t) == ReadBody(t).(message := t.message | DataWord(t.data[t.offset], 0))
  {
  }

  /** The meta type byte lands in bits 8-15 of `message`, OR-ed onto what was there. */
  lemma MetaTypeRead(t: Track)
    requires Status(t.message) == 0xFF
    requires t.offset < |t.data| && PayloadInBounds(t.data, t.offset + 1)
    ensures Active(t) && MessageInBounds(t)
    ensures Byte1(UpdateMessage(t).message) == Byte1(t.message) | t.data[t.offset]
  {
    MetaMessageRead(t);
    OrTypeByte(t.message, t.data[t.offset]);
  }

  lemma OrTypeByte(m: bv32, x: byte)
    ensures Byte1(m | DataWord(x, 0)) == Byte1(m) | x
  {
  }

  /** A SysEx status (0xF0) makes `update_message` read a length quantity and
      exactly that many payload bytes into `longMsg`, with `temp` cleared. */
  lemma SysExMessageRead(t: Track)
    requires Status(t.message) == 0xF0
    requires Active(t) && PayloadInBounds(t.data, t.offset)
    ensures MessageInBounds(t)
    ensures var r := UpdateMessage(t);
            var d := DecodeVariableLength(t.data, t.offset);
            && r.offset == d.next + d.value
            && r.longMsg == t.data[d.next..d.next + d.value]
            && r.temp == 0
            && r.message == t.message
  {
  }

  /** A status 0xF1-0xFE matches no branch: nothing is read and the `temp` left
      by an earlier event is OR-ed into `message` again. */
  lemma UnhandledStatusRead(t: Track)
    requires Active(t) && 0xF0 < Status(t.message) < 0xFF
    ensures MessageInBounds(t)
    ensures var r := UpdateMessage(t);
            r == t.(message := t.message | t.temp)
  {
  }

  /** `update_command` followed by `update_message`: one event decoded at the cursor. */
  function DecodeEvent(t: Track): Track
    requires CommandInBounds(t) && MessageInBounds(UpdateCommand(t))
  {
    UpdateMessage(UpdateCommand(t))
  }
}
