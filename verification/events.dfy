/** MIDI events as values, their byte form in a track chunk, and the packed word
    the player hands to the output sink. The encoder is the reference the event
    decoder of `Tracks` is checked against. */
module Events {
  import opened Bytes
  import opened Vlq
  import opened Tracks

  datatype Event =
    | Channel(status: byte, d1: byte, d2: byte)   // voice/mode message, status 0x80-0xEF
    | Meta(kind: byte, payload: seq<byte>)         // status 0xFF
    | SysEx(payload: seq<byte>)                    // status 0xF0

  /** A well-formed event: a channel status with data bytes below 0x80 (the
      second one zero when the status takes a single data byte), or a payload
      whose length fits a four-byte quantity. */
  predicate ValidEvent(e: Event)
  {
    match e
    case Channel(s, d1, d2) => 0x80 <= s < 0xF0 && d1 < 0x80 && d2 < 0x80 && (DataByteCount(s) == 1 ==> d2 == 0)
    case Meta(_, p) => |p| < VLQ_LIMIT
    case SysEx(p) => |p| < VLQ_LIMIT
  }

  function StatusOf(e: Event): byte
  {
    match e
    case Channel(s, _, _) => s
    case Meta(_, _) => 0xFF
    case SysEx(_) => 0xF0
  }

  /** The bytes of an event after its status byte. */
  function BodyBytes(e: Event): seq<byte>
  {
    match e
    case Channel(s, d1, d2) => if DataByteCount(s) == 2 then [d1, d2] else [d1]
    case Meta(k, p) => [k] + EncodeVlq(|p|) + p
    case SysEx(p) => EncodeVlq(|p|) + p
  }

  /** An event as a track chunk stores it with an explicit status byte. */
  function EncodeEvent(e: Event): seq<byte>
  {
    [StatusOf(e)] + BodyBytes(e)
  }

  /** The packed word the player works with: status in bits 0-7, the first data
      byte (or meta type) in bits 8-15, the second data byte in bits 16-23. */
  function Packed(e: Event): bv32
  {
    match e
    case Channel(s, d1, d2) => s as bv32 | DataWord(d1, d2)
    case Meta(k, _) => 0xFF | DataWord(k, 0)
    case SysEx(_) => 0xF0
  }

  lemma PackedFields(s: byte, w: bv32)
    requires w & 0xFF == 0 && w < PACKED_LIMIT
    ensures Status(s as bv32 | w) == s
    ensures Byte1(s as bv32 | w) == Byte1(w)
    ensures s as bv32 | w < PACKED_LIMIT
  {
  }

  /** The status byte, the meta type and the width of every packed event. */
  lemma PackedStatus(e: Event)
    requires ValidEvent(e)
    ensures Status(Packed(e)) == StatusOf(e)
    ensures e.Meta? ==> Byte1(Packed(e)) == e.kind
    ensures Packed(e) < PACKED_LIMIT
  {
    match e
    case Channel(s, d1, d2) => PackedFields(s, DataWord(d1, d2));
    case Meta(k, _) => PackedFields(0xFF, DataWord(k, 0));
    case SysEx(_) =>
  }

  /** `data` holds `bs` starting at position `p`. */
  predicate HoldsAt(data: seq<byte>, p: nat, bs: seq<byte>)
  {
    p + |bs| <= |data| && data[p..p + |bs|] == bs
  }

  /** The payload of a length-prefixed body is read back exactly. */
  lemma PayloadRoundTrip(t: Track, q: nat, p: seq<byte>)
    requires |p| < VLQ_LIMIT
    requires HoldsAt(t.data, q, EncodeVlq(|p|) + p)
    ensures PayloadInBounds(t.data, q)
    ensures var d := DecodeVariableLength(t.data, q);
            d.next == q + |EncodeVlq(|p|)| && d.value == |p|
            && t.data[d.next..d.next + d.value] == p
  {
    var v := EncodeVlq(|p|);
    SplitAt(t.data, q, v, p);
    DecodeEncodeAt(t.data, q, |p|);
    var d := DecodeVariableLength(t.data, q);
    assert d.next + d.value == q + |v| + |p|;
  }

  /** After the status byte of a stored event, `update_command` has loaded the
      status and the body follows the cursor. */
  lemma StatusLoaded(t: Track, e: Event)
    requires ValidEvent(e)
    requires HoldsAt(t.data, t.offset, EncodeEvent(e))
    ensures CommandInBounds(t)
    ensures UpdateCommand(t) == t.(offset := t.offset + 1, message := StatusOf(e) as bv32)
    ensures Status(StatusOf(e) as bv32) == StatusOf(e)
    ensures HoldsAt(t.data, t.offset + 1, BodyBytes(e))
  {
    var o := t.offset;
    var enc := EncodeEvent(e);
    assert t.data[o] == t.data[o..o + |enc|][0] == StatusOf(e);
    assert StatusOf(e) >= 0x80;
    assert Active(t) && t.data[o] >= 0x80;
    assert UpdateCommand(t) == t.(offset := o + 1, message := t.data[o] as bv32);
    StatusOfByte(StatusOf(e));
    assert t.data[o + 1..o + 1 + |BodyBytes(e)|] == t.data[o..o + |enc|][1..];
  }

  lemma StatusOfByte(b: byte)
    ensures Status(b as bv32) == b
  {
  }

  /** `update_command` at a channel status byte loads it as the status. */
  lemma ChannelStatusLoaded(t: Track, e: Event)
    requires e.Channel? && ValidEvent(e)
    requires t.offset < |t.data| && t.data[t.offset] == e.status
    ensures CommandInBounds(t)
    ensures UpdateCommand(t) == t.(offset := t.offset + 1, message := e.status as bv32)
    ensures Status(UpdateCommand(t).message) == e.status
  {
    StatusOfByte(e.status);
  }

  /** Decoding a channel event whose status byte and data bytes lie at the cursor. */
  lemma ChannelDecoded(t: Track, e: Event)
    requires e.Channel? && ValidEvent(e)
    requires t.offset + 1 + DataByteCount(e.status) <= |t.data|
    requires t.data[t.offset] == e.status && t.data[t.offset + 1] == e.d1
    requires DataByteCount(e.status) == 2 ==> t.data[t.offset + 2] == e.d2
    ensures CommandInBounds(t) && MessageInBounds(UpdateCommand(t))
    ensures DecodeEvent(t).message == e.status as bv32 | DataWord(e.d1, e.d2)
    ensures DecodeEvent(t).offset == t.offset + 1 + DataByteCount(e.status)
  {
    ChannelStatusLoaded(t, e);
    var c := UpdateCommand(t);
    ChannelBodyWord(c, e);
  }

  lemma ChannelBodyWord(c: Track, e: Event)
    requires e.Channel? && ValidEvent(e)
    requires c.message == e.status as bv32 && Status(c.message) == e.status
    requires c.offset + DataByteCount(e.status) <= |c.data|
    requires c.data[c.offset] == e.d1
    requires DataByteCount(e.status) == 2 ==> c.data[c.offset + 1] == e.d2
    ensures MessageInBounds(c)
    ensures UpdateMessage(c).message == e.status as bv32 | DataWord(e.d1, e.d2)
    ensures UpdateMessage(c).offset == c.offset + DataByteCount(e.status)
  {
    ChannelMessageRead(c);
    if DataByteCount(e.status) == 1 {
      assert e.d2 == 0;
    }
  }

  lemma DecodeEncodedChannel(t: Track, e: Event)
    requires ValidEvent(e) && e.Channel? && WellPacked(t)
    requires HoldsAt(t.data, t.offset, EncodeEvent(e))
    ensures CommandInBounds(t) && MessageInBounds(UpdateCommand(t))
    ensures var r := DecodeEvent(t);
            r.message == Packed(e) && r.offset == t.offset + |EncodeEvent(e)|
  {
    var o := t.offset;
    var enc := EncodeEvent(e);
    var n := DataByteCount(e.status);
    assert |enc| == 1 + n;
    assert t.data[o] == t.data[o..o + |enc|][0] == e.status;
    assert t.data[o + 1] == t.data[o..o + |enc|][1] == e.d1;
    assert n == 2 ==> t.data[o + 2] == t.data[o..o + |enc|][2] == e.d2;
    ChannelDecoded(t, e);
    PackedChannel(e);
  }

  lemma PackedChannel(e: Event)
    requires e.Channel?
    ensures Packed(e) == e.status as bv32 | DataWord(e.d1, e.d2)
  {
  }

  lemma DecodeEncodedMeta(t: Track, e: Event)
    requires ValidEvent(e) && e.Meta? && WellPacked(t)
    requires HoldsAt(t.data, t.offset, EncodeEvent(e))
    ensures CommandInBounds(t) && MessageInBounds(UpdateCommand(t))
    ensures var r := DecodeEvent(t);
            && r.message == Packed(e) && r.offset == t.offset + |EncodeEvent(e)|
            && r.longMsg == e.payload
  {
    StatusLoaded(t, e);
    MetaBodyDecoded(UpdateCommand(t), e);
  }

  /** With the meta status loaded, the type byte and the payload of a stored
      meta event are read back. */
  lemma MetaBodyDecoded(c: Track, e: Event)
    requires ValidEvent(e) && e.Meta?
    requires c.message == 0xFF && HoldsAt(c.data, c.offset, BodyBytes(e))
    ensures MessageInBounds(c)
    ensures var r := UpdateMessage(c);
            && r.message == Packed(e) && r.offset == c.offset + |BodyBytes(e)|
            && r.longMsg == e.payload
  {
    MetaBodyParts(c.data, c.offset, e);
    PayloadRoundTrip(c, c.offset + 1, e.payload);
    MetaMessageRead(c);
  }

  /** A stored meta body: the type byte, then the length-prefixed payload. */
  lemma MetaBodyParts(data: seq<byte>, o: nat, e: Event)
    requires e.Meta? && HoldsAt(data, o, BodyBytes(e))
    ensures o < |data| && data[o] == e.kind
    ensures HoldsAt(data, o + 1, EncodeVlq(|e.payload|) + e.payload)
  {
    var body := BodyBytes(e);
    var rest := EncodeVlq(|e.payload|) + e.payload;
    assert body == [e.kind] + rest;
    assert data[o] == data[o..o + |body|][0];
    assert data[o + 1..o + 1 + |rest|] == data[o..o + |body|][1..];
  }

  lemma DecodeEncodedSysEx(t: Track, e: Event)
    requires ValidEvent(e) && e.SysEx? && WellPacked(t)
    requires HoldsAt(t.data, t.offset, EncodeEvent(e))
    ensures CommandInBounds(t) && MessageInBounds(UpdateCommand(t))
    ensures var r := DecodeEvent(t);
            && r.message == Packed(e) && r.offset == t.offset + |EncodeEvent(e)|
            && r.longMsg == e.payload
  {
    StatusLoaded(t, e);
    PayloadRoundTrip(t, t.offset + 1, e.payload);
    SysExMessageRead(UpdateCommand(t));
  }

  /** Round trip of the event decoder: at a stored event with its status byte,
      `update_command` then `update_message` consume exactly the stored bytes,
      leave the event's packed word in `message` whatever it held before, and
      leave a meta or SysEx payload in `longMsg`. */
  lemma DecodeEncodedEvent(t: Track, e: Event)
    requires ValidEvent(e) && WellPacked(t)
    requires HoldsAt(t.data, t.offset, EncodeEvent(e))
    ensures CommandInBounds(t) && MessageInBounds(UpdateCommand(t))
    ensures var r := DecodeEvent(t);
            && r.message == Packed(e)
            && r.offset == t.offset + |EncodeEvent(e)|
            && (!e.Channel? ==> r.longMsg == e.payload)
            && r.data == t.data && r.tick == t.tick
            && WellPacked(r)
  {
    match e
    case Channel(_, _, _) => DecodeEncodedChannel(t, e);
    case Meta(_, _) => DecodeEncodedMeta(t, e);
    case SysEx(_) => DecodeEncodedSysEx(t, e);
  }

  /** Running status: at a channel event stored without its status byte, after an
      event with the same status, the decoder keeps the status, consumes only the
      data bytes and ORs them onto the data bytes already in `message`. */
  lemma DecodeRunningStatusEvent(t: Track, e: Event)
    requires ValidEvent(e) && e.Channel? && WellPacked(t)
    requires Status(t.message) == e.status
    requires HoldsAt(t.data, t.offset, BodyBytes(e))
    ensures CommandInBounds(t) && MessageInBounds(UpdateCommand(t))
    ensures var r := DecodeEvent(t);
            && r.message == t.message | DataWord(e.d1, e.d2)
            && Status(r.message) == e.status
            && r.offset == t.offset + |BodyBytes(e)|
            && r.data == t.data && r.tick == t.tick
  {
    var o := t.offset;
    var body := BodyBytes(e);
    assert t.data[o] == t.data[o..o + |body|][0] == e.d1;
    assert UpdateCommand(t) == t;
    if DataByteCount(e.status) == 2 {
      assert t.data[o + 1] == t.data[o..o + |body|][1] == e.d2;
    } else {
      assert e.d2 == 0;
    }
    ChannelMessageRead(t);
  }

  /** The running-status OR made concrete: Note-On key 0x3C velocity 0x40, then
      (after a zero delta) a running-status pair key 0x3E velocity 0. The second
      event keeps status 0x90, but its word is 0x403E90: key 0x3C | 0x3E and the
      first event's velocity 0x40 instead of 0. */
  lemma RunningStatusOrExample()
    ensures var t0 := NewTrack([0x90, 0x3C, 0x40, 0x00, 0x3E, 0x00]);
            var t1 := DecodeEvent(t0);
            && t1.message == 0x40_3C90
            && TickInBounds(t1)
            && var t2 := UpdateTick(t1);
               && t2.offset == 4
               && var t3 := DecodeEvent(t2);
                  t3.message == 0x40_3E90 && t3.offset == 6
  {
    var t0 := NewTrack([0x90, 0x3C, 0x40, 0x00, 0x3E, 0x00]);
    var t1 := FirstNoteOn(t0);
    assert HasVlq(t1.data, 3);
    var t2 := UpdateTick(t1);
    SecondNoteOn(t2);
  }

  lemma FirstNoteOn(t0: Track) returns (t1: Track)
    requires t0 == NewTrack([0x90, 0x3C, 0x40, 0x00, 0x3E, 0x00])
    ensures CommandInBounds(t0) && MessageInBounds(UpdateCommand(t0))
    ensures t1 == DecodeEvent(t0)
    ensures t1.message == 0x40_3C90 && t1.offset == 3 && t1.data == t0.data && t1.tick == 0 && WellPacked(t1)
  {
    var first := Channel(0x90, 0x3C, 0x40);
    assert EncodeEvent(first) == [0x90, 0x3C, 0x40];
    assert t0.data[0..3] == EncodeEvent(first);
    DecodeEncodedEvent(t0, first);
    t1 := DecodeEvent(t0);
    assert Packed(first) == 0x40_3C90;
  }

  lemma SecondNoteOn(t2: Track)
    requires t2.data == [0x90, 0x3C, 0x40, 0x00, 0x3E, 0x00] && t2.offset == 4
    requires t2.message == 0x40_3C90 && WellPacked(t2)
    ensures CommandInBounds(t2) && MessageInBounds(UpdateCommand(t2))
    ensures DecodeEvent(t2).message == 0x40_3E90 && DecodeEvent(t2).offset == 6
  {
    var second := Channel(0x90, 0x3E, 0x00);
    assert t2.data[4..6] == BodyBytes(second);
    assert Status(t2.message) == 0x90;
    DecodeRunningStatusEvent(t2, second);
    assert 0x40_3C90 | DataWord(0x3E, 0x00) == 0x40_3E90;
  }
}
