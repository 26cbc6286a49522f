/** The sequencing part of `MIDIPlayer`: meta-event handling, the dispatch phase
    that drains every due track in declaration order, the merge phase that moves
    the global tick to the next due event, and the playback loop built from them.
    The output sink is an output sequence; wall-clock pacing is not modelled. */
module Player {
  import opened Bytes
  import opened Vlq
  import opened Tracks

  /** The initial `bpm`: 500000 microseconds per quarter note (120 BPM). */
  const DEFAULT_TEMPO: nat := 500000

  /** 2^24: a tempo is rebuilt from three bytes. */
  const TEMPO_LIMIT: nat := 0x100_0000

  // ------------------------------------------------------- process_meta_event

  /** A tempo event (type 0x51) carries at least the three bytes the source reads. */
  predicate MetaInBounds(t: Track)
  {
    Byte1(t.message) == 0x51 ==> |t.longMsg| >= 3
  }

  /** `long_msg[0] << 16 | long_msg[1] << 8 | long_msg[2]`. */
  function TempoWord(b0: byte, b1: byte, b2: byte): (r: nat)
    ensures r == BigEndian([b0, b1, b2])
    ensures r < TEMPO_LIMIT
  {
    TempoWordValue(b0, b1, b2);
    BigEndian3(b0, b1, b2);
    ((b0 as bv32 << 16) | (b1 as bv32 << 8) | b2 as bv32) as nat
  }

  lemma TempoWordValue(b0: byte, b1: byte, b2: byte)
    ensures ((b0 as bv32 << 16) | (b1 as bv32 << 8) | b2 as bv32) as nat
         == (b0 as nat * 256 + b1 as nat) * 256 + b2 as nat
  {
  }

  lemma BigEndian3(b0: byte, b1: byte, b2: byte)
    ensures BigEndian([b0, b1, b2]) == (b0 as nat * 256 + b1 as nat) * 256 + b2 as nat
  {
    var s := [b0, b1, b2];
    BigEndianSnoc(s, 0);
    BigEndianSnoc(s, 1);
    BigEndianSnoc(s, 2);
    assert s[..3] == s;
  }

  datatype MetaResult = MetaResult(track: Track, bpm: nat)

  /** `MIDIPlayer::process_meta_event`, on the meta type in bits 8-15 of `message`:
      0x51 rebuilds the tempo from the first three payload bytes, 0x2F clears the
      track's buffer (the only way a track becomes inactive), and every other type
      changes nothing. The `double` multiplier is not modelled. */
  function ProcessMetaEvent(t: Track, bpm: nat): (r: MetaResult)
    requires MetaInBounds(t)
    ensures Byte1(t.message) == 0x51 ==>
              r.track == t && r.bpm == BigEndian(t.longMsg[..3]) && r.bpm < TEMPO_LIMIT
    ensures Byte1(t.message) == 0x2F ==>
              r.track == t.(data := []) && !Active(r.track) && r.bpm == bpm
    ensures Byte1(t.message) != 0x51 && Byte1(t.message) != 0x2F ==> r == MetaResult(t, bpm)
  {
    var kind := Byte1(t.message);
    if kind == 0x51 then
      assert t.longMsg[..3] == [t.longMsg[0], t.longMsg[1], t.longMsg[2]];
      MetaResult(t, TempoWord(t.longMsg[0], t.longMsg[1], t.longMsg[2]))
    else if kind == 0x2F then
      MetaResult(t.(data := []), bpm)
    else
      MetaResult(t, bpm)
  }

  /** The tempo payload 07 A1 20 is the default 500000 microseconds per quarter. */
  lemma DefaultTempoPayload(t: Track, bpm: nat)
    requires Byte1(t.message) == 0x51 && |t.longMsg| >= 3
    requires t.longMsg[0] == 0x07 && t.longMsg[1] == 0xA1 && t.longMsg[2] == 0x20
    ensures ProcessMetaEvent(t, bpm).bpm == DEFAULT_TEMPO
  {
    assert t.longMsg[..3] == [0x07, 0xA1, 0x20];
    BigEndian3(0x07, 0xA1, 0x20);
  }

  // ------------------------------------------------------------ one event step

  /** A word handed to the output sink (`SendDirectData`), with the absolute tick
      of the event it came from and the index of its track in the track list. */
  datatype Sent = Sent(tick: nat, track: nat, message: bv32)

  predicate IsNoteOn(m: bv32)
  {
    0x90 <= Status(m) <= 0x9F
  }

  /** The number of Note-On words (status 0x90-0x9F) in `out`. */
  function CountNoteOns(out: seq<Sent>): nat
  {
    if |out| == 0 then 0 else (if IsNoteOn(out[0].message) then 1 else 0) + CountNoteOns(out[1..])
  }

  lemma {:induction false} CountNoteOnsAppend(a: seq<Sent>, b: seq<Sent>)
    ensures CountNoteOns(a + b) == CountNoteOns(a) + CountNoteOns(b)
    decreases |a|
  {
    if |a| == 0 {
      assert a + b == b;
    } else {
      assert (a + b)[1..] == a[1..] + b;
      CountNoteOnsAppend(a[1..], b);
    }
  }

  /** Every word sent is a channel message: the sink never sees a status of 0xF0 or more. */
  predicate ChannelOnly(out: seq<Sent>)
  {
    forall i :: 0 <= i < |out| ==> Status(out[i].message) < 0xF0
  }

  /** Every word in `out` came from track `k`. */
  predicate FromOne(out: seq<Sent>, k: nat)
  {
    forall i :: 0 <= i < |out| ==> out[i].track == k
  }

  /** Every word sent comes from an event whose tick lies in `lo..hi`. */
  predicate TicksWithin(out: seq<Sent>, lo: nat, hi: nat)
  {
    forall i :: 0 <= i < |out| ==> lo <= out[i].tick <= hi
  }

  lemma TicksWiden(out: seq<Sent>, lo: nat, hi: nat, lo': nat, hi': nat)
    requires TicksWithin(out, lo, hi) && lo' <= lo && hi <= hi'
    ensures TicksWithin(out, lo', hi')
  {
  }

  lemma OutputAppend(a: seq<Sent>, b: seq<Sent>, lo: nat, hi: nat)
    ensures CountNoteOns(a + b) == CountNoteOns(a) + CountNoteOns(b)
    ensures ChannelOnly(a) && ChannelOnly(b) ==> ChannelOnly(a + b)
    ensures TicksWithin(a, lo, hi) && TicksWithin(b, lo, hi) ==> TicksWithin(a + b, lo, hi)
  {
    CountNoteOnsAppend(a, b);
  }

  /** Bytes still to be read, plus one while the track is active: it drops with
      every event a track yields. */
  function Remaining(t: Track): nat
  {
    if !Active(t) then 0 else if t.offset <= |t.data| then |t.data| - t.offset + 1 else 0
  }

  /** The track after the meta handling of one event, which does not depend on the tempo. */
  function AfterMeta(e: Track): Track
    requires Status(e.message) == 0xFF ==> MetaInBounds(e)
  {
    if Status(e.message) == 0xFF then ProcessMetaEvent(e, 0).track else e
  }

  /** Every read of one iteration of the inner dispatch loop lies inside the
      buffer: the status byte, the event body, a tempo payload, and the delta time
      that follows unless the event ended the track. */
  predicate CanStep(t: Track)
  {
    && Active(t) && t.offset < |t.data|
    && MessageInBounds(UpdateCommand(t))
    && var e := DecodeEvent(t);
       && (Status(e.message) == 0xFF ==> MetaInBounds(e))
       && (Active(AfterMeta(e)) ==> TickInBounds(AfterMeta(e)))
  }

  datatype StepResult = StepResult(track: Track, bpm: nat, sent: seq<Sent>, noteOns: nat)

  /** The send branch: a word with a status below 0xF0 goes to the sink. */
  function Emit(m: bv32, tick: nat, k: nat): (out: seq<Sent>)
    ensures |out| <= 1 && ChannelOnly(out) && TicksWithin(out, tick, tick) && FromOne(out, k)
    ensures Status(m) < 0xF0 <==> out == [Sent(tick, k, m)]
    ensures Status(m) >= 0xF0 <==> out == []
  {
    if Status(m) < 0xF0 then [Sent(tick, k, m)] else []
  }

  /** The `note_on_count` increment for a word: one for a sent Note-On. */
  function NoteOnIncrement(m: bv32, tick: nat, k: nat): (n: nat)
    ensures n == CountNoteOns(Emit(m, tick, k))
  {
    var s := Status(m);
    if s < 0xF0 && 0x90 <= s <= 0x9F then 1 else 0
  }

  /** The tempo after handling an event: only a tempo meta event changes it. */
  function TempoAfter(e: Track, bpm: nat): (r: nat)
    requires Status(e.message) == 0xFF ==> MetaInBounds(e)
    ensures !(Status(e.message) == 0xFF && Byte1(e.message) == 0x51) ==> r == bpm
    ensures Status(e.message) == 0xFF && Byte1(e.message) == 0x51 ==>
              |e.longMsg| >= 3 && r == BigEndian(e.longMsg[..3]) && r < TEMPO_LIMIT
  {
    if Status(e.message) == 0xFF then ProcessMetaEvent(e, bpm).bpm else bpm
  }

  /** The track after meta handling and, unless it was just cleared, the next
      delta time. */
  function Advance(e: Track): (r: Track)
    requires Active(e)
    requires Status(e.message) == 0xFF ==> MetaInBounds(e)
    requires Active(AfterMeta(e)) ==> TickInBounds(AfterMeta(e))
    ensures Active(r) ==> r.data == e.data && e.offset < r.offset <= |e.data|
    ensures e.tick <= r.tick && (e.tick < INT_LIMIT ==> r.tick < INT_LIMIT)
    ensures !Active(r) ==> Status(e.message) == 0xFF && Byte1(e.message) == 0x2F
    ensures r.message == e.message && r.temp == e.temp
  {
    var m := AfterMeta(e);
    AfterMetaFacts(e);
    if Active(m) then UpdateTick(m) else m
  }

  /** The track after one pass of the inner dispatch loop, whatever the tempo. */
  function NextTrack(t: Track): (r: Track)
    requires CanStep(t)
    ensures Remaining(r) < Remaining(t)
    ensures t.tick <= r.tick && (t.tick < INT_LIMIT ==> r.tick < INT_LIMIT)
  {
    DecodedEventFacts(t);
    Advance(DecodeEvent(t))
  }

  /** One pass of the inner dispatch loop of `MIDIPlayer::play` over track number
      `k`: decode the event at the cursor; send its word if the status is below
      0xF0, counting it if it is a Note-On; hand a meta event to
      `process_meta_event`; do nothing for SysEx; then read the next delta time
      unless the track was just cleared. */
  function Step(t: Track, k: nat, bpm: nat): (r: StepResult)
    requires CanStep(t)
    ensures r.track == NextTrack(t)
    ensures |r.sent| <= 1 && ChannelOnly(r.sent) && TicksWithin(r.sent, t.tick, t.tick)
    ensures r.noteOns == CountNoteOns(r.sent)
    ensures bpm < TEMPO_LIMIT ==> r.bpm < TEMPO_LIMIT
  {
    var e := DecodeEvent(t);
    StepResult(NextTrack(t), TempoAfter(e, bpm), Emit(e.message, t.tick, k), NoteOnIncrement(e.message, t.tick, k))
  }

  /** What one step does with the event it decodes: a channel event is sent as
      its packed word, stamped with the track's tick; a track only goes quiet on
      an end-of-track meta event; only a tempo meta event changes the tempo; and
      the register invariant of the track survives the step. */
  lemma StepEvent(t: Track, k: nat, bpm: nat)
    requires CanStep(t)
    ensures var e := DecodeEvent(t);
            var r := Step(t, k, bpm);
            && (Status(e.message) < 0xF0 <==> r.sent == [Sent(t.tick, k, e.message)])
            && (Status(e.message) >= 0xF0 <==> r.sent == [])
            && (!Active(r.track) ==> Status(e.message) == 0xFF && Byte1(e.message) == 0x2F)
            && (!(Status(e.message) == 0xFF && Byte1(e.message) == 0x51) ==> r.bpm == bpm)
            && (WellPacked(t) ==> WellPacked(r.track))
  {
    DecodedEventFacts(t);
    var e := DecodeEvent(t);
    SameRegisters(e, Step(t, k, bpm).track);
  }

  /** `WellPacked` depends on the two registers only. */
  lemma SameRegisters(a: Track, b: Track)
    requires a.message == b.message && a.temp == b.temp
    ensures WellPacked(a) ==> WellPacked(b)
  {
  }

  lemma DecodedEventFacts(t: Track)
    requires CanStep(t)
    ensures var e := DecodeEvent(t);
            && e.data == t.data && e.tick == t.tick
            && t.offset <= e.offset <= |t.data|
            && (WellPacked(t) ==> WellPacked(e))
  {
  }

  lemma AfterMetaFacts(e: Track)
    requires Status(e.message) == 0xFF ==> MetaInBounds(e)
    ensures var m := AfterMeta(e);
            && m.offset == e.offset && m.tick == e.tick && m.message == e.message
            && m.temp == e.temp
            && (Active(m) ==> m.data == e.data)
  {
  }

  /** From `t` on, every event the dispatch loop will decode stays inside the
      buffer, up to and including the end-of-track event that clears it. */
  predicate Playable(t: Track)
    decreases Remaining(t), 1
  {
    !Active(t) || PlaysOn(t)
  }

  /** The next event of the track can be decoded and the track after it is
      playable. */
  predicate PlaysOn(t: Track)
    decreases Remaining(t), 0
  {
    CanStep(t) && Playable(NextTrack(t))
  }

  /** A playable track with data can take a step and stays playable. */
  lemma PlayableStep(t: Track)
    requires Playable(t) && Active(t)
    ensures CanStep(t) && Playable(NextTrack(t))
  {
  }

  // ---------------------------------------------------------- words of a track

  /** What track number `k` hands to the sink from its cursor to its end: the
      word of every event with a status below 0xF0, stamped with the tick of the
      event, in file order. */
  function TrackWords(t: Track, k: nat): (out: seq<Sent>)
    requires Playable(t)
    ensures ChannelOnly(out) && FromOne(out, k)
    decreases Remaining(t)
  {
    if !Active(t) then []
    else
      PlayableStep(t);
      Emit(DecodeEvent(t).message, t.tick, k) + TrackWords(NextTrack(t), k)
  }

  /** What draining track number `k` at the global tick `g` sends: the words of
      its events for as long as it has data and its tick is at most `g`. */
  function DrainWords(t: Track, k: nat, g: nat): (out: seq<Sent>)
    requires Playable(t)
    ensures ChannelOnly(out) && FromOne(out, k)
    decreases Remaining(t)
  {
    if Active(t) && t.tick <= g then
      PlayableStep(t);
      Emit(DecodeEvent(t).message, t.tick, k) + DrainWords(NextTrack(t), k, g)
    else []
  }

  /** The track that draining at the global tick `g` leaves behind: out of data,
      or with its next event after `g`. */
  function DrainedTrack(t: Track, g: nat): (r: Track)
    requires Playable(t)
    ensures Playable(r) && !(Active(r) && r.tick <= g)
    decreases Remaining(t)
  {
    if Active(t) && t.tick <= g then
      PlayableStep(t);
      DrainedTrack(NextTrack(t), g)
    else t
  }

  /** The tempo that draining at the global tick `g` leaves, starting from
      `bpm`: every event drained handled in file order by `TempoAfter`, so the
      value of the last tempo event among them, or `bpm` when there is none. */
  function DrainTempo(t: Track, g: nat, bpm: nat): (r: nat)
    requires Playable(t)
    ensures bpm < TEMPO_LIMIT ==> r < TEMPO_LIMIT
    decreases Remaining(t)
  {
    if Active(t) && t.tick <= g then
      PlayableStep(t);
      DrainTempo(NextTrack(t), g, TempoAfter(DecodeEvent(t), bpm))
    else bpm
  }

  /** Draining sends the first words of the track and leaves exactly the rest
      to later rounds: nothing is skipped, repeated or reordered. */
  lemma {:induction false} DrainSplitsWords(t: Track, k: nat, g: nat)
    requires Playable(t)
    ensures DrainWords(t, k, g) + TrackWords(DrainedTrack(t, g), k) == TrackWords(t, k)
    decreases Remaining(t)
  {
    if Active(t) && t.tick <= g {
      PlayableStep(t);
      var next := NextTrack(t);
      DrainSplitsWords(next, k, g);
      Assoc(Emit(DecodeEvent(t).message, t.tick, k), DrainWords(next, k, g), TrackWords(DrainedTrack(next, g), k));
    }
  }

  // ------------------------------------------------------------ dispatch phase

  /** Every track can be played to its end and its tick fits an `int`. */
  predicate AllPlayable(ts: seq<Track>)
  {
    forall i :: 0 <= i < |ts| ==> Playable(ts[i]) && ts[i].tick < INT_LIMIT
  }

  /** Every track has run out of data. */
  predicate Idle(ts: seq<Track>)
  {
    forall i :: 0 <= i < |ts| ==> !Active(ts[i])
  }

  /** Some track with data is due at the global tick `g`. */
  predicate SomeDue(ts: seq<Track>, g: nat)
  {
    exists i :: 0 <= i < |ts| && Active(ts[i]) && ts[i].tick <= g
  }

  /** No track with data lags behind the global tick `g`. */
  predicate NotBehind(ts: seq<Track>, g: nat)
  {
    forall i :: 0 <= i < |ts| ==> Active(ts[i]) ==> ts[i].tick >= g
  }

  /** How dispatching at the global tick `g` turns track `b` into track `a`: a
      track that is not due is left exactly as it was; a due one yields at least
      one event; the tick only moves forward, stays an `int`, and ends past `g`
      unless the track ran out of data. */
  predicate DrainedFrom(b: Track, a: Track, g: nat)
  {
    && b.tick <= a.tick
    && (b.tick < INT_LIMIT ==> a.tick < INT_LIMIT)
    && (!Active(a) || a.tick > g)
    && Remaining(a) <= Remaining(b)
    && (Active(b) && b.tick <= g ==> Remaining(a) < Remaining(b))
    && (!(Active(b) && b.tick <= g) ==> a == b)
  }

  /** `DrainedFrom` track by track. */
  predicate AllDrainedFrom(before: seq<Track>, after: seq<Track>, g: nat)
  {
    |before| == |after| && forall i :: 0 <= i < |before| ==> DrainedFrom(before[i], after[i], g)
  }

  /** The `active_tracks` list of `MIDIPlayer::play` for a dispatch that turned
      `before` into `after`: the state after its turn of every track that had
      data before it, in track order. */
  function PushedTracks(before: seq<Track>, after: seq<Track>): (r: seq<Track>)
    requires |before| == |after|
    decreases |before|
  {
    if |before| == 0 then []
    else
      var n := |before| - 1;
      PushedTracks(before[..n], after[..n]) + (if Active(before[n]) then [after[n]] else [])
  }

  /** What the merge phase needs of `pushed`: it holds only tracks of `after`,
      the after-state of every track that had data, and nothing at all exactly
      when no track had data. */
  predicate PushedFrom(before: seq<Track>, after: seq<Track>, pushed: seq<Track>)
    requires |before| == |after|
  {
    && (forall x :: x in pushed ==> x in after)
    && (forall i :: 0 <= i < |before| && Active(before[i]) ==> after[i] in pushed)
    && (|pushed| == 0 <==> Idle(before))
  }

  datatype Drained = Drained(track: Track, bpm: nat, sent: seq<Sent>, noteOns: nat)

  /** What draining track `t` at global tick `g` under tempo `bpm` guarantees:
      the track relation `DrainedFrom`; nothing sent and the tempo kept when the
      track was not due; only channel words sent, each from an event with a tick
      between the track's tick and `g`; Note-Ons counted; the tempo below 2^24. */
  predicate DrainOutcome(t: Track, g: nat, bpm: nat, d: Drained)
  {
    && DrainedFrom(t, d.track, g)
    && (!(Active(t) && t.tick <= g) ==> d.bpm == bpm && d.sent == [] && d.noteOns == 0)
    && ChannelOnly(d.sent) && TicksWithin(d.sent, t.tick, g)
    && d.noteOns == CountNoteOns(d.sent)
    && (bpm < TEMPO_LIMIT ==> d.bpm < TEMPO_LIMIT)
  }

  /** The invariant of the inner dispatch loop after some events of `t`. */
  predicate DrainSoFar(t: Track, g: nat, bpm: nat, d: Drained)
  {
    && Playable(d.track)
    && (!(Active(t) && t.tick <= g) ==> d == Drained(t, bpm, [], 0))
    && t.tick <= d.track.tick && (t.tick < INT_LIMIT ==> d.track.tick < INT_LIMIT)
    && (d.track == t || Remaining(d.track) < Remaining(t))
    && ChannelOnly(d.sent) && TicksWithin(d.sent, t.tick, g)
    && d.noteOns == CountNoteOns(d.sent)
    && (bpm < TEMPO_LIMIT ==> d.bpm < TEMPO_LIMIT)
  }

  /** Track number `k`, drained from `t` at `g` so far, has sent `sent` and is
      now `u`: what `u` will still send in this round completes `DrainWords`, and
      it will stop where `t` would. */
  predicate DrainExact(t: Track, k: nat, g: nat, sent: seq<Sent>, u: Track)
  {
    && Playable(t) && Playable(u)
    && sent + DrainWords(u, k, g) == DrainWords(t, k, g)
    && DrainedTrack(u, g) == DrainedTrack(t, g)
  }

  /** One more event of track number `k`: the step's output appended, its track
      and tempo taken over. */
  function Continue(d: Drained, k: nat): (r: Drained)
    requires CanStep(d.track)
    ensures r.track == NextTrack(d.track)
    ensures r.sent == d.sent + Emit(DecodeEvent(d.track).message, d.track.tick, k)
    ensures r.bpm == TempoAfter(DecodeEvent(d.track), d.bpm)
  {
    var s := Step(d.track, k, d.bpm);
    Drained(s.track, s.bpm, d.sent + s.sent, d.noteOns + s.noteOns)
  }

  lemma DrainStep(t: Track, k: nat, g: nat, bpm: nat, d: Drained)
    requires DrainSoFar(t, g, bpm, d) && Active(d.track) && d.track.tick <= g
    ensures CanStep(d.track)
    ensures DrainSoFar(t, g, bpm, Continue(d, k))
    ensures Remaining(Continue(d, k).track) < Remaining(d.track)
  {
    PlayableStep(d.track);
    var s := Step(d.track, k, d.bpm);
    TicksWiden(s.sent, d.track.tick, d.track.tick, t.tick, g);
    OutputAppend(d.sent, s.sent, t.tick, g);
  }

  /** Draining a due track: the word of its next event, then the drain of the
      rest, so the words still to come lose their first one. */
  lemma DrainCarry(t: Track, k: nat, g: nat, sent: seq<Sent>, u: Track)
    requires DrainExact(t, k, g, sent, u) && Active(u) && u.tick <= g
    ensures CanStep(u)
    ensures DrainExact(t, k, g, sent + Emit(DecodeEvent(u).message, u.tick, k), NextTrack(u))
  {
    PlayableStep(u);
    var w := Emit(DecodeEvent(u).message, u.tick, k);
    var rest := DrainWords(NextTrack(u), k, g);
    assert DrainWords(u, k, g) == w + rest;
    Assoc(sent, w, rest);
  }

  /** A track that is no longer due sends nothing more in this round. */
  lemma DrainExactDone(t: Track, k: nat, g: nat, sent: seq<Sent>, u: Track)
    requires DrainExact(t, k, g, sent, u) && !(Active(u) && u.tick <= g)
    ensures sent == DrainWords(t, k, g) && u == DrainedTrack(t, g)
  {
    assert sent + [] == sent;
  }

  lemma Assoc<T>(a: seq<T>, b: seq<T>, c: seq<T>)
    ensures (a + b) + c == a + (b + c)
  {
  }

  lemma DrainDone(t: Track, g: nat, bpm: nat, d: Drained)
    requires DrainSoFar(t, g, bpm, d) && !(Active(d.track) && d.track.tick <= g)
    ensures Playable(d.track) && DrainOutcome(t, g, bpm, d)
  {
  }

  /** The dispatch of track number `k` in `MIDIPlayer::play`: while the track has
      data and its tick is at most the global tick `g`, decode and handle one
      event. A track that is not due is left as it is. Exactly the words
      `DrainWords` names are sent, the track is left as `DrainedTrack` says, and
      the tempo as `DrainTempo` says. */
  method Drain(t: Track, k: nat, g: nat, bpm: nat) returns (d: Drained)
    requires Playable(t)
    ensures d.sent == DrainWords(t, k, g) && d.track == DrainedTrack(t, g)
    ensures d.bpm == DrainTempo(t, g, bpm)
    ensures Playable(d.track) && DrainOutcome(t, g, bpm, d)
  {
    d := Drained(t, bpm, [], 0);
    assert [] + DrainWords(t, k, g) == DrainWords(t, k, g);
    while Active(d.track) && d.track.tick <= g
      invariant DrainSoFar(t, g, bpm, d)
      invariant DrainExact(t, k, g, d.sent, d.track)
      invariant DrainTempo(d.track, g, d.bpm) == DrainTempo(t, g, bpm)
      decreases Remaining(d.track)
    {
      DrainStep(t, k, g, bpm, d);
      DrainCarry(t, k, g, d.sent, d.track);
      d := Continue(d, k);
    }
    DrainDone(t, g, bpm, d);
    DrainExactDone(t, k, g, d.sent, d.track);
  }

  /** The words sent from each track are tagged in nondecreasing track order. */
  predicate TrackOrdered(out: seq<Sent>)
  {
    forall i, j :: 0 <= i < j < |out| ==> out[i].track <= out[j].track
  }

  /** What one dispatch phase at the global tick `g` sends: the drain of track 0,
      then the drain of track 1, and so on in declaration order. */
  function DispatchWords(ts: seq<Track>, g: nat): (out: seq<Sent>)
    requires AllPlayable(ts)
    ensures ChannelOnly(out) && TrackOrdered(out)
    ensures forall i :: 0 <= i < |out| ==> out[i].track < |ts|
    decreases |ts|
  {
    if |ts| == 0 then []
    else
      var n := |ts| - 1;
      AllPlayablePrefix(ts, n);
      DispatchWords(ts[..n], g) + DrainWords(ts[n], n, g)
  }

  /** Every track of `ts` as draining at `g` leaves it. */
  function DrainedTracks(ts: seq<Track>, g: nat): (r: seq<Track>)
    requires AllPlayable(ts)
    ensures |r| == |ts|
    decreases |ts|
  {
    if |ts| == 0 then []
    else
      var n := |ts| - 1;
      AllPlayablePrefix(ts, n);
      DrainedTracks(ts[..n], g) + [DrainedTrack(ts[n], g)]
  }

  /** The tempo one dispatch phase at `g` leaves, starting from `bpm`: handed
      from the drain of track 0 to that of track 1, and so on. */
  function DispatchTempo(ts: seq<Track>, g: nat, bpm: nat): (r: nat)
    requires AllPlayable(ts)
    ensures bpm < TEMPO_LIMIT ==> r < TEMPO_LIMIT
    decreases |ts|
  {
    if |ts| == 0 then bpm
    else
      var n := |ts| - 1;
      AllPlayablePrefix(ts, n);
      DrainTempo(ts[n], g, DispatchTempo(ts[..n], g, bpm))
  }

  /** When no track is due, a dispatch keeps the tempo it was given. */
  lemma {:induction false} DispatchTempoIdle(ts: seq<Track>, g: nat, bpm: nat)
    requires AllPlayable(ts) && !SomeDue(ts, g)
    ensures DispatchTempo(ts, g, bpm) == bpm
    decreases |ts|
  {
    if |ts| > 0 {
      var n := |ts| - 1;
      AllPlayablePrefix(ts, n);
      assert !SomeDue(ts[..n], g) by {
        assert forall i :: 0 <= i < n ==> ts[..n][i] == ts[i];
      }
      DispatchTempoIdle(ts[..n], g, bpm);
    }
  }

  lemma {:induction false} DrainedTracksAt(ts: seq<Track>, g: nat, k: nat)
    requires AllPlayable(ts) && k < |ts|
    ensures DrainedTracks(ts, g)[k] == DrainedTrack(ts[k], g)
    decreases |ts|
  {
    var n := |ts| - 1;
    AllPlayablePrefix(ts, n);
    if k < n {
      DrainedTracksAt(ts[..n], g, k);
    }
  }

  lemma AllPlayablePrefix(ts: seq<Track>, n: nat)
    requires AllPlayable(ts) && n <= |ts|
    ensures AllPlayable(ts[..n])
  {
    assert forall i :: 0 <= i < n ==> ts[..n][i] == ts[i];
  }

  datatype Dispatched = Dispatched(
    tracks: seq<Track>, bpm: nat, sent: seq<Sent>, noteOns: nat, pushed: seq<Track>)

  /** The invariant of the dispatch loop after the tracks `before`, and its
      result once every track has had its turn: each track drained, every track
      still playable, `pushed` as the merge phase needs it, only channel words sent
      (at `g` when no track lagged behind `g`), Note-Ons counted. */
  predicate DispatchedSoFar(before: seq<Track>, g: nat, bpm: nat, r: Dispatched)
  {
    && AllDrainedFrom(before, r.tracks, g) && AllPlayable(r.tracks)
    && PushedFrom(before, r.tracks, r.pushed)
    && ChannelOnly(r.sent) && TicksWithin(r.sent, 0, g)
    && (NotBehind(before, g) ==> TicksWithin(r.sent, g, g))
    && r.noteOns == CountNoteOns(r.sent)
    && (bpm < TEMPO_LIMIT ==> r.bpm < TEMPO_LIMIT)
  }

  /** The words and tracks a dispatch of `before` at `g` leaves: `DispatchWords`
      and `DrainedTracks`. */
  predicate DispatchExact(before: seq<Track>, g: nat, sent: seq<Sent>, after: seq<Track>)
  {
    && AllPlayable(before) && sent == DispatchWords(before, g) && after == DrainedTracks(before, g)
  }

  /** The tempo and `active_tracks` a dispatch of `before` at `g` leaves:
      `DispatchTempo` and `PushedTracks`. */
  predicate DispatchCarried(before: seq<Track>, g: nat, bpm: nat, r: Dispatched)
  {
    && AllPlayable(before) && |r.tracks| == |before|
    && r.bpm == DispatchTempo(before, g, bpm) && r.pushed == PushedTracks(before, r.tracks)
  }

  /** The dispatch accumulator after track `b` was drained into `d`. */
  function Extend(acc: Dispatched, b: Track, d: Drained): Dispatched
  {
    Dispatched(
      acc.tracks + [d.track], d.bpm, acc.sent + d.sent, acc.noteOns + d.noteOns,
      acc.pushed + (if Active(b) then [d.track] else []))
  }

  lemma DispatchSnoc(bs: seq<Track>, g: nat, bpm: nat, acc: Dispatched, b: Track, d: Drained)
    requires DispatchedSoFar(bs, g, bpm, acc)
    requires b.tick < INT_LIMIT && Playable(d.track) && DrainOutcome(b, g, acc.bpm, d)
    ensures DispatchedSoFar(bs + [b], g, bpm, Extend(acc, b, d))
  {
    AllDrainedSnoc(bs, acc.tracks, b, d.track, g);
    AllPlayableSnoc(acc.tracks, d.track);
    PushedSnoc(bs, acc.tracks, acc.pushed, b, d.track);
    OutputSnoc(bs, g, acc.sent, b, d.sent);
  }

  /** The dispatch loop's invariant after the turn of track `i`. */
  lemma DispatchStep(ts: seq<Track>, i: nat, g: nat, bpm: nat, acc: Dispatched, d: Drained)
    requires i < |ts| && ts[i].tick < INT_LIMIT && DispatchedSoFar(ts[..i], g, bpm, acc)
    requires Playable(d.track) && DrainOutcome(ts[i], g, acc.bpm, d)
    ensures DispatchedSoFar(ts[..i + 1], g, bpm, Extend(acc, ts[i], d))
  {
    TakeSnoc(ts, i);
    DispatchSnoc(ts[..i], g, bpm, acc, ts[i], d);
  }

  /** The words and tracks after the turn of track `i` are still exact. */
  lemma ExactStep(ts: seq<Track>, i: nat, g: nat, acc: Dispatched, d: Drained)
    requires i < |ts| && ts[i].tick < INT_LIMIT && DispatchExact(ts[..i], g, acc.sent, acc.tracks)
    requires Playable(ts[i]) && d.sent == DrainWords(ts[i], i, g) && d.track == DrainedTrack(ts[i], g)
    ensures DispatchExact(ts[..i + 1], g, Extend(acc, ts[i], d).sent, Extend(acc, ts[i], d).tracks)
  {
    TakeSnoc(ts, i);
    ExactSnoc(ts[..i], g, acc.sent, acc.tracks, ts[i], d.sent, d.track);
  }

  lemma DispatchWordsSnoc(bs: seq<Track>, b: Track, g: nat)
    requires AllPlayable(bs) && Playable(b) && b.tick < INT_LIMIT
    ensures AllPlayable(bs + [b])
    ensures DispatchWords(bs + [b], g) == DispatchWords(bs, g) + DrainWords(b, |bs|, g)
    ensures DrainedTracks(bs + [b], g) == DrainedTracks(bs, g) + [DrainedTrack(b, g)]
  {
    AllPlayableSnoc(bs, b);
    var bs' := bs + [b];
    assert bs'[..|bs|] == bs;
  }

  lemma ExactSnoc(bs: seq<Track>, g: nat, sent: seq<Sent>, rest: seq<Track>, b: Track, out: seq<Sent>, a: Track)
    requires DispatchExact(bs, g, sent, rest)
    requires b.tick < INT_LIMIT && Playable(b) && out == DrainWords(b, |bs|, g) && a == DrainedTrack(b, g)
    ensures DispatchExact(bs + [b], g, sent + out, rest + [a])
  {
    DispatchWordsSnoc(bs, b, g);
  }

  lemma AllDrainedSnoc(bs: seq<Track>, rest: seq<Track>, b: Track, a: Track, g: nat)
    requires AllDrainedFrom(bs, rest, g) && DrainedFrom(b, a, g)
    ensures AllDrainedFrom(bs + [b], rest + [a], g)
  {
    var bs', rest' := bs + [b], rest + [a];
    assert forall i :: 0 <= i < |bs| ==> bs'[i] == bs[i] && rest'[i] == rest[i];
  }

  lemma AllPlayableSnoc(rest: seq<Track>, a: Track)
    requires AllPlayable(rest) && Playable(a) && a.tick < INT_LIMIT
    ensures AllPlayable(rest + [a])
  {
    var rest' := rest + [a];
    assert forall i :: 0 <= i < |rest| ==> rest'[i] == rest[i];
  }

  lemma PushedSnoc(bs: seq<Track>, rest: seq<Track>, pushed: seq<Track>, b: Track, a: Track)
    requires |bs| == |rest| && PushedFrom(bs, rest, pushed)
    ensures PushedFrom(bs + [b], rest + [a], pushed + (if Active(b) then [a] else []))
  {
    var bs', rest' := bs + [b], rest + [a];
    assert forall i :: 0 <= i < |bs| ==> bs'[i] == bs[i] && rest'[i] == rest[i];
    assert bs'[|bs|] == b && rest'[|bs|] == a;
  }

  /** `pushed` after the turn of track `i` is still `PushedTracks`. */
  lemma PushedTurn(ts: seq<Track>, i: nat, rest: seq<Track>, pushed: seq<Track>, a: Track)
    requires i < |ts| && |rest| == i && pushed == PushedTracks(ts[..i], rest)
    ensures |rest + [a]| == i + 1
    ensures pushed + (if Active(ts[i]) then [a] else []) == PushedTracks(ts[..i + 1], rest + [a])
  {
    var bs', rest' := ts[..i + 1], rest + [a];
    assert bs'[..i] == ts[..i] && rest'[..i] == rest;
    assert bs'[i] == ts[i] && rest'[i] == a;
  }

  lemma OutputSnoc(bs: seq<Track>, g: nat, sent: seq<Sent>, b: Track, out: seq<Sent>)
    requires ChannelOnly(sent) && TicksWithin(sent, 0, g)
    requires NotBehind(bs, g) ==> TicksWithin(sent, g, g)
    requires ChannelOnly(out) && TicksWithin(out, b.tick, g)
    requires !Active(b) ==> out == []
    ensures ChannelOnly(sent + out) && TicksWithin(sent + out, 0, g)
    ensures NotBehind(bs + [b], g) ==> TicksWithin(sent + out, g, g)
    ensures CountNoteOns(sent + out) == CountNoteOns(sent) + CountNoteOns(out)
  {
    TicksWiden(out, b.tick, g, 0, g);
    OutputAppend(sent, out, 0, g);
    var bs' := bs + [b];
    if NotBehind(bs', g) {
      assert forall i :: 0 <= i < |bs| ==> bs'[i] == bs[i];
      assert NotBehind(bs, g);
      if Active(b) {
        assert bs'[|bs|] == b;
        TicksWiden(out, b.tick, g, g, g);
      }
      OutputAppend(sent, out, g, g);
    }
  }

  lemma TakeSnoc<T>(s: seq<T>, i: nat)
    requires i < |s|
    ensures s[..i + 1] == s[..i] + [s[i]]
  {
  }

  /** The dispatch phase of one iteration of `MIDIPlayer::play`: every track, in
      declaration order, drained up to the global tick `g`, with the tempo
      threaded from one track to the next (`DispatchTempo`); `pushed` is
      `active_tracks` (`PushedTracks`). */
  method Dispatch(ts: seq<Track>, g: nat, bpm: nat) returns (r: Dispatched)
    requires AllPlayable(ts)
    ensures DispatchExact(ts, g, r.sent, r.tracks)
    ensures r.bpm == DispatchTempo(ts, g, bpm)
    ensures |r.tracks| == |ts| && r.pushed == PushedTracks(ts, r.tracks)
    ensures DispatchedSoFar(ts, g, bpm, r)
  {
    r := Dispatched([], bpm, [], 0, []);
    var i := 0;
    while i < |ts|
      invariant 0 <= i <= |ts| && DispatchLoop(ts[..i], g, bpm, r)
    {
      r := DispatchTrack(ts, i, g, bpm, r);
      i := i + 1;
    }
    DispatchAll(ts, g, bpm, r);
  }

  /** What the dispatch loop keeps after the tracks `before`. */
  predicate DispatchLoop(before: seq<Track>, g: nat, bpm: nat, r: Dispatched)
  {
    && DispatchedSoFar(before, g, bpm, r)
    && DispatchExact(before, g, r.sent, r.tracks)
    && DispatchCarried(before, g, bpm, r)
  }

  /** The turn of track `i` in the dispatch loop: drain it under the tempo so
      far, then add what it sent, its new state and, when it had data, its
      entry in `active_tracks`. */
  method DispatchTrack(ts: seq<Track>, i: nat, g: nat, bpm: nat, acc: Dispatched) returns (r: Dispatched)
    requires i < |ts| && AllPlayable(ts) && DispatchLoop(ts[..i], g, bpm, acc)
    ensures DispatchLoop(ts[..i + 1], g, bpm, r)
  {
    var d := Drain(ts[i], i, g, acc.bpm);
    DispatchTurn(ts, i, g, bpm, acc, d);
    r := Extend(acc, ts[i], d);
  }

  /** The tempo after the turn of track `i` is the one `DispatchTempo` hands on. */
  lemma TempoTurn(ts: seq<Track>, i: nat, g: nat, bpm: nat, cur: nat, next: nat)
    requires i < |ts| && AllPlayable(ts) && AllPlayable(ts[..i])
    requires cur == DispatchTempo(ts[..i], g, bpm) && next == DrainTempo(ts[i], g, cur)
    ensures AllPlayable(ts[..i + 1]) && next == DispatchTempo(ts[..i + 1], g, bpm)
  {
    AllPlayablePrefix(ts, i + 1);
    assert ts[..i + 1][..i] == ts[..i];
    assert ts[..i + 1][i] == ts[i];
  }

  /** The dispatch loop's two invariants after the turn of track `i`. */
  lemma DispatchTurn(ts: seq<Track>, i: nat, g: nat, bpm: nat, acc: Dispatched, d: Drained)
    requires i < |ts| && AllPlayable(ts)
    requires DispatchedSoFar(ts[..i], g, bpm, acc) && DispatchExact(ts[..i], g, acc.sent, acc.tracks)
    requires d.sent == DrainWords(ts[i], i, g) && d.track == DrainedTrack(ts[i], g)
    requires Playable(d.track) && DrainOutcome(ts[i], g, acc.bpm, d)
    requires DispatchCarried(ts[..i], g, bpm, acc) && d.bpm == DrainTempo(ts[i], g, acc.bpm)
    ensures DispatchedSoFar(ts[..i + 1], g, bpm, Extend(acc, ts[i], d))
    ensures DispatchExact(ts[..i + 1], g, Extend(acc, ts[i], d).sent, Extend(acc, ts[i], d).tracks)
    ensures DispatchCarried(ts[..i + 1], g, bpm, Extend(acc, ts[i], d))
  {
    DispatchStep(ts, i, g, bpm, acc, d);
    ExactStep(ts, i, g, acc, d);
    TempoTurn(ts, i, g, bpm, acc.bpm, d.bpm);
    PushedTurn(ts, i, acc.tracks, acc.pushed, d.track);
  }

  lemma DispatchAll(ts: seq<Track>, g: nat, bpm: nat, r: Dispatched)
    requires DispatchLoop(ts[..|ts|], g, bpm, r)
    ensures DispatchedSoFar(ts, g, bpm, r) && DispatchExact(ts, g, r.sent, r.tracks)
    ensures r.bpm == DispatchTempo(ts, g, bpm) && r.pushed == PushedTracks(ts, r.tracks)
  {
    assert ts[..|ts|] == ts;
  }

  // --------------------------------------------------------------- merge phase

  /** `track->tick - tick` in `uint64_t` arithmetic (the `int` tick is converted
      to `uint64_t` first). */
  function TickDistance(trackTick: nat, g: nat): (d: nat)
    ensures d < U64_LIMIT
    ensures g <= trackTick < g + U64_LIMIT ==> d == trackTick - g
  {
    (trackTick - g) % U64_LIMIT
  }

  /** The merge loop of `MIDIPlayer::play`: starting from `acc` (`UINT64_MAX`),
      the smallest distance from `g` to the tick of a pushed track that still has
      data. */
  function MinDelta(pushed: seq<Track>, g: nat, acc: nat): (d: nat)
    ensures d <= acc
    ensures forall x :: x in pushed && Active(x) ==> d <= TickDistance(x.tick, g)
    ensures d == acc || exists x :: x in pushed && Active(x) && d == TickDistance(x.tick, g)
    decreases |pushed|
  {
    if |pushed| == 0 then acc
    else
      var x := pushed[0];
      var acc' := if Active(x) && TickDistance(x.tick, g) < acc then TickDistance(x.tick, g) else acc;
      assert forall y :: y in pushed[1..] ==> y in pushed;
      MinDelta(pushed[1..], g, acc')
  }

  /** `n` is the earliest tick among the tracks that still have data. */
  predicate EarliestActive(ts: seq<Track>, n: nat)
  {
    && (forall i :: 0 <= i < |ts| && Active(ts[i]) ==> n <= ts[i].tick)
    && (exists i :: 0 <= i < |ts| && Active(ts[i]) && ts[i].tick == n)
  }

  /** Every track that still has data is past `g` and its tick is an `int`. */
  predicate Ahead(ts: seq<Track>, g: nat)
  {
    forall i :: 0 <= i < |ts| && Active(ts[i]) ==> g < ts[i].tick < INT_LIMIT
  }

  /** After a dispatch at `g`, the tracks with data are ahead of `g` and all on
      the `active_tracks` list. */
  lemma DispatchAhead(before: seq<Track>, after: seq<Track>, pushed: seq<Track>, g: nat)
    requires AllDrainedFrom(before, after, g) && PushedFrom(before, after, pushed)
    requires forall i :: 0 <= i < |after| ==> after[i].tick < INT_LIMIT
    ensures Ahead(after, g)
    ensures forall i :: 0 <= i < |after| && Active(after[i]) ==> after[i] in pushed
  {
    forall i | 0 <= i < |after| && Active(after[i])
      ensures g < after[i].tick && after[i] in pushed
    {
      assert DrainedFrom(before[i], after[i], g);
    }
  }

  /** The merge step when some track still has data: the global tick moves
      forward to the earliest of their ticks, without wrapping. */
  lemma MergeActive(after: seq<Track>, pushed: seq<Track>, g: nat)
    requires g < U64_LIMIT && Ahead(after, g) && !Idle(after)
    requires forall x :: x in pushed ==> x in after
    requires forall i :: 0 <= i < |after| && Active(after[i]) ==> after[i] in pushed
    ensures var d := MinDelta(pushed, g, U64_MAX);
            && 0 < d && g + d < U64_LIMIT && AddU64(g, d) == g + d
            && EarliestActive(after, g + d)
  {
    var d := MinDelta(pushed, g, U64_MAX);
    var i :| 0 <= i < |after| && Active(after[i]);
    assert after[i] in pushed;
    var x :| x in pushed && Active(x) && d == TickDistance(x.tick, g);
    var j :| 0 <= j < |after| && after[j] == x;
    assert d == x.tick - g;
    forall k | 0 <= k < |after| && Active(after[k])
      ensures x.tick <= after[k].tick
    {
      assert after[k] in pushed;
    }
  }

  /** The merge step when every pushed track ran out during the dispatch:
      `delta_tick` stays `UINT64_MAX` and the global tick wraps round to one
      below `g`. */
  lemma MergeIdle(after: seq<Track>, pushed: seq<Track>, g: nat)
    requires g < U64_LIMIT && Idle(after)
    requires forall x :: x in pushed ==> x in after
    ensures MinDelta(pushed, g, U64_MAX) == U64_MAX
    ensures AddU64(g, U64_MAX) == (if g == 0 then U64_MAX else g - 1)
  {
  }

  /** `uint64_t` addition: the sum wraps round modulo 2^64. */
  function AddU64(a: nat, b: nat): (r: nat)
    requires a < U64_LIMIT && b < U64_LIMIT
    ensures r < U64_LIMIT && r == (a + b) % U64_LIMIT
    ensures a + b < U64_LIMIT ==> r == a + b
  {
    if a + b < U64_LIMIT then a + b else a + b - U64_LIMIT
  }

  /** The bytes every track still has to yield. */
  function TotalRemaining(ts: seq<Track>): nat
  {
    if |ts| == 0 then 0 else Remaining(ts[0]) + TotalRemaining(ts[1..])
  }

  lemma AllDrainedTail(before: seq<Track>, after: seq<Track>, g: nat)
    requires AllDrainedFrom(before, after, g) && |before| > 0
    ensures AllDrainedFrom(before[1..], after[1..], g)
    ensures DrainedFrom(before[0], after[0], g)
  {
    assert forall i :: 0 <= i < |before| - 1 ==> before[1..][i] == before[i + 1] && after[1..][i] == after[i + 1];
  }

  /** A dispatch never adds work, takes some from every due track, and changes
      nothing when no track is due. */
  lemma {:induction false} ProgressLemma(before: seq<Track>, after: seq<Track>, g: nat)
    requires AllDrainedFrom(before, after, g)
    ensures TotalRemaining(after) <= TotalRemaining(before)
    ensures SomeDue(before, g) ==> TotalRemaining(after) < TotalRemaining(before)
    ensures !SomeDue(before, g) ==> after == before
    decreases |before|
  {
    if |before| > 0 {
      AllDrainedTail(before, after, g);
      ProgressLemma(before[1..], after[1..], g);
      if SomeDue(before, g) && !(Active(before[0]) && before[0].tick <= g) {
        var i :| 0 <= i < |before| && Active(before[i]) && before[i].tick <= g;
        assert before[1..][i - 1] == before[i];
      }
      if !SomeDue(before, g) {
        assert after == [after[0]] + after[1..];
        assert before == [before[0]] + before[1..];
      }
    }
  }

  // ----------------------------------------------------------------- play loop

  /** The player's state between iterations of `MIDIPlayer::play`: the tracks,
      the global tick (`uint64_t`), the tempo and `note_on_count`. */
  datatype State = State(tracks: seq<Track>, tick: nat, bpm: nat, noteOns: nat)

  /** The state before the first iteration. */
  function Start(tracks: seq<Track>): (s: State)
    ensures AllPlayable(tracks) ==> Ready(s)
  {
    State(tracks, 0, DEFAULT_TEMPO, 0)
  }

  /** What holds at the top of every iteration: the tick fits its `uint64_t`, the
      tempo is a 24-bit value, every track can be played to its end, and no track
      with data lags behind the global tick. */
  predicate Ready(s: State)
  {
    s.tick < U64_LIMIT && s.bpm < TEMPO_LIMIT && AllPlayable(s.tracks) && NotBehind(s.tracks, s.tick)
  }

  /** The merge phase after the dispatch `d` at `s.tick`: the tracks, tempo and
      Note-On count the dispatch left, and the global tick advanced by the
      smallest distance to a pushed track's tick. */
  function Merge(s: State, d: Dispatched): State
    requires s.tick < U64_LIMIT
  {
    State(d.tracks, AddU64(s.tick, MinDelta(d.pushed, s.tick, U64_MAX)), d.bpm, s.noteOns + d.noteOns)
  }

  /** When some track still has data after a dispatch at `g`, the merge phase
      moves the global tick forward to the earliest of their ticks. */
  lemma MergeForward(before: seq<Track>, after: seq<Track>, pushed: seq<Track>, g: nat)
    requires g < U64_LIMIT && AllDrainedFrom(before, after, g) && PushedFrom(before, after, pushed)
    requires forall i :: 0 <= i < |after| ==> after[i].tick < INT_LIMIT
    requires !Idle(after)
    ensures var n := AddU64(g, MinDelta(pushed, g, U64_MAX));
            g < n && MinDelta(pushed, g, U64_MAX) == n - g && EarliestActive(after, n)
  {
    DispatchAhead(before, after, pushed, g);
    MergeActive(after, pushed, g);
  }

  /** The merge phase restores the loop invariant. */
  lemma MergeReady(s: State, d: Dispatched)
    requires Ready(s) && DispatchedSoFar(s.tracks, s.tick, s.bpm, d)
    requires !Idle(d.tracks) ==> EarliestActive(d.tracks, Merge(s, d).tick)
    ensures Ready(Merge(s, d))
  {
  }

  datatype Iteration = Stopped | Continued(next: State, sent: seq<Sent>, delta: nat)

  /** What the dispatch phase of an iteration at `s` leaves: its words sent
      (`DispatchWords`, all at the global tick), every track drained
      (`DrainedTracks`), the tempo `DispatchTempo` hands on, the Note-Ons
      counted; and no work added, some taken when a track was due, the tracks
      and the tempo unchanged when none was. */
  predicate Dispatches(s: State, next: State, sent: seq<Sent>)
    requires AllPlayable(s.tracks)
  {
    && |next.tracks| == |s.tracks|
    && sent == DispatchWords(s.tracks, s.tick)
    && next.tracks == DrainedTracks(s.tracks, s.tick)
    && next.bpm == DispatchTempo(s.tracks, s.tick, s.bpm)
    && ChannelOnly(sent) && TicksWithin(sent, s.tick, s.tick)
    && next.noteOns == s.noteOns + CountNoteOns(sent)
    && TotalRemaining(next.tracks) <= TotalRemaining(s.tracks)
    && (SomeDue(s.tracks, s.tick) ==> TotalRemaining(next.tracks) < TotalRemaining(s.tracks))
    && (!SomeDue(s.tracks, s.tick) ==> next.tracks == s.tracks && next.bpm == s.bpm)
  }

  /** What the merge phase of an iteration at `s` leaves: the global tick
      advanced by `delta` in `uint64_t` arithmetic, to the earliest tick of a
      track with data or, when none is left, wrapped round to one below. */
  predicate Merges(s: State, next: State, delta: nat)
    requires s.tick < U64_LIMIT
  {
    && delta < U64_LIMIT && next.tick == AddU64(s.tick, delta)
    && (!Idle(next.tracks) ==>
          s.tick < next.tick && delta == next.tick - s.tick && EarliestActive(next.tracks, next.tick))
    && (Idle(next.tracks) ==> delta == U64_MAX && next.tick == (if s.tick == 0 then U64_MAX else s.tick - 1))
  }

  /** What an iteration at `s` that did not stop leaves: both phases, and the
      loop invariant `Ready` kept. */
  predicate Advanced(s: State, next: State, sent: seq<Sent>, delta: nat)
    requires Ready(s)
  {
    Ready(next) && Dispatches(s, next, sent) && Merges(s, next, delta)
  }

  /** One iteration of the outer loop of `MIDIPlayer::play`: the dispatch phase,
      the `break` when `active_tracks` is empty, and the merge phase that adds
      `delta_tick` to the global tick. */
  method Iterate(s: State) returns (r: Iteration)
    requires Ready(s)
    ensures r.Stopped? <==> Idle(s.tracks)
    ensures r.Continued? ==> Advanced(s, r.next, r.sent, r.delta)
  {
    var d := Dispatch(s.tracks, s.tick, s.bpm);
    if |d.pushed| == 0 {
      return Stopped;
    }
    MergeAdvanced(s, d);
    r := Continued(Merge(s, d), d.sent, MinDelta(d.pushed, s.tick, U64_MAX));
  }

  /** The merge phase after a dispatch that pushed some track. */
  lemma MergeAdvanced(s: State, d: Dispatched)
    requires Ready(s) && |d.pushed| > 0
    requires DispatchExact(s.tracks, s.tick, d.sent, d.tracks) && DispatchedSoFar(s.tracks, s.tick, s.bpm, d)
    requires d.bpm == DispatchTempo(s.tracks, s.tick, s.bpm)
    ensures Advanced(s, Merge(s, d), d.sent, MinDelta(d.pushed, s.tick, U64_MAX))
  {
    MergeDispatches(s, d);
    MergeMerges(s, d);
    MergeReady(s, d);
  }

  lemma MergeDispatches(s: State, d: Dispatched)
    requires Ready(s)
    requires DispatchExact(s.tracks, s.tick, d.sent, d.tracks) && DispatchedSoFar(s.tracks, s.tick, s.bpm, d)
    requires d.bpm == DispatchTempo(s.tracks, s.tick, s.bpm)
    ensures Dispatches(s, Merge(s, d), d.sent)
  {
    ProgressLemma(s.tracks, d.tracks, s.tick);
    if !SomeDue(s.tracks, s.tick) {
      DispatchTempoIdle(s.tracks, s.tick, s.bpm);
    }
  }

  lemma MergeMerges(s: State, d: Dispatched)
    requires Ready(s) && |d.pushed| > 0 && DispatchedSoFar(s.tracks, s.tick, s.bpm, d)
    ensures Merges(s, Merge(s, d), MinDelta(d.pushed, s.tick, U64_MAX))
  {
    if Idle(d.tracks) {
      MergeIdle(d.tracks, d.pushed, s.tick);
    } else {
      MergeForward(s.tracks, d.tracks, d.pushed, s.tick);
    }
  }

  /** Words reach the sink in order of their ticks, and words with the same tick
      in order of their tracks. */
  predicate InOrder(out: seq<Sent>)
  {
    forall i, j :: 0 <= i < j < |out| ==>
      out[i].tick < out[j].tick || (out[i].tick == out[j].tick && out[i].track <= out[j].track)
  }

  /** Every word in `out` came from an event before the tick `x`. */
  predicate Before(out: seq<Sent>, x: nat)
  {
    forall i :: 0 <= i < |out| ==> out[i].tick < x
  }

  lemma InOrderAppend(a: seq<Sent>, b: seq<Sent>, x: nat)
    requires InOrder(a) && Before(a, x) && TicksWithin(b, x, x) && TrackOrdered(b)
    ensures InOrder(a + b)
  {
  }

  /** The words of `out` that came from track `k`, in the order they were sent. */
  function FromTrack(out: seq<Sent>, k: nat): (r: seq<Sent>)
    ensures FromOne(r, k) && |r| <= |out|
    decreases |out|
  {
    if |out| == 0 then []
    else
      var n := |out| - 1;
      FromTrack(out[..n], k) + (if out[n].track == k then [out[n]] else [])
  }

  lemma {:induction false} FromTrackAppend(a: seq<Sent>, b: seq<Sent>, k: nat)
    ensures FromTrack(a + b, k) == FromTrack(a, k) + FromTrack(b, k)
    decreases |b|
  {
    if |b| > 0 {
      var n := |b| - 1;
      assert (a + b)[..|a + b| - 1] == a + b[..n];
      FromTrackAppend(a, b[..n], k);
    } else {
      assert a + b == a;
    }
  }

  /** Selecting track `k` from the words of track `j` keeps all or nothing. */
  lemma {:induction false} FromTrackOne(out: seq<Sent>, j: nat, k: nat)
    requires FromOne(out, j)
    ensures FromTrack(out, k) == if j == k then out else []
    decreases |out|
  {
    if |out| > 0 {
      var n := |out| - 1;
      FromTrackOne(out[..n], j, k);
      assert out[..n] + [out[n]] == out;
    }
  }

  lemma {:induction false} FromTrackNone(out: seq<Sent>, k: nat)
    requires forall i :: 0 <= i < |out| ==> out[i].track < k
    ensures FromTrack(out, k) == []
    decreases |out|
  {
    if |out| > 0 {
      FromTrackNone(out[..|out| - 1], k);
    }
  }

  /** The words of track `k` in one dispatch phase are exactly its drain. */
  lemma {:induction false} FromTrackDispatch(ts: seq<Track>, g: nat, k: nat)
    requires AllPlayable(ts) && k < |ts|
    ensures FromTrack(DispatchWords(ts, g), k) == DrainWords(ts[k], k, g)
    decreases |ts|
  {
    var n := |ts| - 1;
    assert ts == ts[..n] + [ts[n]];
    AllPlayableSnoc(ts[..n], ts[n]) by {
      assert forall i :: 0 <= i < n ==> ts[..n][i] == ts[i];
    }
    DispatchWordsSnoc(ts[..n], ts[n], g);
    var before, last := DispatchWords(ts[..n], g), DrainWords(ts[n], n, g);
    FromTrackAppend(before, last, k);
    FromTrackOne(last, n, k);
    if k == n {
      FromTrackNone(before, k);
      assert [] + last == last;
    } else {
      FromTrackDispatch(ts[..n], g, k);
      assert FromTrack(before, k) + [] == FromTrack(before, k);
    }
  }

  /** The invariant of the outer loop of `MIDIPlayer::play` started on
      `tracks`, with `out` the words sent so far: the words are channel words
      in order, all before the current tick while some track has data, and the
      words of each track are the first of its `TrackWords`, the rest being
      what its current state will still send. */
  predicate PlaySoFar(tracks: seq<Track>, s: State, out: seq<Sent>)
  {
    && AllPlayable(tracks) && Ready(s) && |s.tracks| == |tracks|
    && ChannelOnly(out) && InOrder(out) && (!Idle(s.tracks) ==> Before(out, s.tick))
    && (forall i :: 0 <= i < |out| ==> out[i].track < |tracks|)
    && (forall k :: 0 <= k < |tracks| ==>
          FromTrack(out, k) + TrackWords(s.tracks[k], k) == TrackWords(tracks[k], k))
    && s.noteOns == CountNoteOns(out)
  }

  /** An iteration that did not stop keeps the loop invariant, and leaves some
      track due at the new tick unless every track has run out. */
  lemma PlayStep(tracks: seq<Track>, s: State, out: seq<Sent>, next: State, sent: seq<Sent>)
    requires PlaySoFar(tracks, s, out) && !Idle(s.tracks)
    requires Ready(next) && |next.tracks| == |s.tracks|
    requires sent == DispatchWords(s.tracks, s.tick)
    requires next.tracks == DrainedTracks(s.tracks, s.tick)
    requires TicksWithin(sent, s.tick, s.tick)
    requires next.noteOns == s.noteOns + CountNoteOns(sent)
    requires !Idle(next.tracks) ==> s.tick < next.tick && EarliestActive(next.tracks, next.tick)
    ensures PlaySoFar(tracks, next, out + sent)
    ensures !Idle(next.tracks) ==> SomeDue(next.tracks, next.tick)
  {
    OrderStep(out, sent, s.tick, next.tick, !Idle(next.tracks));
    OutputAppend(out, sent, 0, s.tick);
    TagsAppend(out, sent, |tracks|);
    TracksStep(tracks, s.tracks, s.tick, out, next.tracks);
    if !Idle(next.tracks) {
      var i :| 0 <= i < |next.tracks| && Active(next.tracks[i]) && next.tracks[i].tick == next.tick;
    }
  }

  /** Words tagged with track numbers below `n`, appended, stay so. */
  lemma TagsAppend(a: seq<Sent>, b: seq<Sent>, n: nat)
    requires forall i :: 0 <= i < |a| ==> a[i].track < n
    requires forall i :: 0 <= i < |b| ==> b[i].track < n
    ensures forall i :: 0 <= i < |a + b| ==> (a + b)[i].track < n
  {
  }

  /** The outer loop's measure drops: either work was taken from a due track, or
      none was due and the merge phase moved the global tick to a due one. */
  lemma PlayMeasure(s: State, next: State)
    requires !Idle(s.tracks) && TotalRemaining(next.tracks) <= TotalRemaining(s.tracks)
    requires SomeDue(s.tracks, s.tick) ==> TotalRemaining(next.tracks) < TotalRemaining(s.tracks)
    requires !SomeDue(s.tracks, s.tick) ==> next.tracks == s.tracks
    requires !Idle(next.tracks) ==> EarliestActive(next.tracks, next.tick)
    ensures || TotalRemaining(next.tracks) < TotalRemaining(s.tracks)
            || (TotalRemaining(next.tracks) == TotalRemaining(s.tracks)
                && !SomeDue(s.tracks, s.tick) && SomeDue(next.tracks, next.tick))
  {
    if !SomeDue(s.tracks, s.tick) {
      var i :| 0 <= i < |next.tracks| && Active(next.tracks[i]) && next.tracks[i].tick == next.tick;
    }
  }

  /** Appending the words of an iteration at `x` keeps the output in order. */
  lemma OrderStep(out: seq<Sent>, sent: seq<Sent>, x: nat, y: nat, more: bool)
    requires InOrder(out) && Before(out, x) && TicksWithin(sent, x, x) && TrackOrdered(sent)
    requires more ==> x < y
    ensures InOrder(out + sent) && (more ==> Before(out + sent, y))
  {
    InOrderAppend(out, sent, x);
  }

  /** One dispatch phase at `g` keeps, for every track, the words sent so far
      followed by the words still to come equal to all the words of the track. */
  lemma TracksStep(tracks: seq<Track>, ts: seq<Track>, g: nat, out: seq<Sent>, after: seq<Track>)
    requires AllPlayable(tracks) && AllPlayable(ts) && |ts| == |tracks| == |after|
    requires forall k :: 0 <= k < |tracks| ==> FromTrack(out, k) + TrackWords(ts[k], k) == TrackWords(tracks[k], k)
    requires after == DrainedTracks(ts, g)
    ensures forall k :: 0 <= k < |tracks| ==>
              Playable(after[k]) && FromTrack(out + DispatchWords(ts, g), k) + TrackWords(after[k], k) == TrackWords(tracks[k], k)
  {
    forall k | 0 <= k < |tracks|
      ensures Playable(after[k])
      ensures FromTrack(out + DispatchWords(ts, g), k) + TrackWords(after[k], k) == TrackWords(tracks[k], k)
    {
      DrainedTracksAt(ts, g, k);
      WordsStep(ts, g, k, out, TrackWords(tracks[k], k));
    }
  }

  /** One dispatch phase moves the words of track `k` from what its state will
      still send to what has been sent. */
  lemma WordsStep(ts: seq<Track>, g: nat, k: nat, out: seq<Sent>, all: seq<Sent>)
    requires AllPlayable(ts) && k < |ts|
    requires FromTrack(out, k) + TrackWords(ts[k], k) == all
    ensures FromTrack(out + DispatchWords(ts, g), k) + TrackWords(DrainedTrack(ts[k], g), k) == all
  {
    var sent := DispatchWords(ts, g);
    FromTrackAppend(out, sent, k);
    FromTrackDispatch(ts, g, k);
    DrainSplitsWords(ts[k], k, g);
    Assoc(FromTrack(out, k), DrainWords(ts[k], k, g), TrackWords(DrainedTrack(ts[k], g), k));
  }

  /** Before the first iteration nothing has been sent and every track has all
      of its words still to send. */
  lemma PlayStart(tracks: seq<Track>)
    requires AllPlayable(tracks)
    ensures PlaySoFar(tracks, Start(tracks), [])
  {
    forall k | 0 <= k < |tracks|
      ensures FromTrack([], k) + TrackWords(tracks[k], k) == TrackWords(tracks[k], k)
    {
      assert [] + TrackWords(tracks[k], k) == TrackWords(tracks[k], k);
    }
  }

  /** Once every track has run out, the words of each track are all of its
      `TrackWords`. */
  lemma PlayDone(tracks: seq<Track>, s: State, out: seq<Sent>)
    requires PlaySoFar(tracks, s, out) && Idle(s.tracks)
    ensures |s.tracks| == |tracks| && ChannelOnly(out) && InOrder(out)
    ensures forall i :: 0 <= i < |out| ==> out[i].track < |tracks|
    ensures s.noteOns == CountNoteOns(out)
    ensures forall k :: 0 <= k < |tracks| ==> FromTrack(out, k) == TrackWords(tracks[k], k)
  {
    forall k | 0 <= k < |tracks|
      ensures FromTrack(out, k) == TrackWords(tracks[k], k)
    {
      assert !Active(s.tracks[k]);
      assert FromTrack(out, k) + [] == FromTrack(out, k);
    }
  }

  /** `MIDIPlayer::play` without the pacing: iterate until no track has data.
      Every track is played to its end; the sink sees only channel words, in
      order of their ticks and, at equal ticks, of their tracks; the words of
      track `k` are exactly its `TrackWords`; and `note_on_count` counts the
      Note-Ons sent. */
  method Play(tracks: seq<Track>) returns (out: seq<Sent>, last: State)
    requires AllPlayable(tracks)
    ensures |last.tracks| == |tracks| && Idle(last.tracks)
    ensures ChannelOnly(out) && InOrder(out)
    ensures forall i :: 0 <= i < |out| ==> out[i].track < |tracks|
    ensures forall k :: 0 <= k < |tracks| ==> FromTrack(out, k) == TrackWords(tracks[k], k)
    ensures last.noteOns == CountNoteOns(out)
  {
    var s := Start(tracks);
    out := [];
    PlayStart(tracks);
    while true
      invariant PlaySoFar(tracks, s, out)
      decreases TotalRemaining(s.tracks), if SomeDue(s.tracks, s.tick) then 0 else 1
    {
      var r := Round(tracks, s, out);
      if r.Stopped? {
        PlayDone(tracks, s, out);
        return out, s;
      }
      out, s := out + r.sent, r.next;
    }
  }

  /** One iteration of the outer loop with the output `out` sent so far: it
      stops only once every track has run out; otherwise it keeps the loop
      invariant and the loop's measure drops. */
  method Round(tracks: seq<Track>, s: State, out: seq<Sent>) returns (r: Iteration)
    requires PlaySoFar(tracks, s, out)
    ensures r.Stopped? <==> Idle(s.tracks)
    ensures r.Continued? ==> PlaySoFar(tracks, r.next, out + r.sent)
    ensures r.Continued? ==>
              || TotalRemaining(r.next.tracks) < TotalRemaining(s.tracks)
              || (TotalRemaining(r.next.tracks) == TotalRemaining(s.tracks)
                  && !SomeDue(s.tracks, s.tick) && SomeDue(r.next.tracks, r.next.tick))
  {
    r := Iterate(s);
    if r.Continued? {
      PlayStep(tracks, s, out, r.next, r.sent);
      PlayMeasure(s, r.next);
    }
  }
}
