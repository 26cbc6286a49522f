/** Playback of tracks written from events: a track chunk body built from
    (delta time, event) pairs, each event stored with its status byte, is
    played by `MIDIPlayer::play` as exactly the packed words of its channel
    events, in order, each stamped with the sum of the delta times up to it. */
module Playback {
  import opened Bytes
  import opened Vlq
  import opened Tracks
  import opened Events
  import opened Player
  import opened Loader

  /** An event with the delta time that precedes it in the chunk. */
  datatype Timed = Timed(delta: nat, event: Event)

  /** The end-of-track meta event (type 0x2F). */
  predicate EndOfTrack(e: Event)
  {
    e.Meta? && e.kind == 0x2F
  }

  /** A track chunk body: each delta time as a variable-length quantity, then
      the event with its status byte. */
  function TrackBody(evs: seq<Timed>): seq<byte>
  {
    if |evs| == 0 then [] else EncodeVlq(evs[0].delta) + EncodeEvent(evs[0].event) + TrackBody(evs[1..])
  }

  /** The sum of the delta times: the tick of the last event. */
  function Span(evs: seq<Timed>): nat
  {
    if |evs| == 0 then 0 else evs[0].delta + Span(evs[1..])
  }

  /** A timed event the decoder reads whole: a valid event, a delta time of at
      most four bytes, and a tempo event with the three bytes it is read from. */
  predicate TimedOk(x: Timed)
  {
    && ValidEvent(x.event) && x.delta < VLQ_LIMIT
    && (x.event.Meta? && x.event.kind == 0x51 ==> |x.event.payload| >= 3)
  }

  /** Events ending with the end-of-track event and holding no other one. */
  predicate Wellformed(evs: seq<Timed>)
  {
    && |evs| > 0
    && (forall i :: 0 <= i < |evs| ==> TimedOk(evs[i]))
    && (forall i :: 0 <= i < |evs| - 1 ==> !EndOfTrack(evs[i].event))
    && EndOfTrack(evs[|evs| - 1].event)
  }

  /** A track the player can load and play: well formed, and its last tick an `int`. */
  predicate Score(evs: seq<Timed>)
  {
    Wellformed(evs) && Span(evs) < INT_LIMIT
  }

  /** What playing `evs` from the tick `base` should send as track `k`: the packed
      word of every channel event, at its tick, in order; nothing for meta and
      SysEx events. */
  function Expected(evs: seq<Timed>, base: nat, k: nat): seq<Sent>
  {
    if |evs| == 0 then []
    else
      var tick := base + evs[0].delta;
      (if evs[0].event.Channel? then [Sent(tick, k, Packed(evs[0].event))] else []) + Expected(evs[1..], tick, k)
  }

  /** One event of `Expected`. */
  lemma ExpectedCons(evs: seq<Timed>, base: nat, k: nat)
    requires |evs| > 0
    ensures var tick, e := base + evs[0].delta, evs[0].event;
            Expected(evs, base, k) == (if e.Channel? then [Sent(tick, k, Packed(e))] else []) + Expected(evs[1..], tick, k)
  {
  }

  // ------------------------------------------------------- one event at a time

  /** Track `t` has read the delta time of `evs[0]`: that event and the rest of
      the body follow the cursor, the registers are well packed, and the ticks
      still to come fit an `int`. */
  predicate AtEvent(t: Track, evs: seq<Timed>)
  {
    && Wellformed(evs) && WellPacked(t)
    && HoldsAt(t.data, t.offset, EncodeEvent(evs[0].event) + TrackBody(evs[1..]))
    && t.tick + Span(evs[1..]) < INT_LIMIT
  }

  lemma WellformedTail(evs: seq<Timed>)
    requires Wellformed(evs) && |evs| > 1
    ensures Wellformed(evs[1..]) && !EndOfTrack(evs[0].event)
  {
    var rest := evs[1..];
    assert forall i :: 0 <= i < |rest| ==> rest[i] == evs[i + 1];
  }

  /** Where `x + y` lies at `p`, `x` lies at `p` and `y` right after it. */
  lemma HoldsSplit(data: seq<byte>, p: nat, x: seq<byte>, y: seq<byte>)
    requires HoldsAt(data, p, x + y)
    ensures HoldsAt(data, p, x) && HoldsAt(data, p + |x|, y)
  {
    SplitAt(data, p, x, y);
  }

  /** A valid event is sent exactly when it is a channel event, as its packed word. */
  lemma EmitPacked(e: Event, tick: nat, k: nat)
    requires ValidEvent(e)
    ensures Emit(Packed(e), tick, k) == if e.Channel? then [Sent(tick, k, Packed(e))] else []
  {
    PackedStatus(e);
  }

  /** An event other than the end of the track, followed by the delta time
      `d`: the step sends the event's packed word and leaves the cursor on the
      next event, `d` ticks later, with the registers still well packed. */
  lemma InnerStep(t: Track, ev: Event, d: nat)
    requires TimedOk(Timed(d, ev)) && !EndOfTrack(ev) && WellPacked(t)
    requires HoldsAt(t.data, t.offset, EncodeEvent(ev))
    requires HoldsAt(t.data, t.offset + |EncodeEvent(ev)|, EncodeVlq(d))
    requires t.tick + d < INT_LIMIT
    ensures CanStep(t) && DecodeEvent(t).message == Packed(ev)
    ensures var n := NextTrack(t);
            && n.data == t.data && n.tick == t.tick + d && WellPacked(n)
            && n.offset == t.offset + |EncodeEvent(ev)| + |EncodeVlq(d)|
  {
    EventRead(t, ev);
    var e := DecodeEvent(t);
    DecodeEncodeAt(t.data, e.offset, d);
    StepsOver(t, d);
    SameRegisters(e, NextTrack(t));
  }

  /** The event at the cursor is decoded to its packed word and survives meta
      handling unchanged. */
  lemma EventRead(t: Track, ev: Event)
    requires ValidEvent(ev) && !EndOfTrack(ev) && (ev.Meta? && ev.kind == 0x51 ==> |ev.payload| >= 3)
    requires WellPacked(t) && HoldsAt(t.data, t.offset, EncodeEvent(ev))
    ensures Active(t) && t.offset < |t.data| && MessageInBounds(UpdateCommand(t))
    ensures var e := DecodeEvent(t);
            && e.message == Packed(ev) && e.data == t.data && e.tick == t.tick && WellPacked(e)
            && e.offset == t.offset + |EncodeEvent(ev)|
            && (Status(e.message) == 0xFF ==> MetaInBounds(e)) && AfterMeta(e) == e
  {
    DecodeEncodedEvent(t, ev);
    MetaKept(DecodeEvent(t), ev);
  }

  /** When the decoded event survives meta handling and a whole delta time `d`
      follows it, the step reads that delta time and nothing else changes. */
  lemma StepsOver(t: Track, d: nat)
    requires Active(t) && t.offset < |t.data| && MessageInBounds(UpdateCommand(t))
    requires var e := DecodeEvent(t);
             && (Status(e.message) == 0xFF ==> MetaInBounds(e)) && AfterMeta(e) == e
             && Active(e) && HasVlq(e.data, e.offset) && e.tick + d < INT_LIMIT
             && DecodeVariableLength(e.data, e.offset).value == d
    ensures CanStep(t) && NextTrack(t) == UpdateTick(DecodeEvent(t))
  {
  }

  /** Meta handling leaves a decoded event other than the end of the track as
      it is, and a tempo event has its three bytes. */
  lemma MetaKept(e: Track, ev: Event)
    requires ValidEvent(ev) && !EndOfTrack(ev) && (ev.Meta? && ev.kind == 0x51 ==> |ev.payload| >= 3)
    requires e.message == Packed(ev) && (!ev.Channel? ==> e.longMsg == ev.payload)
    ensures Status(e.message) == 0xFF ==> MetaInBounds(e)
    ensures AfterMeta(e) == e
  {
    PackedStatus(ev);
  }

  /** The end-of-track event: the step sends nothing and empties the track. */
  lemma LastStep(t: Track, ev: Event)
    requires TimedOk(Timed(0, ev)) && EndOfTrack(ev) && WellPacked(t)
    requires HoldsAt(t.data, t.offset, EncodeEvent(ev))
    ensures CanStep(t) && !Active(NextTrack(t))
    ensures DecodeEvent(t).message == Packed(ev)
  {
    DecodeEncodedEvent(t, ev);
    PackedStatus(ev);
  }

  /** A track that can take one step, decoding the word `m`, and is playable
      after it is playable, and sends the word of the step followed by what the
      rest of it sends. */
  lemma WordsStep(t: Track, k: nat, m: bv32, n: Track, tail: seq<Sent>, want: seq<Sent>)
    requires CanStep(t) && DecodeEvent(t).message == m && NextTrack(t) == n
    requires Playable(n) && TrackWords(n, k) == tail && Emit(m, t.tick, k) + tail == want
    ensures Playable(t) && TrackWords(t, k) == want
  {
  }

  /** A track that has run out of data is playable and sends nothing. */
  lemma QuietWords(n: Track, k: nat)
    requires !Active(n)
    ensures Playable(n) && TrackWords(n, k) == []
  {
  }

  /** One event of `Expected`, through the send branch of the player: a valid
      event's packed word is sent exactly when it is a channel event. */
  lemma ExpectedStep(evs: seq<Timed>, base: nat, tick: nat, k: nat)
    requires |evs| > 0 && ValidEvent(evs[0].event) && tick == base + evs[0].delta
    ensures Emit(Packed(evs[0].event), tick, k) + Expected(evs[1..], tick, k) == Expected(evs, base, k)
  {
    ExpectedCons(evs, base, k);
    EmitPacked(evs[0].event, tick, k);
  }

  /** The pieces `LastStep` needs: the end-of-track event at the cursor. */
  lemma LastParts(t: Track, evs: seq<Timed>)
    requires AtEvent(t, evs) && |evs| == 1
    ensures TimedOk(Timed(0, evs[0].event)) && EndOfTrack(evs[0].event)
    ensures HoldsAt(t.data, t.offset, EncodeEvent(evs[0].event))
  {
    assert TimedOk(evs[0]);
    assert TrackBody(evs[1..]) == [];
  }

  /** From the event `evs[0]` on, the track plays to its end and sends exactly
      what `Expected` names. */
  lemma {:induction false} PlaysFrom(t: Track, evs: seq<Timed>, base: nat, k: nat)
    requires AtEvent(t, evs) && t.tick == base + evs[0].delta
    ensures Playable(t) && TrackWords(t, k) == Expected(evs, base, k)
    decreases |evs|
  {
    var ev := evs[0].event;
    assert TimedOk(evs[0]);
    ExpectedStep(evs, base, t.tick, k);
    if |evs| == 1 {
      LastParts(t, evs);
      LastStep(t, ev);
      QuietWords(NextTrack(t), k);
      WordsStep(t, k, Packed(ev), NextTrack(t), [], Expected(evs, base, k));
    } else {
      var n := AtNext(t, evs);
      PlaysFrom(n, evs[1..], t.tick, k);
      WordsStep(t, k, Packed(ev), n, Expected(evs[1..], t.tick, k), Expected(evs, base, k));
    }
  }

  /** Past an event other than the last, the track is at the next one. */
  lemma AtNext(t: Track, evs: seq<Timed>) returns (n: Track)
    requires AtEvent(t, evs) && |evs| > 1
    ensures CanStep(t) && n == NextTrack(t)
    ensures DecodeEvent(t).message == Packed(evs[0].event)
    ensures AtEvent(n, evs[1..]) && n.tick == t.tick + evs[1].delta
  {
    var ev, d := evs[0].event, evs[1].delta;
    NextParts(t, evs);
    InnerStep(t, ev, d);
    n := NextTrack(t);
    AtAfter(t, ev, evs[1..], n);
  }

  /** The pieces `InnerStep` needs: the event, then the next delta time. */
  lemma NextParts(t: Track, evs: seq<Timed>)
    requires AtEvent(t, evs) && |evs| > 1
    ensures TimedOk(Timed(evs[1].delta, evs[0].event)) && !EndOfTrack(evs[0].event)
    ensures HoldsAt(t.data, t.offset, EncodeEvent(evs[0].event))
    ensures HoldsAt(t.data, t.offset + |EncodeEvent(evs[0].event)|, EncodeVlq(evs[1].delta))
    ensures t.tick + evs[1].delta < INT_LIMIT && Wellformed(evs[1..])
  {
    WellformedTail(evs);
    assert TimedOk(evs[0]) && TimedOk(evs[1..][0]);
    BytesThenBody(t.data, t.offset, EncodeEvent(evs[0].event), evs[1..], t.offset + |EncodeEvent(evs[0].event)| + |EncodeVlq(evs[1..][0].delta)|);
  }

  /** Where some bytes `x` and then a nonempty body lie at `p`, `x` lies at
      `p`, the body's first delta time right after it, and the rest of the body
      at `r`, past that delta time. */
  lemma BytesThenBody(data: seq<byte>, p: nat, x: seq<byte>, rest: seq<Timed>, r: nat)
    requires |rest| > 0 && HoldsAt(data, p, x + TrackBody(rest))
    requires r == p + |x| + |EncodeVlq(rest[0].delta)|
    ensures HoldsAt(data, p, x) && HoldsAt(data, p + |x|, EncodeVlq(rest[0].delta))
    ensures HoldsAt(data, r, EncodeEvent(rest[0].event) + TrackBody(rest[1..]))
  {
    BodyCons(rest);
    HoldsSplit3(data, p, x, EncodeVlq(rest[0].delta), EncodeEvent(rest[0].event) + TrackBody(rest[1..]));
  }

  /** Where `x`, `y` and `z` lie one after the other at `p`, each lies in its place. */
  lemma HoldsSplit3(data: seq<byte>, p: nat, x: seq<byte>, y: seq<byte>, z: seq<byte>)
    requires HoldsAt(data, p, x + (y + z))
    ensures HoldsAt(data, p, x) && HoldsAt(data, p + |x|, y) && HoldsAt(data, p + |x| + |y|, z)
  {
    HoldsSplit(data, p, x, y + z);
    HoldsSplit(data, p + |x|, y, z);
  }

  /** A track whose cursor has moved over the event `ev` and the delta time
      after it, with the tick advanced by that delta time, is at the next event. */
  lemma AtAfter(t: Track, ev: Event, rest: seq<Timed>, n: Track)
    requires |rest| > 0 && Wellformed(rest)
    requires HoldsAt(t.data, t.offset, EncodeEvent(ev) + TrackBody(rest))
    requires t.tick + Span(rest) < INT_LIMIT
    requires n.data == t.data && n.tick == t.tick + rest[0].delta && WellPacked(n)
    requires n.offset == t.offset + |EncodeEvent(ev)| + |EncodeVlq(rest[0].delta)|
    ensures AtEvent(n, rest)
  {
    BytesThenBody(t.data, t.offset, EncodeEvent(ev), rest, n.offset);
  }

  /** The first delta time and event of a body, then the rest of it. */
  lemma BodyCons(evs: seq<Timed>)
    requires |evs| > 0
    ensures TrackBody(evs) == EncodeVlq(evs[0].delta) + (EncodeEvent(evs[0].event) + TrackBody(evs[1..]))
  {
    Assoc(EncodeVlq(evs[0].delta), EncodeEvent(evs[0].event), TrackBody(evs[1..]));
  }

  lemma HoldsSuffix(x: seq<byte>, y: seq<byte>)
    ensures HoldsAt(x + y, |x|, y)
  {
    assert (x + y)[|x|..|x| + |y|] == y;
  }

  /** A body written from a score starts with a whole delta time, and the track
      loaded from it is at the first event. */
  lemma LoadedAtFirst(evs: seq<Timed>)
    requires Score(evs)
    ensures HasVlq(TrackBody(evs), 0)
    ensures AtEvent(LoadTrack(TrackBody(evs)), evs) && LoadTrack(TrackBody(evs)).tick == evs[0].delta
  {
    var v, rest := EncodeVlq(evs[0].delta), EncodeEvent(evs[0].event) + TrackBody(evs[1..]);
    assert TimedOk(evs[0]);
    BodyCons(evs);
    DecodeEncode(evs[0].delta, rest);
    HoldsSuffix(v, rest);
  }

  /** Partner of the dispatch loop: the track loaded from the body written from
      a score plays to its end and sends exactly the packed words of the score's
      channel events, in order, each at the sum of the delta times up to it. */
  lemma TrackPlaysScore(evs: seq<Timed>, k: nat)
    requires Score(evs)
    ensures HasVlq(TrackBody(evs), 0)
    ensures Playable(LoadTrack(TrackBody(evs)))
    ensures TrackWords(LoadTrack(TrackBody(evs)), k) == Expected(evs, 0, k)
  {
    LoadedAtFirst(evs);
    PlaysFrom(LoadTrack(TrackBody(evs)), evs, 0, k);
  }

  // ----------------------------------------------------------- whole files

  predicate AllScores(scores: seq<seq<Timed>>)
  {
    forall k :: 0 <= k < |scores| ==> Score(scores[k]) && |TrackBody(scores[k])| < U32_LIMIT
  }

  /** The bodies written from the scores. */
  function Bodies(scores: seq<seq<Timed>>): (bodies: seq<seq<byte>>)
    requires AllScores(scores)
    ensures |bodies| == |scores| && AllValid(bodies)
    ensures forall k :: 0 <= k < |scores| ==> bodies[k] == TrackBody(scores[k])
  {
    forall k | 0 <= k < |scores|
      ensures ValidBody(TrackBody(scores[k]))
    {
      LoadedAtFirst(scores[k]);
    }
    seq(|scores|, k requires 0 <= k < |scores| => TrackBody(scores[k]))
  }

  /** The tracks loaded from the scores' bodies can all be played, and each
      sends what its score names. */
  lemma LoadedScores(scores: seq<seq<Timed>>)
    requires AllScores(scores)
    ensures AllPlayable(LoadTracks(Bodies(scores)))
    ensures var ts := LoadTracks(Bodies(scores));
            forall k :: 0 <= k < |ts| ==> TrackWords(ts[k], k) == Expected(scores[k], 0, k)
  {
    var ts := LoadTracks(Bodies(scores));
    forall k | 0 <= k < |ts|
      ensures Playable(ts[k]) && ts[k].tick < INT_LIMIT
      ensures TrackWords(ts[k], k) == Expected(scores[k], 0, k)
    {
      TrackPlaysScore(scores[k], k);
    }
  }

  /** A file written with one track chunk per score, loaded by `load_file` and
      played by `play`: every track is played to its end, the sink sees the
      words in order of their ticks (and of their tracks at equal ticks), and
      the words of track `k` are exactly the channel events of score `k`. */
  method PlayScores(timeDiv: nat, scores: seq<seq<Timed>>) returns (out: seq<Sent>, last: State)
    requires timeDiv < SMPTE_FLAG && |scores| < U16_LIMIT && AllScores(scores)
    ensures Idle(last.tracks) && InOrder(out)
    ensures forall i :: 0 <= i < |out| ==> out[i].track < |scores|
    ensures forall k :: 0 <= k < |scores| ==> FromTrack(out, k) == Expected(scores[k], 0, k)
  {
    var bodies := Bodies(scores);
    LoadEncodedFile(1, timeDiv, bodies);
    var loaded := LoadFile(EncodeFile(1, timeDiv, bodies));
    LoadedScores(scores);
    out, last := Play(loaded.tracks);
  }

  // ------------------------------------------------------ a two-track example

  /** A Note-On on channel `ch` at tick 0, its Note-Off four beats of 480 ticks
      later, then the end of the track. */
  function NotePair(ch: byte): seq<Timed>
    requires ch < 16
  {
    [Timed(0, Channel(0x90 + ch, 60, 100)), Timed(1920, Channel(0x80 + ch, 60, 0)), Timed(0, Meta(0x2F, []))]
  }

  lemma NotePairScore(ch: byte)
    requires ch < 16
    ensures Score(NotePair(ch)) && |TrackBody(NotePair(ch))| < U32_LIMIT
  {
    var s := NotePair(ch);
    assert s[1..] == [s[1], s[2]] && s[1..][1..] == [s[2]] && s[1..][1..][1..] == [];
    assert Span(s[1..][1..]) == 0;
    EncodedLength(0);
    EncodedLength(1920);
  }

  lemma NotePairExpected(ch: byte, k: nat)
    requires ch < 16
    ensures Expected(NotePair(ch), 0, k)
         == [Sent(0, k, Packed(Channel(0x90 + ch, 60, 100))), Sent(1920, k, Packed(Channel(0x80 + ch, 60, 0)))]
  {
    var s := NotePair(ch);
    assert s[1..] == [s[1], s[2]] && s[1..][1..] == [s[2]] && s[1..][1..][1..] == [];
    assert Expected(s[1..][1..], 1920, k) == [];
  }

  /** The number of words among `out` from tracks below `n`. */
  function Tally(out: seq<Sent>, n: nat): nat
  {
    if n == 0 then 0 else Tally(out, n - 1) + |FromTrack(out, n - 1)|
  }

  lemma {:induction false} TallySnoc(out: seq<Sent>, x: Sent, n: nat)
    ensures Tally(out + [x], n) == Tally(out, n) + (if x.track < n then 1 else 0)
    decreases n
  {
    if n > 0 {
      TallySnoc(out, x, n - 1);
      FromTrackAppend(out, [x], n - 1);
      assert [x][..0] == [];
    }
  }

  /** Every word from a track below `n` is counted once. */
  lemma {:induction false} TallyAll(out: seq<Sent>, n: nat)
    requires forall i :: 0 <= i < |out| ==> out[i].track < n
    ensures Tally(out, n) == |out|
    decreases |out|
  {
    if |out| == 0 {
      TallyEmpty(n);
    } else {
      var m := |out| - 1;
      TallyAll(out[..m], n);
      TallySnoc(out[..m], out[m], n);
      assert out[..m] + [out[m]] == out;
    }
  }

  lemma {:induction false} TallyEmpty(n: nat)
    ensures Tally([], n) == 0
    decreases n
  {
    if n > 0 {
      TallyEmpty(n - 1);
    }
  }

  /** Every word of a two-track playback is from track 0 or from track 1. */
  lemma TallyTwo(out: seq<Sent>)
    requires forall i :: 0 <= i < |out| ==> out[i].track < 2
    ensures |out| == |FromTrack(out, 0)| + |FromTrack(out, 1)|
  {
    TallyAll(out, 2);
    assert Tally(out, 0) == 0;
  }

  /** Two tracks at division 480, one Note-On/Note-Off pair per track: the sink
      is called exactly four times, in tick order, the two Note-Ons at tick 0
      and the two Note-Offs at tick 1920, and playback stops. */
  method TwoNotePairs() returns (out: seq<Sent>, last: State)
    ensures Idle(last.tracks) && InOrder(out) && |out| == 4
    ensures FromTrack(out, 0) == [Sent(0, 0, Packed(Channel(0x90, 60, 100))), Sent(1920, 0, Packed(Channel(0x80, 60, 0)))]
    ensures FromTrack(out, 1) == [Sent(0, 1, Packed(Channel(0x91, 60, 100))), Sent(1920, 1, Packed(Channel(0x81, 60, 0)))]
  {
    var scores := [NotePair(0), NotePair(1)];
    NotePairScore(0);
    NotePairScore(1);
    assert AllScores(scores);
    NotePairExpected(0, 0);
    NotePairExpected(1, 1);
    out, last := PlayScores(480, scores);
    TallyTwo(out);
  }
}
