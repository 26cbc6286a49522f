/** The MIDI variable-length quantity (Standard MIDI Files 1.0, "variable-length
    quantity"): a number written most significant group first, seven bits per
    byte, every byte but the last with its top bit set. `Track::decode_variable_length`
    reads one from a track buffer; the encoder here is its reference inverse. */
module Vlq {
  import opened Bytes

  /** 2^28: every quantity of at most four bytes lies below this. */
  const VLQ_LIMIT: nat := 0x1000_0000

  /** A byte with the top bit clear ends a quantity. */
  predicate IsFinal(b: byte)
  {
    b < 0x80
  }

  /** The seven payload bits of a quantity byte. */
  function Low7(b: byte): (r: nat)
    ensures r < 128
    ensures IsFinal(b) ==> r == b as nat
  {
    (b & 0x7F) as nat
  }

  function Pow128(k: nat): (r: nat)
    ensures r >= 1
  {
    if k == 0 then 1 else 128 * Pow128(k - 1)
  }

  /** The seven-bit groups of `bs` combined most significant first, starting from `acc`. */
  function Horner(acc: nat, bs: seq<byte>): nat
    decreases |bs|
  {
    if |bs| == 0 then acc else Horner(acc * 128 + Low7(bs[0]), bs[1..])
  }

  /** Some final byte lies at or after `pos` in `data`. */
  predicate TerminatedAt(data: seq<byte>, pos: nat)
    decreases |data| - pos
  {
    pos < |data| && (IsFinal(data[pos]) || TerminatedAt(data, pos + 1))
  }

  /** The position just after the first final byte at or after `pos`. */
  function VlqEnd(data: seq<byte>, pos: nat): (e: nat)
    requires TerminatedAt(data, pos)
    ensures pos < e <= |data|
    ensures IsFinal(data[e - 1])
    ensures forall k :: pos <= k < e - 1 ==> !IsFinal(data[k])
    decreases |data| - pos
  {
    if IsFinal(data[pos]) then pos + 1 else VlqEnd(data, pos + 1)
  }

  /** A quantity of at most four bytes starts at `offset`: the precondition under
      which the source's unchecked reads stay inside the buffer and its `int`
      accumulator cannot overflow. */
  predicate HasVlq(data: seq<byte>, offset: nat)
  {
    TerminatedAt(data, offset) && VlqEnd(data, offset) <= offset + 4
  }

  datatype Decoded = Decoded(value: nat, next: nat)

  /** The source's decoding loop from `pos` with accumulator `acc`. */
  function DecodeFrom(data: seq<byte>, pos: nat, acc: nat): (r: Decoded)
    requires TerminatedAt(data, pos)
    ensures r.next == VlqEnd(data, pos)
    ensures r.value == Horner(acc, data[pos..r.next])
    decreases |data| - pos
  {
    var acc' := acc * 128 + Low7(data[pos]);
    if IsFinal(data[pos]) then
      assert data[pos..pos + 1][1..] == [];
      Decoded(acc', pos + 1)
    else
      var r := DecodeFrom(data, pos + 1, acc');
      assert data[pos..r.next][1..] == data[pos + 1..r.next];
      r
  }

  /** `Track::decode_variable_length`: consumes the bytes up to and including the
      first one below 0x80 and returns their seven-bit groups, most significant first. */
  function DecodeVariableLength(data: seq<byte>, offset: nat): (r: Decoded)
    requires HasVlq(data, offset)
    ensures offset < r.next <= offset + 4 && r.next <= |data|
    ensures IsFinal(data[r.next - 1])
    ensures forall k :: offset <= k < r.next - 1 ==> !IsFinal(data[k])
    ensures r.value == Horner(0, data[offset..r.next])
    ensures r.value < VLQ_LIMIT
    ensures IsFinal(data[offset]) ==> r == Decoded(data[offset] as nat, offset + 1)
  {
    var r := DecodeFrom(data, offset, 0);
    HornerBound(0, data[offset..r.next]);
    Pow128Mono(r.next - offset, 4);
    r
  }

  lemma {:induction false} HornerBound(acc: nat, bs: seq<byte>)
    ensures Horner(acc, bs) < (acc + 1) * Pow128(|bs|)
    decreases |bs|
  {
    if |bs| > 0 {
      HornerBound(acc * 128 + Low7(bs[0]), bs[1..]);
      calc {
        Horner(acc, bs);
      <
        (acc * 128 + Low7(bs[0]) + 1) * Pow128(|bs| - 1);
      <= { MulMonoLeft(acc * 128 + Low7(bs[0]) + 1, acc * 128 + 128, Pow128(|bs| - 1)); }
        (acc * 128 + 128) * Pow128(|bs| - 1);
      ==
        (acc + 1) * Pow128(|bs|);
      }
    }
  }

  lemma MulMonoLeft(a: nat, b: nat, c: nat)
    requires a <= b
    ensures a * c <= b * c
  {
  }

  lemma {:induction false} Pow128Mono(j: nat, k: nat)
    requires j <= k
    ensures Pow128(j) <= Pow128(k)
    decreases k
  {
    if j < k {
      Pow128Mono(j, k - 1);
    }
  }

  lemma {:induction false} HornerAppend(acc: nat, xs: seq<byte>, ys: seq<byte>)
    ensures Horner(acc, xs + ys) == Horner(Horner(acc, xs), ys)
    decreases |xs|
  {
    if |xs| > 0 {
      assert (xs + ys)[1..] == xs[1..] + ys;
      HornerAppend(acc * 128 + Low7(xs[0]), xs[1..], ys);
    } else {
      assert xs + ys == ys;
    }
  }

  /** The seven-bit groups of `m`, most significant first, each with its top bit
      set; empty for zero. */
  function ContinuationGroups(m: nat): (r: seq<byte>)
    ensures forall k :: 0 <= k < |r| ==> !IsFinal(r[k])
    decreases m
  {
    if m == 0 then [] else ContinuationGroups(m / 128) + [ByteOf(m % 128) | 0x80]
  }

  /** The canonical (shortest) encoding of `n` as a variable-length quantity. */
  function EncodeVlq(n: nat): (r: seq<byte>)
    ensures |r| >= 1
    ensures IsFinal(r[|r| - 1])
    ensures forall k :: 0 <= k < |r| - 1 ==> !IsFinal(r[k])
  {
    ContinuationGroups(n / 128) + [ByteOf(n % 128)]
  }

  lemma ContinuationByte(d: nat)
    requires d < 128
    ensures Low7(ByteOf(d) | 0x80) == d
    ensures !IsFinal(ByteOf(d) | 0x80)
  {
  }

  lemma {:induction false} ContinuationGroupsValue(acc: nat, m: nat)
    ensures Horner(acc, ContinuationGroups(m)) == acc * Pow128(|ContinuationGroups(m)|) + m
    decreases m
  {
    if m > 0 {
      var g := ContinuationGroups(m / 128);
      var c := ByteOf(m % 128) | 0x80;
      var p := Pow128(|g|);
      ContinuationGroupsValue(acc, m / 128);
      HornerAppend(acc, g, [c]);
      ContinuationByte(m % 128);
      assert Horner(acc, g + [c]) == Horner(acc, g) * 128 + m % 128 by {
        assert [c][1..] == [];
      }
      assert ContinuationGroups(m) == g + [c];
      assert Pow128(|g + [c]|) == p * 128;
      ShiftGroup(acc, p, m);
    }
  }

  /** Appending one seven-bit group: `(acc * p + m / 128) * 128 + m % 128 == acc * (p * 128) + m`. */
  lemma ShiftGroup(acc: nat, p: nat, m: nat)
    ensures (acc * p + m / 128) * 128 + m % 128 == acc * (p * 128) + m
  {
    assert (acc * p) * 128 == acc * (p * 128);
  }

  lemma {:induction false} ContinuationGroupsLength(m: nat, k: nat)
    requires m < Pow128(k)
    ensures |ContinuationGroups(m)| <= k
    decreases m
  {
    if m > 0 {
      assert k > 0;
      ContinuationGroupsLength(m / 128, k - 1);
    }
  }

  lemma {:induction false} FinalAfterContinuations(data: seq<byte>, pos: nat, k: nat)
    requires pos <= k < |data|
    requires IsFinal(data[k])
    requires forall j :: pos <= j < k ==> !IsFinal(data[j])
    ensures TerminatedAt(data, pos)
    ensures VlqEnd(data, pos) == k + 1
    decreases k - pos
  {
    if pos < k {
      FinalAfterContinuations(data, pos + 1, k);
    }
  }

  /** The encoding read most significant group first gives the quantity back. */
  lemma EncodeVlqValue(n: nat)
    ensures Horner(0, EncodeVlq(n)) == n
  {
    var g := ContinuationGroups(n / 128);
    var last := ByteOf(n % 128);
    ContinuationGroupsValue(0, n / 128);
    HornerAppend(0, g, [last]);
    assert Horner(0, g + [last]) == Horner(0, g) * 128 + n % 128 by {
      assert [last][1..] == [];
    }
  }

  /** Where the encoding of a quantity below 2^28 lies at `p`, the decoder's
      quantity ends exactly where the encoding does. */
  lemma EncodedVlqEnd(data: seq<byte>, p: nat, n: nat)
    requires n < VLQ_LIMIT
    requires p + |EncodeVlq(n)| <= |data|
    requires data[p..p + |EncodeVlq(n)|] == EncodeVlq(n)
    ensures HasVlq(data, p)
    ensures DecodeVariableLength(data, p).next == p + |EncodeVlq(n)|
  {
    var e := EncodeVlq(n);
    assert forall j :: p <= j < p + |e| ==> data[j] == e[j - p];
    FinalAfterContinuations(data, p, p + |e| - 1);
    ContinuationGroupsLength(n / 128, 3);
  }

  /** Round trip inside a buffer: where the canonical encoding of a quantity below
      2^28 starts at `p`, decoding at `p` gives the quantity back and stops right
      after the encoding, whatever surrounds it. */
  lemma DecodeEncodeAt(data: seq<byte>, p: nat, n: nat)
    requires n < VLQ_LIMIT
    requires p + |EncodeVlq(n)| <= |data|
    requires data[p..p + |EncodeVlq(n)|] == EncodeVlq(n)
    ensures HasVlq(data, p)
    ensures DecodeVariableLength(data, p) == Decoded(n, p + |EncodeVlq(n)|)
  {
    EncodedVlqEnd(data, p, n);
    EncodeVlqValue(n);
  }

  /** Round trip: decoding the canonical encoding of any quantity below 2^28 gives
      the quantity back and consumes exactly the encoding, whatever follows it. */
  lemma DecodeEncode(n: nat, rest: seq<byte>)
    requires n < VLQ_LIMIT
    ensures HasVlq(EncodeVlq(n) + rest, 0)
    ensures DecodeVariableLength(EncodeVlq(n) + rest, 0) == Decoded(n, |EncodeVlq(n)|)
  {
    var e := EncodeVlq(n);
    assert (e + rest)[0..|e|] == e;
    DecodeEncodeAt(e + rest, 0, n);
  }

  /** Number of bytes of the canonical encoding, by magnitude (1 to 4 bytes). */
  lemma EncodedLength(n: nat)
    requires n < VLQ_LIMIT
    ensures |EncodeVlq(n)| == (if n < 0x80 then 1 else if n < 0x4000 then 2 else if n < 0x20_0000 then 3 else 4)
  {
    var m := n / 128;
    if n < 0x80 {
      assert m == 0;
    } else if n < 0x4000 {
      assert 0 < m < 128;
      ContinuationGroupsLength(m, 1);
    } else if n < 0x20_0000 {
      assert 128 <= m < 0x4000;
      ContinuationGroupsLength(m, 2);
      ContinuationGroupsLength(m / 128, 1);
    } else {
      assert 0x4000 <= m < 0x20_0000;
      ContinuationGroupsLength(m, 3);
      ContinuationGroupsLength(m / 128, 2);
      ContinuationGroupsLength(m / 128 / 128, 1);
    }
  }

  /** The boundary values 0 and 127 are single bytes that decode to themselves. */
  lemma OneByteValues()
    ensures DecodeVariableLength([0x00], 0) == Decoded(0, 1)
    ensures DecodeVariableLength([0x7F], 0) == Decoded(127, 1)
  {
    assert HasVlq([0x00], 0) && HasVlq([0x7F], 0);
  }

  /** 128 and 16383, the smallest and largest two-byte quantities. */
  lemma TwoByteValues()
    ensures DecodeVariableLength([0x81, 0x00], 0) == Decoded(128, 2)
    ensures DecodeVariableLength([0xFF, 0x7F], 0) == Decoded(16383, 2)
  {
    assert HasVlq([0x81, 0x00], 0) && HasVlq([0xFF, 0x7F], 0);
  }

  /** 2097151, the largest three-byte quantity. */
  lemma ThreeByteValue()
    ensures DecodeVariableLength([0xFF, 0xFF, 0x7F], 0) == Decoded(2097151, 3)
  {
    assert HasVlq([0xFF, 0xFF, 0x7F], 0);
  }
}
