/**
 Record sets read back. A record set is its batches one after another, and a
 batch says itself how long it is, so a batch that is wrong about that moves
 the reader off the boundaries of all that follow it.
 */
module Batches {
  import opened Base
  import opened Types
  import opened Grammar

  /**
   A batch whose length field counts the bytes it holds, and which is of the
   format the decoder reads, or holds nothing but its magic.
   */
  predicate SoundBatch(b: Batch)
    requires IsBatch(b)
  {
    && b.batchLength == |b.body|
    && (b.body[MAGIC] == MAGIC_RECORD_BATCH_V2 || b.body == Husk(b.body[MAGIC]))
  }

  predicate SoundBatches(batches: seq<Batch>)
    requires AreBatches(batches)
  {
    forall i :: 0 <= i < |batches| ==> SoundBatch(batches[i])
  }

  lemma SoundBatchesCons(batches: seq<Batch>)
    requires AreBatches(batches) && batches != []
    ensures SoundBatches(batches) <==> SoundBatch(batches[0]) && SoundBatches(batches[1..])
  {
    if SoundBatches(batches[1..]) {
      assert forall i :: 0 < i < |batches| ==> batches[i] == batches[1..][i - 1];
    }
  }

  lemma BatchesLength(batches: seq<Batch>)
    requires AreBatches(batches)
    ensures |WireBatches(batches)| == 0 <==> batches == []
  {
  }

  /** The bytes of a batch, where they are. */
  lemma BatchBytes(b: Batch, rest: Bytes)
    requires IsBatch(b)
    ensures var w := WireBatch(b) + rest;
            && |w| == 12 + |b.body| + |rest|
            && FromSigned(w[..8]) == b.baseOffset && FromSigned(w[8..12]) == b.batchLength
            && w[12..12 + |b.body|] == b.body && w[12 + |b.body|..] == rest
            && w[16] == b.body[MAGIC]
  {
    var w := WireBatch(b) + rest;
    assert w[..8] == Signed(b.baseOffset, 8);
    assert w[8..12] == Signed(b.batchLength, 4);
    SignedRoundTrip(b.baseOffset, 8);
    SignedRoundTrip(b.batchLength, 4);
  }

  /** What a batch's bytes have to say for it to be what is read from them. */
  lemma ReadBatchExactly(w: Bytes, b: Batch)
    requires ReadBatch(w).Ok? && ReadBatch(w).value.value == b && IsBatch(b)
    ensures 5 <= b.batchLength && 12 + b.batchLength <= |w|
    ensures ReadBatch(w).value.rest == w[12 + b.batchLength..]
    ensures FromSigned(w[..8]) == b.baseOffset && FromSigned(w[8..12]) == b.batchLength
    ensures w[16] == b.body[MAGIC]
    ensures if w[16] == MAGIC_RECORD_BATCH_V2 then b.body == w[12..12 + b.batchLength] else b.body == Husk(w[16])
  {
    var length := FromSigned(w[8..12]);
    var content := w[..12 + length];
    assert content[..8] == w[..8] && content[8..12] == w[8..12];
    assert content[12..12 + length] == w[12..12 + length];
  }

  /** What is taken for a batch: one of magic two with its fields of a fixed width, or another that has a magic. */
  lemma AcceptedExactly(w: Bytes)
    ensures if |w| < 12 then ReadBatch(w) == Err(TryGet)
            else
              var length := FromSigned(w[8..12]);
              if length < 0 then ReadBatch(w) == Err(CapacityOverflow)
              else if length > |w| - 12 then ReadBatch(w) == Err(Overflow)
              else if length < 5 || (w[16] == 2 && length < 49) then ReadBatch(w) == Err(BadBatch)
              else ReadBatch(w).Ok? && ReadBatch(w).value.rest == w[12 + length..]
  {
    if |w| >= 12 && 0 <= FromSigned(w[8..12]) <= |w| - 12 {
      var content := w[..12 + FromSigned(w[8..12])];
      assert content[8..12] == w[8..12];
    }
  }

  lemma SoundBatchRoundTrip(b: Batch, rest: Bytes)
    requires IsBatch(b) && SoundBatch(b)
    ensures ReadBatch(WireBatch(b) + rest) == Ok(Parsed(b, rest))
  {
    BatchBytes(b, rest);
    var w := WireBatch(b) + rest;
    var content := w[..12 + b.batchLength];
    assert content[..8] == w[..8] && content[8..12] == w[8..12];
    assert content[12..12 + b.batchLength] == w[12..12 + |b.body|];
  }

  /** A batch of another magic comes back with its offset, its length and its magic, and nothing else. */
  lemma OldBatchIsEmptied(b: Batch, rest: Bytes)
    requires IsBatch(b) && b.batchLength == |b.body| && b.body[MAGIC] != MAGIC_RECORD_BATCH_V2
    ensures ReadBatch(WireBatch(b) + rest)
            == Ok(Parsed(Batch(b.baseOffset, b.batchLength, Husk(b.body[MAGIC])), rest))
  {
    BatchBytes(b, rest);
    var w := WireBatch(b) + rest;
    var content := w[..12 + b.batchLength];
    assert content[..8] == w[..8] && content[8..12] == w[8..12];
  }

  /** A record set reads back exactly when every one of its batches is sound. */
  lemma {:induction false} BatchesRoundTrip(batches: seq<Batch>)
    requires AreBatches(batches)
    ensures ReadBatches(WireBatches(batches)) == Ok(batches) <==> SoundBatches(batches)
  {
    if batches != [] {
      var b, others := batches[0], WireBatches(batches[1..]);
      SoundBatchesCons(batches);
      BatchesRoundTrip(batches[1..]);
      assert batches == [b] + batches[1..];
      if SoundBatch(b) {
        SoundBatchRoundTrip(b, others);
        ReadsCons(WireBatches(batches), batches);
      } else if ReadBatches(WireBatches(batches)) == Ok(batches) {
        UnsoundBatch(batches);
      }
    }
  }

  /** Reading a record set is reading its first batch and then the others. */
  lemma ReadsCons(w: Bytes, batches: seq<Batch>)
    requires w != [] && batches != []
    ensures ReadBatches(w) == Ok(batches) <==>
            && ReadBatch(w).Ok? && ReadBatch(w).value.value == batches[0]
            && ReadBatches(ReadBatch(w).value.rest) == Ok(batches[1..])
  {
    if ReadBatch(w).Ok? && ReadBatches(ReadBatch(w).value.rest).Ok? {
      var first, others := ReadBatch(w).value.value, ReadBatches(ReadBatch(w).value.rest).value;
      assert ([first] + others)[0] == first && ([first] + others)[1..] == others;
      assert batches == [batches[0]] + batches[1..];
    }
  }

  lemma {:induction false} UnsoundBatch(batches: seq<Batch>)
    requires AreBatches(batches) && batches != [] && !SoundBatch(batches[0])
    ensures ReadBatches(WireBatches(batches)) != Ok(batches)
  {
    var b, others, w := batches[0], WireBatches(batches[1..]), WireBatches(batches);
    if ReadBatches(w) == Ok(batches) {
      ReadsCons(w, batches);
      UnsoundIsHusk(b, others);
      RestOfHusk(b, others);
      ReadOffBoundary(batches[1..], b.batchLength - FIXED_BATCH_LENGTH, ReadBatch(w).value.rest);
    }
  }

  lemma {:induction false} ReadOffBoundary(batches: seq<Batch>, offset: int, rest: Bytes)
    requires AreBatches(batches) && offset != 0 && offset <= |WireBatches(batches)|
    requires rest == if offset > 0 then WireBatches(batches)[offset..] else Zeros(-offset) + WireBatches(batches)
    ensures ReadBatches(rest) != Ok(batches)
  {
    if offset > 0 {
      ReadPast(batches, offset);
    } else {
      ReadBefore(batches, -offset);
    }
  }

  /** An unsound batch that is read as itself is an emptied one with a wrong length. */
  lemma UnsoundIsHusk(b: Batch, others: Bytes)
    requires IsBatch(b) && !SoundBatch(b)
    requires ReadBatch(WireBatch(b) + others).Ok? && ReadBatch(WireBatch(b) + others).value.value == b
    ensures b.body == Husk(b.body[MAGIC]) && b.batchLength != FIXED_BATCH_LENGTH
    ensures 5 <= b.batchLength <= FIXED_BATCH_LENGTH + |others|
    ensures ReadBatch(WireBatch(b) + others).value.rest == (WireBatch(b) + others)[12 + b.batchLength..]
  {
    BatchBytes(b, others);
    ReadBatchExactly(WireBatch(b) + others, b);
  }

  /** What follows an emptied batch, by the length it says it has. */
  lemma RestOfHusk(b: Batch, others: Bytes)
    requires IsBatch(b) && b.body == Husk(b.body[MAGIC])
    requires 5 <= b.batchLength <= FIXED_BATCH_LENGTH + |others|
    ensures var rest := (WireBatch(b) + others)[12 + b.batchLength..];
            if b.batchLength > FIXED_BATCH_LENGTH
            then rest == others[b.batchLength - FIXED_BATCH_LENGTH..]
            else rest == Zeros(FIXED_BATCH_LENGTH - b.batchLength) + others
  {
  }

  lemma {:induction false} ZeroSigned(b: Bytes)
    requires forall i :: 0 <= i < |b| ==> b[i] == 0
    ensures FromBigEndian(b) == 0 && FromSigned(b) == 0
  {
    if b != [] {
      ZeroSigned(b[..|b| - 1]);
    }
  }

  /** Bytes that are the same after zeros are put before them are zeros. */
  lemma {:induction false} ZeroFromBelow(w: Bytes, k: nat, i: nat)
    requires 12 <= |w| && 0 < k && i < 12
    requires (Zeros(k) + w)[..12] == w[..12]
    ensures w[i] == 0
  {
    var t := Zeros(k) + w;
    assert w[i] == w[..12][i] == t[..12][i] == t[i];
    if i >= k {
      ZeroFromBelow(w, k, i - k);
    }
  }

  lemma {:induction false} ZeroFromAbove(w: Bytes, s: nat, i: nat)
    requires 61 <= |w| && 0 < s <= 44 && 8 <= i < 61
    requires forall j :: 8 <= j < 12 ==> w[j] == w[j + s]
    requires forall j :: 12 <= j < 61 ==> w[j] == 0
    ensures w[i] == 0
    decreases 61 - i
  {
    if i < 12 {
      ZeroFromAbove(w, s, i + s);
    }
  }

  /** Started short of a boundary, in the zeros that an emptied batch ends with, the reader never catches up. */
  lemma {:induction false} ReadBefore(batches: seq<Batch>, k: nat)
    requires AreBatches(batches) && 0 < k
    ensures ReadBatches(Zeros(k) + WireBatches(batches)) != Ok(batches)
  {
    var w := WireBatches(batches);
    var t := Zeros(k) + w;
    if batches != [] && ReadBatches(t) == Ok(batches) {
      var b := batches[0];
      ReadsCons(t, batches);
      ReadBatchExactly(t, b);
      BatchBytes(b, WireBatches(batches[1..]));
      SameStart(t, w);
      ZeroLength(w, k);
    }
  }

  lemma SameStart(a: Bytes, b: Bytes)
    requires |a| >= 12 && |b| >= 12
    requires FromSigned(a[..8]) == FromSigned(b[..8]) && FromSigned(a[8..12]) == FromSigned(b[8..12])
    ensures a[..12] == b[..12]
  {
    SignedInjective(a[..8], b[..8]);
    SignedInjective(a[8..12], b[8..12]);
    assert a[..12] == a[..8] + a[8..12];
    assert b[..12] == b[..8] + b[8..12];
  }

  lemma ZeroLength(w: Bytes, k: nat)
    requires 12 <= |w| && 0 < k && (Zeros(k) + w)[..12] == w[..12]
    ensures FromSigned(w[8..12]) == 0
  {
    forall i | 0 <= i < 4
      ensures w[8..12][i] == 0
    {
      ZeroFromBelow(w, k, 8 + i);
    }
    ZeroSigned(w[8..12]);
  }

  /** Nor does it fall back to one, started past it. */
  lemma {:induction false} ReadPast(batches: seq<Batch>, s: nat)
    requires AreBatches(batches) && 0 < s <= |WireBatches(batches)|
    ensures ReadBatches(WireBatches(batches)[s..]) != Ok(batches)
    decreases |batches|
  {
    var w := WireBatches(batches);
    var t := w[s..];
    if ReadBatches(t) == Ok(batches) {
      var b, others := batches[0], WireBatches(batches[1..]);
      ReadsCons(t, batches);
      ReadBatchExactly(t, b);
      if s + b.batchLength > |b.body| {
        SlicedPast(b, others, s);
        ReadPast(batches[1..], s + b.batchLength - |b.body|);
      } else {
        PastInHusk(b, others, s);
      }
    }
  }

  lemma SlicedPast(b: Batch, others: Bytes, s: nat)
    requires IsBatch(b) && 0 <= b.batchLength && |b.body| < s + b.batchLength <= |b.body| + |others|
    ensures (WireBatch(b) + others)[s..][12 + b.batchLength..] == others[s + b.batchLength - |b.body|..]
  {
  }

  /** Inside an emptied batch there is nothing but zeros, which are no length. */
  lemma {:induction false} PastInHusk(b: Batch, others: Bytes, s: nat)
    requires IsBatch(b) && 0 < s && 5 <= b.batchLength && s + b.batchLength <= |b.body|
    ensures var t := (WireBatch(b) + others)[s..]; !(ReadBatch(t).Ok? && ReadBatch(t).value.value == b)
  {
    var w := WireBatch(b) + others;
    var t := w[s..];
    if ReadBatch(t).Ok? && ReadBatch(t).value.value == b {
      ReadBatchExactly(t, b);
      BatchBytes(b, others);
      SignedInjective(t[8..12], w[8..12]);
      forall j | 12 <= j < 61
        ensures w[j] == 0
      {
        assert w[s + 16] == t[16] && w[s + 16] == b.body[s + 4];
        assert w[j] == w[12..12 + |b.body|][j - 12];
      }
      forall j | 8 <= j < 12
        ensures w[j] == w[j + s]
      {
        assert w[j] == w[8..12][j - 8] && t[j] == t[8..12][j - 8];
      }
      forall i | 0 <= i < 4
        ensures w[8..12][i] == 0
      {
        ZeroFromAbove(w, s, 8 + i);
      }
      ZeroSigned(w[8..12]);
    }
  }
}
