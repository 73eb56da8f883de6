/**
 Unsigned variable-length integers: seven bits a byte, least significant first,
 the top bit set on every byte but the last. `v as u8 | 0x80` is the low seven
 bits with the top bit set, and `v >>= 7` is division by 128.
 */
module Varint {
  import opened Base

  const CONTINUATION := 128

  function Encode(v: nat): (b: Bytes)
    ensures |b| >= 1
    decreases v
  {
    if v < CONTINUATION then [v] else [v % 128 + CONTINUATION] + Encode(v / 128)
  }

  /** `v` shifted left by a multiple of seven bits below 32, before truncation. */
  function Scaled(v: nat, shift: nat): (r: nat)
    requires shift < 32 && shift % 7 == 0
  {
    if shift == 0 then v
    else if shift == 7 then v * 0x80
    else if shift == 14 then v * 0x4000
    else if shift == 21 then v * 0x20_0000
    else v * 0x1000_0000
  }

  /** `u32::checked_shl`: refused at 32 and over, otherwise the bits that fit. */
  function CheckedShl(x: nat, shift: nat): (r: Option<nat>)
    requires shift % 7 == 0
  {
    if shift >= 32 then None else Some(Scaled(x, shift) % U32_LIMIT)
  }

  function CheckedAdd(x: nat, y: nat): (r: Option<nat>) {
    if x + y < U32_LIMIT then Some(x + y) else None
  }

  /** One byte folded into the accumulator, or an overflow. */
  function Accumulate(accumulator: nat, b: byte, shift: nat): (r: Result<nat>)
    requires shift % 7 == 0
  {
    match CheckedShl(b % 128, shift)
    case None => Err(Overflow)
    case Some(intermediate) =>
      match CheckedAdd(accumulator, intermediate)
      case None => Err(Overflow)
      case Some(sum) => Ok(sum)
  }

  function ReadFrom(input: Bytes, shift: nat, accumulator: nat): (r: Result<Parsed<nat>>)
    requires shift % 7 == 0
    decreases |input|
  {
    if input == [] then Err(Io)
    else
      var sum :- Accumulate(accumulator, input[0], shift);
      if input[0] >= CONTINUATION then ReadFrom(input[1..], shift + 7, sum)
      else Ok(Parsed(sum, input[1..]))
  }

  /** What the decoder makes of the front of `input`. */
  function Read(input: Bytes): (r: Result<Parsed<nat>>) {
    ReadFrom(input, 0, 0)
  }

  // ---------------------------------------------------------------------
  // The decoder undoes the encoder

  /** A shift and an accumulator the decoder can hold before it overflows. */
  predicate InRange(shift: nat, accumulator: nat) {
    shift < 32 && shift % 7 == 0 && accumulator < Scaled(1, shift)
  }

  /**
   In range, the checked addition never fails; at shift 28 the high three bits
   of the byte are dropped, and the next byte is out of range.
   */
  lemma AccumulateInRange(accumulator: nat, b: byte, shift: nat)
    requires InRange(shift, accumulator)
    ensures Accumulate(accumulator, b, shift).Ok?
    ensures var sum := Accumulate(accumulator, b, shift).value;
            && sum < U32_LIMIT
            && sum == accumulator + Scaled(if shift == 28 then b % 16 else b % 128, shift)
            && (shift < 28 ==> InRange(shift + 7, sum))
  {
    ScaledInRange(b % 128, shift);
    LowBits(b);
  }

  lemma LowBits(b: byte)
    ensures b % 128 % 16 == b % 16
  {
  }

  /** What is left of seven bits in a `u32`, and what that leaves above it. */
  lemma ScaledInRange(x: nat, shift: nat)
    requires x < 128 && shift < 32 && shift % 7 == 0
    ensures Scaled(x, shift) % U32_LIMIT == Scaled(if shift == 28 then x % 16 else x, shift)
    ensures shift == 28 ==> Scaled(x % 16, shift) + Scaled(1, shift) <= U32_LIMIT
    ensures shift < 28 ==> Scaled(x, shift) + Scaled(1, shift) <= Scaled(1, shift + 7)
  {
    if shift == 28 {
      DropHighBits(x);
    }
  }

  lemma DropHighBits(x: nat)
    ensures (x * 0x1000_0000) % U32_LIMIT == (x % 16) * 0x1000_0000
  {
    var q, r := x / 16, x % 16;
    assert x * 0x1000_0000 == q * U32_LIMIT + r * 0x1000_0000;
  }

  lemma {:induction false} ReadFromEncode(v: nat, shift: nat, accumulator: nat, rest: Bytes)
    requires InRange(shift, accumulator) && accumulator + Scaled(v, shift) < U32_LIMIT
    ensures ReadFrom(Encode(v) + rest, shift, accumulator) == Ok(Parsed(accumulator + Scaled(v, shift), rest))
    decreases v
  {
    var input := Encode(v) + rest;
    FirstByte(v, shift, accumulator);
    if v < CONTINUATION {
      assert input[1..] == rest;
    } else {
      assert input[1..] == Encode(v / 128) + rest;
      ReadFromEncode(v / 128, shift + 7, accumulator + Scaled(v % 128, shift), rest);
    }
  }

  /** The low seven bits and the others, each in its place. */
  lemma ScaledSplits(v: nat, shift: nat)
    requires shift < 28 && shift % 7 == 0
    ensures Scaled(v, shift) == Scaled(v % 128, shift) + Scaled(v / 128, shift + 7)
  {
    var q, r := v / 128, v % 128;
    assert v == 128 * q + r;
    if shift == 0 {
    } else if shift == 7 {
      assert v * 0x80 == q * 0x4000 + r * 0x80;
    } else if shift == 14 {
      assert v * 0x4000 == q * 0x20_0000 + r * 0x4000;
    } else {
      assert v * 0x20_0000 == q * 0x1000_0000 + r * 0x20_0000;
    }
  }

  lemma EncodedByte(v: nat)
    ensures Encode(v)[0] == if v < 128 then v else v % 128 + 128
    ensures Encode(v)[0] % 128 == v % 128
  {
  }

  /** One step of the encoder against one step of the decoder. */
  lemma FirstByte(v: nat, shift: nat, accumulator: nat)
    requires InRange(shift, accumulator) && accumulator + Scaled(v, shift) < U32_LIMIT
    ensures Accumulate(accumulator, Encode(v)[0], shift) == Ok(accumulator + Scaled(v % 128, shift))
    ensures v >= 128 ==> shift < 28 && InRange(shift + 7, accumulator + Scaled(v % 128, shift))
    ensures v >= 128 ==> Scaled(v, shift) == Scaled(v % 128, shift) + Scaled(v / 128, shift + 7)
  {
    EncodedByte(v);
    AccumulateInRange(accumulator, Encode(v)[0], shift);
    if shift == 28 {
      assert v < 16;
    } else {
      ScaledSplits(v, shift);
    }
  }

  /** Decoding undoes encoding, for every `u32` and whatever follows it. */
  lemma RoundTrip(v: nat, rest: Bytes)
    requires v < U32_LIMIT
    ensures Read(Encode(v) + rest) == Ok(Parsed(v, rest))
  {
    ReadFromEncode(v, 0, 0, rest);
  }

  // ---------------------------------------------------------------------
  // How long an encoding is

  function LengthOf(v: nat): (r: nat) {
    if v < 0x80 then 1 else if v < 0x4000 then 2 else if v < 0x20_0000 then 3 else if v < 0x1000_0000 then 4 else 5
  }

  /** The length of an encoding, read off the value. */
  lemma EncodedLength(v: nat)
    requires v < U32_LIMIT
    ensures |Encode(v)| == LengthOf(v)
  {
    var v1 := v / 128;
    var v2 := v1 / 128;
    var v3 := v2 / 128;
    var v4 := v3 / 128;
    assert v4 < 128;
    assert |Encode(v4)| == 1;
    assert |Encode(v3)| == if v3 < 128 then 1 else 2;
    assert |Encode(v2)| == if v2 < 128 then 1 else 1 + |Encode(v3)|;
    assert |Encode(v1)| == if v1 < 128 then 1 else 1 + |Encode(v2)|;
  }

  function Pow128(n: nat): (r: nat)
    ensures r >= 1
  {
    if n == 0 then 1 else 128 * Pow128(n - 1)
  }

  /** Which bits are in which byte: the least significant seven first, and a mark on all but the last. */
  lemma {:induction false} EncodedAt(v: nat, i: nat)
    requires i < |Encode(v)|
    ensures Encode(v)[i] == v / Pow128(i) % 128 + if i + 1 < |Encode(v)| then 128 else 0
    decreases i
  {
    if i > 0 {
      EncodedAt(v / 128, i - 1);
      DivideTwice(v, 128, Pow128(i - 1));
    }
  }

  /** Every stream: how much of it is consumed, and how large the answer can be. */
  lemma {:induction false} ReadFromBounds(input: Bytes, shift: nat, accumulator: nat)
    requires InRange(shift, accumulator)
    ensures match ReadFrom(input, shift, accumulator)
            case Ok(p) =>
              var k := |input| - |p.rest|;
              && 0 < k && shift + 7 * k <= 35 && p.rest == input[k..]
              && p.value < U32_LIMIT && (shift + 7 * k < 32 ==> p.value < Scaled(1, shift + 7 * k))
            case Err(e) => e == Io || e == Overflow
    decreases |input|
  {
    if input != [] {
      AccumulateInRange(accumulator, input[0], shift);
      if input[0] >= CONTINUATION && shift < 28 {
        ReadFromBounds(input[1..], shift + 7, Accumulate(accumulator, input[0], shift).value);
      }
    }
  }

  /**
   Minimality: no byte string that decodes to `v` is shorter than the encoding
   of `v`, which is itself at most five bytes for a `u32`.
   */
  lemma Minimal(b: Bytes, v: nat)
    requires Read(b) == Ok(Parsed(v, []))
    ensures |Encode(v)| <= |b| <= 5
  {
    ReadFromBounds(b, 0, 0);
    EncodedLength(v);
  }

  predicate AllContinue(b: Bytes) {
    forall i :: 0 <= i < |b| ==> b[i] >= CONTINUATION
  }

  lemma {:induction false} OverflowFrom(input: Bytes, shift: nat, accumulator: nat, k: nat)
    requires InRange(shift, accumulator) && shift + 7 * k == 35
    ensures ReadFrom(input, shift, accumulator) == Err(Overflow) <==> |input| > k && AllContinue(input[..k])
    decreases k
  {
    if input != [] {
      AccumulateInRange(accumulator, input[0], shift);
      var sum := Accumulate(accumulator, input[0], shift).value;
      AllContinueCons(input, k);
      if input[0] >= CONTINUATION && shift < 28 {
        OverflowFrom(input[1..], shift + 7, sum, k - 1);
      } else if input[0] >= CONTINUATION {
        SixthByte(input[1..], sum);
      }
    }
  }

  lemma AllContinueCons(input: Bytes, k: nat)
    requires input != [] && k > 0
    ensures |input| > k && AllContinue(input[..k])
            <==> input[0] >= CONTINUATION && |input[1..]| > k - 1 && AllContinue(input[1..][..k - 1])
  {
    if |input| > k {
      assert input[..k] == [input[0]] + input[1..][..k - 1];
    }
  }

  /** The sixth byte, if there is one, is out of range. */
  lemma SixthByte(input: Bytes, accumulator: nat)
    ensures ReadFrom(input, 35, accumulator) == Err(Overflow) <==> input != []
  {
    if input != [] {
      assert Accumulate(accumulator, input[0], 35) == Err(Overflow);
    }
  }

  /**
   An overflow is reported exactly when five continuation bytes are followed by
   a sixth byte, whatever that byte is.
   */
  lemma OverflowExactly(input: Bytes)
    ensures Read(input) == Err(Overflow) <==> |input| > 5 && AllContinue(input[..5])
  {
    OverflowFrom(input, 0, 0, 5);
  }

  lemma {:induction false} ReadFromSixBytes(input: Bytes, more: Bytes, shift: nat, accumulator: nat)
    requires InRange(shift, accumulator) && 7 * |input| >= 42 - shift
    ensures ReadFrom(input + more, shift, accumulator) == Extended(ReadFrom(input, shift, accumulator), more)
    decreases |input|
  {
    AccumulateInRange(accumulator, input[0], shift);
    assert (input + more)[1..] == input[1..] + more;
    if input[0] >= CONTINUATION && shift < 28 {
      ReadFromSixBytes(input[1..], more, shift + 7, Accumulate(accumulator, input[0], shift).value);
    }
  }

  /** Nothing past the sixth byte of a stream is looked at. */
  lemma AtMostSixBytesRead(input: Bytes, more: Bytes)
    requires |input| >= 6
    ensures Read(input + more) == Extended(Read(input), more)
  {
    ReadFromSixBytes(input, more, 0, 0);
  }

  /** Reading is unaffected by what follows the bytes it consumed. */
  lemma {:induction false} ReadFromExtends(input: Bytes, more: Bytes, shift: nat, accumulator: nat)
    requires shift % 7 == 0 && ReadFrom(input, shift, accumulator).Ok?
    ensures ReadFrom(input + more, shift, accumulator) == Extended(ReadFrom(input, shift, accumulator), more)
    decreases |input|
  {
    assert (input + more)[1..] == input[1..] + more;
    if input[0] >= CONTINUATION {
      ReadFromExtends(input[1..], more, shift + 7, Accumulate(accumulator, input[0], shift).value);
    }
  }
}
