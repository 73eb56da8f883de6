/**
 Bytes, results and the fixed-width big-endian numbers of the Kafka protocol.
 */
module Base {

  type byte = x: int | 0 <= x < 256

  type Bytes = seq<byte>

  datatype Option<+T> = None | Some(value: T)

  /** The errors the codec can answer with, and the ways it can panic. */
  datatype Error =
    | Io                               // the reader ran out of bytes
    | TryGet                           // a records field ran out of bytes
    | Overflow
    | TryFromInt
    | MessageMaxSizeExceeded(length: nat)
    | OmittedNonNullableField(version: int)
    | StringWithoutLength
    | TooManyTags(count: nat)          // the "maximum tagged fields exceeded" refusal
    | UnknownContainer
    | UnexpectedType
    | NotUtf8                          // a string that is not one
    | CapacityOverflow                 // a buffer of more bytes than there can be: a panic
    | OutOfRange                       // an index past the end of a buffer: a panic
    | BadBatch                         // bytes that are not a record batch
    | Endless                          // a sequence that neither ends nor consumes: the call does not return
    | UnsupportedSubscription(version: int)
    | UnknownAssignor

  datatype Result<+T> = Ok(value: T) | Err(error: Error) {
    predicate IsFailure() {
      Err?
    }

    function PropagateFailure<U>(): Result<U>
      requires Err?
    {
      Err(error)
    }

    function Extract(): T
      requires Ok?
    {
      value
    }
  }

  /** A value read from the front of some input, and the input that is left. */
  datatype Parsed<+T> = Parsed(value: T, rest: Bytes)

  const U32_LIMIT := 0x1_0000_0000

  // ---------------------------------------------------------------------
  // Big-endian numbers

  function Pow256(width: nat): (r: nat)
    ensures r >= 1
  {
    if width == 0 then 1 else 256 * Pow256(width - 1)
  }

  lemma Pow256Values()
    ensures Pow256(1) == 0x100
    ensures Pow256(2) == 0x1_0000
    ensures Pow256(4) == 0x1_0000_0000
    ensures Pow256(8) == 0x1_0000_0000_0000_0000
  {
    assert Pow256(3) == 0x100_0000;
    assert Pow256(5) == 0x100_0000_0000;
    assert Pow256(6) == 0x1_0000_0000_0000;
    assert Pow256(7) == 0x100_0000_0000_0000;
  }

  /** The low `width` bytes of `n`, most significant first. */
  function BigEndian(n: nat, width: nat): (b: Bytes)
    ensures |b| == width
  {
    if width == 0 then [] else BigEndian(n / 256, width - 1) + [n % 256]
  }

  function FromBigEndian(b: Bytes): (n: nat) {
    if b == [] then 0 else FromBigEndian(b[..|b| - 1]) * 256 + b[|b| - 1]
  }

  lemma {:induction false} BigEndianRoundTrip(n: nat, width: nat)
    requires n < Pow256(width)
    ensures FromBigEndian(BigEndian(n, width)) == n
  {
    if width > 0 {
      var b := BigEndian(n, width);
      assert b[..|b| - 1] == BigEndian(n / 256, width - 1);
      BigEndianRoundTrip(n / 256, width - 1);
    }
  }

  lemma {:induction false} FromBigEndianBound(b: Bytes)
    ensures FromBigEndian(b) < Pow256(|b|)
  {
    if b != [] {
      FromBigEndianBound(b[..|b| - 1]);
    }
  }

  /** Two's complement: how a signed number is put on the wire, and read back. */
  function ToUnsigned(n: int, width: nat): (r: int) {
    if n < 0 then n + Pow256(width) else n
  }

  function ToSigned(n: int, width: nat): (r: int) {
    if 2 * n < Pow256(width) then n else n - Pow256(width)
  }

  predicate FitsSigned(n: int, width: nat) {
    0 <= 2 * n + Pow256(width) && 2 * n < Pow256(width)
  }

  function Signed(n: int, width: nat): (b: Bytes)
    requires FitsSigned(n, width)
  {
    BigEndian(ToUnsigned(n, width), width)
  }

  function FromSigned(b: Bytes): (n: int) {
    ToSigned(FromBigEndian(b), |b|)
  }

  lemma SignedRoundTrip(n: int, width: nat)
    requires FitsSigned(n, width)
    ensures FromSigned(Signed(n, width)) == n
  {
    BigEndianRoundTrip(ToUnsigned(n, width), width);
  }

  lemma {:induction false} BigEndianInverse(b: Bytes)
    ensures BigEndian(FromBigEndian(b), |b|) == b
  {
    if b != [] {
      BigEndianInverse(b[..|b| - 1]);
    }
  }

  /** Different bytes are different numbers. */
  lemma SignedInjective(a: Bytes, b: Bytes)
    requires |a| == |b| && FromSigned(a) == FromSigned(b)
    ensures a == b
  {
    FromBigEndianBound(a);
    FromBigEndianBound(b);
    BigEndianInverse(a);
    BigEndianInverse(b);
  }

  /** Which byte is where: the most significant first. */
  lemma {:induction false} BigEndianAt(n: nat, width: nat, i: nat)
    requires i < width
    ensures BigEndian(n, width)[i] == n / Pow256(width - 1 - i) % 256
  {
    if i < width - 1 {
      BigEndianAt(n / 256, width - 1, i);
      DivideTwice(n, 256, Pow256(width - 2 - i));
    }
  }

  lemma DivideTwice(n: int, a: int, b: int)
    requires a > 0 && b > 0
    ensures a * b > 0 && n / a / b == n / (a * b)
  {
    var q := n / a;
    var p, t := q / b, q % b;
    Regroup(p, b, t, a);
    Within(t, b, n % a, a);
    Quotient(n, a * b, p, t * a + n % a);
  }

  lemma Regroup(p: int, b: int, t: int, a: int)
    ensures (p * b + t) * a == p * (a * b) + t * a
  {
    assert (p * b + t) * a == p * b * a + t * a;
    assert p * b * a == p * (a * b);
  }

  lemma Within(t: int, b: int, r: int, a: int)
    requires 0 <= t < b && 0 <= r < a
    ensures 0 <= t * a + r < a * b
  {
    assert t * a <= (b - 1) * a;
    assert (b - 1) * a == a * b - a;
  }

  lemma Quotient(n: int, m: int, q: int, r: int)
    requires m > 0 && n == q * m + r && 0 <= r < m
    ensures n / m == q && n % m == r
  {
    var k := n / m - q;
    assert n / m * m == q * m + k * m;
    SmallMultiple(k, m);
  }

  lemma SmallMultiple(k: int, m: int)
    requires -m < k * m < m
    ensures k == 0
  {
  }

  lemma AddMultiple(n: int, k: int, m: int)
    requires m > 0
    ensures (n + k * m) / m == n / m + k && (n + k * m) % m == n % m
  {
    assert (n / m + k) * m == n / m * m + k * m;
    Quotient(n + k * m, m, n / m + k, n % m);
  }

  lemma {:induction false} Pow256Splits(a: nat, b: nat)
    ensures Pow256(a + b) == Pow256(a) * Pow256(b)
  {
    if a > 0 {
      Pow256Splits(a - 1, b);
      assert 256 * (Pow256(a - 1) * Pow256(b)) == 256 * Pow256(a - 1) * Pow256(b);
    }
  }

  /** A negative number has the bytes of its two's complement: those of division towards minus infinity. */
  lemma SignedAt(n: int, width: nat, i: nat)
    requires i < width && FitsSigned(n, width)
    ensures Signed(n, width)[i] == n / Pow256(width - 1 - i) % 256
  {
    BigEndianAt(ToUnsigned(n, width), width, i);
    if n < 0 {
      Pow256Splits(i + 1, width - 1 - i);
      AddedBytes(n, Pow256(width - 1 - i), Pow256(i));
    }
  }

  lemma AddedBytes(n: int, m: int, k: int)
    requires m > 0
    ensures (n + (256 * k) * m) / m % 256 == n / m % 256
  {
    AddMultiple(n, 256 * k, m);
    AddMultiple(n / m, k, 256);
  }

  /** Every string of bytes is the number that is read from it, written. */
  lemma SignedInverse(b: Bytes)
    requires b != []
    ensures FitsSigned(FromSigned(b), |b|) && Signed(FromSigned(b), |b|) == b
  {
    FromBigEndianBound(b);
    BigEndianInverse(b);
    assert Pow256(|b|) == 256 * Pow256(|b| - 1);
  }

  // ---------------------------------------------------------------------
  // Reading

  /** `read_exact`: exactly `n` bytes, or the end of the input. */
  function Take(input: Bytes, n: nat): (r: Result<Parsed<Bytes>>) {
    if |input| < n then Err(Io) else Ok(Parsed(input[..n], input[n..]))
  }

  /** What is read when `more` follows the input. */
  function Extended<T>(r: Result<Parsed<T>>, more: Bytes): (e: Result<Parsed<T>>) {
    if r.Ok? then Ok(Parsed(r.value.value, r.value.rest + more)) else r
  }

  lemma TakeExtends(input: Bytes, n: nat, more: Bytes)
    requires Take(input, n).Ok?
    ensures Take(input + more, n) == Extended(Take(input, n), more)
  {
    assert (input + more)[..n] == input[..n];
    assert (input + more)[n..] == input[n..] + more;
  }
}
