/**
 Which byte strings are strings: the well-formed sequences of table 3-7 of the
 Unicode Standard, which are the encodings of sequences of scalar values.
 */
module Utf8 {
  import opened Base

  predicate IsContinuation(b: byte) {
    0x80 <= b < 0xC0
  }

  /** The second byte that a first byte of a longer sequence allows. */
  predicate IsSecond(first: byte, b: byte) {
    if first == 0xE0 then 0xA0 <= b < 0xC0
    else if first == 0xED then 0x80 <= b < 0xA0
    else if first == 0xF0 then 0x90 <= b < 0xC0
    else if first == 0xF4 then 0x80 <= b < 0x90
    else IsContinuation(b)
  }

  /** How many bytes a character takes, by the first of them; none if nothing starts with it. */
  function Width(first: byte): (n: nat) {
    if first < 0x80 then 1
    else if first < 0xC2 then 0
    else if first < 0xE0 then 2
    else if first < 0xF0 then 3
    else if first < 0xF5 then 4
    else 0
  }

  /** A character in front. */
  predicate StartsValid(s: Bytes)
    requires s != []
  {
    var n := Width(s[0]);
    && 0 < n <= |s|
    && (n >= 2 ==> IsSecond(s[0], s[1]))
    && (n >= 3 ==> IsContinuation(s[2]))
    && (n == 4 ==> IsContinuation(s[3]))
  }

  predicate IsValid(s: Bytes)
    decreases |s|
  {
    s != [] ==> StartsValid(s) && IsValid(s[Width(s[0])..])
  }

  // ---------------------------------------------------------------------
  // Scalar values

  predicate IsScalar(n: nat) {
    n < 0xD800 || 0xE000 <= n < 0x11_0000
  }

  function Encode(n: nat): (r: Bytes)
    requires IsScalar(n)
  {
    if n < 0x80 then [n]
    else if n < 0x800 then [0xC0 + n / 64, 0x80 + n % 64]
    else if n < 0x1_0000 then [0xE0 + n / 64 / 64, 0x80 + n / 64 % 64, 0x80 + n % 64]
    else [0xF0 + n / 64 / 64 / 64, 0x80 + n / 64 / 64 % 64, 0x80 + n / 64 % 64, 0x80 + n % 64]
  }

  /** Six more bits. */
  function Append(n: nat, b: byte): (r: nat)
    requires IsContinuation(b)
    ensures r / 64 == n && r % 64 == b - 0x80
  {
    n * 64 + (b - 0x80)
  }

  function Decode(s: Bytes): (n: nat)
    requires s != [] && StartsValid(s)
  {
    match Width(s[0])
    case 1 => s[0]
    case 2 => Append(s[0] - 0xC0, s[1])
    case 3 => Append(Append(s[0] - 0xE0, s[1]), s[2])
    case _ => Append(Append(Append(s[0] - 0xF0, s[1]), s[2]), s[3])
  }

  predicate AreScalars(scalars: seq<nat>) {
    forall i :: 0 <= i < |scalars| ==> IsScalar(scalars[i])
  }

  function EncodeAll(scalars: seq<nat>): (r: Bytes)
    requires AreScalars(scalars)
  {
    if scalars == [] then [] else Encode(scalars[0]) + EncodeAll(scalars[1..])
  }

  function DecodeAll(s: Bytes): (r: seq<nat>)
    requires IsValid(s)
    decreases |s|
  {
    if s == [] then [] else [Decode(s)] + DecodeAll(s[Width(s[0])..])
  }

  lemma EncodedStarts(n: nat, rest: Bytes)
    requires IsScalar(n)
    ensures var s := Encode(n) + rest;
            && StartsValid(s) && Width(s[0]) == |Encode(n)| && s[|Encode(n)|..] == rest && Decode(s) == n
  {
    var s := Encode(n) + rest;
    assert s[0] == Encode(n)[0] && s[|Encode(n)|..] == rest;
  }

  lemma StartsEncoded(s: Bytes)
    requires s != [] && StartsValid(s)
    ensures IsScalar(Decode(s)) && Encode(Decode(s)) == s[..Width(s[0])]
  {
  }

  /** Every encoding of scalar values is valid, and what it encodes is read off it. */
  lemma {:induction false} EncodedIsValid(scalars: seq<nat>)
    requires AreScalars(scalars)
    ensures IsValid(EncodeAll(scalars)) && DecodeAll(EncodeAll(scalars)) == scalars
  {
    if scalars != [] {
      EncodedIsValid(scalars[1..]);
      EncodedStarts(scalars[0], EncodeAll(scalars[1..]));
    }
  }

  lemma EncodeAllCons(s: Bytes, k: nat, n: nat, scalars: seq<nat>)
    requires k <= |s| && IsScalar(n) && AreScalars(scalars)
    requires Encode(n) == s[..k] && EncodeAll(scalars) == s[k..]
    ensures AreScalars([n] + scalars) && EncodeAll([n] + scalars) == s
  {
    assert ([n] + scalars)[1..] == scalars;
    assert s == s[..k] + s[k..];
  }

  lemma StartsThenEncoded(s: Bytes, scalars: seq<nat>)
    requires s != [] && StartsValid(s) && AreScalars(scalars) && EncodeAll(scalars) == s[Width(s[0])..]
    ensures AreScalars([Decode(s)] + scalars) && EncodeAll([Decode(s)] + scalars) == s
  {
    StartsEncoded(s);
    EncodeAllCons(s, Width(s[0]), Decode(s), scalars);
  }

  /** And whatever is valid is one. */
  lemma {:induction false} ValidIsEncoded(s: Bytes)
    requires IsValid(s)
    ensures AreScalars(DecodeAll(s)) && EncodeAll(DecodeAll(s)) == s
    decreases |s|
  {
    if s != [] {
      var rest := s[Width(s[0])..];
      ValidIsEncoded(rest);
      StartsThenEncoded(s, DecodeAll(rest));
    }
  }
}
