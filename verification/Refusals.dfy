/**
 What the decoder makes of bytes that the encoder need not have written: which
 lengths, presence bytes and tag buffers it takes, as what, and with what it
 refuses the others. Lengths are spelled out as bytes.
 */
module Refusals {
  import opened Base
  import opened Schema
  import opened Types
  import opened Grammar
  import opened RoundTrip
  import Utf8
  import Varint

  function Number2(a: byte, b: byte): (r: nat) {
    a * 0x100 + b
  }

  function Number4(a: byte, b: byte, c: byte, d: byte): (r: nat) {
    a * 0x100_0000 + b * 0x1_0000 + c * 0x100 + d
  }

  lemma Reads2(a: byte, b: byte)
    ensures FromBigEndian([a, b]) == Number2(a, b)
    ensures FromSigned([a, b]) == if a < 128 then Number2(a, b) else Number2(a, b) - 0x1_0000
  {
    Pow256Values();
    assert [a, b][..1] == [a] && [a][..0] == [];
    assert FromBigEndian([a]) == a;
  }

  lemma Reads4(a: byte, b: byte, c: byte, d: byte)
    ensures FromBigEndian([a, b, c, d]) == Number4(a, b, c, d)
    ensures FromSigned([a, b, c, d])
            == if a < 128 then Number4(a, b, c, d) else Number4(a, b, c, d) - 0x1_0000_0000
  {
    Pow256Values();
    Reads2(a, b);
    assert [a, b, c, d][..3] == [a, b, c] && [a, b, c][..2] == [a, b];
    assert FromBigEndian([a, b, c]) == Number2(a, b) * 256 + c;
  }

  /** A short length: of a string it may not be negative, and of a nullable one it may be minus one. */
  lemma ShortLength(a: byte, b: byte, rest: Bytes)
    ensures var input, n := [a, b] + rest, Number2(a, b);
            && ReadStringLength(false, input) == (if a < 128 then Ok(Parsed(n, rest)) else Err(TryFromInt))
            && ReadNullableLength(false, 2, input)
               == if a < 128 then Ok(Parsed(Some(n), rest))
                  else if [a, b] == [255, 255] then Ok(Parsed(None, rest))
                  else Err(TryFromInt)
  {
    TakeFront([a, b], rest);
    Reads2(a, b);
  }

  /** A long one: of a sequence likewise; of bytes or records it is never negative. */
  lemma LongLength(a: byte, b: byte, c: byte, d: byte, rest: Bytes)
    ensures var input, n := [a, b, c, d] + rest, Number4(a, b, c, d);
            && ReadBytesLength(false, input) == Ok(Parsed(n, rest))
            && ReadNullableLength(false, 4, input)
               == if a < 128 then Ok(Parsed(Some(n), rest))
                  else if [a, b, c, d] == [255, 255, 255, 255] then Ok(Parsed(None, rest))
                  else Err(TryFromInt)
  {
    TakeFront([a, b, c, d], rest);
    Reads4(a, b, c, d);
  }

  /** A compact one is one less than the number there, and zero is null, which only what is nullable may be. */
  lemma CompactLength(input: Bytes)
    ensures match Varint.Read(input)
            case Err(e) =>
              && ReadStringLength(true, input) == Err(e) && ReadBytesLength(true, input) == Err(e)
              && forall width :: ReadNullableLength(true, width, input) == Err(e)
            case Ok(p) =>
              if p.value == 0 then
                && ReadStringLength(true, input) == Err(Overflow) && ReadBytesLength(true, input) == Err(Overflow)
                && forall width :: ReadNullableLength(true, width, input) == Ok(Parsed(None, p.rest))
              else
                var length := p.value - 1;
                && ReadStringLength(true, input) == Ok(Parsed(length, p.rest))
                && ReadBytesLength(true, input) == Ok(Parsed(length, p.rest))
                && forall width :: ReadNullableLength(true, width, input) == Ok(Parsed(Some(length), p.rest))
  {
  }

  /** What follows a length: refused over a gibibyte, then if it is not all there, and then if it is no string. */
  lemma TextAfterLength(length: nat, input: Bytes)
    ensures ReadText(length, input)
            == if length > 0x4000_0000 then Err(MessageMaxSizeExceeded(length))
               else if length > |input| then Err(Io)
               else if !Utf8.IsValid(input[..length]) then Err(NotUtf8)
               else Ok(Parsed(VString(input[..length]), input[length..]))
  {
  }

  /** A nullable structure is absent exactly if the byte in front of it has its top bit set. */
  lemma PresenceByte(c: Ctx, common: set<string>, parent: Option<VersionRange>, fm: FieldMeta, b: byte, rest: Bytes)
    requires ShapedField(fm) && fm.version.Within(c.version) && fm.IsNullable(c.version)
    requires fm.kind.Named?
    ensures ParseField(c, common, parent, fm, [b] + rest)
            == if b >= 128 then Ok(Parsed(VNone, rest))
               else match ParseBase(c, common, fm, rest)
                 case Ok(p) => Ok(Parsed(VSome(p.value), p.rest))
                 case Err(e) => Err(e)
  {
    TakeFront([b], rest);
  }

  /** More than 128 tags are refused before any is read, and a tag of more than 128 bytes before its payload is. */
  lemma TagLimits(input: Bytes)
    ensures Varint.Read(input).Ok? && Varint.Read(input).value.value > 128 ==>
              ReadTags(input) == Err(TooManyTags(Varint.Read(input).value.value))
    ensures Varint.Read(input).Ok? ==>
              var length := Varint.Read(Varint.Read(input).value.rest);
              length.Ok? && length.value.value > 128 ==> ReadTag(input) == Err(TooManyTags(length.value.value))
  {
  }
}
