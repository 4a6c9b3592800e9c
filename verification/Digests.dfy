/** The one textual form of a digest (crates/ir/src/digest.rs), over ASCII text. */
module Digests {
  import opened Wrappers
  import opened Utf8
  import opened Hexadecimal

  const PREFIX := "sha256:"

  datatype DigestError = MissingPrefix | Length(length: nat) | NotLowercaseHex(found: string)

  /** A digest is 32 bytes. */
  predicate IsRaw(raw: seq<Byte>) {
    |raw| == 32
  }

  function Printed(raw: seq<Byte>): string {
    PREFIX + Hex(raw)
  }

  /** `Display`: the prefix, then each byte. */
  method Display(raw: seq<Byte>) returns (text: string)
    requires IsRaw(raw)
    ensures text == Printed(raw)
  {
    var hex := Print(raw);
    return PREFIX + hex;
  }

  /** The byte a pair denotes. The running value never leaves a byte. */
  method DecodePair(pair: string) returns (byte: Option<Byte>)
    requires |pair| == 2
    ensures byte.Some? ==> pair == OfByte(byte.value)
    ensures byte.None? ==> forall b: Byte :: pair != OfByte(b)
  {
    var value: Byte := 0;
    for i := 0 to 2
      invariant forall j :: 0 <= j < i ==> IsDigit(pair[j])
      invariant i == 0 ==> value == 0
      invariant i == 1 ==> value == Hexadecimal.Value(pair[0])
      invariant i == 2 ==> value == Hexadecimal.Value(pair[0]) * 16 + Hexadecimal.Value(pair[1])
    {
      var character := pair[i];
      var nibble;
      if '0' <= character <= '9' {
        nibble := character as int - '0' as int;
      } else if 'a' <= character <= 'f' {
        nibble := character as int - 'a' as int + 10;
      } else {
        return None;
      }
      value := value * 16 + nibble;
    }
    assert pair == [pair[0], pair[1]];
    return Some(value);
  }

  /**
   `FromStr`: accepts exactly the printed forms, and gives back what was printed. There is no second
   spelling of a digest.
   */
  method Parse(text: string) returns (parsed: Result<seq<Byte>, DigestError>)
    requires forall i :: 0 <= i < |text| ==> text[i] < 128 as char
    ensures parsed.Ok? ==> IsRaw(parsed.value) && text == Printed(parsed.value)
    ensures parsed.Err? ==> forall raw :: IsRaw(raw) ==> text != Printed(raw)
    ensures parsed == Err(MissingPrefix) <==> !(PREFIX <= text)
    ensures PREFIX <= text ==> (parsed == Err(Length(|text| - 7)) <==> |text| != 71)
  {
    if !(PREFIX <= text) {
      return Err(MissingPrefix);
    }
    var hex := text[|PREFIX|..];
    assert text == PREFIX + hex;
    if |hex| != 64 {
      return Err(Length(|hex|));
    }
    var raw := new Byte[32];
    for index := 0 to 32
      invariant forall i :: 0 <= i < index ==> hex[2 * i..2 * i + 2] == OfByte(raw[i])
    {
      var pair := hex[index * 2..index * 2 + 2];
      var byte := DecodePair(pair);
      if byte.None? {
        forall other | IsRaw(other)
          ensures text != Printed(other)
        {
          HexAt(other, index);
          assert Printed(other)[|PREFIX|..] == Hex(other);
        }
        return Err(NotLowercaseHex(pair));
      }
      raw[index] := byte.value;
    }
    IsHexOf(hex, raw[..]);
    return Ok(raw[..]);
  }

  /** Printing is injective: equal texts are equal digests. */
  lemma PrintedIsInjective(raw: seq<Byte>, other: seq<Byte>)
    requires IsRaw(raw) && IsRaw(other) && Printed(raw) == Printed(other)
    ensures raw == other
  {
    assert Printed(raw)[|PREFIX|..] == Hex(raw) && Printed(other)[|PREFIX|..] == Hex(other);
    forall i | 0 <= i < 32
      ensures raw[i] == other[i]
    {
      HexAt(raw, i);
      HexAt(other, i);
    }
  }
}
