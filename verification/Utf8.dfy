/**
 UTF-8 as section 3 of RFC 3629 defines it, and the longest prefix of whole characters within a byte
 limit (`truncate_utf8` in crates/application/src/execution.rs).
 */
module Utf8 {
  type Byte = b: int | 0 <= b < 256

  type Scalar = c: int | 0 <= c < 0xD800 || 0xE000 <= c < 0x11_0000

  predicate IsContinuation(b: Byte) {
    0x80 <= b < 0xC0
  }

  function EncodeScalar(c: Scalar): (bytes: seq<Byte>)
    ensures 1 <= |bytes| <= 4
    ensures !IsContinuation(bytes[0])
    ensures forall i :: 1 <= i < |bytes| ==> IsContinuation(bytes[i])
  {
    if c < 0x80 then [c]
    else if c < 0x800 then [0xC0 + c / 0x40, 0x80 + c % 0x40]
    else if c < 0x1_0000 then [0xE0 + c / 0x1000, 0x80 + c / 0x40 % 0x40, 0x80 + c % 0x40]
    else [0xF0 + c / 0x4_0000, 0x80 + c / 0x1000 % 0x40, 0x80 + c / 0x40 % 0x40, 0x80 + c % 0x40]
  }

  /** The code point an encoded character stands for. */
  function DecodeScalar(bytes: seq<Byte>): int
    requires 1 <= |bytes| <= 4
  {
    var first: int := bytes[0];
    match |bytes|
    case 1 => first
    case 2 => (first - 0xC0) * 0x40 + Payload(bytes[1])
    case 3 => (first - 0xE0) * 0x1000 + Payload(bytes[1]) * 0x40 + Payload(bytes[2])
    case 4 => (first - 0xF0) * 0x4_0000 + Payload(bytes[1]) * 0x1000 + Payload(bytes[2]) * 0x40 + Payload(bytes[3])
  }

  /** The six bits a continuation byte carries. */
  function Payload(b: Byte): int {
    b as int - 0x80
  }

  /** A number in digits of six bits. */
  lemma SixBits(c: nat)
    ensures c == c / 0x40 * 0x40 + c % 0x40
    ensures c / 0x40 == c / 0x1000 * 0x40 + c / 0x40 % 0x40
    ensures c / 0x1000 == c / 0x4_0000 * 0x40 + c / 0x1000 % 0x40
  {
  }

  lemma DecodeUndoesEncode(c: Scalar)
    ensures DecodeScalar(EncodeScalar(c)) == c
  {
    SixBits(c);
  }

  function Encode(text: seq<Scalar>): seq<Byte> {
    if text == [] then [] else EncodeScalar(text[0]) + Encode(text[1..])
  }

  /** A byte position that no character straddles. */
  predicate IsBoundary(bytes: seq<Byte>, i: nat) {
    i == |bytes| || (i < |bytes| && !IsContinuation(bytes[i]))
  }

  /** How many whole characters fit into a number of bytes. */
  function Fitting(text: seq<Scalar>, limit: nat): (k: nat)
    ensures k <= |text|
  {
    if text == [] || |EncodeScalar(text[0])| > limit then 0
    else 1 + Fitting(text[1..], limit - |EncodeScalar(text[0])|)
  }

  /** Those characters fit, one more does not, and they come within three bytes of the limit. */
  lemma {:induction false} FittingIsLongest(text: seq<Scalar>, limit: nat)
    ensures var k := Fitting(text, limit);
            && |Encode(text[..k])| <= limit
            && (k < |text| ==> |Encode(text[..k + 1])| > limit && limit - |Encode(text[..k])| <= 3)
            && (k == |text| <==> |Encode(text)| <= limit)
  {
    var k := Fitting(text, limit);
    if k > 0 {
      var rest := limit - |EncodeScalar(text[0])|;
      FittingIsLongest(text[1..], rest);
      assert text[..k][1..] == text[1..][..k - 1] && text[..k][0] == text[0];
      if k < |text| {
        assert text[..k + 1][1..] == text[1..][..k] && text[..k + 1][0] == text[0];
      }
    } else if text != [] {
      assert text[..1][0] == text[0] && text[..1][1..] == [];
    }
  }

  /** No boundary lies between the last fitting character and the limit. */
  lemma {:induction false} NoBoundaryBetween(text: seq<Scalar>, limit: nat, i: nat)
    requires |Encode(text[..Fitting(text, limit)])| < i <= limit < |Encode(text)|
    ensures !IsBoundary(Encode(text), i)
  {
    var first := EncodeScalar(text[0]);
    var k := Fitting(text, limit);
    if k > 0 {
      assert text[..k][1..] == text[1..][..k - 1] && text[..k][0] == text[0];
      NoBoundaryBetween(text[1..], limit - |first|, i - |first|);
      assert Encode(text)[i] == Encode(text[1..])[i - |first|];
    }
  }

  /** Where a whole number of characters ends is a boundary, and cutting there keeps exactly them. */
  lemma {:induction false} CutKeepsCharacters(text: seq<Scalar>, k: nat)
    requires k <= |text|
    ensures var cut := |Encode(text[..k])|;
            cut <= |Encode(text)| && IsBoundary(Encode(text), cut) && Encode(text)[..cut] == Encode(text[..k])
  {
    if k > 0 {
      assert text[..k][1..] == text[1..][..k - 1] && text[..k][0] == text[0];
      CutKeepsCharacters(text[1..], k - 1);
      var first, cut := EncodeScalar(text[0]), |Encode(text[1..][..k - 1])|;
      assert Encode(text)[..|first| + cut] == first + Encode(text[1..])[..cut];
    } else if text != [] {
      assert Encode(text)[0] == EncodeScalar(text[0])[0];
    }
  }

  /** The longest prefix of whole characters within the limit. `text` is what the bytes encode. */
  method Truncate(bytes: seq<Byte>, limit: nat, ghost text: seq<Scalar>) returns (prefix: seq<Byte>)
    requires bytes == Encode(text)
    ensures prefix == Encode(text[..Fitting(text, limit)])
  {
    FittingIsLongest(text, limit);
    if |bytes| <= limit {
      assert text[..|text|] == text;
      return bytes;
    }
    ghost var k := Fitting(text, limit);
    ghost var cut := |Encode(text[..k])|;
    CutKeepsCharacters(text, k);
    var end := limit;
    while !IsBoundary(bytes, end)
      invariant cut <= end <= limit
      decreases end
    {
      end := end - 1;
    }
    if end > cut {
      NoBoundaryBetween(text, limit, end);
    }
    return bytes[..end];
  }
}
