/**
 The message a webhook signature authenticates (crates/api/src/webhooks.rs): six length-prefixed
 fields, the text over which section 2 of RFC 2104 computes a MAC.
 */
module Webhooks {
  import opened Wrappers
  import opened Utf8
  import Text
  import Hexadecimal

  /** Text fields as their bytes; any bytes may occur in them. */
  datatype SignedRequest = SignedRequest(
    automation: seq<Byte>, trigger: seq<Byte>, timestamp: int, delivery: seq<Byte>, correlation: seq<Byte>, body: seq<Byte>)

  const COLON: Byte := 58

  function Ascii(text: string): (bytes: seq<Byte>)
    requires forall i :: 0 <= i < |text| ==> text[i] < 128 as char
    ensures |bytes| == |text|
    ensures forall i :: 0 <= i < |text| ==> bytes[i] == text[i] as int
  {
    seq(|text|, i requires 0 <= i < |text| => text[i] as int)
  }

  /** A number as `to_string` writes it. */
  function Numeral(n: int): string {
    if n < 0 then "-" + Text.Decimal(-n) else Text.Decimal(n)
  }

  function LengthOf(field: seq<Byte>): (bytes: seq<Byte>)
    ensures forall i :: 0 <= i < |bytes| ==> bytes[i] != COLON
  {
    Ascii(Text.Decimal(|field|))
  }

  function Frame(field: seq<Byte>): seq<Byte> {
    LengthOf(field) + [COLON] + field
  }

  function Frames(fields: seq<seq<Byte>>): seq<Byte> {
    if fields == [] then [] else Frames(fields[..|fields| - 1]) + Frame(fields[|fields| - 1])
  }

  function NumeralBytes(n: int): seq<Byte> {
    Ascii(Numeral(n))
  }

  function Fields(request: SignedRequest): seq<seq<Byte>> {
    [request.automation, request.trigger, request.delivery, request.correlation,
     NumeralBytes(request.timestamp), request.body]
  }

  function Preimage(request: SignedRequest): seq<Byte> {
    Frames(Fields(request))
  }

  /** A message authentication code under computation: what it was fed so far. */
  class Mac {
    var fed: seq<Byte>

    constructor ()
      ensures fed == []
    {
      fed := [];
    }

    method Update(bytes: seq<Byte>)
      modifies this
      ensures fed == old(fed) + bytes
    {
      fed := fed + bytes;
    }

    method PreimageInto(request: SignedRequest)
      modifies this
      ensures fed == old(fed) + Preimage(request)
    {
      var fields := Fields(request);
      for i := 0 to |fields|
        invariant fed == old(fed) + Frames(fields[..i])
      {
        assert fields[..i + 1][..i] == fields[..i];
        Update(LengthOf(fields[i]));
        Update([COLON]);
        Update(fields[i]);
        assert old(fed) + Frames(fields[..i]) + LengthOf(fields[i]) + [COLON] + fields[i] ==
          old(fed) + (Frames(fields[..i]) + (LengthOf(fields[i]) + [COLON] + fields[i]));
      }
      assert fields[..|fields|] == fields;
    }
  }

  // ---- The framing is injective. ----

  lemma AsciiIsInjective(a: string, b: string)
    requires forall i :: 0 <= i < |a| ==> a[i] < 128 as char
    requires forall i :: 0 <= i < |b| ==> b[i] < 128 as char
    requires Ascii(a) == Ascii(b)
    ensures a == b
  {
    forall i | 0 <= i < |a|
      ensures a[i] == b[i]
    {
      assert Ascii(a)[i] == Ascii(b)[i];
    }
  }

  /** The first separator ends the first part. */
  lemma SplitsAtFirst(a: seq<Byte>, x: seq<Byte>, b: seq<Byte>, y: seq<Byte>)
    requires forall i :: 0 <= i < |a| ==> a[i] != COLON
    requires forall i :: 0 <= i < |b| ==> b[i] != COLON
    requires a + [COLON] + x == b + [COLON] + y
    ensures a == b && x == y
  {
    var left, right := a + [COLON] + x, b + [COLON] + y;
    assert left[|a|] == COLON && right[|b|] == COLON;
    assert forall i :: 0 <= i < |a| ==> left[i] == a[i];
    assert forall i :: 0 <= i < |b| ==> right[i] == b[i];
    assert |a| == |b|;
    assert left[..|a|] == a && right[..|b|] == b;
    assert left[|a| + 1..] == x && right[|b| + 1..] == y;
  }

  /** A framed field says where it ends, whatever follows it. */
  lemma FrameEndsItself(field: seq<Byte>, rest: seq<Byte>, other: seq<Byte>, rest': seq<Byte>)
    requires Frame(field) + rest == Frame(other) + rest'
    ensures field == other && rest == rest'
  {
    var a, b := LengthOf(field), LengthOf(other);
    assert Frame(field) + rest == a + [COLON] + (field + rest);
    assert Frame(other) + rest' == b + [COLON] + (other + rest');
    SplitsAtFirst(a, field + rest, b, other + rest');
    AsciiIsInjective(Text.Decimal(|field|), Text.Decimal(|other|));
    Text.DecimalIsInjective(|field|, |other|);
    assert (field + rest)[..|field|] == field && (other + rest')[..|other|] == other;
    assert (field + rest)[|field|..] == rest && (other + rest')[|other|..] == rest';
  }

  lemma {:induction false} FramesFromFront(fields: seq<seq<Byte>>)
    requires fields != []
    ensures Frames(fields) == Frame(fields[0]) + Frames(fields[1..])
  {
    hide Frame;
    var n := |fields| - 1;
    if n == 0 {
      assert fields[1..] == [] && fields[..0] == [];
      assert Frame(fields[0]) + [] == [] + Frame(fields[0]);
    } else {
      FramesFromFront(fields[..n]);
      var middle := fields[1..n];
      assert fields[..n][1..] == middle && fields[1..][..n - 1] == middle && fields[1..][n - 1] == fields[n];
      assert Frames(fields) == Frame(fields[0]) + Frames(middle) + Frame(fields[n]);
      assert Frames(fields[1..]) == Frames(middle) + Frame(fields[n]);
    }
  }

  /** Equal framings are equal lists of fields, however many there are and whatever they contain. */
  lemma {:induction false} FramesAreInjective(fields: seq<seq<Byte>>, others: seq<seq<Byte>>)
    requires Frames(fields) == Frames(others)
    ensures fields == others
    decreases |fields|
  {
    if fields != [] {
      FramesFromFront(fields);
    }
    if others != [] {
      FramesFromFront(others);
    }
    if fields != [] && others != [] {
      FrameEndsItself(fields[0], Frames(fields[1..]), others[0], Frames(others[1..]));
      FramesAreInjective(fields[1..], others[1..]);
      assert fields == [fields[0]] + fields[1..] && others == [others[0]] + others[1..];
    }
  }

  lemma NumeralSign(n: int)
    ensures Numeral(n) != "" && (Numeral(n)[0] == '-' <==> n < 0)
  {
    assert n >= 0 ==> Text.Decimal(n)[0] != '-';
  }

  lemma NumeralIsInjective(m: int, n: int)
    requires Numeral(m) == Numeral(n)
    ensures m == n
  {
    NumeralSign(m);
    NumeralSign(n);
    if m < 0 && n < 0 {
      assert Numeral(m)[1..] == Text.Decimal(-m) && Numeral(n)[1..] == Text.Decimal(-n);
      Text.DecimalIsInjective(-m, -n);
    } else {
      Text.DecimalIsInjective(m, n);
    }
  }

  /** Two signed requests with the same preimage agree on all six fields. */
  lemma PreimageIsInjective(request: SignedRequest, other: SignedRequest)
    requires Preimage(request) == Preimage(other)
    ensures request == other
  {
    FramesAreInjective(Fields(request), Fields(other));
    var mine, theirs := Fields(request), Fields(other);
    assert mine[0] == theirs[0] && mine[1] == theirs[1] && mine[2] == theirs[2];
    assert mine[3] == theirs[3] && mine[4] == theirs[4] && mine[5] == theirs[5];
    AsciiIsInjective(Numeral(request.timestamp), Numeral(other.timestamp));
    NumeralIsInjective(request.timestamp, other.timestamp);
  }

  /** The frames in their order: who is triggered, by which delivery, of which group, when, with what. */
  lemma PreimageLayout(request: SignedRequest)
    ensures Preimage(request) ==
      Frame(request.automation) + Frame(request.trigger) + Frame(request.delivery) + Frame(request.correlation)
      + Frame(NumeralBytes(request.timestamp)) + Frame(request.body)
  {
    hide Frame, NumeralBytes;
    var fields := Fields(request);
    assert fields[..5][..4] == fields[..4] && fields[..4][..3] == fields[..3];
    assert fields[..3][..2] == fields[..2] && fields[..2][..1] == fields[..1];
    assert Frames(fields[..1]) == Frame(request.automation);
    assert Frames(fields[..2]) == Frame(request.automation) + Frame(request.trigger);
    assert Frames(fields[..3]) == Frames(fields[..2]) + Frame(request.delivery);
    assert Frames(fields[..4]) == Frames(fields[..3]) + Frame(request.correlation);
    assert Frames(fields[..5]) == Frames(fields[..4]) + Frame(NumeralBytes(request.timestamp));
  }

  // ---- Signatures in hexadecimal. ----

  function AnyCaseDigit(c: char): Option<nat> {
    if '0' <= c <= '9' then Some(c as int - '0' as int)
    else if 'a' <= c <= 'f' then Some(c as int - 'a' as int + 10)
    else if 'A' <= c <= 'F' then Some(c as int - 'A' as int + 10)
    else None
  }

  /** `u8::from_str_radix(pair, 16)`: either case, and one leading '+'. */
  function DecodePair(first: char, second: char): Option<Byte> {
    match (AnyCaseDigit(first), AnyCaseDigit(second))
    case (Some(high), Some(low)) => var value := 16 * high + low; if value < 256 then Some(value) else None
    case (None, Some(low)) => if first == '+' && low < 256 then Some(low) else None
    case _ => None
  }

  function DecodePairs(text: string): (bytes: Option<seq<Byte>>)
    requires |text| % 2 == 0
    ensures bytes.Some? ==> 2 * |bytes.value| == |text|
  {
    if text == "" then Some([])
    else
      var n := |text| - 2;
      match (DecodePairs(text[..n]), DecodePair(text[n], text[n + 1]))
      case (Some(before), Some(byte)) => Some(before + [byte])
      case _ => None
  }

  function DecodeHex(text: string): Option<seq<Byte>> {
    if |text| != 64 then None else DecodePairs(text)
  }

  /** Decoding undoes printing. */
  lemma {:induction false} DecodeUndoesPrint(bytes: seq<Byte>)
    ensures DecodePairs(Hexadecimal.Hex(bytes)) == Some(bytes)
    ensures |bytes| == 32 ==> DecodeHex(Hexadecimal.Hex(bytes)) == Some(bytes)
  {
    if bytes != [] {
      var n := |bytes| - 1;
      DecodeUndoesPrint(bytes[..n]);
      var text := Hexadecimal.Hex(bytes);
      assert text[..2 * n] == Hexadecimal.Hex(bytes[..n]);
      assert text[2 * n] == Hexadecimal.OfByte(bytes[n])[0] && text[2 * n + 1] == Hexadecimal.OfByte(bytes[n])[1];
      PairOfByte(bytes[n]);
      assert bytes == bytes[..n] + [bytes[n]];
    }
  }

  lemma PairOfByte(b: Byte)
    ensures var text := Hexadecimal.OfByte(b); DecodePair(text[0], text[1]) == Some(b)
  {
    var text := Hexadecimal.OfByte(b);
    assert AnyCaseDigit(text[0]) == Some(Hexadecimal.Value(text[0]));
    assert AnyCaseDigit(text[1]) == Some(Hexadecimal.Value(text[1]));
  }

  lemma PairIsPrintedExactlyWhen(first: char, second: char)
    requires DecodePair(first, second).Some?
    ensures Hexadecimal.OfByte(DecodePair(first, second).value) == [first, second] <==>
      Hexadecimal.IsDigit(first) && Hexadecimal.IsDigit(second)
  {
    var text := Hexadecimal.OfByte(DecodePair(first, second).value);
    assert text[0] == [first, second][0] && text[1] == [first, second][1] ==> text == [first, second];
  }

  predicate LowercaseDigits(text: string) {
    forall i :: 0 <= i < |text| ==> Hexadecimal.IsDigit(text[i])
  }

  lemma EqualInParts(a: string, b: string, c: string, d: string)
    requires |a| == |c|
    ensures a + b == c + d <==> a == c && b == d
  {
    assert (a + b)[..|a|] == a && (a + b)[|a|..] == b;
    assert (c + d)[..|c|] == c && (c + d)[|c|..] == d;
  }

  lemma DigitsInParts(front: string, first: char, second: char)
    ensures LowercaseDigits(front + [first, second]) <==>
      LowercaseDigits(front) && Hexadecimal.IsDigit(first) && Hexadecimal.IsDigit(second)
  {
    var whole, n := front + [first, second], |front|;
    assert whole[n] == first && whole[n + 1] == second;
    assert forall i :: 0 <= i < n ==> whole[i] == front[i];
  }

  lemma HexGrows(before: seq<Byte>, last: Byte)
    ensures Hexadecimal.Hex(before + [last]) == Hexadecimal.Hex(before) + Hexadecimal.OfByte(last)
  {
    assert (before + [last])[..|before|] == before;
  }

  /** A decoded text is the printed form of its bytes exactly when it is all lower-case digits. */
  lemma {:induction false} IsPrintedExactlyWhen(text: string)
    requires |text| % 2 == 0 && DecodePairs(text).Some?
    ensures text == Hexadecimal.Hex(DecodePairs(text).value) <==> LowercaseDigits(text)
  {
    hide DecodePair, DecodePairs, LowercaseDigits, Hexadecimal.OfByte, Hexadecimal.IsDigit, Hexadecimal.Hex;
    if text != "" {
      var n := |text| - 2;
      var front, first, second := text[..n], text[n], text[n + 1];
      DecodesInParts(text);
      var before, last := DecodePairs(front).value, DecodePair(first, second).value;
      IsPrintedExactlyWhen(front);
      PairIsPrintedExactlyWhen(first, second);
      HexGrows(before, last);
      assert text == front + [first, second];
      EqualInParts(front, [first, second], Hexadecimal.Hex(before), Hexadecimal.OfByte(last));
      DigitsInParts(front, first, second);
    } else {
      NoDigits();
    }
  }

  lemma DecodesInParts(text: string)
    requires |text| % 2 == 0 && text != "" && DecodePairs(text).Some?
    ensures var n := |text| - 2;
            var before, last := DecodePairs(text[..n]), DecodePair(text[n], text[n + 1]);
            before.Some? && last.Some? && DecodePairs(text).value == before.value + [last.value]
  {
    hide DecodePair;
  }

  lemma NoDigits()
    ensures LowercaseDigits("") && DecodePairs("") == Some([]) && Hexadecimal.Hex([]) == ""
  {
  }
}
