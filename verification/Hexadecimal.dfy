/** Lower-case hexadecimal, two characters a byte, as `{byte:02x}` writes it. */
module Hexadecimal {
  import opened Utf8

  function Digit(n: nat): (c: char)
    requires n < 16
    ensures IsDigit(c)
  {
    if n < 10 then ('0' as int + n) as char else ('a' as int + n - 10) as char
  }

  predicate IsDigit(c: char) {
    '0' <= c <= '9' || 'a' <= c <= 'f'
  }

  function Value(c: char): (n: nat)
    requires IsDigit(c)
    ensures n < 16 && Digit(n) == c
  {
    if '0' <= c <= '9' then c as int - '0' as int else c as int - 'a' as int + 10
  }

  function OfByte(b: Byte): (text: string)
    ensures |text| == 2 && IsDigit(text[0]) && IsDigit(text[1])
    ensures Value(text[0]) * 16 + Value(text[1]) == b
  {
    [Digit(b / 16), Digit(b % 16)]
  }

  function Hex(bytes: seq<Byte>): (text: string)
    ensures |text| == 2 * |bytes|
  {
    if bytes == [] then "" else Hex(bytes[..|bytes| - 1]) + OfByte(bytes[|bytes| - 1])
  }

  /** Each byte stands at twice its index. */
  lemma {:induction false} HexAt(bytes: seq<Byte>, i: nat)
    requires i < |bytes|
    ensures Hex(bytes)[2 * i..2 * i + 2] == OfByte(bytes[i])
  {
    var shorter := bytes[..|bytes| - 1];
    if i < |shorter| {
      HexAt(shorter, i);
      assert Hex(bytes)[2 * i..2 * i + 2] == Hex(shorter)[2 * i..2 * i + 2];
    }
  }

  /** A text is the printed form of bytes exactly when every pair of it is. */
  lemma {:induction false} IsHexOf(text: string, bytes: seq<Byte>)
    requires |text| == 2 * |bytes|
    requires forall i :: 0 <= i < |bytes| ==> text[2 * i..2 * i + 2] == OfByte(bytes[i])
    ensures text == Hex(bytes)
  {
    if bytes != [] {
      var shorter, n := bytes[..|bytes| - 1], |bytes| - 1;
      var front := text[..2 * n];
      forall i | 0 <= i < n
        ensures front[2 * i..2 * i + 2] == OfByte(shorter[i])
      {
        assert front[2 * i..2 * i + 2] == text[2 * i..2 * i + 2];
      }
      IsHexOf(front, shorter);
      assert text == front + text[2 * n..2 * n + 2];
    }
  }

  /** The printing loop. */
  method Print(bytes: seq<Byte>) returns (text: string)
    ensures text == Hex(bytes)
  {
    text := "";
    for i := 0 to |bytes|
      invariant text == Hex(bytes[..i])
    {
      assert bytes[..i + 1][..i] == bytes[..i];
      text := text + OfByte(bytes[i]);
    }
    assert bytes[..|bytes|] == bytes;
  }
}
