/** Hexadecimal text as encoding/hex prints it: two lower case digits for each byte. */
module Hex {
  type Byte = n: nat | n < 256

  function Digit(n: nat): (c: char)
    requires n < 16
  {
    if n < 10 then '0' + n as char else 'a' + (n - 10) as char
  }

  predicate IsDigit(c: char) {
    'a' <= c <= 'f' || '0' <= c <= '9'
  }

  function ValueOf(c: char): (n: nat)
    requires IsDigit(c)
    ensures n < 16 && Digit(n) == c
  {
    if c <= '9' then (c - '0') as nat else 10 + (c - 'a') as nat
  }

  function Encode(bytes: seq<Byte>): string {
    if bytes == [] then "" else [Digit(bytes[0] / 16), Digit(bytes[0] % 16)] + Encode(bytes[1..])
  }

  lemma {:induction false} EncodedIsHex(bytes: seq<Byte>)
    ensures |Encode(bytes)| == 2 * |bytes| && forall c | c in Encode(bytes) :: IsDigit(c)
  {
    if bytes != [] {
      EncodedIsHex(bytes[1..]);
    }
  }

  lemma {:induction false} HexIsEncoded(text: string, n: nat) returns (bytes: seq<Byte>)
    requires |text| == 2 * n && forall c | c in text :: IsDigit(c)
    ensures |bytes| == n && Encode(bytes) == text
    decreases n
  {
    if n == 0 {
      bytes := [];
    } else {
      assert text[0] in text && text[1] in text;
      var rest := HexIsEncoded(text[2..], n - 1);
      var high, low := ValueOf(text[0]), ValueOf(text[1]);
      var first: Byte := 16 * high + low;
      assert first / 16 == high && first % 16 == low;
      bytes := [first] + rest;
      assert bytes[1..] == rest && text == [text[0], text[1]] + text[2..];
    }
  }

  function LowerDigit(c: char): char {
    if 'A' <= c <= 'F' then c - 'A' + 'a' else c
  }

  function Lowered(text: string): (r: string)
    ensures |r| == |text| && forall i | 0 <= i < |text| :: r[i] == LowerDigit(text[i])
  {
    seq(|text|, i requires 0 <= i < |text| => LowerDigit(text[i]))
  }

  /** A text is the encoding of `n` bytes exactly when it consists of twice as many hexadecimal digits. */
  lemma EncodingsAre(text: string, n: nat)
    ensures (exists bytes: seq<Byte> :: |bytes| == n && Encode(bytes) == text) <==>
            |text| == 2 * n && forall c | c in text :: IsDigit(c)
  {
    if bytes: seq<Byte> :| |bytes| == n && Encode(bytes) == text {
      EncodedIsHex(bytes);
    }
    if |text| == 2 * n && forall c | c in text :: IsDigit(c) {
      var bytes := HexIsEncoded(text, n);
    }
  }
}
