/** Base16 encoding with the lowercase alphabet (section 8 of RFC 4648), as
    Go's `hex.EncodeToString` writes it: two digits per byte, high nibble
    first. */
module Hex {
  import opened Base

  const Alphabet: string := "0123456789abcdef"

  /** The digit for a nibble. */
  function Digit(n: nat): (c: char)
    requires n < 16
    ensures c in Alphabet
  {
    Alphabet[n]
  }

  /** The nibble a lowercase digit stands for; `None` for any other character. */
  function Value(c: char): (v: Option<nat>)
    ensures v.Some? ==> v.value < 16
  {
    if '0' <= c <= '9' then Some(c as int - '0' as int)
    else if 'a' <= c <= 'f' then Some(c as int - 'a' as int + 10)
    else None
  }

  /** `hex.EncodeToString`. */
  function Encode(b: seq<byte>): (s: string)
    ensures |s| == 2 * |b|
    ensures forall i :: 0 <= i < |s| ==> s[i] in Alphabet
  {
    if |b| == 0 then ""
    else [Digit(b[0] / 16), Digit(b[0] % 16)] + Encode(b[1..])
  }

  /** The inverse of `Encode`: `None` for odd lengths and foreign characters. */
  function Decode(s: string): Option<seq<byte>>
  {
    if |s| == 0 then Some([])
    else if |s| == 1 then None
    else
      var hi, lo, rest := Value(s[0]), Value(s[1]), Decode(s[2..]);
      if hi.Some? && lo.Some? && rest.Some? then Some([(hi.value * 16 + lo.value) as byte] + rest.value)
      else None
  }

  /** Decoding an encoding gives the bytes back. */
  lemma {:induction false} DecodeEncode(b: seq<byte>)
    ensures Decode(Encode(b)) == Some(b)
  {
    if |b| > 0 {
      var x := b[0];
      var t := Encode(b[1..]);
      assert Encode(b) == [Digit(x / 16), Digit(x % 16)] + t;
      DecodeEncode(b[1..]);
      ValueDigit(x / 16);
      ValueDigit(x % 16);
      DecodePair(Digit(x / 16), Digit(x % 16), t, x, b[1..]);
      assert b == [x] + b[1..];
    }
  }

  /** One step of `Decode`: the two digits of a byte, then the rest. */
  lemma DecodePair(c0: char, c1: char, t: string, x: byte, rest: seq<byte>)
    requires Value(c0) == Some(x / 16) && Value(c1) == Some(x % 16)
    requires Decode(t) == Some(rest)
    ensures Decode([c0, c1] + t) == Some([x] + rest)
  {
    var s := [c0, c1] + t;
    assert s[0] == c0 && s[1] == c1 && s[2..] == t;
    Nibbles(x);
  }

  /** A byte is its high nibble times 16 plus its low nibble. */
  lemma Nibbles(x: byte)
    ensures (x / 16) * 16 + x % 16 == x
  {
  }

  /** Reading a digit gives its nibble back. */
  lemma ValueDigit(n: nat)
    requires n < 16
    ensures Value(Digit(n)) == Some(n)
  {
    if n < 10 {
      assert Digit(n) == ('0' as int + n) as char;
    } else {
      assert Digit(n) == ('a' as int + n - 10) as char;
    }
  }

  /** Distinct byte strings have distinct encodings. */
  lemma EncodeInjective(a: seq<byte>, b: seq<byte>)
    requires Encode(a) == Encode(b)
    ensures a == b
  {
    DecodeEncode(a);
    DecodeEncode(b);
  }
}
