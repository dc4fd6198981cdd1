/**
 UTF-8 as RFC 3629 has it (its section 3): what a scalar value is written as, and that the
 byte table a reader checks text against takes exactly what is written so.
 */
module Utf8 {
  import opened LoggedLines
  import opened Wrappers

  /** A Unicode scalar value: a code point that is no surrogate. */
  predicate Scalar(code: nat) {
    code < 0xD800 || 0xE000 <= code < 0x11_0000
  }

  /** A scalar value in six-bit groups, the first byte saying how many follow. */
  function Encoded(code: nat): (bytes: seq<Byte>)
    requires Scalar(code)
    ensures 1 <= |bytes| <= 4
  {
    if code < 0x80 then [code]
    else if code < 0x800 then [0xC0 + code / 0x40, 0x80 + code % 0x40]
    else if code < 0x1_0000 then [0xE0 + code / 0x1000, 0x80 + code / 0x40 % 0x40, 0x80 + code % 0x40]
    else [0xF0 + code / 0x4_0000, 0x80 + code / 0x1000 % 0x40, 0x80 + code / 0x40 % 0x40, 0x80 + code % 0x40]
  }

  /** A number with one more six-bit group put after it, as a byte that follows carries it. */
  ghost function Longer(high: int, group: int): int {
    high * 0x40 + (group - 0x80)
  }

  /** What the character at the start of some bytes is. */
  ghost function Decoded(bytes: seq<Byte>): int
    requires CharLength(bytes) > 0
  {
    var n, first: int := CharLength(bytes), bytes[0];
    if n == 1 then first
    else if n == 2 then Longer(first - 0xC0, bytes[1])
    else if n == 3 then Longer(Longer(first - 0xE0, bytes[1]), bytes[2])
    else Longer(Longer(Longer(first - 0xF0, bytes[1]), bytes[2]), bytes[3])
  }

  lemma LastGroup(high: int, group: int)
    requires high >= 0 && 0x80 <= group <= 0xBF
    ensures Longer(high, group) / 0x40 == high && 0x80 + Longer(high, group) % 0x40 == group
  {
  }

  lemma Twos(a: int, b: int)
    requires 0xC2 <= a <= 0xDF && 0x80 <= b <= 0xBF
    ensures 0x80 <= Longer(a - 0xC0, b) < 0x800 && Encoded(Longer(a - 0xC0, b)) == [a, b]
  {
    LastGroup(a - 0xC0, b);
  }

  lemma Threes(a: int, b: int, c: int)
    requires 0xE0 <= a <= 0xEF && 0x80 <= b <= 0xBF && 0x80 <= c <= 0xBF
    requires (a == 0xE0 ==> b >= 0xA0) && (a == 0xED ==> b <= 0x9F)
    ensures var code := Longer(Longer(a - 0xE0, b), c); 0x800 <= code && Scalar(code) && Encoded(code) == [a, b, c]
  {
    LastGroup(a - 0xE0, b);
    LastGroup(Longer(a - 0xE0, b), c);
  }

  lemma DividedInTurn(n: nat)
    ensures n / 0x1000 == n / 0x40 / 0x40 && n / 0x4_0000 == n / 0x40 / 0x40 / 0x40
  {
  }

  lemma FourGroups(high: int, b: int, c: int, d: int, code: int)
    requires 0 <= high && 0x80 <= b <= 0xBF && 0x80 <= c <= 0xBF && 0x80 <= d <= 0xBF
    requires code == Longer(Longer(Longer(high, b), c), d)
    ensures code >= 0 && code / 0x4_0000 == high && 0x80 + code / 0x1000 % 0x40 == b
    ensures 0x80 + code / 0x40 % 0x40 == c && 0x80 + code % 0x40 == d
  {
    LastGroup(high, b);
    LastGroup(Longer(high, b), c);
    LastGroup(Longer(Longer(high, b), c), d);
    DividedInTurn(code);
  }

  lemma Fours(a: int, b: int, c: int, d: int, code: int)
    requires 0xF0 <= a <= 0xF4 && 0x80 <= b <= 0xBF && 0x80 <= c <= 0xBF && 0x80 <= d <= 0xBF
    requires (a == 0xF0 ==> b >= 0x90) && (a == 0xF4 ==> b <= 0x8F)
    requires code == Longer(Longer(Longer(a - 0xF0, b), c), d)
    ensures 0x1_0000 <= code && Scalar(code) && Encoded(code) == [a, b, c, d]
  {
    FourGroups(a - 0xF0, b, c, d, code);
  }

  /** A character that reads is a scalar value's encoding. */
  lemma ReadsAsWritten(bytes: seq<Byte>)
    requires CharLength(bytes) > 0
    ensures Decoded(bytes) >= 0 && Scalar(Decoded(bytes))
    ensures Encoded(Decoded(bytes)) == bytes[..CharLength(bytes)]
  {
    var n := CharLength(bytes);
    if n == 1 {
      assert bytes[..1] == [bytes[0]];
    } else if n == 2 {
      Twos(bytes[0], bytes[1]);
      assert bytes[..2] == [bytes[0], bytes[1]];
    } else if n == 3 {
      Threes(bytes[0], bytes[1], bytes[2]);
      assert bytes[..3] == [bytes[0], bytes[1], bytes[2]];
    } else {
      Fours(bytes[0], bytes[1], bytes[2], bytes[3], Decoded(bytes));
      assert bytes[..4] == [bytes[0], bytes[1], bytes[2], bytes[3]];
    }
  }

  /** And every scalar value's encoding reads, whatever follows it. */
  lemma WrittenReads(code: nat, rest: seq<Byte>)
    requires Scalar(code)
    ensures CharLength(Encoded(code) + rest) == |Encoded(code)|
  {
  }

  ghost predicate Scalars(text: seq<nat>) {
    forall i :: 0 <= i < |text| ==> Scalar(text[i])
  }

  ghost function Written(text: seq<nat>): seq<Byte>
    requires Scalars(text)
  {
    if text == [] then [] else Encoded(text[0]) + Written(text[1..])
  }

  /** Bytes are whole UTF-8 exactly where they are some text's encoding. */
  ghost predicate IsText(bytes: seq<Byte>) {
    exists text: seq<nat> :: Scalars(text) && Written(text) == bytes
  }

  lemma OneMoreWritten(code: nat, rest: seq<nat>, text: seq<nat>)
    requires Scalar(code) && Scalars(rest) && text == [code] + rest
    ensures Scalars(text) && Written(text) == Encoded(code) + Written(rest)
  {
    assert text[1..] == rest;
  }

  lemma {:induction false} ReadableIsWritten(bytes: seq<Byte>) returns (text: seq<nat>)
    requires Readable(bytes)
    ensures Scalars(text) && Written(text) == bytes
    decreases |bytes|
  {
    text := [];
    if bytes != [] {
      ReadsAsWritten(bytes);
      var n := CharLength(bytes);
      var rest := ReadableIsWritten(bytes[n..]);
      text := [Decoded(bytes)] + rest;
      OneMoreWritten(Decoded(bytes), rest, text);
      assert bytes == bytes[..n] + bytes[n..];
    }
  }

  lemma {:induction false} WrittenIsReadable(text: seq<nat>)
    requires Scalars(text)
    ensures Readable(Written(text))
  {
    if text != [] {
      var first, rest := Encoded(text[0]), Written(text[1..]);
      WrittenIsReadable(text[1..]);
      WrittenReads(text[0], rest);
      assert (first + rest)[|first|..] == rest;
    }
  }

  lemma ReadableIsText(bytes: seq<Byte>)
    ensures Readable(bytes) <==> IsText(bytes)
  {
    if Readable(bytes) {
      var text := ReadableIsWritten(bytes);
    }
    if text: seq<nat> :| Scalars(text) && Written(text) == bytes {
      WrittenIsReadable(text);
    }
  }
}
