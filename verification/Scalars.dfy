/** UTF-8 validity against the encoding itself: valid text is a sequence of encoded Unicode scalar values. */
module Scalars {
  import opened Bytes

  /** A Unicode scalar value: a code point that is not a surrogate. */
  predicate IsScalar(c: nat) {
    c < 0xD800 || 0xE000 <= c < 0x11_0000
  }

  predicate AllScalar(chars: seq<nat>) {
    forall c :: c in chars ==> IsScalar(c)
  }

  /** The encoding of one scalar value (section 3 of RFC 3629). */
  function Encoded(c: nat): (r: seq<byte>)
    requires IsScalar(c)
    ensures r != []
  {
    if c < 0x80 then [c as byte]
    else if c < 0x800 then [(0xC0 + c / 0x40) as byte, Tail(c)]
    else if c < 0x1_0000 then [(0xE0 + c / 0x1000) as byte, Tail(c / 0x40), Tail(c)]
    else [(0xF0 + c / 0x4_0000) as byte, Tail(c / 0x1000), Tail(c / 0x40), Tail(c)]
  }

  /** A continuation byte: the six lowest bits. */
  function Tail(c: nat): (b: byte)
    ensures IsContinuation(b)
  {
    (0x80 + c % 0x40) as byte
  }

  function EncodedText(chars: seq<nat>): seq<byte>
    requires AllScalar(chars)
  {
    if chars == [] then [] else Encoded(chars[0]) + EncodedText(chars[1..])
  }

  /** Three and four bytes carry the scalar value six bits at a time. */
  lemma SixBits(c: nat)
    ensures c / 0x1000 == c / 0x40 / 0x40 && c / 0x4_0000 == c / 0x1000 / 0x40
  {
  }

  /** The character at the front of an encoding is the encoded scalar value, whatever follows. */
  lemma CharOfEncoded(c: nat, rest: seq<byte>)
    requires IsScalar(c)
    ensures CharLength(Encoded(c) + rest) == |Encoded(c)|
  {
    var e, s := Encoded(c), Encoded(c) + rest;
    SixBits(c);
    FirstBytesFit(c);
    assert s[0] == e[0];
    assert |e| >= 2 ==> s[1] == e[1];
    assert forall i :: 2 <= i < |e| ==> s[i] == e[i] && IsContinuation(e[i]);
  }

  lemma FirstBytesFit(c: nat)
    requires IsScalar(c)
    ensures Announced(Encoded(c)[0]) == |Encoded(c)|
    ensures |Encoded(c)| >= 2 ==> SecondByteFits(Encoded(c)[0], Encoded(c)[1])
  {
    SixBits(c);
  }

  /** Conversely, a well-formed character is the encoding of a scalar value. */
  lemma EncodedOfChar(s: seq<byte>) returns (c: nat)
    requires CharLength(s) > 0
    ensures IsScalar(c) && Encoded(c) == s[..CharLength(s)]
  {
    var n := CharLength(s);
    if n == 1 {
      c := s[0] as nat;
    } else if n == 2 {
      c := Joined(s[0] as nat - 0xC0, s[1]);
    } else if n == 3 {
      c := EncodedOfThree(s[0], s[1], s[2]);
    } else {
      c := EncodedOfFour(s[0], s[1], s[2], s[3]);
    }
    assert forall i :: 0 <= i < n ==> Encoded(c)[i] == s[i];
  }

  lemma EncodedOfThree(a: byte, b: byte, d: byte) returns (c: nat)
    requires Announced(a) == 3 && SecondByteFits(a, b) && IsContinuation(d)
    ensures IsScalar(c) && Encoded(c) == [a, b, d]
  {
    var high := Joined(a as nat - 0xE0, b);
    c := Joined(high, d);
    SixBits(c);
  }

  lemma EncodedOfFour(a: byte, b: byte, d: byte, e: byte) returns (c: nat)
    requires Announced(a) == 4 && SecondByteFits(a, b) && IsContinuation(d) && IsContinuation(e)
    ensures IsScalar(c) && Encoded(c) == [a, b, d, e]
  {
    var high := Joined(a as nat - 0xF0, b);
    var middle := Joined(high, d);
    c := Joined(middle, e);
    SixBits(c);
  }

  function Joined(high: nat, low: byte): (c: nat)
    requires IsContinuation(low)
    ensures c / 0x40 == high && Tail(c) == low
    ensures high * 0x40 <= c < high * 0x40 + 0x40
  {
    high * 0x40 + (low as nat - 0x80)
  }

  /** Text is valid exactly when it is the encoding of a sequence of scalar values. */
  lemma {:induction false} Utf8Iff(s: seq<byte>)
    ensures Utf8(s) <==> exists chars: seq<nat> :: AllScalar(chars) && EncodedText(chars) == s
  {
    if Utf8(s) {
      var chars := Decoded(s);
    }
    forall chars: seq<nat> | AllScalar(chars) && EncodedText(chars) == s ensures Utf8(s) {
      EncodedIsUtf8(chars);
    }
  }

  lemma {:induction false} Decoded(s: seq<byte>) returns (chars: seq<nat>)
    requires Utf8(s)
    ensures AllScalar(chars) && EncodedText(chars) == s
  {
    hide Encoded, CharLength, IsScalar;
    if s == [] {
      chars := [];
    } else {
      var c := EncodedOfChar(s);
      var rest := Decoded(s[CharLength(s)..]);
      chars := [c] + rest;
      assert chars[1..] == rest && AllScalar(chars);
      assert s == s[..CharLength(s)] + s[CharLength(s)..];
    }
  }

  lemma {:induction false} EncodedIsUtf8(chars: seq<nat>)
    requires AllScalar(chars)
    ensures Utf8(EncodedText(chars))
  {
    if chars != [] {
      var rest := EncodedText(chars[1..]);
      CharOfEncoded(chars[0], rest);
      EncodedIsUtf8(chars[1..]);
      assert (Encoded(chars[0]) + rest)[|Encoded(chars[0])|..] == rest;
    }
  }
}
