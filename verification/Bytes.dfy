/** Bytes, fixed-width integers and UTF-8 validity as `std::str::from_utf8` decides it. */
module Bytes {

  newtype byte = x: int | 0 <= x < 0x100
  newtype u32 = x: int | 0 <= x < 0x1_0000_0000
  newtype u64 = x: int | 0 <= x < 0x1_0000_0000_0000_0000

  predicate IsContinuation(b: byte) {
    0x80 <= b <= 0xBF
  }

  /** The range the second byte of a multi-byte character must lie in, given the first byte. */
  predicate SecondByteFits(first: byte, second: byte) {
    if first == 0xE0 then 0xA0 <= second <= 0xBF
    else if first == 0xED then 0x80 <= second <= 0x9F
    else if first == 0xF0 then 0x90 <= second <= 0xBF
    else if first == 0xF4 then 0x80 <= second <= 0x8F
    else IsContinuation(second)
  }

  /** The number of bytes the first byte announces, or 0 when it cannot start a character. */
  function Announced(first: byte): nat {
    if first < 0x80 then 1
    else if 0xC2 <= first <= 0xDF then 2
    else if 0xE0 <= first <= 0xEF then 3
    else if 0xF0 <= first <= 0xF4 then 4
    else 0
  }

  /** The length of the well-formed character at the front of `s`, or 0 when there is none. */
  function CharLength(s: seq<byte>): (n: nat)
    ensures n <= |s|
    ensures forall i :: 1 <= i < n ==> IsContinuation(s[i])
  {
    if s == [] then 0
    else
      var n := Announced(s[0]);
      if n <= |s|
         && (n >= 2 ==> SecondByteFits(s[0], s[1]))
         && (forall i :: 2 <= i < n ==> IsContinuation(s[i]))
      then n else 0
  }

  predicate Utf8(s: seq<byte>) {
    s == [] || (CharLength(s) > 0 && Utf8(s[CharLength(s)..]))
  }

  lemma {:induction false} Utf8Concat(a: seq<byte>, b: seq<byte>)
    requires Utf8(a) && Utf8(b)
    ensures Utf8(a + b)
  {
    if a == [] {
      assert a + b == b;
    } else {
      var n := CharLength(a);
      assert CharLength(a + b) == n;
      assert (a + b)[n..] == a[n..] + b;
      Utf8Concat(a[n..], b);
    }
  }

  /** A character never spans an ASCII byte, so valid text may be cut after one. */
  lemma {:induction false} Utf8CutAfterAscii(a: seq<byte>, b: seq<byte>)
    requires Utf8(a + b)
    requires a != [] && a[|a| - 1] < 0x80
    ensures Utf8(a) && Utf8(b)
  {
    var s := a + b;
    var n := CharLength(s);
    assert n >= 2 ==> SecondByteFits(s[0], s[1]);
    assert !IsContinuation(s[|a| - 1]);
    assert forall i :: 0 <= i < |a| ==> a[i] == s[i];
    assert CharLength(a) == n;
    assert s[n..] == a[n..] + b;
    if n == |a| {
      assert s[n..] == b;
    } else {
      Utf8CutAfterAscii(a[n..], b);
    }
  }
}
