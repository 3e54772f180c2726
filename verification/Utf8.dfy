/** Rust strings are byte sequences in UTF-8; this is the syntax of section 4 of RFC 3629. */
module Utf8 {
  import opened Integers

  predicate Continues(b: seq<u8>, from: nat, count: nat)
    requires from + count <= |b|
  {
    forall i | from <= i < from + count :: 0x80 <= b[i] <= 0xbf
  }

  // Length of the well-formed character at position i, or 0 when there is none.
  function CharLength(b: seq<u8>, i: nat): (n: nat)
    requires i < |b|
    ensures n <= 4 && i + n <= |b|
  {
    var left := |b| - i;
    if b[i] < 0x80 then 1
    else if 0xc2 <= b[i] <= 0xdf && left >= 2 && Continues(b, i + 1, 1) then 2
    else if 0xe0 <= b[i] <= 0xef && left >= 3 && Continues(b, i + 1, 2)
            && (b[i] == 0xe0 ==> b[i + 1] >= 0xa0) && (b[i] == 0xed ==> b[i + 1] <= 0x9f) then 3
    else if 0xf0 <= b[i] <= 0xf4 && left >= 4 && Continues(b, i + 1, 3)
            && (b[i] == 0xf0 ==> b[i + 1] >= 0x90) && (b[i] == 0xf4 ==> b[i + 1] <= 0x8f) then 4
    else 0
  }

  predicate IsContinuation(byte: u8) {
    0x80 <= byte <= 0xbf
  }

  // A character starts at every byte that does not continue one ...
  predicate StartsChar(b: seq<u8>, i: nat)
    requires i < |b|
  {
    !IsContinuation(b[i]) && CharLength(b, i) > 0
  }

  // ... and every other byte lies inside the character that started up to three bytes before it.
  predicate InsideChar(b: seq<u8>, i: nat)
    requires i < |b|
  {
    IsContinuation(b[i]) && exists j :: 0 <= j < i && i < j + 4 && StartsChar(b, j) && i < j + CharLength(b, j)
  }

  predicate ValidUtf8(b: seq<u8>) {
    forall i | 0 <= i < |b| :: StartsChar(b, i) || InsideChar(b, i)
  }

  type Str = s: seq<u8> | ValidUtf8(s) witness []

  lemma {:induction false} AsciiIsUtf8(b: seq<u8>)
    requires forall k | 0 <= k < |b| :: b[k] < 0x80
    ensures ValidUtf8(b)
  {
  }

  // --- Reading from the front ------------------------------------------------

  // A decoder's view: one character after the other.
  predicate CharsFrom(b: seq<u8>, i: nat)
    requires i <= |b|
    decreases |b| - i
  {
    i == |b| || (CharLength(b, i) > 0 && CharsFrom(b, i + CharLength(b, i)))
  }

  ghost predicate NoneReachesPast(b: seq<u8>, i: nat)
    requires i <= |b|
  {
    forall j | 0 <= j < i :: StartsChar(b, j) ==> j + CharLength(b, j) <= i
  }

  lemma {:induction false} OneCharOn(b: seq<u8>, i: nat)
    requires i < |b| && CharLength(b, i) > 0 && NoneReachesPast(b, i)
    ensures StartsChar(b, i) && NoneReachesPast(b, i + CharLength(b, i))
    ensures forall k | i < k < i + CharLength(b, i) :: InsideChar(b, k)
  {
    var n := CharLength(b, i);
    forall k | i < k < i + n
      ensures IsContinuation(b[k])
    {
      ContinuesInside(b, i, k);
    }
    assert StartsChar(b, i);
  }

  lemma {:induction false} ContinuesInside(b: seq<u8>, i: nat, k: nat)
    requires i < |b| && i < k < i + CharLength(b, i)
    ensures IsContinuation(b[k])
  {
  }

  lemma {:induction false} CharsFromIff(b: seq<u8>, i: nat)
    requires i <= |b| && NoneReachesPast(b, i)
    ensures CharsFrom(b, i) <==> forall k | i <= k < |b| :: StartsChar(b, k) || InsideChar(b, k)
    decreases |b| - i
  {
    if i < |b| {
      if CharLength(b, i) > 0 {
        OneCharOn(b, i);
        CharsFromIff(b, i + CharLength(b, i));
      } else {
        assert !StartsChar(b, i) && !InsideChar(b, i);
      }
    }
  }

  // The two views agree on every byte sequence.
  lemma {:induction false} ValidUtf8Iff(b: seq<u8>)
    ensures ValidUtf8(b) <==> CharsFrom(b, 0)
  {
    CharsFromIff(b, 0);
  }

  // --- Which characters there are --------------------------------------------

  // Six bits more.
  function Extended(value: int, byte: int): int {
    value * 64 + (byte - 0x80)
  }

  // A character is the shortest form of a scalar value: up to 0x7f in one byte, 0x7ff in two, 0xffff
  // without the surrogates in three, 0x10ffff in four.
  lemma {:induction false} CharLengthIff(b: seq<u8>, i: nat, lead: int)
    requires i < |b| && b[i] == lead
    ensures CharLength(b, i) == 1 <==> lead <= 0x7f
    ensures CharLength(b, i) == 2 <==>
              && i + 2 <= |b| && 0xc0 <= lead < 0xe0 && Continues(b, i + 1, 1)
              && 0x80 <= Extended(lead - 0xc0, b[i + 1]) <= 0x7ff
    ensures CharLength(b, i) == 3 <==>
              && i + 3 <= |b| && 0xe0 <= lead < 0xf0 && Continues(b, i + 1, 2)
              && var c := Extended(Extended(lead - 0xe0, b[i + 1]), b[i + 2]);
                 0x800 <= c <= 0xffff && !(0xd800 <= c <= 0xdfff)
    ensures CharLength(b, i) == 4 <==>
              && i + 4 <= |b| && 0xf0 <= lead < 0xf8 && Continues(b, i + 1, 3)
              && var c := Extended(Extended(Extended(lead - 0xf0, b[i + 1]), b[i + 2]), b[i + 3]);
                 0x1_0000 <= c <= 0x10_ffff
  {
  }
}
