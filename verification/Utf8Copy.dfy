/** Copying a device string into the caller's buffer without cutting a character in two. */
module Utf8Copy {
  import opened Wrappers

  type Byte = bv8

  // ----- UTF-8, section 4 of RFC 3629 -----

  predicate Tail(b: Byte) {
    0x80 <= b <= 0xBF
  }

  predicate TailsFrom(s: seq<Byte>, i: nat, n: nat) {
    n <= |s| && forall k :: i <= k < n ==> Tail(s[k])
  }

  /** The length of the character at the start of s; 0 if there is no valid one. */
  function CharLength(s: seq<Byte>): (n: nat)
    ensures n <= 4 && n <= |s|
  {
    if s == [] then 0
    else if s[0] <= 0x7F then 1
    else if 0xC2 <= s[0] <= 0xDF && TailsFrom(s, 1, 2) then 2
    else if s[0] == 0xE0 && TailsFrom(s, 2, 3) && 0xA0 <= s[1] <= 0xBF then 3
    else if 0xE1 <= s[0] <= 0xEC && TailsFrom(s, 1, 3) then 3
    else if s[0] == 0xED && TailsFrom(s, 2, 3) && 0x80 <= s[1] <= 0x9F then 3
    else if 0xEE <= s[0] <= 0xEF && TailsFrom(s, 1, 3) then 3
    else if s[0] == 0xF0 && TailsFrom(s, 2, 4) && 0x90 <= s[1] <= 0xBF then 4
    else if 0xF1 <= s[0] <= 0xF3 && TailsFrom(s, 1, 4) then 4
    else if s[0] == 0xF4 && TailsFrom(s, 2, 4) && 0x80 <= s[1] <= 0x8F then 4
    else 0
  }

  /** The bytes of a code point, section 3 of RFC 3629. */
  function Encode(cp: bv32): seq<Byte> {
    if cp < 0x80 then [Low(cp)]
    else if cp < 0x800 then [0xC0 | Low(cp >> 6), Rest(cp)]
    else if cp < 0x1_0000 then [0xE0 | Low(cp >> 12), Rest(cp >> 6), Rest(cp)]
    else [0xF0 | Low(cp >> 18), Rest(cp >> 12), Rest(cp >> 6), Rest(cp)]
  }

  function Low(x: bv32): Byte {
    (x & 0xFF) as Byte
  }

  function Rest(x: bv32): Byte {
    0x80 | Low(x & 0x3F)
  }

  /** A code point that is not a surrogate. */
  predicate IsScalar(cp: bv32) {
    cp < 0xD800 || 0xDFFF < cp <= 0x10_FFFF
  }

  function Six(b: Byte): bv32 {
    (b & 0x3F) as bv32
  }

  /** The code points of two, three and four bytes. */
  function Two(a: Byte, b: Byte): bv32 {
    ((a & 0x1F) as bv32 << 6) | Six(b)
  }

  function Three(a: Byte, b: Byte, c: Byte): bv32 {
    ((a & 0x0F) as bv32 << 12) | (Six(b) << 6) | Six(c)
  }

  function Four(a: Byte, b: Byte, c: Byte, d: Byte): bv32 {
    ((a & 0x07) as bv32 << 18) | (Six(b) << 12) | (Six(c) << 6) | Six(d)
  }

  lemma OneBack(a: Byte)
    requires a <= 0x7F
    ensures a as bv32 < 0x80 && Low(a as bv32) == a
  {
  }

  lemma TwoBack(a: Byte, b: Byte)
    requires 0xC2 <= a <= 0xDF && Tail(b)
    ensures var cp := Two(a, b);
            0x80 <= cp < 0x800 && 0xC0 | Low(cp >> 6) == a && Rest(cp) == b
  {
  }

  lemma ThreeBack(a: Byte, b: Byte, c: Byte)
    requires 0xE0 <= a <= 0xEF && Tail(b) && Tail(c) && (a == 0xE0 ==> b >= 0xA0) && (a == 0xED ==> b <= 0x9F)
    ensures var cp := Three(a, b, c);
            && 0x800 <= cp < 0x1_0000 && IsScalar(cp)
            && 0xE0 | Low(cp >> 12) == a && Rest(cp >> 6) == b && Rest(cp) == c
  {
  }

  lemma FourBack(a: Byte, b: Byte, c: Byte, d: Byte)
    requires 0xF0 <= a <= 0xF4 && Tail(b) && Tail(c) && Tail(d)
    requires (a == 0xF0 ==> b >= 0x90) && (a == 0xF4 ==> b <= 0x8F)
    ensures var cp := Four(a, b, c, d);
            && 0x1_0000 <= cp <= 0x10_FFFF
            && 0xF0 | Low(cp >> 18) == a && Rest(cp >> 12) == b && Rest(cp >> 6) == c && Rest(cp) == d
  {
  }

  /** Every code point is one character, and no other bytes are. */
  lemma EncodedIsChar(cp: bv32, s: seq<Byte>)
    requires IsScalar(cp) && Encode(cp) <= s
    ensures CharLength(s) == |Encode(cp)|
  {
  }

  lemma EncodeIs(cp: bv32)
    ensures cp < 0x80 ==> Encode(cp) == [Low(cp)]
    ensures 0x80 <= cp < 0x800 ==> Encode(cp) == [0xC0 | Low(cp >> 6), Rest(cp)]
    ensures 0x800 <= cp < 0x1_0000 ==> Encode(cp) == [0xE0 | Low(cp >> 12), Rest(cp >> 6), Rest(cp)]
    ensures 0x1_0000 <= cp ==> Encode(cp) == [0xF0 | Low(cp >> 18), Rest(cp >> 12), Rest(cp >> 6), Rest(cp)]
  {
    hide Low, Rest;
  }

  lemma EncodeTwo(a: Byte, b: Byte)
    requires 0xC2 <= a <= 0xDF && Tail(b)
    ensures IsScalar(Two(a, b)) && Encode(Two(a, b)) == [a, b]
  {
    TwoBack(a, b);
    EncodeIs(Two(a, b));
  }

  lemma EncodeThree(a: Byte, b: Byte, c: Byte)
    requires 0xE0 <= a <= 0xEF && Tail(b) && Tail(c) && (a == 0xE0 ==> b >= 0xA0) && (a == 0xED ==> b <= 0x9F)
    ensures IsScalar(Three(a, b, c)) && Encode(Three(a, b, c)) == [a, b, c]
  {
    ThreeBack(a, b, c);
    EncodeIs(Three(a, b, c));
  }

  lemma EncodeFour(a: Byte, b: Byte, c: Byte, d: Byte)
    requires 0xF0 <= a <= 0xF4 && Tail(b) && Tail(c) && Tail(d)
    requires (a == 0xF0 ==> b >= 0x90) && (a == 0xF4 ==> b <= 0x8F)
    ensures IsScalar(Four(a, b, c, d)) && Encode(Four(a, b, c, d)) == [a, b, c, d]
  {
    FourBack(a, b, c, d);
    EncodeIs(Four(a, b, c, d));
  }

  lemma CharIsEncoded(s: seq<Byte>) returns (cp: bv32)
    requires CharLength(s) > 0
    ensures IsScalar(cp) && Encode(cp) == s[..CharLength(s)]
  {
    hide Two, Three, Four, Low, Rest, Encode, IsScalar;
    match CharLength(s) {
      case 1 => cp := s[0] as bv32; EncodeOne(s[0]); assert s[..1] == [s[0]];
      case 2 => cp := Two(s[0], s[1]); EncodeTwo(s[0], s[1]); assert s[..2] == [s[0], s[1]];
      case 3 => cp := Three(s[0], s[1], s[2]); EncodeThree(s[0], s[1], s[2]); assert s[..3] == [s[0], s[1], s[2]];
      case _ =>
        cp := Four(s[0], s[1], s[2], s[3]);
        EncodeFour(s[0], s[1], s[2], s[3]);
        assert s[..4] == [s[0], s[1], s[2], s[3]];
    }
  }

  lemma EncodeOne(a: Byte)
    requires a <= 0x7F
    ensures IsScalar(a as bv32) && Encode(a as bv32) == [a]
  {
    OneBack(a);
    EncodeIs(a as bv32);
  }

  predicate IsUtf8(s: seq<Byte>) {
    s == [] || (CharLength(s) > 0 && IsUtf8(s[CharLength(s)..]))
  }

  /** The first i bytes of s are whole characters. */
  predicate Boundary(s: seq<Byte>, i: nat) {
    i == 0 || (0 < CharLength(s) <= i && Boundary(s[CharLength(s)..], i - CharLength(s)))
  }

  /** The code's test for a byte inside a character. */
  predicate IsContinuation(b: Byte) {
    b & 0xC0 == 0x80
  }

  lemma ContinuationIsTail(b: Byte)
    ensures IsContinuation(b) <==> Tail(b)
  {
  }

  lemma CharBytes(s: seq<Byte>)
    requires CharLength(s) > 0
    ensures !Tail(s[0]) && forall k :: 0 < k < CharLength(s) ==> Tail(s[k])
  {
  }

  /** In valid UTF-8 characters start exactly at the bytes that are not continuations. */
  lemma {:induction false} BoundaryMeans(s: seq<Byte>, i: nat)
    requires IsUtf8(s) && i < |s|
    ensures Boundary(s, i) <==> !Tail(s[i])
  {
    var n := CharLength(s);
    CharBytes(s);
    if i >= n {
      BoundaryMeans(s[n..], i - n);
    }
  }

  /** Where a string too long for size bytes is cut: the last position before size where no
      continuation byte stands. */
  function Cut(s: seq<Byte>, i: nat): (r: nat)
    requires i < |s|
    ensures r <= i
  {
    if i == 0 || !IsContinuation(s[i]) then i else Cut(s, i - 1)
  }

  /** How many bytes of s a buffer of the given size keeps. */
  function Kept(s: seq<Byte>, size: nat): (r: nat)
    requires size > 0
    ensures r < size && r <= |s|
  {
    if |s| < size then |s| else Cut(s, size - 1)
  }

  lemma {:induction false} CutIsLast(s: seq<Byte>, i: nat)
    requires IsUtf8(s) && i < |s|
    ensures Boundary(s, Cut(s, i)) && forall j :: Cut(s, i) < j <= i ==> !Boundary(s, j)
  {
    ContinuationIsTail(s[i]);
    BoundaryMeans(s, i);
    if i > 0 && IsContinuation(s[i]) {
      CutIsLast(s, i - 1);
    }
  }

  lemma {:induction false} WholeStringIsWhole(s: seq<Byte>)
    requires IsUtf8(s)
    ensures Boundary(s, |s|)
  {
    if s != [] {
      WholeStringIsWhole(s[CharLength(s)..]);
    }
  }

  /** For valid UTF-8 the buffer gets the longest prefix of whole characters that leaves room
      for the terminating zero. */
  lemma KeepsLongestWholePrefix(s: seq<Byte>, size: nat)
    requires IsUtf8(s) && size > 0
    ensures Boundary(s, Kept(s, size)) && forall j :: Kept(s, size) < j < size && j <= |s| ==> !Boundary(s, j)
  {
    if |s| < size {
      WholeStringIsWhole(s);
    } else {
      CutIsLast(s, size - 1);
    }
  }

  /** So what is copied is valid UTF-8 again. */
  lemma {:induction false} PrefixIsUtf8(s: seq<Byte>, i: nat)
    requires IsUtf8(s) && i <= |s| && Boundary(s, i)
    ensures IsUtf8(s[..i])
  {
    if i > 0 {
      var n := CharLength(s);
      PrefixIsUtf8(s[n..], i - n);
      assert s[..i][n..] == s[n..][..i - n];
      SameLength(s, i);
    }
  }

  lemma SameLength(s: seq<Byte>, i: nat)
    requires 0 < CharLength(s) <= i <= |s|
    ensures CharLength(s[..i]) == CharLength(s)
  {
    var n, t := CharLength(s), s[..i];
    assert forall k :: 0 <= k < i ==> t[k] == s[k];
  }

  // ----- The code -----

  /** usbi_utf8_copy.  src are the bytes before the terminating zero; no source and no target
      are null pointers. */
  method Copy(tgt: array?<Byte>, src: Option<seq<Byte>>, tgtSize: int) returns (r: int)
    requires tgt != null ==> tgtSize <= tgt.Length
    modifies if tgt == null then {} else {tgt}
    ensures r == (if src.Some? then |src.value| else 0) + 1
    ensures tgt != null && tgtSize <= 0 ==> tgt[..] == old(tgt[..])
    ensures tgt != null && tgtSize > 0 ==>
              var s := if src.Some? then src.value else [];
              && tgt[..Kept(s, tgtSize)] == s[..Kept(s, tgtSize)]
              && tgt[Kept(s, tgtSize)] == 0
              && forall i :: tgtSize <= i < tgt.Length ==> tgt[i] == old(tgt[i])
  {
    if src.None? {
      if tgt != null && tgtSize > 0 {
        tgt[0] := 0;
      }
      return 1;
    }
    var s := src.value;
    if tgt == null || tgtSize <= 0 {
      return |s| + 1;
    }
    var k := 0;
    while k < |s|
      invariant 0 <= k <= |s| && k <= tgtSize
      invariant forall i :: 0 <= i < k ==> tgt[i] == s[i]
      invariant forall i :: tgtSize <= i < tgt.Length ==> tgt[i] == old(tgt[i])
    {
      if k < tgtSize {
        tgt[k] := s[k];
      } else {
        break;
      }
      k := k + 1;
    }
    if k >= tgtSize {
      var idx := tgtSize - 1;
      while idx != 0 && tgt[idx] & 0xC0 == 0x80
        invariant 0 <= idx < tgtSize <= |s|
        invariant forall i :: 0 <= i < tgtSize ==> tgt[i] == s[i]
        invariant forall i :: tgtSize <= i < tgt.Length ==> tgt[i] == old(tgt[i])
        invariant Cut(s, tgtSize - 1) == Cut(s, idx)
      {
        idx := idx - 1;
      }
      tgt[idx] := 0;
      return |s| + 1;
    } else {
      tgt[k] := 0;
      return k + 1;
    }
  }
}
