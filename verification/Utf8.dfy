/**
 UTF-8 text as the bytes of a Rust `str`. Well-formedness follows the table in
 section 4 of RFC 3629; `IsBoundary` is `str::is_char_boundary`.
 */
module Utf8 {
  newtype byte = b: int | 0 <= b < 256

  predicate Continuation(b: byte) {
    0x80 <= b < 0xC0
  }

  /** Octets in the character a lead byte announces; 0 for a byte that leads none. */
  function LeadWidth(b: byte): (w: nat)
    ensures w <= 4
  {
    if b < 0x80 then 1
    else if 0xC2 <= b < 0xE0 then 2
    else if 0xE0 <= b < 0xF0 then 3
    else if 0xF0 <= b < 0xF5 then 4
    else 0
  }

  /** The narrower second-octet ranges that exclude overlong forms and surrogates. */
  predicate SecondOctet(lead: byte, b: byte) {
    && Continuation(b)
    && (lead == 0xE0 ==> 0xA0 <= b)
    && (lead == 0xED ==> b < 0xA0)
    && (lead == 0xF0 ==> 0x90 <= b)
    && (lead == 0xF4 ==> b < 0x90)
  }

  predicate CharAt(s: seq<byte>, i: nat)
    requires i < |s|
  {
    var w := LeadWidth(s[i]);
    && 0 < w <= |s| - i
    && (2 <= w ==> SecondOctet(s[i], s[i + 1]))
    && (3 <= w ==> Continuation(s[i + 2]))
    && (4 <= w ==> Continuation(s[i + 3]))
  }

  predicate IsBoundary(s: seq<byte>, i: nat) {
    i == 0 || i == |s| || (i < |s| && !Continuation(s[i]))
  }

  /** A byte continues a character, or leads one that ends where the next starts. */
  predicate WellPlaced(s: seq<byte>, i: nat)
    requires i < |s|
  {
    Continuation(s[i]) || (CharAt(s, i) && IsBoundary(s, i + LeadWidth(s[i])))
  }

  /** `WellFormedIsDecodable` relates this local form to decoding from the front. */
  predicate WellFormed(s: seq<byte>) {
    && (s != [] ==> !Continuation(s[0]))
    && (forall i {:trigger WellPlaced(s, i)} | 0 <= i < |s| :: WellPlaced(s, i))
  }

  const ISIZE_MAX: nat := 0x7FFF_FFFF_FFFF_FFFF

  /** A `str`: well-formed, and no longer than an allocation may be. */
  type Str = s: seq<byte> | WellFormed(s) && |s| <= ISIZE_MAX witness []

  /** Decoding from the front, one character at a time. */
  predicate Decodable(s: seq<byte>) {
    s == [] || (CharAt(s, 0) && Decodable(s[LeadWidth(s[0])..]))
  }

  lemma {:induction false} WellFormedIsDecodable(s: seq<byte>)
    ensures WellFormed(s) <==> Decodable(s)
    decreases |s|
  {
    if s != [] {
      assert WellFormed(s) ==> WellPlaced(s, 0);
      if CharAt(s, 0) {
        var w := LeadWidth(s[0]);
        WellFormedIsDecodable(s[w..]);
        assert s[w..|s|] == s[w..] && s == s[..w] + s[w..];
        if WellFormed(s) {
          SliceWellFormed(s, w, |s|);
        } else if WellFormed(s[w..]) {
          HeadIsWellFormed(s);
          ConcatWellFormed(s[..w], s[w..]);
        }
      }
    }
  }

  /** `s` is the shortest encoding of the scalar value `c`, bit by bit as section 3 of RFC 3629 lays it out. */
  ghost predicate Encodes(s: seq<byte>, c: nat) {
    match |s|
    case 1 => s[0] < 0x80 && c == s[0] as nat
    case 2 =>
      && 0xC0 <= s[0] < 0xE0 && 0x80 <= s[1] < 0xC0
      && c == (s[0] as nat - 0xC0) * 64 + (s[1] as nat - 0x80)
      && 0x80 <= c
    case 3 =>
      && 0xE0 <= s[0] < 0xF0 && (forall i | 1 <= i < 3 :: 0x80 <= s[i] < 0xC0)
      && c == (s[0] as nat - 0xE0) * 4096 + (s[1] as nat - 0x80) * 64 + (s[2] as nat - 0x80)
      && 0x800 <= c && !(0xD800 <= c < 0xE000)
    case 4 =>
      && 0xF0 <= s[0] < 0xF8 && (forall i | 1 <= i < 4 :: 0x80 <= s[i] < 0xC0)
      && c == (s[0] as nat - 0xF0) * 262144 + (s[1] as nat - 0x80) * 4096 +
              (s[2] as nat - 0x80) * 64 + (s[3] as nat - 0x80)
      && 0x1_0000 <= c < 0x11_0000
    case _ => false
  }

  /** The characters a decoder takes are exactly the encodings of Unicode scalar values. */
  lemma CharactersEncode(s: seq<byte>)
    ensures s != [] && CharAt(s, 0) && LeadWidth(s[0]) == |s| <==> exists c: nat :: Encodes(s, c)
  {
    if |s| == 1 {
      assert s[0] < 0x80 ==> Encodes(s, s[0] as nat);
    } else if |s| == 2 && 0xC0 <= s[0] && 0x80 <= s[1] {
      var c: nat := (s[0] as nat - 0xC0) * 64 + (s[1] as nat - 0x80);
      assert s[0] < 0xE0 && s[1] < 0xC0 && 0x80 <= c ==> Encodes(s, c);
    } else if |s| == 3 && 0xE0 <= s[0] && 0x80 <= s[1] && 0x80 <= s[2] {
      var c: nat := (s[0] as nat - 0xE0) * 4096 + (s[1] as nat - 0x80) * 64 + (s[2] as nat - 0x80);
      assert CharAt(s, 0) && LeadWidth(s[0]) == 3 ==> Encodes(s, c);
    } else if |s| == 4 && 0xF0 <= s[0] && 0x80 <= s[1] && 0x80 <= s[2] && 0x80 <= s[3] {
      var c: nat := (s[0] as nat - 0xF0) * 262144 + (s[1] as nat - 0x80) * 4096 +
                    (s[2] as nat - 0x80) * 64 + (s[3] as nat - 0x80);
      assert CharAt(s, 0) && LeadWidth(s[0]) == 4 ==> Encodes(s, c);
    }
  }

  /** Boundaries are the places where text can be cut into two texts. */
  lemma BoundaryIs(s: seq<byte>, i: nat)
    requires WellFormed(s) && i <= |s|
    ensures IsBoundary(s, i) <==> WellFormed(s[..i]) && WellFormed(s[i..])
  {
    if IsBoundary(s, i) {
      SliceWellFormed(s, 0, i);
      SliceWellFormed(s, i, |s|);
      assert s[0..i] == s[..i] && s[i..|s|] == s[i..];
    }
  }

  lemma HeadIsWellFormed(s: seq<byte>)
    requires s != [] && CharAt(s, 0)
    ensures WellFormed(s[..LeadWidth(s[0])])
  {
    var h := s[..LeadWidth(s[0])];
    assert CharAt(h, 0);
  }

  /** Slicing between boundaries keeps text well formed. */
  lemma SliceWellFormed(s: seq<byte>, i: nat, j: nat)
    requires WellFormed(s)
    requires i <= j <= |s| && IsBoundary(s, i) && IsBoundary(s, j)
    ensures WellFormed(s[i..j])
  {
    var t := s[i..j];
    forall k | 0 <= k < |t|
      ensures WellPlaced(t, k)
    {
      assert WellPlaced(s, i + k);
    }
  }

  /** A slice has the boundaries of the text it is cut from. */
  lemma SliceBoundary(s: seq<byte>, i: nat, j: nat, k: nat)
    requires i + k <= j <= |s| && IsBoundary(s, i) && IsBoundary(s, j)
    ensures IsBoundary(s[i..j], k) <==> IsBoundary(s, i + k)
  {
  }

  lemma ConcatWellFormed(a: seq<byte>, b: seq<byte>)
    requires WellFormed(a) && WellFormed(b)
    ensures WellFormed(a + b)
  {
    var s := a + b;
    forall i | 0 <= i < |s|
      ensures WellPlaced(s, i)
    {
      if i < |a| {
        assert WellPlaced(a, i);
      } else {
        assert WellPlaced(b, i - |a|);
      }
    }
  }

  /** The first character is the shortest non-empty aligned prefix. */
  lemma FirstCharacter(s: seq<byte>)
    requires WellFormed(s) && s != []
    ensures 1 <= LeadWidth(s[0]) <= |s| && LeadWidth(s[0]) <= 4
    ensures IsBoundary(s, LeadWidth(s[0]))
    ensures forall k | 0 < k < LeadWidth(s[0]) :: !IsBoundary(s, k)
  {
    assert WellPlaced(s, 0);
  }

  /** From a boundary the next one is exactly one character further. */
  lemma NextBoundary(s: seq<byte>, i: nat)
    requires WellFormed(s) && i < |s| && IsBoundary(s, i)
    ensures 1 <= LeadWidth(s[i]) <= |s| - i
    ensures IsBoundary(s, i + LeadWidth(s[i]))
    ensures forall k | i < k < i + LeadWidth(s[i]) :: !IsBoundary(s, k)
  {
    assert WellPlaced(s, i);
  }

  /** The last boundary at or before `i`. */
  function Floor(s: seq<byte>, i: nat): (b: nat)
    ensures b <= i && IsBoundary(s, b)
  {
    if IsBoundary(s, i) then i else Floor(s, i - 1)
  }

  lemma {:induction false} FloorIsLast(s: seq<byte>, i: nat, k: nat)
    requires k <= i && IsBoundary(s, k)
    ensures k <= Floor(s, i)
  {
    if !IsBoundary(s, i) {
      FloorIsLast(s, i - 1, k);
    }
  }

  /** The first boundary at or after `i`. */
  function Ceil(s: seq<byte>, i: nat): (b: nat)
    requires i <= |s|
    ensures i <= b <= |s| && IsBoundary(s, b)
    decreases |s| - i
  {
    if IsBoundary(s, i) then i else Ceil(s, i + 1)
  }

  lemma {:induction false} CeilIsFirst(s: seq<byte>, i: nat, k: nat)
    requires i <= k <= |s| && IsBoundary(s, k)
    ensures Ceil(s, i) <= k
    decreases |s| - i
  {
    if !IsBoundary(s, i) {
      CeilIsFirst(s, i + 1, k);
    }
  }

  /** Alignment moves an offset by at most three bytes either way. */
  lemma AlignmentGap(s: seq<byte>, i: nat)
    requires WellFormed(s) && i <= |s|
    ensures i - Floor(s, i) <= 3
    ensures Ceil(s, i) - i <= 3
  {
    var b := Floor(s, i);
    if b < i {
      NextBoundary(s, b);
      var next := b + LeadWidth(s[b]);
      if next <= i {
        FloorIsLast(s, i, next);
      }
      CeilIsFirst(s, i, next);
    }
  }

  /** The walk `while !is_char_boundary(end) { end -= 1 }`. */
  method AlignDown(s: seq<byte>, from: nat) returns (end: nat)
    ensures end == Floor(s, from)
  {
    end := from;
    while !IsBoundary(s, end)
      invariant Floor(s, end) == Floor(s, from)
      decreases end
    {
      end := end - 1;
    }
  }

  /** The walk `while !is_char_boundary(start) { start += 1 }`. */
  method AlignUp(s: seq<byte>, from: nat) returns (start: nat)
    requires from <= |s|
    ensures start == Ceil(s, from)
  {
    start := from;
    while !IsBoundary(s, start)
      invariant start <= |s| && Ceil(s, start) == Ceil(s, from)
      decreases |s| - start
    {
      start := start + 1;
    }
  }
}
