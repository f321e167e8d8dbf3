/** Raw bytes: C characters, C strings, little-endian words and bitmaps. */
module Bytes {

  type byte = x: int | 0 <= x < 256

  const U32_MOD := 0x1_0000_0000

  // ----- little-endian words (the i386 layout of `unsigned short` and `unsigned int`) -----

  /** Byte k (0 = lowest) of a 32-bit word. */
  function ByteOf(w: nat, k: nat): byte
    requires w < U32_MOD && k < 4
  {
    if k == 0 then w % 256
    else if k == 1 then w / 256 % 256
    else if k == 2 then w / 256 / 256 % 256
    else w / 256 / 256 / 256
  }

  /** The 32-bit word stored at an offset of a byte sequence. */
  function WordAt(s: seq<byte>, at: nat): (w: nat)
    requires at + 4 <= |s|
    ensures w < U32_MOD
  {
    var b0: int, b1: int, b2: int, b3: int := s[at], s[at + 1], s[at + 2], s[at + 3];
    b0 + 256 * (b1 + 256 * (b2 + 256 * b3))
  }

  /** The 16-bit word stored at an offset of a byte sequence. */
  function HalfAt(s: seq<byte>, at: nat): (h: nat)
    requires at + 2 <= |s|
    ensures h < 0x1_0000
  {
    var b0: int, b1: int := s[at], s[at + 1];
    b0 + 256 * b1
  }

  lemma WordRoundTrip(s: seq<byte>, at: nat, w: nat)
    requires w < U32_MOD && at + 4 <= |s|
    requires s[at] == ByteOf(w, 0) && s[at + 1] == ByteOf(w, 1)
    requires s[at + 2] == ByteOf(w, 2) && s[at + 3] == ByteOf(w, 3)
    ensures WordAt(s, at) == w
  {
  }

  // ----- C strings -----

  predicate NoNul(s: seq<byte>) {
    forall i | 0 <= i < |s| :: s[i] != 0
  }

  /** The C string held by a buffer: everything before its first NUL. */
  function CStr(s: seq<byte>): (r: seq<byte>)
    ensures NoNul(r) && r <= s
  {
    if s == [] || s[0] == 0 then [] else [s[0]] + CStr(s[1..])
  }

  /** A string ends at its first NUL at the latest. */
  lemma {:induction false} CStrEnds(s: seq<byte>, k: nat)
    requires k < |s| && s[k] == 0
    ensures |CStr(s)| <= k
  {
    if k > 0 && s[0] != 0 {
      CStrEnds(s[1..], k - 1);
    }
  }

  /** A buffer that starts with a NUL-free name and a NUL holds exactly that name. */
  lemma {:induction false} CStrOf(s: seq<byte>, name: seq<byte>)
    requires NoNul(name) && |name| < |s|
    requires s[..|name|] == name && s[|name|] == 0
    ensures CStr(s) == name
  {
    if name != [] {
      assert s[0] == s[..|name|][0] == name[0];
      assert s[1..][..|name| - 1] == s[..|name|][1..] == name[1..];
      CStrOf(s[1..], name[1..]);
    }
  }

  // ----- bitmaps -----

  /** `b & (1 << k)`. */
  predicate Bit(b: nat, k: nat) {
    if k == 0 then b % 2 == 1 else Bit(b / 2, k - 1)
  }

  /** `b | (1 << k)`. */
  function WithBit(b: nat, k: nat): nat {
    if k == 0 then b / 2 * 2 + 1 else WithBit(b / 2, k - 1) * 2 + b % 2
  }

  lemma {:induction false} WithBitIsOr(b: nat, k: nat, j: nat)
    ensures Bit(WithBit(b, k), j) == (j == k || Bit(b, j))
  {
    if k != 0 && j != 0 {
      assert WithBit(b, k) / 2 == WithBit(b / 2, k - 1);
      WithBitIsOr(b / 2, k - 1, j - 1);
    } else if j != 0 {
      assert WithBit(b, k) / 2 == b / 2;
    }
  }

  function Exp2(m: nat): nat {
    if m == 0 then 1 else 2 * Exp2(m - 1)
  }

  /** A byte with no bit set is zero. */
  lemma {:induction false} NoBitIsZero(b: nat, m: nat)
    requires b < Exp2(m) && forall k: nat | k < m :: !Bit(b, k)
    ensures b == 0
  {
    if m > 0 {
      assert !Bit(b, 0);
      forall k: nat | k < m - 1 ensures !Bit(b / 2, k) {
        assert !Bit(b, k + 1);
      }
      NoBitIsZero(b / 2, m - 1);
    }
  }

  /** Setting one of the low m bits keeps an m-bit number an m-bit number. */
  lemma {:induction false} WithBitBound(b: nat, k: nat, m: nat)
    requires b < Exp2(m) && k < m
    ensures WithBit(b, k) < Exp2(m)
  {
    if k != 0 {
      WithBitBound(b / 2, k - 1, m - 1);
    }
  }

  predicate IsSet(bmap: seq<byte>, n: nat)
    requires n < 8 * |bmap|
  {
    Bit(bmap[n / 8], n % 8)
  }

  /** BMAP_SET. */
  method SetBit(bmap: array<byte>, n: nat)
    requires n < 8 * bmap.Length
    modifies bmap
    ensures forall m: nat | m < 8 * bmap.Length ::
              IsSet(bmap[..], m) == (m == n || old(IsSet(bmap[..], m)))
  {
    var was := bmap[n / 8];
    assert Exp2(8) == 256;
    WithBitBound(was, n % 8, 8);
    bmap[n / 8] := WithBit(was, n % 8);
    forall m: nat | m < 8 * bmap.Length
      ensures IsSet(bmap[..], m) == (m == n || old(IsSet(bmap[..], m)))
    {
      if m / 8 == n / 8 {
        WithBitIsOr(was, n % 8, m % 8);
      }
    }
  }

  /** The lowest clear bit below `size`; the bitmap may be shorter than `size` as long as the
      search stops inside it. */
  method FindFree(bmap: array<byte>, size: nat) returns (found: bool, free: nat)
    requires size <= 8 * bmap.Length || exists n: nat :: n < 8 * bmap.Length && !IsSet(bmap[..], n)
    ensures found ==> free < size && free < 8 * bmap.Length && !IsSet(bmap[..], free)
    ensures found ==> forall m: nat | m < free :: IsSet(bmap[..], m)
    ensures !found ==> size <= 8 * bmap.Length && forall m: nat | m < size :: IsSet(bmap[..], m)
  {
    var i := 0;
    while i < size
      invariant i <= size && i <= 8 * bmap.Length
      invariant forall m: nat | m < i :: IsSet(bmap[..], m)
    {
      if !Bit(bmap[i / 8], i % 8) {
        return true, i;
      }
      assert IsSet(bmap[..], i);
      i := i + 1;
    }
    return false, 0;
  }
}
