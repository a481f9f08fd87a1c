// Bytes, and the little-endian integers that libuvc reads from and writes to
// unaligned buffers (libuvc_internal.h, DW_TO_INT and its three relatives); and
// a few facts about sequences that several modules use.
module Bytes {

  type byte = x: int | 0 <= x < 0x100
  type u16 = x: int | 0 <= x < 0x1_0000
  type u32 = x: int | 0 <= x < 0x1_0000_0000

  datatype Option<T> = None | Some(value: T)

  const TWO_TO_32 := 0x1_0000_0000

  /** Bit `bit` (a power of two) of a byte. */
  predicate Bit(b: byte, bit: nat)
    requires bit > 0
  {
    b / bit % 2 == 1
  }

  function ReadU16(s: seq<byte>, at: nat): u16
    requires at + 2 <= |s|
  {
    var b0: int, b1: int := s[at], s[at + 1];
    b0 + 0x100 * b1
  }

  function ReadU32(s: seq<byte>, at: nat): u32
    requires at + 4 <= |s|
  {
    var b0: int, b1: int, b2: int, b3: int := s[at], s[at + 1], s[at + 2], s[at + 3];
    b0 + 0x100 * b1 + 0x1_0000 * b2 + 0x100_0000 * b3
  }

  function WriteU16(x: u16): (s: seq<byte>)
    ensures |s| == 2
    ensures ReadU16(s, 0) == x
  {
    [x % 0x100, x / 0x100]
  }

  function WriteU32(x: u32): (s: seq<byte>)
    ensures |s| == 4
    ensures ReadU32(s, 0) == x
  {
    WriteU16(x % 0x1_0000) + WriteU16(x / 0x1_0000)
  }

  /** An integer is read back from the middle of a buffer. */
  lemma ReadWritten32(a: seq<byte>, x: u32, c: seq<byte>)
    ensures ReadU32(a + WriteU32(x) + c, |a|) == x
  {
    var s, w := a + WriteU32(x) + c, WriteU32(x);
    assert s[|a|] == w[0] && s[|a| + 1] == w[1] && s[|a| + 2] == w[2] && s[|a| + 3] == w[3];
  }

  function Min(a: int, b: int): int {
    if a <= b then a else b
  }

  lemma Regroup<E>(a: seq<E>, b: seq<E>, c: seq<E>)
    ensures a + (b + c) == (a + b) + c
  {
  }

  lemma Split3<E>(s: seq<E>, i: nat, j: nat)
    requires i <= j <= |s|
    ensures s == (s[..i] + s[i..j]) + s[j..]
  {
  }

  lemma Slices<E>(s: seq<E>, i: nat, j: nat)
    requires i <= j <= |s|
    ensures s[i..][..j - i] == s[i..j] && s[i..][j - i..] == s[j..]
  {
  }

  /** The concatenation of a list of byte strings. */
  function Flatten<T>(parts: seq<seq<T>>): (all: seq<T>) {
    if parts == [] then [] else parts[0] + Flatten(parts[1..])
  }

  lemma {:induction false} FlattenAppend<T>(a: seq<seq<T>>, b: seq<seq<T>>)
    ensures Flatten(a + b) == Flatten(a) + Flatten(b)
  {
    if a == [] {
      assert a + b == b;
    } else {
      FlattenAppend(a[1..], b);
      assert (a + b)[0] == a[0] && (a + b)[1..] == a[1..] + b;
    }
  }

  lemma FlattenSnoc<T>(a: seq<seq<T>>, last: seq<T>)
    ensures Flatten(a + [last]) == Flatten(a) + last
  {
    FlattenAppend(a, [last]);
    assert Flatten([last]) == last;
  }
}
