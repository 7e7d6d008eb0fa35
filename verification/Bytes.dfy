/** Machine integers as bounded integers, their little-endian encodings, and
    the Option type the other modules share. */
module Bytes {
  datatype Option<+T> = None | Some(value: T)

  type u8 = x: int | 0 <= x < 0x100
  type u16 = x: int | 0 <= x < 0x1_0000
  type u32 = x: int | 0 <= x < 0x1_0000_0000

  /** The low 16 and 32 bits of a natural number. */
  function Wrap16(n: nat): u16 { n % 0x1_0000 }
  function Wrap32(n: nat): u32 { n % 0x1_0000_0000 }

  function FromLe16(a: u8, b: u8): u16 {
    a + 256 * b
  }

  function Le16(n: u16): (b: seq<u8>)
    ensures |b| == 2 && FromLe16(b[0], b[1]) == n
  {
    [n % 256, n / 256]
  }

  function FromLe32(a: u8, b: u8, c: u8, d: u8): u32 {
    a + 256 * b + 65536 * c + 16777216 * d
  }

  function Le32(n: u32): (b: seq<u8>)
    ensures |b| == 4 && FromLe32(b[0], b[1], b[2], b[3]) == n
  {
    var n1 := n / 256;
    var n2 := n1 / 256;
    [n % 256, n1 % 256, n2 % 256, n2 / 256]
  }

  lemma Le16Unique(a: u8, b: u8)
    ensures Le16(FromLe16(a, b)) == [a, b]
  {
  }

  /** Four bytes are the encoding of just one number. */
  lemma Le32Unique(a: u8, b: u8, c: u8, d: u8)
    ensures Le32(FromLe32(a, b, c, d)) == [a, b, c, d]
  {
    var n := FromLe32(a, b, c, d);
    assert n / 256 == b + 256 * c + 65536 * d && n % 256 == a;
    assert n / 256 / 256 == c + 256 * d && n / 256 % 256 == b;
  }

  lemma WrapsNothing(n: nat)
    ensures n < 0x1_0000 ==> Wrap16(n) == n
    ensures n < 0x1_0000_0000 ==> Wrap32(n) == n
  {
  }

  lemma Wrap16Next(n: nat)
    ensures Wrap16(Wrap16(n) + 1) == Wrap16(n + 1)
  {
  }

  lemma Wrap32Next(n: nat)
    ensures Wrap32(Wrap32(n) + 1) == Wrap32(n + 1)
  {
  }

  /** An index sequence that picks a subsequence of something of length n. */
  ghost predicate Picks(idx: seq<nat>, n: nat) {
    && (forall i :: 0 <= i < |idx| ==> idx[i] < n)
    && (forall i, j :: 0 <= i < j < |idx| ==> idx[i] < idx[j])
  }

  /** The elements of s at the given positions. */
  ghost function Pick<T>(s: seq<T>, idx: seq<nat>): (r: seq<T>)
    requires forall i :: 0 <= i < |idx| ==> idx[i] < |s|
    ensures |r| == |idx|
    ensures forall i :: 0 <= i < |idx| ==> r[i] == s[idx[i]]
  {
    seq(|idx|, i requires 0 <= i < |idx| => s[idx[i]])
  }

  lemma PickPush<T>(s: seq<T>, idx: seq<nat>, m: nat)
    requires m < |s| && forall i :: 0 <= i < |idx| ==> idx[i] < |s|
    ensures forall i :: 0 <= i < |idx + [m]| ==> (idx + [m])[i] < |s|
    ensures Pick(s, idx + [m]) == Pick(s, idx) + [s[m]] && Pick(s, idx + [m])[..|idx|] == Pick(s, idx)
  {
  }

  lemma PickTail<T>(s: seq<T>, idx: seq<nat>)
    requires idx != [] && forall i :: 0 <= i < |idx| ==> idx[i] < |s|
    ensures Pick(s, idx)[1..] == Pick(s, idx[1..])
  {
  }

  lemma PickConcat<T>(s: seq<T>, a: seq<nat>, b: seq<nat>)
    requires forall i :: 0 <= i < |a| ==> a[i] < |s|
    requires forall i :: 0 <= i < |b| ==> b[i] < |s|
    ensures forall i :: 0 <= i < |a + b| ==> (a + b)[i] < |s|
    ensures Pick(s, a + b) == Pick(s, a) + Pick(s, b)
  {
  }

  /** The positions from a to b - 1. */
  function Span(a: nat, b: nat): (idx: seq<nat>)
    requires a <= b
    ensures |idx| == b - a && forall i :: 0 <= i < b - a ==> idx[i] == a + i
  {
    seq(b - a, i => a + i)
  }

  lemma PickSpan<T>(s: seq<T>, a: nat, b: nat)
    requires a <= b <= |s|
    ensures Pick(s, Span(a, b)) == s[a..b]
  {
  }

  lemma PicksConcat(a: seq<nat>, b: seq<nat>, n: nat)
    requires Picks(a, n) && Picks(b, n) && (a != [] && b != [] ==> a[|a| - 1] < b[0])
    ensures Picks(a + b, n)
  {
  }
}
