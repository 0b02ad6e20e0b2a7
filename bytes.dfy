/**
 * Byte-level vocabulary shared by the framer, the reassembler and the record
 * decoder: the byte type, the additive checksum, JavaScript-style slices and the
 * copy helper that the builders use to fill a Uint8Array through a cursor.
 */
module Bytes {

  /** A value stored in a Uint8Array. */
  type Byte = b: int | 0 <= b < 256

  function Zeros(n: nat): (z: seq<Byte>)
    ensures |z| == n
    ensures forall i :: 0 <= i < n ==> z[i] == 0
  {
    seq(n, _ => 0)
  }

  /** Unsigned sum of all bytes, accumulated from the front. */
  function Sum(s: seq<Byte>): nat
  {
    if s == [] then 0 else Sum(s[..|s| - 1]) + s[|s| - 1]
  }

  lemma {:induction false} SumAppend(a: seq<Byte>, b: seq<Byte>)
    ensures Sum(a + b) == Sum(a) + Sum(b)
    decreases |b|
  {
    if b == [] {
      assert a + b == a;
    } else {
      var b' := b[..|b| - 1];
      assert (a + b)[..|a + b| - 1] == a + b';
      SumAppend(a, b');
    }
  }

  lemma {:induction false} SumZeros(n: nat)
    ensures Sum(Zeros(n)) == 0
  {
    if n > 0 {
      assert Zeros(n)[..n - 1] == Zeros(n - 1);
      SumZeros(n - 1);
    }
  }

  /** Overwriting one byte changes the sum by exactly the difference. */
  lemma {:induction false} SumUpdate(s: seq<Byte>, i: nat, v: Byte)
    requires i < |s|
    ensures Sum(s[i := v]) == Sum(s) - s[i] + v
  {
    assert s == s[..i] + [s[i]] + s[i + 1..];
    assert s[i := v] == s[..i] + [v] + s[i + 1..];
    SumAppend(s[..i] + [s[i]], s[i + 1..]);
    SumAppend(s[..i], [s[i]]);
    SumAppend(s[..i] + [v], s[i + 1..]);
    SumAppend(s[..i], [v]);
    assert Sum([s[i]]) == s[i] by { assert [s[i]][..0] == []; }
    assert Sum([v]) == v by { assert [v][..0] == []; }
  }

  /** The checksum of the bridge protocol: the low 8 bits of the unsigned byte sum. */
  method SumLsb(bytes: array<Byte>) returns (lsb: Byte)
    ensures lsb == Sum(bytes[..]) % 256
  {
    var sum: nat := 0;
    for i := 0 to bytes.Length
      invariant sum == Sum(bytes[..i])
    {
      assert bytes[..i + 1][..i] == bytes[..i];
      sum := sum + bytes[i];
    }
    assert bytes[..bytes.Length] == bytes[..];
    lsb := sum % 256;
  }

  /**
   * The n bytes that a copy of length n starting at `from` reads out of `src`;
   * a position past the end of `src` reads as undefined, which a Uint8Array stores as 0.
   */
  function Window(src: seq<Byte>, from: nat, n: nat): (w: seq<Byte>)
    ensures |w| == n
    ensures forall j :: 0 <= j < n ==> w[j] == if from + j < |src| then src[from + j] else 0
  {
    seq(n, j requires 0 <= j < n => if from + j < |src| then src[from + j] else 0)
  }

  function Min(a: int, b: int): int { if a < b then a else b }

  /** `bytes.slice(from, from + n)` in JavaScript: clamped to the end of the sequence. */
  function Slice(s: seq<Byte>, from: nat, n: nat): (r: seq<Byte>)
    ensures |r| == Min(n, |s| - Min(from, |s|))
    ensures forall j :: 0 <= j < |r| ==> r[j] == s[from + j]
  {
    s[Min(from, |s|)..Min(from + n, |s|)]
  }

  /** `s.slice(from)` in JavaScript: the suffix from `from`, empty when `from` is past the end. */
  function Drop(s: seq<Byte>, from: nat): (r: seq<Byte>)
    ensures |r| == |s| - Min(from, |s|)
    ensures forall j :: 0 <= j < |r| ==> r[j] == s[from + j]
  {
    s[Min(from, |s|)..]
  }

  /** Three consecutive slices are one slice of the total length. */
  lemma SliceSplit(s: seq<Byte>, from: nat, a: nat, b: nat, c: nat)
    ensures Slice(s, from, a) + Slice(s, from + a, b) + Slice(s, from + a + b, c)
         == s[Min(from, |s|)..Min(from + a + b + c, |s|)]
  {
  }

  /** A 32-bit integer packed little-endian, as the struct helper stores an `i` field. */
  function Int32Le(n: nat): (r: seq<Byte>)
    ensures |r| == 4
  {
    var b := n / 256;
    var c := b / 256;
    [n % 256, b % 256, c % 256, c / 256 % 256]
  }

  lemma Int32LeDecodes(n: nat)
    requires n < 0x1_0000_0000
    ensures var r := Int32Le(n); r[0] as int + 256 * (r[1] as int) + 65536 * (r[2] as int) + 16777216 * (r[3] as int) == n
  {
    var b := n / 256;
    var c := b / 256;
    var d := c / 256;
    assert n == n % 256 + 256 * b;
    assert b == b % 256 + 256 * c;
    assert c == c % 256 + 256 * d;
    assert d < 256;
  }

  /** The char codes of a byte string, as `String.fromCharCode` builds it. */
  function AsChars(s: seq<Byte>): (r: string)
    ensures |r| == |s|
    ensures forall i :: 0 <= i < |s| ==> r[i] as int == s[i]
  {
    seq(|s|, i requires 0 <= i < |s| => s[i] as char)
  }

  /**
   * Copies `n` bytes read from `src` at `offset` into `a` at `at` and returns the
   * count, as the struct helper's copyBytes does for the builders' cursor.
   */
  method CopyBytes(a: array<Byte>, at: nat, src: seq<Byte>, n: nat, offset: nat) returns (count: nat)
    requires at + n <= a.Length
    modifies a
    ensures count == n
    ensures a[..] == old(a[..at]) + Window(src, offset, n) + old(a[at + n..])
  {
    var w := Window(src, offset, n);
    for j := 0 to n
      invariant a[..] == old(a[..at]) + w[..j] + old(a[at + j..])
    {
      a[at + j] := w[j];
      assert w[..j + 1] == w[..j] + [w[j]];
    }
    assert w[..n] == w;
    count := n;
  }
}
