/** Bytes, fixed-width integers and concatenation: shared by every wire format of the model. */
module Bytes {

  type byte = b: int | 0 <= b < 256

  /** Concatenation of a sequence of sequences, in order. */
  function Flatten<T>(ss: seq<seq<T>>): seq<T> {
    if ss == [] then [] else ss[0] + Flatten(ss[1..])
  }

  lemma ConcatAssoc<T>(a: seq<T>, b: seq<T>, c: seq<T>)
    ensures (a + b) + c == a + (b + c)
  {
  }

  lemma {:induction false} FlattenAppend<T>(a: seq<seq<T>>, b: seq<seq<T>>)
    ensures Flatten(a + b) == Flatten(a) + Flatten(b)
  {
    if a == [] {
      assert a + b == b;
    } else {
      assert (a + b)[1..] == a[1..] + b;
      FlattenAppend(a[1..], b);
      ConcatAssoc(a[0], Flatten(a[1..]), Flatten(b));
    }
  }

  lemma FlattenSnoc<T>(a: seq<seq<T>>, x: seq<T>)
    ensures Flatten(a + [x]) == Flatten(a) + x
  {
    FlattenAppend(a, [x]);
    assert Flatten([x]) == x;
  }

  /** Byte k of a number, counted from the least significant one. */
  function ByteOf(n: nat, k: nat): byte {
    if k == 0 then n % 256 else ByteOf(n / 256, k - 1)
  }

  /** The bytes of a 32-bit number. */
  lemma {:induction false} BytesOf32(n: nat)
    ensures ByteOf(n, 0) == n % 256 && ByteOf(n, 1) == n / 0x100 % 256
    ensures ByteOf(n, 2) == n / 0x1_0000 % 256 && ByteOf(n, 3) == n / 0x100_0000 % 256
  {
    var a, b, c := n / 256, n / 256 / 256, n / 256 / 256 / 256;
    assert b == n / 0x1_0000 && c == n / 0x100_0000;
    assert ByteOf(n, 1) == ByteOf(a, 0);
    assert ByteOf(n, 2) == ByteOf(a, 1) == ByteOf(b, 0);
    assert ByteOf(n, 3) == ByteOf(a, 2) == ByteOf(b, 1) == ByteOf(c, 0);
  }

  /** A 32-bit value in the byte order of the host (x86: least significant byte first). */
  function Le32(n: nat): (s: seq<byte>)
    requires n < 0x1_0000_0000
    ensures |s| == 4
  {
    [n % 256, n / 0x100 % 256, n / 0x1_0000 % 256, n / 0x100_0000]
  }

  function FromLe32(s: seq<byte>): (n: nat)
    requires |s| == 4
    ensures n < 0x1_0000_0000
  {
    var a, b, c, d: int := s[0], s[1], s[2], s[3];
    a + 0x100 * b + 0x1_0000 * c + 0x100_0000 * d
  }

  lemma Le32RoundTrip(n: nat)
    requires n < 0x1_0000_0000
    ensures FromLe32(Le32(n)) == n
  {
    assert n / 0x1_0000 == n / 0x100 / 0x100;
    assert n / 0x100_0000 == n / 0x1_0000 / 0x100;
  }

  /** Byte k of the number stands at position k, in both directions. */
  lemma {:induction false} Le32Places(n: nat, s: seq<byte>, k: nat)
    requires n < 0x1_0000_0000 && |s| == 4 && k < 4
    ensures Le32(n)[k] == ByteOf(n, k)
    ensures s[k] == ByteOf(FromLe32(s), k)
  {
    assert Le32(FromLe32(s)) == s by { Le32Inverse(s); }
    PlacesOf(n, k);
    PlacesOf(FromLe32(s), k);
  }

  lemma {:induction false} PlacesOf(n: nat, k: nat)
    requires n < 0x1_0000_0000 && k < 4
    ensures Le32(n)[k] == ByteOf(n, k)
  {
    BytesOf32(n);
    assert n / 0x100_0000 % 256 == n / 0x100_0000;
  }

  lemma Le32Inverse(s: seq<byte>)
    requires |s| == 4
    ensures Le32(FromLe32(s)) == s
  {
    var a, b, c, d: int := s[0], s[1], s[2], s[3];
    var n := FromLe32(s);
    assert n / 0x100 == b + 0x100 * c + 0x1_0000 * d;
    assert n / 0x1_0000 == c + 0x100 * d;
    assert n / 0x100_0000 == d;
  }
}
