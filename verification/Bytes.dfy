/** Octets, fixed-width integers and the two byte orders the C and Python sides use. */
module Bytes {

  type byte = b: int | 0 <= b < 256

  const TWO_TO_THE_32 := 0x1_0000_0000
  const TWO_TO_THE_64 := 0x1_0000_0000_0000_0000

  function Pow256(n: nat): (p: nat)
    ensures p >= 1
  {
    if n == 0 then 1 else 256 * Pow256(n - 1)
  }

  /** The low n octets of v, most significant first (struct "!H", "!I", "!Q"). */
  function BigEndian(v: nat, n: nat): (s: seq<byte>)
    ensures |s| == n
    decreases n
  {
    if n == 0 then [] else BigEndian(v / 256, n - 1) + [v % 256]
  }

  function BigEndianValue(s: seq<byte>): nat {
    if s == [] then 0 else 256 * BigEndianValue(s[..|s| - 1]) + s[|s| - 1]
  }

  /** The memory image of an n-octet unsigned integer on a little-endian machine. */
  function LittleEndian(v: nat, n: nat): (s: seq<byte>)
    ensures |s| == n
    decreases n
  {
    if n == 0 then [] else [v % 256] + LittleEndian(v / 256, n - 1)
  }

  lemma {:induction false} BigEndianBound(s: seq<byte>)
    ensures BigEndianValue(s) < Pow256(|s|)
  {
    if s != [] {
      BigEndianBound(s[..|s| - 1]);
    }
  }

  lemma {:induction false} BigEndianRoundTrip(v: nat, n: nat)
    requires v < Pow256(n)
    ensures BigEndianValue(BigEndian(v, n)) == v
    decreases n
  {
    if n > 0 {
      BigEndianRoundTrip(v / 256, n - 1);
      var s := BigEndian(v, n);
      assert s[..n - 1] == BigEndian(v / 256, n - 1);
    }
  }

  lemma {:induction false} BigEndianOfValue(s: seq<byte>)
    ensures BigEndian(BigEndianValue(s), |s|) == s
  {
    if s != [] {
      BigEndianOfValue(s[..|s| - 1]);
      assert s == s[..|s| - 1] + [s[|s| - 1]];
    }
  }

  lemma {:induction false} Widths()
    ensures Pow256(2) == 0x1_0000 && Pow256(4) == TWO_TO_THE_32 && Pow256(8) == TWO_TO_THE_64
  {
    assert Pow256(4) == 256 * (256 * (256 * (256 * Pow256(0))));
    assert Pow256(8) == 256 * (256 * (256 * (256 * Pow256(4))));
  }

  /** Octet i of the big-endian form is what a shift by the distance from the end leaves. */
  lemma {:induction false} BigEndianAt(v: nat, n: nat, i: nat)
    requires i < n
    ensures BigEndian(v, n)[n - 1 - i] == v / Pow256(i) % 256
    decreases n
  {
    if i > 0 {
      BigEndianAt(v / 256, n - 1, i - 1);
      ShiftTwice(v, i);
    }
  }

  lemma {:induction false} ShiftTwice(v: nat, i: nat)
    requires i > 0
    ensures v / 256 / Pow256(i - 1) == v / Pow256(i)
  {
    var p := Pow256(i - 1);
    var q := v / 256 / p;
    var r := v / 256 % p;
    DivisionIdentity(v / 256, p);
    assert v == 256 * (v / 256) + v % 256;
    Associates(256, q, p);
    QuotientUnique(v, 256 * p, q, 256 * r + v % 256);
  }

  lemma {:induction false} DivisionIdentity(v: nat, d: nat)
    requires d > 0
    ensures v == (v / d) * d + v % d
  {
  }

  lemma {:induction false} Associates(a: int, b: int, c: int)
    ensures a * (b * c) == b * (a * c)
  {
  }

  lemma {:induction false} QuotientUnique(v: nat, d: nat, q: nat, r: nat)
    requires d > 0 && v == q * d + r && r < d
    ensures v / d == q
  {
    var t := v / d - q;
    assert v == (v / d) * d + v % d;
    assert t * d == (v / d) * d - q * d == r - v % d;
    NoSmallMultiple(t, d);
  }

  lemma {:induction false} NoSmallMultiple(t: int, d: int)
    requires d > 0
    ensures t >= 1 ==> t * d >= d
    ensures t <= -1 ==> t * d <= -d
  {
    if t >= 1 {
      assert (t - 1) * d >= 0;
    }
    if t <= -1 {
      assert (-t - 1) * d >= 0;
    }
  }

  /** memcpy to a place inside a buffer. */
  method Memcpy(buffer: array<byte>, at: nat, octets: seq<byte>)
    requires at + |octets| <= buffer.Length
    modifies buffer
    ensures buffer[..] == old(buffer[..at]) + octets + old(buffer[at + |octets|..])
  {
    for i := 0 to |octets|
      invariant buffer[..at] == old(buffer[..at])
      invariant buffer[at..at + i] == octets[..i]
      invariant buffer[at + |octets|..] == old(buffer[at + |octets|..])
    {
      buffer[at + i] := octets[i];
    }
  }
}
