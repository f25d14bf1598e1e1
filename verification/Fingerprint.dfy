/** The 64-bit fingerprints of keys and requests in the telemetry (src/gateway/gateway.c). */
module Fingerprint {
  import opened Bytes
  import opened Protocol

  const OFFSET := 1469598103934665603
  const PRIME := 1099511628211

  /** The inverse of PRIME modulo 2^64, and the quotient that shows it. */
  const INVERSE := 14886173955864302971
  const QUOTIENT := 887285111055

  /** A uint64_t. */
  type word = w: int | 0 <= w < 0x1_0000_0000_0000_0000

  function Pow2(n: nat): (p: nat)
    ensures p >= 1
  {
    if n == 0 then 1 else 2 * Pow2(n - 1)
  }

  /** Bitwise exclusive or of the low n bits. */
  function XorBits(a: nat, b: nat, n: nat): (x: nat)
    ensures x < Pow2(n)
    decreases n
  {
    if n == 0 then 0 else 2 * XorBits(a / 2, b / 2, n - 1) + (a + b) % 2
  }

  function Xor(a: word, b: word): word {
    WordSize();
    XorBits(a, b, 64)
  }

  lemma {:induction false} OctetSize()
    ensures Pow2(8) == 256
  {
    assert Pow2(2) == 4;
    PowersAdd(2, 2);
    PowersAdd(4, 4);
  }

  lemma {:induction false} WordSize()
    ensures Pow2(64) == TWO_TO_THE_64
  {
    hide Pow2;
    OctetSize();
    PowersAdd(8, 8);
    PowersAdd(16, 16);
    PowersAdd(32, 32);
  }

  lemma {:induction false} PowersAdd(m: nat, n: nat)
    ensures Pow2(m + n) == Pow2(m) * Pow2(n)
  {
    if m > 0 {
      PowersAdd(m - 1, n);
    }
  }

  /** Multiplication of unsigned 64-bit integers wraps around. */
  function Times(hash: word): word {
    hash * PRIME % TWO_TO_THE_64
  }

  lemma {:induction false} HalfThen(a: nat, p: nat)
    requires p > 0
    ensures a / 2 / p == a / (2 * p)
  {
    var q, r := a / 2 / p, a / 2 % p;
    DivisionIdentity(a / 2, p);
    Associates(q, 2, p);
    QuotientUnique(a, 2 * p, q, 2 * r + a % 2);
  }

  function Bit(a: nat, i: nat): nat {
    a / Pow2(i) % 2
  }

  lemma {:induction false} BitOfHalf(a: nat, i: nat)
    ensures Bit(a, 0) == a % 2
    ensures i > 0 ==> Bit(a, i) == Bit(a / 2, i - 1)
  {
    assert a / Pow2(0) == a;
    if i > 0 {
      HalfThen(a, Pow2(i - 1));
    }
  }

  /** A bit of the exclusive or is set when the two numbers differ in it. */
  lemma {:induction false} XorBitsAt(a: nat, b: nat, n: nat, i: nat)
    requires i < n
    ensures Bit(XorBits(a, b, n), i) == 1 <==> Bit(a, i) != Bit(b, i)
    decreases n
  {
    hide Bit, XorBits, Pow2;
    XorBitsStep(a, b, n);
    BitOfHalf(a, i);
    BitOfHalf(b, i);
    BitOfHalf(XorBits(a, b, n), i);
    if i > 0 {
      XorBitsAt(a / 2, b / 2, n - 1, i - 1);
    }
  }

  lemma {:induction false} XorIsBitwise(a: word, b: word, i: nat)
    requires i < 64
    ensures Bit(Xor(a, b), i) == 1 <==> Bit(a, i) != Bit(b, i)
  {
    XorBitsAt(a, b, 64, i);
  }

  lemma {:induction false} XorBitsNeutral(a: nat, n: nat)
    requires a < Pow2(n)
    ensures XorBits(a, 0, n) == a == XorBits(0, a, n) && XorBits(a, a, n) == 0
    decreases n
  {
    if n > 0 {
      XorBitsNeutral(a / 2, n - 1);
    }
  }

  lemma {:induction false} XorNeutral(a: word)
    ensures Xor(a, 0) == a == Xor(0, a) && Xor(a, a) == 0
  {
    WordSize();
    XorBitsNeutral(a, 64);
  }

  /** One step of the loop. */
  function Mix(hash: word, octet: byte): word {
    Times(Xor(hash, octet))
  }

  function Fold(hash: word, octets: seq<byte>): word {
    if octets == [] then hash else Mix(Fold(hash, octets[..|octets| - 1]), octets[|octets| - 1])
  }

  method FingerprintUpdate(start: word, octets: seq<byte>) returns (hash: word)
    ensures hash == Fold(start, octets)
  {
    hide Xor, Times;
    hash := start;
    for index := 0 to |octets|
      invariant hash == Fold(start, octets[..index])
    {
      hash := Xor(hash, octets[index]);
      hash := Times(hash);
      assert octets[..index + 1][..index] == octets[..index];
    }
    assert octets[..|octets|] == octets;
  }

  // ----- what is hashed

  /** The octets fed to the hash; the lengths and the operation as a little-endian machine stores them. */
  function Stream(r: Request, includeValue: bool): seq<byte> {
    LittleEndian(|r.key|, 4) + r.key +
      if includeValue then LittleEndian(r.operation, 2) + LittleEndian(|r.value|, 4) + r.value else []
  }

  function Finish(hash: word, secret: word): word {
    Times(Xor(hash, secret / 0x2_0000))
  }

  function Keyed(octets: seq<byte>, secret: word): word {
    Finish(Fold(Xor(OFFSET, secret), octets), secret)
  }

  /** Each part at its place: length, key, operation, length, value. */
  lemma {:induction false} KnownStream()
    ensures Stream(Request(9, 1, [97], [7, 8]), false) == [1, 0, 0, 0, 97]
    ensures Stream(Request(9, 1, [97], [7, 8]), true) == [1, 0, 0, 0, 97, 1, 0, 2, 0, 0, 0, 7, 8]
  {
    SmallLittleEndian(1);
    SmallLittleEndian(2);
  }

  lemma {:induction false} SmallLittleEndian(v: byte)
    ensures LittleEndian(v, 2) == [v, 0] && LittleEndian(v, 4) == [v, 0, 0, 0]
  {
    assert LittleEndian(0, 1) == [0];
    assert LittleEndian(0, 2) == [0, 0];
    assert LittleEndian(0, 3) == [0, 0, 0];
  }

  /** Fingerprints of nothing and of a zero octet: the start, the multiplier and the secret's shift in numbers. */
  lemma {:induction false} KnownFingerprints()
    ensures Keyed([], 0) == 4953163356653287321
    ensures Keyed([0], 0) == 11126445248426326267
    ensures Keyed([], 1469598103934665603) == 15585588167785986314
  {
    hide Xor;
    XorNeutral(OFFSET);
    XorNeutral(OFFSET / 0x2_0000);
    XorNeutral(Times(OFFSET));
    assert [0][..0] == [];
  }

  lemma {:induction false} FoldAppend(hash: word, a: seq<byte>, b: seq<byte>)
    ensures Fold(hash, a + b) == Fold(Fold(hash, a), b)
    decreases |b|
  {
    hide Mix;
    if b == [] {
      assert a + b == a;
    } else {
      assert (a + b)[..|a + b| - 1] == a + b[..|b| - 1];
      FoldAppend(hash, a, b[..|b| - 1]);
    }
  }

  method KeyedFingerprint(request: Request, includeValue: bool, secret: word) returns (hash: word)
    ensures hash == Keyed(Stream(request, includeValue), secret)
  {
    hide Fold, Finish, LittleEndian;
    hash := Xor(OFFSET, secret);
    ghost var start := hash;
    hash := FingerprintUpdate(hash, LittleEndian(|request.key|, 4));
    hash := FingerprintUpdate(hash, request.key);
    FoldAppend(start, LittleEndian(|request.key|, 4), request.key);
    ghost var first := LittleEndian(|request.key|, 4) + request.key;
    if includeValue {
      hash := FingerprintUpdate(hash, LittleEndian(request.operation, 2));
      hash := FingerprintUpdate(hash, LittleEndian(|request.value|, 4));
      hash := FingerprintUpdate(hash, request.value);
      FoldAppend(start, first, LittleEndian(request.operation, 2));
      FoldAppend(start, first + LittleEndian(request.operation, 2), LittleEndian(|request.value|, 4));
      FoldAppend(start, first + LittleEndian(request.operation, 2) + LittleEndian(|request.value|, 4), request.value);
      assert Stream(request, true) ==
        first + LittleEndian(request.operation, 2) + LittleEndian(|request.value|, 4) + request.value;
    } else {
      assert Stream(request, false) == first;
    }
    hash := Finish(hash, secret);
  }

  /** The stream spells out its request: nothing is lost before the hashing begins. */
  lemma {:induction false} StreamDecodes(a: Request, b: Request, includeValue: bool)
    requires ValidRequest(a) && ValidRequest(b)
    requires Stream(a, includeValue) == Stream(b, includeValue)
    ensures a.key == b.key
    ensures includeValue ==> a.operation == b.operation && a.value == b.value
  {
    Widths();
    StreamParts(a, includeValue);
    StreamParts(b, includeValue);
    LittleEndianInjective(|a.key|, |b.key|, 4);
    if includeValue {
      LittleEndianInjective(a.operation, b.operation, 2);
    }
  }

  lemma {:induction false} StreamParts(r: Request, includeValue: bool)
    requires ValidRequest(r)
    ensures var s, k := Stream(r, includeValue), 4 + |r.key|;
      && k <= |s| && s[..4] == LittleEndian(|r.key|, 4) && s[4..k] == r.key
      && (includeValue ==> k + 6 <= |s| && s[k..k + 2] == LittleEndian(r.operation, 2) && s[k + 6..] == r.value)
  {
    hide LittleEndian;
  }

  lemma {:induction false} LittleEndianInjective(v: nat, w: nat, n: nat)
    requires v < Pow256(n) && w < Pow256(n) && LittleEndian(v, n) == LittleEndian(w, n)
    ensures v == w
    decreases n
  {
    if n > 0 {
      assert LittleEndian(v, n)[0] == LittleEndian(w, n)[0];
      assert LittleEndian(v, n)[1..] == LittleEndian(v / 256, n - 1);
      assert LittleEndian(w, n)[1..] == LittleEndian(w / 256, n - 1);
      LittleEndianInjective(v / 256, w / 256, n - 1);
    }
  }

  // ----- no step loses information

  lemma {:induction false} TimesInjective(x: word, y: word)
    requires Times(x) == Times(y)
    ensures x == y
  {
    var s := x * PRIME / TWO_TO_THE_64 - y * PRIME / TWO_TO_THE_64;
    assert x * PRIME - y * PRIME == s * TWO_TO_THE_64;
    OnlyZeroVanishes(x - y, s);
  }

  /** A multiple of the prime that is divisible by 2^64 is a multiple of 2^64 of the prime. */
  lemma {:induction false} OnlyZeroVanishes(d: int, s: int)
    requires d * PRIME == s * TWO_TO_THE_64 && -TWO_TO_THE_64 < d < TWO_TO_THE_64
    ensures d == 0
  {
    var m := s * INVERSE - d * QUOTIENT;
    assert d == m * TWO_TO_THE_64;
    NoSmallMultiple(m, TWO_TO_THE_64);
  }

  lemma {:induction false} XorBitsStep(a: nat, b: nat, n: nat)
    requires n > 0
    ensures XorBits(a, b, n) / 2 == XorBits(a / 2, b / 2, n - 1) && XorBits(a, b, n) % 2 == (a + b) % 2
    ensures a < Pow2(n) <==> a / 2 < Pow2(n - 1)
  {
  }

  lemma {:induction false} SameBit(a: nat, b: nat, k: nat)
    requires (a + k) % 2 == (b + k) % 2 && a / 2 == b / 2
    ensures a == b
  {
  }

  lemma {:induction false} XorBitsInjective(a: nat, b: nat, k: nat, n: nat)
    requires a < Pow2(n) && b < Pow2(n)
    requires XorBits(a, k, n) == XorBits(b, k, n) || XorBits(k, a, n) == XorBits(k, b, n)
    ensures a == b
    decreases n
  {
    if n > 0 {
      hide XorBits, Pow2;
      XorBitsStep(a, k, n);
      XorBitsStep(b, k, n);
      XorBitsStep(k, a, n);
      XorBitsStep(k, b, n);
      XorBitsInjective(a / 2, b / 2, k / 2, n - 1);
      SameBit(a, b, k);
    }
  }

  lemma {:induction false} XorCancels(x: word, y: word, k: word)
    ensures Xor(x, k) == Xor(y, k) ==> x == y
    ensures Xor(k, x) == Xor(k, y) ==> x == y
  {
    WordSize();
    if Xor(x, k) == Xor(y, k) || Xor(k, x) == Xor(k, y) {
      XorBitsInjective(x, y, k, 64);
    }
  }

  /** A step is a bijection of the state for every octet, and different octets lead to different states. */
  lemma {:induction false} MixInjective(hash: word, other: word, a: byte, b: byte)
    requires Mix(hash, a) == Mix(other, b)
    ensures a == b ==> hash == other
    ensures hash == other ==> a == b
  {
    hide Times, Xor;
    TimesInjective(Xor(hash, a), Xor(other, b));
    XorCancels(hash, other, a);
    XorCancels(a, b, hash);
  }

  lemma {:induction false} FoldInjective(hash: word, other: word, octets: seq<byte>)
    requires Fold(hash, octets) == Fold(other, octets)
    ensures hash == other
    decreases |octets|
  {
    hide Mix;
    if octets != [] {
      var n := |octets| - 1;
      MixInjective(Fold(hash, octets[..n]), Fold(other, octets[..n]), octets[n], octets[n]);
      FoldInjective(hash, other, octets[..n]);
    }
  }

  /** Streams that differ in exactly one place are never given the same fingerprint. */
  lemma {:induction false} OneOctetAlwaysShows(before: seq<byte>, a: byte, b: byte, after: seq<byte>, secret: word)
    requires a != b
    ensures Keyed(before + [a] + after, secret) != Keyed(before + [b] + after, secret)
  {
    hide Mix, Times, Fold;
    var start := Xor(OFFSET, secret);
    FoldAppend(start, before + [a], after);
    FoldAppend(start, before + [b], after);
    FoldLast(start, before, a);
    FoldLast(start, before, b);
    if Keyed(before + [a] + after, secret) == Keyed(before + [b] + after, secret) {
      FinishInjective(Fold(start, before + [a] + after), Fold(start, before + [b] + after), secret);
      FoldInjective(Fold(start, before + [a]), Fold(start, before + [b]), after);
      MixInjective(Fold(start, before), Fold(start, before), a, b);
    }
  }

  lemma {:induction false} FoldLast(start: word, before: seq<byte>, a: byte)
    ensures Fold(start, before + [a]) == Mix(Fold(start, before), a)
  {
    hide Mix;
    assert (before + [a])[..|before|] == before;
  }

  lemma {:induction false} FinishInjective(x: word, y: word, secret: word)
    requires Finish(x, secret) == Finish(y, secret)
    ensures x == y
  {
    hide Times, Xor;
    TimesInjective(Xor(x, secret / 0x2_0000), Xor(y, secret / 0x2_0000));
    XorCancels(x, y, secret / 0x2_0000);
  }

  /** Flipping one octet of a value, and nothing else, always changes the request fingerprint but not the key's. */
  lemma {:induction false} OneValueOctetShows(r: Request, i: nat, octet: byte, secret: word)
    requires i < |r.value| && octet != r.value[i]
    ensures var changed := r.(value := r.value[i := octet]);
      && Keyed(Stream(changed, true), secret) != Keyed(Stream(r, true), secret)
      && Keyed(Stream(changed, false), secret) == Keyed(Stream(r, false), secret)
  {
    hide Keyed, LittleEndian;
    var changed := r.(value := r.value[i := octet]);
    var before := LittleEndian(|r.key|, 4) + r.key + LittleEndian(r.operation, 2) + LittleEndian(|r.value|, 4) + r.value[..i];
    var after := r.value[i + 1..];
    assert Stream(r, true) == before + [r.value[i]] + after;
    assert Stream(changed, true) == before + [octet] + after;
    OneOctetAlwaysShows(before, octet, r.value[i], after, secret);
  }
}
