/** What an audit receipt signs, and what a chain of receipts proves. */
module Audit {
  import opened Bytes
  import opened Wrappers

  type Octets = seq<byte>

  const HASH_SIZE := 32

  const ZEROS: Octets :=
    [0, 0, 0, 0, 0, 0, 0, 0, 0, 0, 0, 0, 0, 0, 0, 0, 0, 0, 0, 0, 0, 0, 0, 0, 0, 0, 0, 0, 0, 0, 0, 0]

  type Digest = d: Octets | |d| == HASH_SIZE witness ZEROS

  const ZERO_HASH: Digest := ZEROS

  /** "C3MAUDIT1" */
  const DOMAIN: Octets := [67, 51, 77, 65, 85, 68, 73, 84, 49]

  /** The foreign primitives: HMAC-SHA256 under a key, SHA-256, and the number that Python's int() reads from a text. */
  datatype Crypto = Crypto(mac: (Digest, Octets) -> Digest, sha: Octets -> Digest, numeral: string -> Option<int>)

  /** No two of these messages collide. Assumed of finitely many messages only: digests are short, messages are not. */
  ghost predicate CollisionFree(hash: Octets -> Digest, messages: set<Octets>) {
    forall a <- messages, b <- messages :: hash(a) == hash(b) ==> a == b
  }

  datatype Receipt = Receipt(sequence: nat, previous: Digest, alertHash: Digest, model: Digest, head: Digest)

  /** The 113 octets under the MAC. */
  function Message(sequence: nat, previous: Digest, alertHash: Digest, model: Digest): (m: Octets)
    ensures |m| == 113
  {
    DOMAIN + BigEndian(sequence, 8) + previous + alertHash + model
  }

  function MessageOf(r: Receipt): Octets {
    Message(r.sequence, r.previous, r.alertHash, r.model)
  }

  /** Equal octets were made from equal fields. */
  lemma {:induction false} MessageInjective(a: Receipt, b: Receipt)
    requires a.sequence < TWO_TO_THE_64 && b.sequence < TWO_TO_THE_64
    requires MessageOf(a) == MessageOf(b)
    ensures a.sequence == b.sequence && a.previous == b.previous
    ensures a.alertHash == b.alertHash && a.model == b.model
  {
    Widths();
    BigEndianRoundTrip(a.sequence, 8);
    BigEndianRoundTrip(b.sequence, 8);
    hide BigEndian, BigEndianValue, Pow256;
    MessageFields(a);
    MessageFields(b);
  }

  lemma {:induction false} MessageFields(r: Receipt)
    ensures MessageOf(r)[9..17] == BigEndian(r.sequence, 8) && MessageOf(r)[17..49] == r.previous
    ensures MessageOf(r)[49..81] == r.alertHash && MessageOf(r)[81..113] == r.model
  {
    hide BigEndian;
  }

  predicate Authentic(crypto: Crypto, key: Digest, r: Receipt) {
    r.head == crypto.mac(key, MessageOf(r))
  }

  /** The head that entry i must name: that of the entry before it. */
  function HeadBefore(rs: seq<Receipt>, i: nat): Digest
    requires i <= |rs|
  {
    if i == 0 then ZERO_HASH else rs[i - 1].head
  }

  function HeadOf(rs: seq<Receipt>): Digest {
    HeadBefore(rs, |rs|)
  }

  predicate Linked(crypto: Crypto, key: Digest, rs: seq<Receipt>, i: nat)
    requires i < |rs|
  {
    rs[i].sequence == i + 1 && rs[i].previous == HeadBefore(rs, i) && Authentic(crypto, key, rs[i])
  }

  /** A chain: numbered from 1, each receipt naming its predecessor's head, each head a MAC. */
  ghost predicate Chain(crypto: Crypto, key: Digest, rs: seq<Receipt>) {
    forall i: nat | i < |rs| :: Linked(crypto, key, rs, i)
  }

  ghost function Messages(rs: seq<Receipt>): set<Octets> {
    set i | 0 <= i < |rs| :: MessageOf(rs[i])
  }

  function Macs(crypto: Crypto, key: Digest): Octets -> Digest {
    m => crypto.mac(key, m)
  }

  /** A chain is determined by its length and its last head: each link is forced, from the last to the first. */
  lemma {:induction false} ChainDetermined(crypto: Crypto, key: Digest, a: seq<Receipt>, b: seq<Receipt>)
    requires Chain(crypto, key, a) && Chain(crypto, key, b)
    requires |a| == |b| < TWO_TO_THE_64 && HeadOf(a) == HeadOf(b)
    requires CollisionFree(Macs(crypto, key), Messages(a) + Messages(b))
    ensures a == b
  {
    hide Message, BigEndian;
    if a != [] {
      var n := |a| - 1;
      assert Linked(crypto, key, a, n) && Linked(crypto, key, b, n);
      assert MessageOf(a[n]) in Messages(a) && MessageOf(b[n]) in Messages(b);
      assert Macs(crypto, key)(MessageOf(a[n])) == Macs(crypto, key)(MessageOf(b[n]));
      MessageInjective(a[n], b[n]);
      ChainPrefix(crypto, key, a, n);
      ChainPrefix(crypto, key, b, n);
      ChainDetermined(crypto, key, a[..n], b[..n]);
      assert a == a[..n] + [a[n]] && b == b[..n] + [b[n]];
    }
  }

  lemma {:induction false} ChainPrefix(crypto: Crypto, key: Digest, rs: seq<Receipt>, n: nat)
    requires Chain(crypto, key, rs) && n <= |rs|
    ensures Chain(crypto, key, rs[..n]) && Messages(rs[..n]) <= Messages(rs)
  {
    forall i: nat | i < n ensures Linked(crypto, key, rs[..n], i) {
      assert Linked(crypto, key, rs, i);
    }
  }

  lemma {:induction false} ChainExtend(crypto: Crypto, key: Digest, rs: seq<Receipt>, r: Receipt)
    requires Chain(crypto, key, rs)
    requires r.sequence == |rs| + 1 && r.previous == HeadOf(rs) && Authentic(crypto, key, r)
    ensures Chain(crypto, key, rs + [r])
  {
    forall i: nat | i < |rs| ensures Linked(crypto, key, rs + [r], i) {
      assert Linked(crypto, key, rs, i);
    }
  }
}
