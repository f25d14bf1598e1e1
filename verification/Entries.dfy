/** The value a linked list of objects stands for: the finite map of its entries. */
module Entries {
  import opened Bytes

  datatype Entry = Entry(key: seq<byte>, value: seq<byte>)

  ghost predicate DistinctKeys(es: seq<Entry>) {
    forall i, j | 0 <= i < j < |es| :: es[i].key != es[j].key
  }

  /** The first entry for a key decides, as a front-to-back search would find it. */
  ghost function AsMap(es: seq<Entry>): map<seq<byte>, seq<byte>> {
    if es == [] then map[] else AsMap(es[1..])[es[0].key := es[0].value]
  }

  lemma {:induction false} Lookup(es: seq<Entry>, i: nat)
    requires DistinctKeys(es) && i < |es|
    ensures es[i].key in AsMap(es) && AsMap(es)[es[i].key] == es[i].value
  {
    if i > 0 {
      assert es[i] == es[1..][i - 1];
      Lookup(es[1..], i - 1);
    }
  }

  lemma {:induction false} Absent(es: seq<Entry>, key: seq<byte>)
    requires forall i | 0 <= i < |es| :: es[i].key != key
    ensures key !in AsMap(es)
  {
    if es != [] {
      assert es[0].key != key;
      forall i | 0 <= i < |es[1..]| ensures es[1..][i].key != key {
        assert es[1..][i] == es[i + 1];
      }
      Absent(es[1..], key);
    }
  }

  lemma {:induction false} Replace(es: seq<Entry>, i: nat, value: seq<byte>)
    requires DistinctKeys(es) && i < |es|
    ensures DistinctKeys(es[i := Entry(es[i].key, value)])
    ensures AsMap(es[i := Entry(es[i].key, value)]) == AsMap(es)[es[i].key := value]
  {
    var es' := es[i := Entry(es[i].key, value)];
    if i == 0 {
      assert es'[1..] == es[1..];
    } else {
      assert es'[1..] == es[1..][i - 1 := Entry(es[i].key, value)];
      Replace(es[1..], i - 1, value);
      assert es[0].key != es[i].key;
    }
  }

  function Without(es: seq<Entry>, i: nat): seq<Entry>
    requires i < |es|
  {
    es[..i] + es[i + 1..]
  }

  lemma {:induction false} CutAround<T>(s: seq<T>, i: nat)
    requires i < |s|
    ensures s == s[..i] + ([s[i]] + s[i + 1..])
  {
  }

  lemma {:induction false} WithoutMiddle(before: seq<Entry>, e: Entry, after: seq<Entry>)
    ensures Without(before + ([e] + after), |before|) == before + after
  {
  }

  lemma {:induction false} WithoutDistinct(es: seq<Entry>, i: nat)
    requires DistinctKeys(es) && i < |es|
    ensures DistinctKeys(Without(es, i))
  {
  }

  lemma {:induction false} Remove(es: seq<Entry>, i: nat)
    requires DistinctKeys(es) && i < |es|
    ensures AsMap(Without(es, i)) == AsMap(es) - {es[i].key}
  {
    hide DistinctKeys;
    if i == 0 {
      assert Without(es, 0) == es[1..];
      RemoveFirst(es);
    } else {
      WithoutFirst(es, i);
      Remove(es[1..], i - 1);
    }
  }

  lemma {:induction false} WithoutFirst(es: seq<Entry>, i: nat)
    requires DistinctKeys(es) && 0 < i < |es|
    ensures DistinctKeys(es[1..]) && es[0].key != es[i].key && es[1..][i - 1] == es[i]
    ensures Without(es, i)[0] == es[0] && Without(es, i)[1..] == Without(es[1..], i - 1)
  {
  }

  lemma {:induction false} RemoveFirst(es: seq<Entry>)
    requires DistinctKeys(es) && es != []
    ensures AsMap(es[1..]) == AsMap(es) - {es[0].key}
  {
    forall j | 0 <= j < |es[1..]| ensures es[1..][j].key != es[0].key {
      assert es[1..][j] == es[j + 1];
    }
    Absent(es[1..], es[0].key);
  }
}
