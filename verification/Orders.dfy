/** sorted() over a set of distinct items. */
module Orders {

  ghost predicate TotalOrder<T(!new)>(less: (T, T) -> bool) {
    && (forall a, b :: !(less(a, b) && less(b, a)) && (less(a, b) || less(b, a) <==> a != b))
    && (forall a, b, c :: less(a, b) && less(b, c) ==> less(a, c))
  }

  predicate IsFirst<T(==)>(less: (T, T) -> bool, item: T, items: set<T>) {
    item in items && forall other | other in items :: item == other || less(item, other)
  }

  lemma {:induction false} FirstExists<T(!new)>(less: (T, T) -> bool, items: set<T>)
    requires TotalOrder(less) && items != {}
    ensures exists item :: IsFirst(less, item, items)
  {
    var some :| some in items;
    var rest := items - {some};
    assert items == {some} + rest;
    if rest == {} {
      assert IsFirst(less, some, items);
    } else {
      FirstExists(less, rest);
      var first :| IsFirst(less, first, rest);
      assert IsFirst(less, if less(some, first) then some else first, items);
    }
  }

  function First<T(!new)>(less: (T, T) -> bool, items: set<T>): (first: T)
    requires TotalOrder(less) && items != {}
    ensures IsFirst(less, first, items)
  {
    FirstExists(less, items);
    var first :| IsFirst(less, first, items);
    first
  }

  ghost predicate Increasing<T>(less: (T, T) -> bool, items: seq<T>) {
    forall i, j | 0 <= i < j < |items| :: less(items[i], items[j])
  }

  /** The items in increasing order, each once. */
  function Sorted<T(!new)>(less: (T, T) -> bool, items: set<T>): (sorted: seq<T>)
    requires TotalOrder(less)
    ensures forall item :: item in sorted <==> item in items
    ensures Increasing(less, sorted)
  {
    if items == {} then [] else
      var first := First(less, items);
      [first] + Sorted(less, items - {first})
  }

  predicate Below(a: int, b: int) { a < b }

  predicate TextLess(a: string, b: string) {
    b != "" && (a == "" || a[0] < b[0] || (a[0] == b[0] && TextLess(a[1..], b[1..])))
  }

  /** The first text is less at a place: it ends there, or has the smaller character, and before it the two agree. */
  ghost predicate LessAt(a: string, b: string, k: nat) {
    k <= |a| && k < |b| && a[..k] == b[..k] && (k == |a| || a[k] < b[k])
  }

  lemma {:induction false} PlaceOfDifference(a: string, b: string) returns (k: nat)
    requires TextLess(a, b)
    ensures LessAt(a, b, k)
  {
    if a == "" || a[0] < b[0] {
      k := 0;
    } else {
      var rest := PlaceOfDifference(a[1..], b[1..]);
      k := rest + 1;
      LessAtRest(a, b, rest);
    }
  }

  lemma {:induction false} DifferenceOrders(a: string, b: string, k: nat)
    requires LessAt(a, b, k)
    ensures TextLess(a, b)
  {
    if k > 0 {
      assert a[..k][0] == b[..k][0];
      LessAtRest(a, b, k - 1);
      DifferenceOrders(a[1..], b[1..], k - 1);
    }
  }

  /** Texts are ordered by the first character in which they differ, a beginning before what it begins. */
  lemma {:induction false} TextLessIsLexicographic(a: string, b: string)
    ensures TextLess(a, b) <==> exists k: nat :: LessAt(a, b, k)
  {
    hide TextLess, LessAt;
    if TextLess(a, b) {
      var k := PlaceOfDifference(a, b);
    } else if k: nat :| LessAt(a, b, k) {
      DifferenceOrders(a, b, k);
    }
  }

  lemma {:induction false} LessAtRest(a: string, b: string, k: nat)
    requires a != [] && b != [] && a[0] == b[0]
    ensures LessAt(a, b, k + 1) <==> LessAt(a[1..], b[1..], k)
  {
    if k < |a| && k + 1 < |b| {
      assert a[..k + 1] == [a[0]] + a[1..][..k] && b[..k + 1] == [b[0]] + b[1..][..k];
    }
  }

  lemma {:induction false} TextLessTotal(a: string, b: string)
    ensures !(TextLess(a, b) && TextLess(b, a))
    ensures TextLess(a, b) || TextLess(b, a) <==> a != b
  {
    if a != "" && b != "" {
      assert a == [a[0]] + a[1..] && b == [b[0]] + b[1..];
      TextLessTotal(a[1..], b[1..]);
    }
  }

  lemma {:induction false} TextLessTransitive(a: string, b: string, c: string)
    requires TextLess(a, b) && TextLess(b, c)
    ensures TextLess(a, c)
  {
    if a != "" && b != "" && c != "" && a[0] == b[0] == c[0] {
      TextLessTransitive(a[1..], b[1..], c[1..]);
    }
  }

  lemma {:induction false} BelowIsTotal()
    ensures TotalOrder(Below)
  {
  }

  lemma {:induction false} TextLessIsTotal()
    ensures TotalOrder(TextLess)
  {
    hide TextLess;
    forall a, b ensures !(TextLess(a, b) && TextLess(b, a)) && (TextLess(a, b) || TextLess(b, a) <==> a != b) {
      TextLessTotal(a, b);
    }
    forall a, b, c | TextLess(a, b) && TextLess(b, c) ensures TextLess(a, c) {
      TextLessTransitive(a, b, c);
    }
  }
}
