/** sorted() and sort() over lists: a stable insertion sort by any order. */
module Sorting {

  /** Neither is before itself, and being before is decided by a key: what is not before b and b not before c is
      passed on. */
  ghost predicate WeakOrder<T(!new)>(before: (T, T) -> bool) {
    && (forall a, b :: before(a, b) ==> !before(b, a))
    && (forall a, b, c :: !before(a, b) && !before(b, c) ==> !before(a, c))
  }

  /** Ahead of the first item that it is not behind: items that are alike stay in their order. */
  function Place<T>(before: (T, T) -> bool, item: T, sorted: seq<T>): (r: seq<T>)
    ensures |r| == |sorted| + 1
  {
    if sorted == [] || !before(sorted[0], item) then [item] + sorted
    else [sorted[0]] + Place(before, item, sorted[1..])
  }

  function StableSorted<T>(before: (T, T) -> bool, items: seq<T>): (r: seq<T>)
    ensures |r| == |items|
  {
    if items == [] then [] else Place(before, items[0], StableSorted(before, items[1..]))
  }

  ghost predicate Ordered<T>(before: (T, T) -> bool, items: seq<T>) {
    forall i, j | 0 <= i <= j < |items| :: !before(items[j], items[i])
  }

  /** The items that are neither before this one nor behind it, in the order given. */
  function Alike<T>(before: (T, T) -> bool, item: T, items: seq<T>): seq<T> {
    if items == [] then []
    else (if before(items[0], item) || before(item, items[0]) then [] else [items[0]]) + Alike(before, item, items[1..])
  }

  lemma {:induction false} PlaceKeeps<T>(before: (T, T) -> bool, item: T, sorted: seq<T>)
    ensures multiset(Place(before, item, sorted)) == multiset{item} + multiset(sorted)
  {
    if sorted != [] && before(sorted[0], item) {
      PlaceKeeps(before, item, sorted[1..]);
      assert sorted == [sorted[0]] + sorted[1..];
    }
  }

  lemma {:induction false} PlaceIsOrdered<T(!new)>(before: (T, T) -> bool, item: T, sorted: seq<T>)
    requires WeakOrder(before) && Ordered(before, sorted)
    ensures Ordered(before, Place(before, item, sorted))
  {
    if sorted != [] && before(sorted[0], item) {
      var rest := Place(before, item, sorted[1..]);
      PlaceIsOrdered(before, item, sorted[1..]);
      PlaceKeeps(before, item, sorted[1..]);
      forall j | 0 <= j < |rest| ensures !before(rest[j], sorted[0]) {
        assert rest[j] in multiset(rest);
        assert rest[j] == item || rest[j] in sorted[1..];
      }
    }
  }

  lemma {:induction false} PlaceIsStable<T(!new)>(before: (T, T) -> bool, item: T, sorted: seq<T>, other: T)
    requires WeakOrder(before)
    ensures Alike(before, other, Place(before, item, sorted)) == Alike(before, other, [item] + sorted)
  {
    assert ([item] + sorted)[1..] == sorted;
    if sorted != [] && before(sorted[0], item) {
      PlaceIsStable(before, item, sorted[1..], other);
      assert ([item] + sorted[1..])[1..] == sorted[1..];
    }
  }

  /** The items in order, each as often as given, and those that are alike in the order given. */
  lemma {:induction false} StableSortedIsSort<T(!new)>(before: (T, T) -> bool, items: seq<T>)
    requires WeakOrder(before)
    ensures Ordered(before, StableSorted(before, items))
    ensures multiset(StableSorted(before, items)) == multiset(items)
    ensures forall other :: Alike(before, other, StableSorted(before, items)) == Alike(before, other, items)
  {
    if items != [] {
      var rest := StableSorted(before, items[1..]);
      StableSortedIsSort(before, items[1..]);
      PlaceIsOrdered(before, items[0], rest);
      PlaceKeeps(before, items[0], rest);
      assert items == [items[0]] + items[1..];
      forall other ensures Alike(before, other, Place(before, items[0], rest)) == Alike(before, other, items) {
        PlaceIsStable(before, items[0], rest, other);
        assert ([items[0]] + rest)[1..] == rest;
      }
    }
  }

  lemma {:induction false} StableSortedOfOrdered<T>(before: (T, T) -> bool, items: seq<T>)
    requires Ordered(before, items)
    ensures StableSorted(before, items) == items
  {
    if items != [] {
      StableSortedOfOrdered(before, items[1..]);
    }
  }
}
