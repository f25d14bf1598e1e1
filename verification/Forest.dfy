/** Exporting a fitted forest's trees and scoring rows with them (training.py, iforest_runtime.py). */
module Forest {

  const LEAF := -1

  /** The parallel arrays of one fitted tree; node 0 is the root. */
  datatype Arrays = Arrays(left: seq<int>, right: seq<int>, feature: seq<int>, threshold: seq<real>, samples: seq<int>)

  /** The tree the arrays lay out, each node carrying its index. */
  datatype Tree = Tip(id: nat) | Fork(id: nat, low: Tree, high: Tree)

  function Ids(t: Tree): set<nat> {
    match t
    case Tip(id) => {id}
    case Fork(id, low, high) => {id} + Ids(low) + Ids(high)
  }

  predicate Distinct(t: Tree) {
    t.Fork? ==>
      && t.id !in Ids(t.low) + Ids(t.high) && Ids(t.low) !! Ids(t.high)
      && Distinct(t.low) && Distinct(t.high)
  }

  predicate SameLengths(a: Arrays) {
    |a.left| == |a.right| == |a.feature| == |a.threshold| == |a.samples|
  }

  ghost predicate LaidOut(a: Arrays, t: Tree)
    requires SameLengths(a)
  {
    t.id < |a.left| &&
    match t
    case Tip(id) => a.left[id] == LEAF
    case Fork(id, low, high) =>
      a.left[id] == low.id && a.right[id] == high.id && LaidOut(a, low) && LaidOut(a, high)
  }

  /** The arrays form this binary tree rooted at 0, with no index left over. */
  ghost predicate Forms(a: Arrays, t: Tree) {
    && SameLengths(a) && LaidOut(a, t)
    && t.id == 0 && Distinct(t) && forall v: nat :: v in Ids(t) <==> v < |a.left|
  }

  function DepthIn(t: Tree, v: nat): nat
    requires v in Ids(t)
  {
    if v == t.id then 0
    else if v in Ids(t.low) then 1 + DepthIn(t.low, v)
    else 1 + DepthIn(t.high, v)
  }

  // ----- depth is distance from the root

  /** A downward path through the arrays from the root. */
  ghost predicate Walk(a: Arrays, path: seq<nat>)
    requires SameLengths(a)
  {
    && path != [] && path[0] == 0
    && (forall i | 0 <= i < |path| :: path[i] < |a.left|)
    && forall i: nat | i + 1 < |path| :: StepDown(a, path[i], path[i + 1])
  }

  predicate StepDown(a: Arrays, v: nat, child: nat)
    requires SameLengths(a) && v < |a.left|
  {
    a.left[v] != LEAF && (child == a.left[v] || child == a.right[v])
  }

  lemma {:induction false} ChildDepth(a: Arrays, t: Tree, v: nat, child: nat)
    requires SameLengths(a) && LaidOut(a, t) && Distinct(t) && v in Ids(t) && v < |a.left| && StepDown(a, v, child)
    ensures child in Ids(t) && DepthIn(t, child) == DepthIn(t, v) + 1
  {
    match t
    case Tip(id) =>
    case Fork(id, low, high) =>
      if v == id {
        RootDepth(low);
        RootDepth(high);
      } else if v in Ids(low) {
        ChildDepth(a, low, v, child);
      } else {
        ChildDepth(a, high, v, child);
      }
  }

  lemma {:induction false} RootDepth(t: Tree)
    ensures t.id in Ids(t) && DepthIn(t, t.id) == 0
  {
  }

  lemma {:induction false} WalkLength(a: Arrays, t: Tree, path: seq<nat>)
    requires Forms(a, t) && Walk(a, path)
    ensures var v := path[|path| - 1]; v in Ids(t) && DepthIn(t, v) == |path| - 1
  {
    if |path| == 1 {
      RootDepth(t);
    } else {
      var shorter := path[..|path| - 1];
      forall i: nat | i + 1 < |shorter| ensures StepDown(a, shorter[i], shorter[i + 1]) {
        assert StepDown(a, path[i], path[i + 1]);
      }
      WalkLength(a, t, shorter);
      assert StepDown(a, path[|path| - 2], path[|path| - 2 + 1]);
      ChildDepth(a, t, path[|path| - 2], path[|path| - 1]);
    }
  }

  /** Every index is reached: the path to it inside a subtree. */
  lemma {:induction false} PathTo(a: Arrays, t: Tree, v: nat) returns (path: seq<nat>)
    requires SameLengths(a) && LaidOut(a, t) && Distinct(t) && v in Ids(t)
    ensures |path| == DepthIn(t, v) + 1 && path[0] == t.id && path[|path| - 1] == v
    ensures forall i | 0 <= i < |path| :: path[i] < |a.left|
    ensures forall i: nat | i + 1 < |path| :: StepDown(a, path[i], path[i + 1])
  {
    if v == t.id {
      path := [v];
    } else {
      var rest := PathTo(a, if v in Ids(t.low) then t.low else t.high, v);
      path := [t.id] + rest;
      forall i: nat | i + 1 < |path| ensures path[i] < |a.left| && StepDown(a, path[i], path[i + 1]) {
        if i > 0 {
          assert StepDown(a, rest[i - 1], rest[i - 1 + 1]);
        }
      }
    }
  }

  /** A node's depth is the length of the one way down to it. */
  lemma {:induction false} DepthIsDistance(a: Arrays, t: Tree, v: nat, d: nat)
    requires Forms(a, t) && v < |a.left|
    ensures v in Ids(t) && (DepthIn(t, v) == d <==> exists path :: Walk(a, path) && |path| == d + 1 && path[d] == v)
  {
    var path := PathTo(a, t, v);
    assert Walk(a, path);
    forall path' | Walk(a, path') && |path'| == d + 1 && path'[d] == v ensures DepthIn(t, v) == d {
      WalkLength(a, t, path');
    }
  }

  // ----- the export: depths by an explicit stack

  function Size(t: Tree): nat {
    match t
    case Tip(_) => 1
    case Fork(_, low, high) => 1 + Size(low) + Size(high)
  }

  function Sizes(ts: seq<Tree>): nat {
    if ts == [] then 0 else Sizes(ts[..|ts| - 1]) + Size(ts[|ts| - 1])
  }

  function AllIds(ts: seq<Tree>): set<nat> {
    if ts == [] then {} else AllIds(ts[..|ts| - 1]) + Ids(ts[|ts| - 1])
  }

  /** A pending stack entry: a subtree of the whole, and how far down it hangs. */
  ghost predicate Hangs(a: Arrays, whole: Tree, sub: Tree, entry: (int, int))
    requires SameLengths(a)
  {
    && entry.0 == sub.id && LaidOut(a, sub) && Distinct(sub)
    && forall v | v in Ids(sub) :: v in Ids(whole) && DepthIn(whole, v) == entry.1 + DepthIn(sub, v)
  }

  lemma {:induction false} ChildrenHang(a: Arrays, whole: Tree, sub: Tree, entry: (int, int))
    requires SameLengths(a) && Hangs(a, whole, sub, entry) && sub.Fork?
    ensures Hangs(a, whole, sub.low, (sub.low.id, entry.1 + 1))
    ensures Hangs(a, whole, sub.high, (sub.high.id, entry.1 + 1))
  {
    forall v | v in Ids(sub.high) ensures v in Ids(whole) && DepthIn(whole, v) == entry.1 + 1 + DepthIn(sub.high, v) {
      assert v !in Ids(sub.low) && v != sub.id;
    }
  }

  method ExportDepths(a: Arrays, ghost t: Tree) returns (depths: array<int>)
    requires Forms(a, t)
    ensures fresh(depths) && depths.Length == |a.left|
    ensures forall v | 0 <= v < depths.Length :: v in Ids(t) && depths[v] == DepthIn(t, v)
  {
    depths := new int[|a.left|](_ => 0);
    var stack: seq<(int, int)> := [(0, 0)];
    ghost var pending := [t];
    StackStarts(a, t);
    hide AllIds, Sizes, Size, DepthIn, Ids, StackHangs, DepthsSoFar, LaidOut, Distinct, Forms;
    NoneYet(a, t, depths[..]);
    while stack != []
      invariant StackHangs(a, t, stack, pending) && DepthsSoFar(a, t, pending, depths[..])
      decreases Sizes(pending)
    {
      var top := |stack| - 1;
      var (node, depth) := stack[top];
      ghost var before := depths[..];
      ghost var sub := Top(a, t, stack, pending);
      if sub.Tip? {
        PopLeaf(a, t, stack, pending, before);
      } else {
        PopFork(a, t, stack, pending, before);
      }
      stack, pending := stack[..top], pending[..top];
      depths[node] := depth;
      assert depths[..] == before[node := depth];
      if a.left[node] != LEAF {
        stack := stack + [(a.left[node], depth + 1)];
        stack := stack + [(a.right[node], depth + 1)];
        pending := pending + [sub.low] + [sub.high];
      }
    }
    AllDone(a, t, pending, depths[..]);
  }

  /** Every index that no pending subtree holds has its depth. */
  ghost predicate DepthsSoFar(a: Arrays, t: Tree, pending: seq<Tree>, depths: seq<int>) {
    && |depths| == |a.left|
    && forall v | v in Ids(t) && v !in AllIds(pending) :: v < |depths| && depths[v] == DepthIn(t, v)
  }

  lemma {:induction false} NoneYet(a: Arrays, t: Tree, depths: seq<int>)
    requires Forms(a, t) && |depths| == |a.left|
    ensures DepthsSoFar(a, t, [t], depths)
  {
    StackStarts(a, t);
  }

  lemma {:induction false} AllDone(a: Arrays, t: Tree, pending: seq<Tree>, depths: seq<int>)
    requires Forms(a, t) && StackHangs(a, t, [], pending) && DepthsSoFar(a, t, pending, depths)
    ensures forall v: nat | v < |a.left| :: v in Ids(t) && depths[v] == DepthIn(t, v)
  {
  }

  /** The stack and the subtrees its entries stand for. */
  ghost predicate StackHangs(a: Arrays, whole: Tree, stack: seq<(int, int)>, pending: seq<Tree>)
    requires SameLengths(a)
  {
    && |stack| == |pending| && AllIds(pending) <= Ids(whole)
    && forall i | 0 <= i < |stack| :: Hangs(a, whole, pending[i], stack[i])
  }

  ghost function Top(a: Arrays, whole: Tree, stack: seq<(int, int)>, pending: seq<Tree>): (t: Tree)
    requires SameLengths(a) && StackHangs(a, whole, stack, pending) && stack != []
    ensures |pending| == |stack| && t == pending[|stack| - 1]
  {
    pending[|stack| - 1]
  }

  lemma {:induction false} StackStarts(a: Arrays, t: Tree)
    requires Forms(a, t)
    ensures StackHangs(a, t, [(0, 0)], [t]) && AllIds([t]) == Ids(t)
    ensures forall v <- Ids(t) :: v < |a.left|
  {
    assert [t] == [] + [t];
    Pushed([], t);
    RootDepth(t);
  }

  /** A leaf on top: its depth is stored and nothing takes its place. */
  lemma {:induction false} PopLeaf(a: Arrays, whole: Tree, stack: seq<(int, int)>, pending: seq<Tree>, depths: seq<int>)
    requires SameLengths(a) && StackHangs(a, whole, stack, pending) && stack != []
    requires DepthsSoFar(a, whole, pending, depths) && |depths| == |a.left| && Top(a, whole, stack, pending).Tip?
    ensures |pending| == |stack|
    ensures var top := |stack| - 1;
      var entry, rest := stack[top], pending[..top];
      && 0 <= entry.0 < |depths| == |a.left| && a.left[entry.0] == LEAF
      && StackHangs(a, whole, stack[..top], rest) && DepthsSoFar(a, whole, rest, depths[entry.0 := entry.1])
      && Sizes(rest) < Sizes(pending)
  {
    hide StackHangs, DepthsSoFar, DepthIn, Ids, LaidOut, Distinct, Size, Hangs, AllIds, Sizes;
    RestHangs(a, whole, stack, pending);
    var top := |stack| - 1;
    var entry, sub, rest := stack[top], pending[top], pending[..top];
    TopEntry(a, whole, sub, entry);
    assert pending == rest + [sub];
    Pushed(rest, sub);
    DepthStored(a, whole, pending, rest, depths, sub.id);
  }

  /** A fork on top: its depth is stored and its children take its place, one level further down. */
  lemma {:induction false} PopFork(a: Arrays, whole: Tree, stack: seq<(int, int)>, pending: seq<Tree>, depths: seq<int>)
    requires SameLengths(a) && StackHangs(a, whole, stack, pending) && stack != []
    requires DepthsSoFar(a, whole, pending, depths) && |depths| == |a.left| && Top(a, whole, stack, pending).Fork?
    ensures |pending| == |stack|
    ensures var top := |stack| - 1;
      var entry, sub := stack[top], pending[top];
      var pushed := pending[..top] + [sub.low] + [sub.high];
      && 0 <= entry.0 < |depths| == |a.left| && a.left[entry.0] != LEAF
      && StackHangs(a, whole, stack[..top] + [(a.left[entry.0], entry.1 + 1)] + [(a.right[entry.0], entry.1 + 1)], pushed)
      && DepthsSoFar(a, whole, pushed, depths[entry.0 := entry.1])
      && Sizes(pushed) < Sizes(pending)
  {
    hide StackHangs, DepthsSoFar, DepthIn, Ids, LaidOut, Distinct, Size, Hangs, AllIds, Sizes;
    RestHangs(a, whole, stack, pending);
    var top := |stack| - 1;
    var entry, sub, rest, below := stack[top], pending[top], pending[..top], stack[..top];
    TopEntry(a, whole, sub, entry);
    assert pending == rest + [sub];
    Pushed(rest, sub);
    Pushed(rest, sub.low);
    Pushed(rest + [sub.low], sub.high);
    SizeOfFork(sub);
    HangsPush(a, whole, below, rest, (sub.low.id, entry.1 + 1), sub.low);
    HangsPush(a, whole, below + [(sub.low.id, entry.1 + 1)], rest + [sub.low], (sub.high.id, entry.1 + 1), sub.high);
    DepthStored(a, whole, pending, rest + [sub.low] + [sub.high], depths, sub.id);
  }

  lemma {:induction false} RestHangs(a: Arrays, whole: Tree, stack: seq<(int, int)>, pending: seq<Tree>)
    requires SameLengths(a) && StackHangs(a, whole, stack, pending) && stack != []
    ensures |pending| == |stack| && Hangs(a, whole, pending[|stack| - 1], stack[|stack| - 1])
    ensures StackHangs(a, whole, stack[..|stack| - 1], pending[..|stack| - 1])
  {
    hide Hangs;
  }

  lemma {:induction false} HangsPush(
    a: Arrays, whole: Tree, stack: seq<(int, int)>, pending: seq<Tree>, entry: (int, int), sub: Tree)
    requires SameLengths(a) && StackHangs(a, whole, stack, pending) && Hangs(a, whole, sub, entry)
    ensures StackHangs(a, whole, stack + [entry], pending + [sub])
  {
    assert Ids(sub) <= Ids(whole);
    hide Hangs, Ids;
    Pushed(pending, sub);
  }

  lemma {:induction false} DepthStored(
    a: Arrays, whole: Tree, pending: seq<Tree>, pending': seq<Tree>, depths: seq<int>, v: nat)
    requires DepthsSoFar(a, whole, pending, depths) && v < |depths| && v in Ids(whole)
    requires AllIds(pending) <= AllIds(pending') + {v}
    ensures |depths| == |a.left| && DepthsSoFar(a, whole, pending', depths[v := DepthIn(whole, v)])
  {
  }

  /** What the loop learns from the entry on top of the stack. */
  lemma {:induction false} TopEntry(a: Arrays, whole: Tree, sub: Tree, entry: (int, int))
    requires SameLengths(a) && Hangs(a, whole, sub, entry)
    ensures entry.0 == sub.id < |a.left| && sub.id in Ids(whole) && DepthIn(whole, sub.id) == entry.1
    ensures sub.Tip? <==> a.left[sub.id] == LEAF
    ensures sub.Tip? ==> Ids(sub) == {sub.id}
    ensures sub.Fork? ==>
      && a.left[sub.id] == sub.low.id && a.right[sub.id] == sub.high.id
      && Ids(sub) == {sub.id} + Ids(sub.low) + Ids(sub.high)
      && Hangs(a, whole, sub.low, (sub.low.id, entry.1 + 1))
      && Hangs(a, whole, sub.high, (sub.high.id, entry.1 + 1))
  {
    RootDepth(sub);
    if sub.Fork? {
      ChildrenHang(a, whole, sub, entry);
    }
  }

  lemma {:induction false} Pushed(ts: seq<Tree>, t: Tree)
    ensures AllIds(ts + [t]) == AllIds(ts) + Ids(t) && Sizes(ts + [t]) == Sizes(ts) + Size(t)
    ensures Size(t) > 0 && (ts == [] ==> AllIds(ts) == {})
  {
    assert (ts + [t])[..|ts|] == ts;
  }

  lemma {:induction false} SizeOfFork(t: Tree)
    ensures t.Fork? ==> Size(t) == 1 + Size(t.low) + Size(t.high)
  {
  }

  // ----- one row through one tree

  /** A tree as exported: the arrays, the depths, and the map from its features to the model's. */
  datatype Exported = Exported(arrays: Arrays, depth: seq<nat>, featureMap: seq<int>)

  predicate Usable(e: Exported, width: nat) {
    && SameLengths(e.arrays) && |e.depth| == |e.arrays.left|
    && (forall v | 0 <= v < |e.arrays.left| && e.arrays.left[v] != LEAF :: 0 <= e.arrays.feature[v] < |e.featureMap|)
    && forall f | 0 <= f < |e.featureMap| :: 0 <= e.featureMap[f] < width
  }

  predicate GoesLow(e: Exported, v: nat, values: seq<real>)
    requires Usable(e, |values|) && v < |e.arrays.left| && e.arrays.left[v] != LEAF
  {
    values[e.featureMap[e.arrays.feature[v]]] <= e.arrays.threshold[v]
  }

  /** The leaf a row falls into, by recursion on the tree. */
  ghost function LeafOf(e: Exported, t: Tree, values: seq<real>): nat
    requires Usable(e, |values|) && LaidOut(e.arrays, t)
  {
    match t
    case Tip(id) => id
    case Fork(id, low, high) => if GoesLow(e, id, values) then LeafOf(e, low, values) else LeafOf(e, high, values)
  }

  /** math.log is left abstract. */
  function AveragePathLength(log: real -> real, samples: int): real {
    if samples <= 1 then 0.0
    else if samples == 2 then 1.0
    else 2.0 * (log(samples as real - 1.0) + 0.5772156649015329) - 2.0 * (samples as real - 1.0) / samples as real
  }

  /** The isolation path length: one for each edge on the way down, and the estimate for the leaf's samples. */
  ghost function PathLength(log: real -> real, e: Exported, t: Tree, values: seq<real>): real
    requires Usable(e, |values|) && LaidOut(e.arrays, t)
  {
    match t
    case Tip(id) => AveragePathLength(log, e.arrays.samples[id])
    case Fork(id, low, high) =>
      1.0 + if GoesLow(e, id, values) then PathLength(log, e, low, values) else PathLength(log, e, high, values)
  }

  ghost predicate ExportOf(e: Exported, t: Tree) {
    Forms(e.arrays, t) && |e.depth| == |e.arrays.left| && forall v | v in Ids(t) :: e.depth[v] == DepthIn(t, v)
  }

  /** A downward path that takes at every fork the side the row's value decides. */
  ghost predicate Route(e: Exported, values: seq<real>, path: seq<nat>)
    requires Usable(e, |values|)
  {
    && Walk(e.arrays, path)
    && forall i: nat | i + 1 < |path| :: Decided(e, values, path[i], path[i + 1])
  }

  predicate Decided(e: Exported, values: seq<real>, v: nat, child: nat)
    requires Usable(e, |values|)
  {
    && v < |e.arrays.left| && e.arrays.left[v] != LEAF
    && child == if GoesLow(e, v, values) then e.arrays.left[v] else e.arrays.right[v]
  }

  method Descend(e: Exported, values: seq<real>, ghost t: Tree) returns (node: nat, ghost path: seq<nat>)
    requires Usable(e, |values|) && ExportOf(e, t)
    ensures node in Ids(t) && node < |e.arrays.left| && e.arrays.left[node] == LEAF && node == LeafOf(e, t, values)
    ensures Route(e, values, path) && path[|path| - 1] == node && e.depth[node] == |path| - 1
  {
    node, path := 0, [0];
    ghost var sub := t;
    RootDepth(t);
    while e.arrays.left[node] != LEAF
      invariant node == sub.id && node in Ids(t) && Hangs(e.arrays, t, sub, (node, |path| - 1))
      invariant LeafOf(e, sub, values) == LeafOf(e, t, values)
      invariant path != [] && Route(e, values, path) && path[|path| - 1] == node
      decreases Size(sub)
    {
      ChildrenHang(e.arrays, t, sub, (node, |path| - 1));
      RootDepth(sub.low);
      RootDepth(sub.high);
      sub := if GoesLow(e, node, values) then sub.low else sub.high;
      var localFeature := e.arrays.feature[node];
      var sourceFeature := e.featureMap[localFeature];
      ghost var before := path;
      path := path + [sub.id];
      node := if values[sourceFeature] <= e.arrays.threshold[node] then e.arrays.left[node] else e.arrays.right[node];
      RouteExtends(e, values, before, node);
    }
    RootDepth(sub);
  }

  lemma {:induction false} RouteExtends(e: Exported, values: seq<real>, path: seq<nat>, child: nat)
    requires Usable(e, |values|) && Route(e, values, path) && child < |e.arrays.left|
    requires Decided(e, values, path[|path| - 1], child)
    ensures Route(e, values, path + [child])
  {
    var longer := path + [child];
    forall i: nat | i + 1 < |longer|
      ensures StepDown(e.arrays, longer[i], longer[i + 1]) && Decided(e, values, longer[i], longer[i + 1])
    {
      if i + 1 < |path| {
        assert StepDown(e.arrays, path[i], path[i + 1]) && Decided(e, values, path[i], path[i + 1]);
      }
    }
  }

  /** There is one way down for a row: of two routes the shorter is the beginning of the longer. */
  lemma {:induction false} RouteIsUnique(e: Exported, values: seq<real>, p: seq<nat>, q: seq<nat>)
    requires Usable(e, |values|) && Route(e, values, p) && Route(e, values, q) && |p| <= |q|
    ensures p == q[..|p|]
    decreases |p|
  {
    if |p| > 1 {
      RoutePrefix(e, values, p);
      RoutePrefix(e, values, q);
      RouteIsUnique(e, values, p[..|p| - 1], q[..|q| - 1]);
      var n := |p| - 2;
      assert p[n] == q[..|q| - 1][n] == q[n];
      assert Decided(e, values, p[n], p[n + 1]) && Decided(e, values, q[n], q[n + 1]);
      assert p == p[..n + 1] + [p[n + 1]] && q[..n + 2] == q[..n + 1] + [q[n + 1]];
    }
  }

  lemma {:induction false} RoutePrefix(e: Exported, values: seq<real>, p: seq<nat>)
    requires Usable(e, |values|) && Route(e, values, p) && |p| > 1
    ensures Route(e, values, p[..|p| - 1])
  {
    var shorter := p[..|p| - 1];
    forall i: nat | i + 1 < |shorter|
      ensures StepDown(e.arrays, shorter[i], shorter[i + 1]) && Decided(e, values, shorter[i], shorter[i + 1])
    {
      assert StepDown(e.arrays, p[i], p[i + 1]) && Decided(e, values, p[i], p[i + 1]);
    }
  }

  /** A route that ends at a leaf ends at the leaf of the recursive evaluation, at that leaf's exported depth. */
  lemma {:induction false} RouteEndsAtLeafOf(e: Exported, t: Tree, values: seq<real>, path: seq<nat>)
    requires Usable(e, |values|) && ExportOf(e, t)
    requires Route(e, values, path) && e.arrays.left[path[|path| - 1]] == LEAF
    ensures path[|path| - 1] == LeafOf(e, t, values) && e.depth[LeafOf(e, t, values)] == |path| - 1
  {
    var known := RouteTo(e, t, values);
    RouteToLeafIsUnique(e, values, path, known);
    WalkLength(e.arrays, t, path);
  }

  /** Routes that end at leaves are the same path. */
  lemma {:induction false} RouteToLeafIsUnique(e: Exported, values: seq<real>, p: seq<nat>, q: seq<nat>)
    requires Usable(e, |values|) && Route(e, values, p) && Route(e, values, q)
    requires e.arrays.left[p[|p| - 1]] == LEAF && e.arrays.left[q[|q| - 1]] == LEAF
    ensures p == q
  {
    if |p| <= |q| {
      RouteIsUnique(e, values, p, q);
      NoStepFromLeaf(e, values, p, q);
    } else {
      RouteIsUnique(e, values, q, p);
      NoStepFromLeaf(e, values, q, p);
    }
  }

  lemma {:induction false} NoStepFromLeaf(e: Exported, values: seq<real>, p: seq<nat>, q: seq<nat>)
    requires Usable(e, |values|) && Route(e, values, p) && Route(e, values, q) && |p| <= |q| && p == q[..|p|]
    requires e.arrays.left[p[|p| - 1]] == LEAF
    ensures p == q
  {
    if |p| < |q| {
      StepOnRoute(e, values, q, |p| - 1);
    }
  }

  lemma {:induction false} StepOnRoute(e: Exported, values: seq<real>, p: seq<nat>, n: nat)
    requires Usable(e, |values|) && Route(e, values, p) && n + 1 < |p|
    ensures e.arrays.left[p[n]] != LEAF
  {
    assert StepDown(e.arrays, p[n], p[n + 1]);
  }

  lemma {:induction false} RouteTo(e: Exported, t: Tree, values: seq<real>) returns (path: seq<nat>)
    requires Usable(e, |values|) && ExportOf(e, t)
    ensures Route(e, values, path) && path[|path| - 1] == LeafOf(e, t, values)
    ensures e.arrays.left[LeafOf(e, t, values)] == LEAF
  {
    path := RouteWithin(e, t, values);
  }

  /** The same inside a subtree, where the path need not start at index 0. */
  lemma {:induction false} RouteWithin(e: Exported, t: Tree, values: seq<real>) returns (path: seq<nat>)
    requires Usable(e, |values|) && LaidOut(e.arrays, t)
    ensures path != [] && path[0] == t.id && path[|path| - 1] == LeafOf(e, t, values)
    ensures forall i | 0 <= i < |path| :: path[i] < |e.arrays.left|
    ensures forall i: nat | i + 1 < |path| ::
      StepDown(e.arrays, path[i], path[i + 1]) && Decided(e, values, path[i], path[i + 1])
    ensures e.arrays.left[path[|path| - 1]] == LEAF
  {
    match t
    case Tip(id) =>
      path := [id];
    case Fork(id, low, high) =>
      var rest := RouteWithin(e, if GoesLow(e, id, values) then low else high, values);
      path := [id] + rest;
      forall i: nat | i + 1 < |path|
        ensures StepDown(e.arrays, path[i], path[i + 1]) && Decided(e, values, path[i], path[i + 1])
      {
        if i > 0 {
          assert StepDown(e.arrays, rest[i - 1], rest[i - 1 + 1]) && Decided(e, values, rest[i - 1], rest[i - 1 + 1]);
        }
      }
  }

  // ----- the score of a row

  /** The path length splits into the leaf's depth and the estimate for its samples. */
  lemma {:induction false} PathLengthIsDepthPlusEstimate(log: real -> real, e: Exported, t: Tree, values: seq<real>)
    requires Usable(e, |values|) && LaidOut(e.arrays, t) && Distinct(t)
    ensures var leaf := LeafOf(e, t, values);
      && leaf in Ids(t) && leaf < |e.arrays.samples|
      && PathLength(log, e, t, values) == DepthIn(t, leaf) as real + AveragePathLength(log, e.arrays.samples[leaf])
  {
    match t
    case Tip(id) =>
    case Fork(id, low, high) =>
      PathLengthIsDepthPlusEstimate(log, e, if GoesLow(e, id, values) then low else high, values);
  }

  /** The forest's trees, and rows as wide as their feature maps expect. */
  ghost predicate Fits(forest: seq<Exported>, trees: seq<Tree>, width: nat) {
    |forest| == |trees| && forall k | 0 <= k < |forest| :: Usable(forest[k], width) && Forms(forest[k].arrays, trees[k])
  }

  ghost predicate AllExported(forest: seq<Exported>, trees: seq<Tree>)
    requires |forest| == |trees|
  {
    forall k | 0 <= k < |forest| :: ExportOf(forest[k], trees[k])
  }

  ghost function TotalPath(log: real -> real, forest: seq<Exported>, trees: seq<Tree>, values: seq<real>): real
    requires Fits(forest, trees, |values|)
  {
    if forest == [] then 0.0
    else
      var k := |forest| - 1;
      TotalPath(log, forest[..k], trees[..k], values) + PathLength(log, forest[k], trees[k], values)
  }

  function Denominator(log: real -> real, forest: seq<Exported>, maxSamples: int): real {
    |forest| as real * AveragePathLength(log, maxSamples)
  }

  /** `power` stands for two to the given power. */
  function ScoreFrom(totalPath: real, denominator: real, power: real -> real): real {
    if denominator == 0.0 then 1.0 else power(-totalPath / denominator)
  }

  ghost function ScoreOf(forest: seq<Exported>, trees: seq<Tree>, maxSamples: int, values: seq<real>, log: real -> real,
                         power: real -> real): real
    requires Fits(forest, trees, |values|)
  {
    ScoreFrom(TotalPath(log, forest, trees, values), Denominator(log, forest, maxSamples), power)
  }

  method Score(forest: seq<Exported>, maxSamples: int, values: seq<real>, log: real -> real, power: real -> real,
               ghost trees: seq<Tree>) returns (score: real)
    requires Fits(forest, trees, |values|) && AllExported(forest, trees)
    ensures score == ScoreOf(forest, trees, maxSamples, values, log, power)
  {
    hide AveragePathLength, Denominator, Forms, LeafOf, PathLength, DepthIn;
    var totalPath := 0.0;
    for k := 0 to |forest|
      invariant totalPath == TotalPath(log, forest[..k], trees[..k], values)
    {
      var e := forest[k];
      assert ExportOf(e, trees[k]);
      var node, path := Descend(e, values, trees[k]);
      PathLengthOfTree(log, e, trees[k], values);
      assert forest[..k + 1][..k] == forest[..k] && trees[..k + 1][..k] == trees[..k];
      totalPath := totalPath + (e.depth[node] as real + AveragePathLength(log, e.arrays.samples[node]));
    }
    assert forest[..|forest|] == forest && trees[..|trees|] == trees;
    assert totalPath == TotalPath(log, forest, trees, values);
    hide TotalPath;
    score := ScoreFrom(totalPath, Denominator(log, forest, maxSamples), power);
  }

  lemma {:induction false} PathLengthOfTree(log: real -> real, e: Exported, t: Tree, values: seq<real>)
    requires Usable(e, |values|) && ExportOf(e, t)
    ensures var leaf := LeafOf(e, t, values);
      && leaf < |e.arrays.samples|
      && PathLength(log, e, t, values) == e.depth[leaf] as real + AveragePathLength(log, e.arrays.samples[leaf])
  {
    PathLengthIsDepthPlusEstimate(log, e, t, values);
  }

  ghost predicate StrictlyIncreasing(f: real -> real) {
    forall x, y | x < y :: f(x) < f(y)
  }

  /** Rows that are isolated sooner score higher, and only those. */
  lemma {:induction false} IsolatedSoonerScoresHigher(forest: seq<Exported>, trees: seq<Tree>, maxSamples: int, log: real -> real,
                                   power: real -> real, row: seq<real>, other: seq<real>)
    requires |row| == |other| && Fits(forest, trees, |row|) && StrictlyIncreasing(power)
    requires Denominator(log, forest, maxSamples) > 0.0
    ensures ScoreOf(forest, trees, maxSamples, row, log, power) > ScoreOf(forest, trees, maxSamples, other, log, power)
      <==> TotalPath(log, forest, trees, row) < TotalPath(log, forest, trees, other)
  {
    var d := Denominator(log, forest, maxSamples);
    hide Denominator, TotalPath, Fits, Forms, Usable;
    var x, y := TotalPath(log, forest, trees, row), TotalPath(log, forest, trees, other);
    QuotientOrder(x, y, d);
    QuotientOrder(y, x, d);
    assert x == y || x < y || y < x;
  }

  lemma {:induction false} QuotientOrder(x: real, y: real, d: real)
    requires d > 0.0
    ensures x < y <==> -y / d < -x / d
  {
    assert (-y / d) * d == -y && (-x / d) * d == -x;
  }
}
