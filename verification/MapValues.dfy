/** How the values of one key are kept: all of them, combined now and then, or folded as they come. */
module MapValues {

  /** The application's binary operation on values. */
  type Op = (int, int) -> int

  ghost predicate Associative(op: Op) {
    forall a, b, c :: op(op(a, b), c) == op(a, op(b, c))
  }

  ghost predicate Commutative(op: Op) {
    forall a, b :: op(a, b) == op(b, a)
  }

  function Fold(op: Op, s: seq<int>): int
    requires s != []
  {
    if |s| == 1 then s[0] else op(Fold(op, s[..|s| - 1]), s[|s| - 1])
  }

  lemma Regroup(op: Op, a: int, b: int, c: int)
    requires Associative(op)
    ensures op(op(a, b), c) == op(a, op(b, c))
  {
  }

  lemma {:induction false} FoldConcat(op: Op, a: seq<int>, b: seq<int>)
    requires Associative(op) && a != [] && b != []
    ensures Fold(op, a + b) == op(Fold(op, a), Fold(op, b))
  {
    var n := |b| - 1;
    assert (a + b)[..|a + b| - 1] == a + b[..n];
    if n == 0 {
      assert a + b[..n] == a;
    } else {
      FoldConcat(op, a, b[..n]);
      Regroup(op, Fold(op, a), Fold(op, b[..n]), b[n]);
    }
  }

  /** The order of the values does not matter. */
  lemma {:induction false} FoldOrder(op: Op, a: seq<int>, b: seq<int>)
    requires Associative(op) && Commutative(op) && a != [] && multiset(a) == multiset(b)
    ensures b != [] && Fold(op, a) == Fold(op, b)
  {
    var n := |a| - 1;
    var x := a[n];
    assert x in multiset(b);
    var i :| 0 <= i < |b| && b[i] == x;
    var b' := b[..i] + b[i + 1..];
    assert a == a[..n] + [x];
    assert b == b[..i] + [x] + b[i + 1..];
    SameRest(a[..n], b', x, a, b);
    TakeOut(op, b[..i], x, b[i + 1..]);
    if n > 0 {
      FoldOrder(op, a[..n], b');
    }
  }

  lemma SameRest(a': seq<int>, b': seq<int>, x: int, a: seq<int>, b: seq<int>)
    requires multiset(a) == multiset(b) && multiset(a) == multiset(a') + multiset{x}
    requires multiset(b) == multiset(b') + multiset{x}
    ensures multiset(a') == multiset(b') && |a'| == |b'|
  {
    assert multiset(a') == multiset(a) - multiset{x} == multiset(b');
    assert |multiset(a')| == |a'| && |multiset(b')| == |b'|;
  }

  /** A value may be taken out of the middle and put at the end. */
  lemma TakeOut(op: Op, l: seq<int>, x: int, r: seq<int>)
    requires Associative(op) && Commutative(op)
    ensures Fold(op, l + [x] + r) == if l + r == [] then x else op(Fold(op, l + r), x)
  {
    if r == [] {
      assert l + [x] + r == l + [x] && l + r == l;
      if l != [] {
        FoldConcat(op, l, [x]);
      }
    } else if l == [] {
      assert l + [x] + r == [x] + r && l + r == r;
      FoldConcat(op, [x], r);
    } else {
      FoldConcat(op, l + [x], r);
      FoldConcat(op, l, [x]);
      FoldConcat(op, l, r);
    }
  }

  // ----- The value array of a key -----

  /** What the application supplies: nothing, a modifier, or a combiner that shortens the array. */
  datatype Mode = Plain | Modifier | Combiner(threshold: nat, combine: seq<int> -> seq<int>)

  datatype App = App(mode: Mode, op: Op)

  /** What the application promises: modifier and combiner go by an associative operation, and a combiner
      shortens the array to one that folds to the same. */
  ghost predicate Lawful(app: App) {
    && (!app.mode.Plain? ==> Associative(app.op))
    && (app.mode.Combiner? ==> forall s :: s != [] ==> Combines(app.mode.combine(s), s, app.op))
  }

  ghost predicate Combines(short: seq<int>, s: seq<int>, op: Op)
    requires s != []
  {
    0 < |short| <= |s| && Fold(op, short) == Fold(op, s)
  }

  function MapValuesInsert(app: App, kvs: seq<int>, v: int): seq<int> {
    match app.mode
    case Modifier => if kvs == [] then [v] else [app.op(kvs[0], v)]
    case Plain => kvs + [v]
    case Combiner(threshold, combine) => if |kvs| + 1 >= threshold then combine(kvs + [v]) else kvs + [v]
  }

  function MapValuesMove(app: App, dst: seq<int>, src: seq<int>): seq<int>
    requires src != []
  {
    if !app.mode.Modifier? then dst + src else if dst == [] then [src[0]] else [app.op(dst[0], src[0])]
  }

  /** What the array holds when the values `all` were put in, in this order: all of them; or with a combiner an
      array that folds to the same; or with a modifier the one value they fold to. */
  ghost predicate Holds(app: App, arr: seq<int>, all: seq<int>) {
    && (arr == [] <==> all == [])
    && (all != [] ==> arr != [] && Fold(app.op, arr) == Fold(app.op, all))
    && (app.mode.Modifier? ==> |arr| <= 1)
    && (app.mode.Plain? ==> arr == all)
  }

  lemma InsertHolds(app: App, arr: seq<int>, all: seq<int>, v: int)
    requires Lawful(app) && Holds(app, arr, all)
    ensures Holds(app, MapValuesInsert(app, arr, v), all + [v])
  {
    if all == [] {
      assert arr + [v] == [v] && all + [v] == [v];
    } else if !app.mode.Plain? {
      FoldConcat(app.op, all, [v]);
      FoldConcat(app.op, arr, [v]);
    }
    if app.mode.Combiner? {
      assert Combines(app.mode.combine(arr + [v]), arr + [v], app.op);
    }
  }

  lemma MoveHolds(app: App, dst: seq<int>, all: seq<int>, src: seq<int>, more: seq<int>)
    requires Lawful(app) && Holds(app, dst, all) && Holds(app, src, more) && src != []
    ensures Holds(app, MapValuesMove(app, dst, src), all + more)
  {
    if all == [] {
      assert dst + src == src && all + more == more;
    } else if !app.mode.Plain? {
      FoldConcat(app.op, all, more);
      FoldConcat(app.op, dst, src);
    }
  }

  // ----- Keys with their values -----

  /** A key with its array. `vals` are the values put in, in order; no step looks at them. */
  datatype Kvs = Kvs(key: int, vals: seq<int>, arr: seq<int>)

  ghost predicate Full(app: App, e: Kvs) {
    e.vals != [] && Holds(app, e.arr, e.vals)
  }

  ghost predicate AllFull(app: App, s: seq<Kvs>) {
    forall i :: 0 <= i < |s| ==> Full(app, s[i])
  }

  function Moved(app: App, dst: Kvs, src: Kvs): Kvs
    requires src.arr != []
  {
    Kvs(dst.key, dst.vals + src.vals, MapValuesMove(app, dst.arr, src.arr))
  }

  lemma MovedFull(app: App, dst: Kvs, src: Kvs)
    requires Lawful(app) && Holds(app, dst.arr, dst.vals) && Full(app, src)
    ensures src.arr != [] && Full(app, Moved(app, dst, src))
  {
    hide Lawful;
    MoveHolds(app, dst.arr, dst.vals, src.arr, src.vals);
  }

  /** With a commutative operation the array folds to what the values fold to in any order. */
  lemma OrderDoesNotMatter(app: App, e: Kvs, emitted: seq<int>)
    requires Lawful(app) && Associative(app.op) && Commutative(app.op) && Full(app, e)
             && multiset(e.vals) == multiset(emitted)
    ensures emitted != [] && e.arr != [] && Fold(app.op, e.arr) == Fold(app.op, emitted)
    ensures app.mode.Modifier? ==> e.arr == [Fold(app.op, emitted)]
  {
    FoldOrder(app.op, e.vals, emitted);
  }
}
