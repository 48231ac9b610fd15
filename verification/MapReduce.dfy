/** The map and reduce phases: every task runs once, and every key is reduced once with all its values. */
module MapReduce {
  import BTreeModel
  import BTreeLeaves
  import opened BSearch
  import opened Group
  import opened MapValues

  /** A pair emitted by a map function. */
  datatype KeyVal = KeyVal(key: int, val: int)

  /** What the map function emits for one split. */
  type Task = seq<KeyVal>

  /** The hash of a key is determined by the key. */
  type Hash = int -> nat

  function TaskVals(t: Task, k: int): multiset<int> {
    if t == [] then multiset{}
    else TaskVals(t[..|t| - 1], k) + (if t[|t| - 1].key == k then multiset{t[|t| - 1].val} else multiset{})
  }

  function Emitted(tasks: seq<Task>, k: int): multiset<int> {
    if tasks == [] then multiset{} else Emitted(tasks[..|tasks| - 1], k) + TaskVals(tasks[|tasks| - 1], k)
  }

  // ----- Bucket tables: one row per worker, one index per column, given by its pairs in key order -----

  type Row = seq<seq<Kvs>>
  type Table = seq<Row>

  /** The pair lists are sorted, every key sits in the column of its hash and has values. */
  ghost predicate RowOk(row: Row, cols: nat, hash: Hash) {
    cols > 0 && |row| == cols && forall c :: 0 <= c < cols ==> BucketOk(row[c], c, cols, hash)
  }

  ghost predicate BucketOk(b: seq<Kvs>, c: nat, cols: nat, hash: Hash)
    requires cols > 0
  {
    Increasing(Keys(b)) && forall i :: 0 <= i < |b| ==> hash(b[i].key) % cols == c && b[i].vals != []
  }

  ghost predicate TableOk(t: Table, rows: nat, cols: nat, hash: Hash) {
    cols > 0 && |t| == rows && forall r :: 0 <= r < rows ==> RowOk(t[r], cols, hash)
  }

  function TableVals(t: Table, k: int): multiset<int> {
    if t == [] then multiset{} else TableVals(t[..|t| - 1], k) + AllVals(t[|t| - 1], k)
  }

  lemma {:induction false} TableUpdate(t: Table, r: nat, row: Row, k: int, more: multiset<int>)
    requires r < |t| && AllVals(row, k) == AllVals(t[r], k) + more
    ensures TableVals(t[r := row], k) == TableVals(t, k) + more
  {
    hide AllVals;
    var n := |t| - 1;
    var t' := t[r := row];
    if r == n {
      assert t'[..n] == t[..n];
      Regroup(TableVals(t[..n], k), AllVals(t[n], k), more);
    } else {
      assert t'[..n] == t[..n][r := row];
      TableUpdate(t[..n], r, row, k, more);
      Swap(TableVals(t[..n], k), AllVals(t[n], k), more);
    }
  }

  lemma Regroup(a: multiset<int>, b: multiset<int>, c: multiset<int>)
    ensures a + (b + c) == a + b + c
  {
  }

  lemma Swap(a: multiset<int>, b: multiset<int>, c: multiset<int>)
    ensures a + c + b == a + b + c
  {
  }

  // ----- Putting a key into a sorted list -----

  /** Adds values to a key of a sorted list, or the key where it belongs; `arr` says what becomes of the array
      of the key, which is empty if the key is new. */
  function Put(s: seq<Kvs>, k: int, vs: seq<int>, arr: seq<int> -> seq<int>): seq<Kvs> {
    if s == [] then [Kvs(k, vs, arr([]))]
    else if s[0].key < k then [s[0]] + Put(s[1..], k, vs, arr)
    else if s[0].key == k then [Kvs(k, s[0].vals + vs, arr(s[0].arr))] + s[1..]
    else [Kvs(k, vs, arr([]))] + s
  }

  /** A list as the B+ tree holds it when all values are kept. */
  function Listed(s: seq<Kvs>): (r: seq<BTreeModel.Pair>)
    ensures |r| == |s|
  {
    if s == [] then [] else [BTreeModel.Pair(s[0].key, s[0].vals)] + Listed(s[1..])
  }

  /** Putting a key in is what the B+ tree is proved to do. */
  lemma {:induction false} PutIsTreePut(s: seq<Kvs>, k: int, vs: seq<int>, arr: seq<int> -> seq<int>)
    ensures Listed(Put(s, k, vs, arr)) == BTreeLeaves.Put(Listed(s), k, vs)
  {
    if s != [] {
      var t := Listed(s);
      assert t[0] == BTreeModel.Pair(s[0].key, s[0].vals) && t[1..] == Listed(s[1..]);
      var u := Put(s, k, vs, arr);
      assert u[1..] == if s[0].key < k then Put(s[1..], k, vs, arr) else if s[0].key == k then s[1..] else s;
      if s[0].key < k {
        PutIsTreePut(s[1..], k, vs, arr);
      }
    }
  }

  lemma {:induction false} ListedKeys(s: seq<Kvs>)
    ensures BTreeModel.Keys(Listed(s)) == Keys(s)
  {
    if s != [] {
      ListedKeys(s[1..]);
      assert forall i :: 0 < i < |s| ==> Listed(s)[i] == Listed(s[1..])[i - 1];
      assert forall i :: 0 < i < |s| ==> BTreeModel.Keys(Listed(s))[i] == BTreeModel.Keys(Listed(s[1..]))[i - 1];
    }
  }

  lemma PutOrder(s: seq<Kvs>, k: int, vs: seq<int>, arr: seq<int> -> seq<int>)
    requires Increasing(Keys(s))
    ensures Increasing(Keys(Put(s, k, vs, arr)))
  {
    hide Increasing, Put, Listed, Keys;
    ListedKeys(s);
    ListedKeys(Put(s, k, vs, arr));
    PutIsTreePut(s, k, vs, arr);
    BTreeLeaves.PutOrder(Listed(s), k, vs);
  }

  lemma {:induction false} PutVals(s: seq<Kvs>, k: int, vs: seq<int>, arr: seq<int> -> seq<int>, x: int)
    ensures Vals(Put(s, k, vs, arr), x) == Vals(s, x) + if x == k then multiset(vs) else multiset{}
  {
    hide Vals;
    if s == [] {
      OneVals(Kvs(k, vs, arr([])));
      NoVals();
    } else {
      ValsFirst(s, x);
      var t := Put(s, k, vs, arr);
      ValsFirst(t, x);
      if s[0].key < k {
        PutVals(s[1..], k, vs, arr, x);
        assert t[1..] == Put(s[1..], k, vs, arr);
      } else if s[0].key == k {
        assert t[1..] == s[1..];
      } else {
        assert t[1..] == s;
      }
    }
  }

  lemma {:induction false} PutHash(s: seq<Kvs>, k: int, vs: seq<int>, arr: seq<int> -> seq<int>, c: nat, cols: nat,
      hash: Hash)
    requires cols > 0 && hash(k) % cols == c && vs != []
    requires forall i :: 0 <= i < |s| ==> hash(s[i].key) % cols == c && s[i].vals != []
    ensures var t := Put(s, k, vs, arr); forall i :: 0 <= i < |t| ==> hash(t[i].key) % cols == c && t[i].vals != []
  {
    if s != [] && s[0].key < k {
      PutHash(s[1..], k, vs, arr, c, cols, hash);
      assert Put(s, k, vs, arr) == [s[0]] + Put(s[1..], k, vs, arr);
    }
  }

  /** The arrays go on holding their values if the one of the key does. */
  lemma {:induction false} PutFull(app: App, s: seq<Kvs>, k: int, vs: seq<int>, arr: seq<int> -> seq<int>)
    requires AllFull(app, s) && Full(app, Kvs(k, vs, arr([])))
    requires forall i :: 0 <= i < |s| && s[i].key == k ==> Full(app, Kvs(k, s[i].vals + vs, arr(s[i].arr)))
    ensures AllFull(app, Put(s, k, vs, arr))
  {
    hide Full;
    if s != [] && s[0].key < k {
      PutFull(app, s[1..], k, vs, arr);
      assert Put(s, k, vs, arr) == [s[0]] + Put(s[1..], k, vs, arr);
    }
  }

  /** Adds values to a key in a row. */
  function Insert(row: Row, k: int, vs: seq<int>, arr: seq<int> -> seq<int>, hash: Hash): Row
    requires |row| > 0
  {
    var c := hash(k) % |row|;
    row[c := Put(row[c], k, vs, arr)]
  }

  lemma InsertOk(row: Row, cols: nat, hash: Hash, k: int, vs: seq<int>, arr: seq<int> -> seq<int>)
    requires RowOk(row, cols, hash) && vs != []
    ensures RowOk(Insert(row, k, vs, arr, hash), cols, hash)
    ensures forall x :: AllVals(Insert(row, k, vs, arr, hash), x)
                        == AllVals(row, x) + if x == k then multiset(vs) else multiset{}
  {
    hide Vals, AllVals, Put;
    var c := hash(k) % cols;
    assert BucketOk(row[c], c, cols, hash);
    PutOrder(row[c], k, vs, arr);
    PutHash(row[c], k, vs, arr, c, cols, hash);
    var row' := Insert(row, k, vs, arr, hash);
    forall x ensures AllVals(row', x) == AllVals(row, x) + if x == k then multiset(vs) else multiset{} {
      PutVals(row[c], k, vs, arr, x);
      AllValsUpdate(row', c, row[c], x, if x == k then multiset(vs) else multiset{});
      assert row'[c := row[c]] == row;
    }
  }

  ghost predicate RowFull(app: App, row: Row) {
    forall c :: 0 <= c < |row| ==> AllFull(app, row[c])
  }

  ghost predicate TableFull(app: App, t: Table) {
    forall r :: 0 <= r < |t| ==> RowFull(app, t[r])
  }

  /** What an emitted value does to the array of its key. */
  function Emitting(app: App, v: int): seq<int> -> seq<int> {
    arr => MapValuesInsert(app, arr, v)
  }

  lemma EmitFull(app: App, row: Row, k: int, v: int, hash: Hash)
    requires |row| > 0 && Lawful(app) && RowFull(app, row)
    ensures RowFull(app, Insert(row, k, [v], Emitting(app, v), hash))
  {
    hide Lawful, Put;
    var c := hash(k) % |row|;
    var s := row[c];
    InsertHolds(app, [], [], v);
    assert [] + [v] == [v];
    forall i | 0 <= i < |s| && s[i].key == k ensures Full(app, Kvs(k, s[i].vals + [v], Emitting(app, v)(s[i].arr))) {
      assert Full(app, s[i]);
      InsertHolds(app, s[i].arr, s[i].vals, v);
    }
    PutFull(app, s, k, [v], Emitting(app, v));
  }

  /** A pair with a new key keeps its array. */
  lemma NewFull(app: App, row: Row, e: Kvs, hash: Hash)
    requires |row| > 0 && RowFull(app, row) && Full(app, e) && !SomeHasKey(row, e.key)
    ensures RowFull(app, Insert(row, e.key, e.vals, _ => e.arr, hash))
  {
    hide Put, Full;
    var c := hash(e.key) % |row|;
    assert !HasKey(row[c], e.key);
    assert e == Kvs(e.key, e.vals, e.arr);
    PutFull(app, row[c], e.key, e.vals, _ => e.arr);
  }

  function EmptyRow(cols: nat): Row {
    seq(cols, _ => [])
  }

  lemma EmptyRowOk(cols: nat, hash: Hash)
    requires cols > 0
    ensures RowOk(EmptyRow(cols), cols, hash) && forall k :: AllVals(EmptyRow(cols), k) == multiset{}
  {
    forall k ensures AllVals(EmptyRow(cols), k) == multiset{} {
      AllValsEmpty(EmptyRow(cols), k);
    }
  }

  // ----- The map phase -----

  lemma NoTaskVals()
    ensures forall k :: TaskVals([], k) == multiset{}
  {
  }

  lemma RowSize(row: Row, cols: nat, hash: Hash)
    requires RowOk(row, cols, hash)
    ensures |row| == cols > 0
  {
  }

  function Upto(n: nat): (s: seq<nat>)
    ensures |s| == n && forall i :: 0 <= i < n ==> s[i] == i
  {
    if n == 0 then [] else Upto(n - 1) + [n - 1]
  }

  lemma EmittedStep(tasks: seq<Task>, i: nat, k: int)
    requires i < |tasks|
    ensures Emitted(tasks[..i + 1], k) == Emitted(tasks[..i], k) + TaskVals(tasks[i], k)
  {
    assert tasks[..i + 1][..i] == tasks[..i];
  }

  // ----- Moving the samples -----

  lemma {:induction false} KeyHasVals(b: seq<Kvs>, i: nat)
    requires i < |b| && b[i].vals != []
    ensures Vals(b, b[i].key) != multiset{}
  {
    var n := |b| - 1;
    if i < n {
      KeyHasVals(b[..n], i);
    } else {
      assert b[n].vals[0] in multiset(b[n].vals);
      assert b[n].vals[0] in Vals(b, b[i].key);
    }
  }

  /** A key without values is in no bucket. */
  lemma NotThere(row: Row, cols: nat, hash: Hash, k: int)
    requires RowOk(row, cols, hash) && AllVals(row, k) == multiset{}
    ensures !SomeHasKey(row, k)
  {
    if SomeHasKey(row, k) {
      var c :| 0 <= c < |row| && HasKey(row[c], k);
      assert BucketOk(row[c], c, cols, hash);
      var i :| 0 <= i < |row[c]| && row[c][i].key == k;
      KeyHasVals(row[c], i);
      AllValsAtLeast(row, c, k);
    }
  }

  lemma {:induction false} AllValsAtLeast(lists: seq<seq<Kvs>>, i: nat, k: int)
    requires i < |lists|
    ensures Vals(lists[i], k) <= AllVals(lists, k)
  {
    if i < |lists| - 1 {
      AllValsAtLeast(lists[..|lists| - 1], i, k);
    }
  }

  /** A key of a later bucket, or a later key of the same bucket, has no values among the earlier ones. */
  lemma LaterKey(sample: Row, scols: nat, hash: Hash, i: nat, j: nat)
    requires RowOk(sample, scols, hash) && i < |sample| && j < |sample[i]|
    ensures AllVals(sample[..i], sample[i][j].key) == multiset{} && Vals(sample[i][..j], sample[i][j].key) == multiset{}
  {
    var k := sample[i][j].key;
    assert BucketOk(sample[i], i, scols, hash);
    forall c | 0 <= c < i ensures Vals(sample[c], k) == multiset{} {
      assert BucketOk(sample[c], c, scols, hash);
      ValsNone(sample[c], k);
    }
    AllValsNone(sample[..i], k);
    assert forall n :: 0 <= n < j ==> Keys(sample[i])[n] < Keys(sample[i])[j];
    ValsNone(sample[i][..j], k);
  }

  lemma {:induction false} AllValsNone(lists: seq<seq<Kvs>>, k: int)
    requires forall i :: 0 <= i < |lists| ==> Vals(lists[i], k) == multiset{}
    ensures AllVals(lists, k) == multiset{}
  {
    if lists != [] {
      AllValsNone(lists[..|lists| - 1], k);
    }
  }

  /** Moves all pairs of a worker's sample into its row of the table. No key is met twice, as the index
      demands. */
  method RehashRow(ghost app: App, sample: Row, scols: nat, row: Row, cols: nat, hash: Hash) returns (row': Row)
    requires RowFull(app, sample) && RowFull(app, row)
    requires RowOk(sample, scols, hash) && RowOk(row, cols, hash) && forall k :: AllVals(row, k) == multiset{}
    ensures RowOk(row', cols, hash) && forall k :: AllVals(row', k) == AllVals(sample, k)
    ensures RowFull(app, row')
  {
    hide AllVals, Vals, RowOk, RowFull;
    row' := row;
    assert sample[..0] == [];
    NoneAtAll();
    for i := 0 to |sample|
      invariant RowFull(app, row')
      invariant RowOk(row', cols, hash) && forall k :: AllVals(row', k) == AllVals(sample[..i], k)
    {
      var src := sample[i];
      NoVals();
      assert src[..0] == [];
      for j := 0 to |src|
        invariant RowOk(row', cols, hash) && RowFull(app, row')
        invariant forall k :: AllVals(row', k) == AllVals(sample[..i], k) + Vals(src[..j], k)
      {
        LaterKey(sample, scols, hash, i, j);
        NotThere(row', cols, hash, src[j].key);
        assert !SomeHasKey(row', src[j].key);
        row' := MovePair(app, sample, scols, row', cols, hash, i, j);
      }
      assert src[..|src|] == src;
      forall k ensures AllVals(sample[..i + 1], k) == AllVals(sample[..i], k) + Vals(src, k) {
        AllValsPrefix(sample, i, k);
      }
    }
    assert sample[..|sample|] == sample;
  }

  method MovePair(ghost app: App, sample: Row, scols: nat, row: Row, cols: nat, hash: Hash, i: nat, j: nat)
      returns (row': Row)
    requires RowFull(app, sample) && RowFull(app, row)
    requires i < |sample| && j < |sample[i]| && !SomeHasKey(row, sample[i][j].key)
    ensures RowFull(app, row')
    requires RowOk(sample, scols, hash) && RowOk(row, cols, hash) && i < |sample| && j < |sample[i]|
    requires forall k :: AllVals(row, k) == AllVals(sample[..i], k) + Vals(sample[i][..j], k)
    ensures RowOk(row', cols, hash)
    ensures forall k :: AllVals(row', k) == AllVals(sample[..i], k) + Vals(sample[i][..j + 1], k)
  {
    hide AllVals, Vals, Insert;
    var e := sample[i][j];
    assert BucketOk(sample[i], i, scols, hash);
    InsertOk(row, cols, hash, e.key, e.vals, _ => e.arr);
    assert AllFull(app, sample[i]);
    NewFull(app, row, e, hash);
    OneVals(e);
    forall k ensures Vals(sample[i][..j + 1], k) == Vals(sample[i][..j], k) + Vals([e], k) {
      assert sample[i][..j + 1] == sample[i][..j] + [e];
      ValsConcat(sample[i][..j], [e], k);
    }
    row' := Insert(row, e.key, e.vals, _ => e.arr, hash);
  }

  lemma AllValsPrefix(lists: seq<seq<Kvs>>, i: nat, k: int)
    requires i < |lists|
    ensures AllVals(lists[..i + 1], k) == AllVals(lists[..i], k) + Vals(lists[i], k)
  {
    assert lists[..i + 1][..i] == lists[..i];
  }

  lemma NoneAtAll()
    ensures forall k :: AllVals([], k) == multiset{}
  {
  }

  // ----- Reducing a column -----

  function Column(t: Table, c: nat): (lists: seq<seq<Kvs>>)
    requires forall r :: 0 <= r < |t| ==> c < |t[r]|
    ensures |lists| == |t| && forall r :: 0 <= r < |t| ==> lists[r] == t[r][c]
  {
    seq(|t|, r requires 0 <= r < |t| => t[r][c])
  }

  /** The values of a key lie in the column of its hash. */
  lemma OneColumn(row: Row, cols: nat, hash: Hash, k: int)
    requires RowOk(row, cols, hash)
    ensures AllVals(row, k) == Vals(row[hash(k) % cols], k)
    ensures forall c :: 0 <= c < cols && c != hash(k) % cols ==> Vals(row[c], k) == multiset{}
  {
    var h := hash(k) % cols;
    forall c | 0 <= c < cols && c != h ensures Vals(row[c], k) == multiset{} {
      assert BucketOk(row[c], c, cols, hash);
      ValsNone(row[c], k);
    }
    OnlyOne(row, h, k);
  }

  lemma {:induction false} OnlyOne(lists: seq<seq<Kvs>>, h: nat, k: int)
    requires h < |lists| && forall c :: 0 <= c < |lists| && c != h ==> Vals(lists[c], k) == multiset{}
    ensures AllVals(lists, k) == Vals(lists[h], k)
  {
    var n := |lists| - 1;
    if h == n {
      AllValsNone(lists[..n], k);
    } else {
      OnlyOne(lists[..n], h, k);
    }
  }

  lemma {:induction false} ColumnVals(t: Table, rows: nat, cols: nat, hash: Hash, c: nat, k: int)
    requires TableOk(t, rows, cols, hash) && c < cols && forall r :: 0 <= r < |t| ==> c < |t[r]|
    ensures AllVals(Column(t, c), k) == if c == hash(k) % cols then TableVals(t, k) else multiset{}
    decreases rows
  {
    if t != [] {
      var n := |t| - 1;
      ColumnVals(t[..n], n, cols, hash, c, k);
      assert Column(t, c)[..n] == Column(t[..n], c);
      OneColumn(t[n], cols, hash, k);
    }
  }

  /** What reducing column `c` must deliver: increasing keys, each with exactly the values in the table. */
  ghost predicate Reduced(out: seq<Kvs>, c: nat, cols: nat, hash: Hash, vals: int -> multiset<int>)
    requires cols > 0
  {
    && Increasing(Keys(out))
    && forall k :: Vals(out, k) == (if c == hash(k) % cols then vals(k) else multiset{})
                   && (HasKey(out, k) <==> c == hash(k) % cols && vals(k) != multiset{})
  }

  ghost predicate ReducedTable(out: seq<Kvs>, c: nat, cols: nat, hash: Hash, t: Table)
    requires cols > 0
  {
    Reduced(out, c, cols, hash, k => TableVals(t, k))
  }

  /** Key by key what the tasks emitted. */
  ghost predicate ReducedTasks(out: seq<Kvs>, c: nat, cols: nat, hash: Hash, tasks: seq<Task>)
    requires cols > 0
  {
    Reduced(out, c, cols, hash, k => Emitted(tasks, k))
  }

  method ReduceTask(app: App, t: Table, rows: nat, cols: nat, hash: Hash, c: nat) returns (out: seq<Kvs>)
    requires Lawful(app) && TableFull(app, t)
    requires TableOk(t, rows, cols, hash) && c < cols
    ensures cols > 0 && ReducedTable(out, c, cols, hash, t) && AllFull(app, out)
  {
    hide Vals, AllVals, TableVals, Lawful, Full;
    forall r | 0 <= r < |t| ensures c < |t[r]| && KeysSorted(t[r][c]) && AllFull(app, t[r][c]) {
      assert RowOk(t[r], cols, hash) && BucketOk(t[r][c], c, cols, hash) && RowFull(app, t[r]);
      assert forall i, j :: 0 <= i < j < |t[r][c]| ==> Keys(t[r][c])[i] < Keys(t[r][c])[j];
    }
    var lists := Column(t, c);
    out := GroupSorted(app, lists);
    forall k ensures AllVals(lists, k) == (if c == hash(k) % cols then TableVals(t, k) else multiset{})
                     && (SomeHasKey(lists, k) <==> AllVals(lists, k) != multiset{})
    {
      ColumnVals(t, rows, cols, hash, c, k);
      ColumnKeys(t, rows, cols, hash, c, k);
    }
  }

  lemma ColumnKeys(t: Table, rows: nat, cols: nat, hash: Hash, c: nat, k: int)
    requires TableOk(t, rows, cols, hash) && c < cols && forall r :: 0 <= r < |t| ==> c < |t[r]|
    ensures SomeHasKey(Column(t, c), k) <==> AllVals(Column(t, c), k) != multiset{}
  {
    var lists := Column(t, c);
    if SomeHasKey(lists, k) {
      var r :| 0 <= r < |lists| && HasKey(lists[r], k);
      assert RowOk(t[r], cols, hash) && BucketOk(t[r][c], c, cols, hash);
      var i :| 0 <= i < |lists[r]| && lists[r][i].key == k;
      KeyHasVals(lists[r], i);
      AllValsAtLeast(lists, r, k);
    } else {
      forall r | 0 <= r < |lists| ensures Vals(lists[r], k) == multiset{} {
        assert !HasKey(lists[r], k);
        ValsNone(lists[r], k);
      }
      AllValsNone(lists, k);
    }
  }

  // ----- The whole run -----

  lemma {:induction false} EmittedConcat(a: seq<Task>, b: seq<Task>, k: int)
    ensures Emitted(a + b, k) == Emitted(a, k) + Emitted(b, k)
  {
    if b == [] {
      assert a + b == a;
    } else {
      assert (a + b)[..|a + b| - 1] == a + b[..|b| - 1];
      EmittedConcat(a, b[..|b| - 1], k);
    }
  }

  function EmptyTable(rows: nat, cols: nat): Table {
    seq(rows, _ => EmptyRow(cols))
  }

  lemma {:induction false} EmptyTableOk(rows: nat, cols: nat, hash: Hash)
    requires cols > 0
    ensures TableOk(EmptyTable(rows, cols), rows, cols, hash)
            && forall k :: TableVals(EmptyTable(rows, cols), k) == multiset{}
  {
    EmptyRowOk(cols, hash);
    if rows > 0 {
      EmptyTableOk(rows - 1, cols, hash);
      assert EmptyTable(rows, cols)[..rows - 1] == EmptyTable(rows - 1, cols);
    }
  }

  function Workers(n: nat): (s: set<nat>)
    ensures forall w: nat :: w in s <==> w < n
  {
    if n == 0 then {} else Workers(n - 1) + {n - 1}
  }

  /** The sampled values of the workers that have started. */
  function StartedVals(sample: Table, left: set<nat>, k: int): multiset<int> {
    if sample == [] then multiset{} else
      var n := |sample| - 1;
      StartedVals(sample[..n], left, k) + if n in left then multiset{} else AllVals(sample[n], k)
  }

  lemma {:induction false} NoneStarted(sample: Table, left: set<nat>, k: int)
    requires forall r :: 0 <= r < |sample| ==> r in left
    ensures StartedVals(sample, left, k) == multiset{}
  {
    if sample != [] {
      NoneStarted(sample[..|sample| - 1], left, k);
    }
  }

  lemma {:induction false} AllStarted(sample: Table, k: int)
    ensures StartedVals(sample, {}, k) == TableVals(sample, k)
  {
    if sample != [] {
      AllStarted(sample[..|sample| - 1], k);
    }
  }

  lemma {:induction false} SameStarted(sample: Table, left: set<nat>, w: nat, k: int)
    requires w >= |sample|
    ensures StartedVals(sample, left - {w}, k) == StartedVals(sample, left, k)
  {
    if sample != [] {
      SameStarted(sample[..|sample| - 1], left, w, k);
    }
  }

  lemma {:induction false} OneStarts(sample: Table, left: set<nat>, w: nat, k: int)
    requires w < |sample| && w in left
    ensures StartedVals(sample, left - {w}, k) == StartedVals(sample, left, k) + AllVals(sample[w], k)
  {
    var n := |sample| - 1;
    if w == n {
      SameStarted(sample[..n], left, w, k);
    } else {
      OneStarts(sample[..n], left, w, k);
      assert sample[..n][w] == sample[w];
    }
  }

  /** The buckets of the map phase, a row per worker. */
  class MapBucketManager {
    const rows: nat
    const cols: nat
    const hash: Hash
    const app: App
    var mapdt: Table

    ghost predicate Valid()
      reads this
    {
      rows > 0 && TableOk(mapdt, rows, cols, hash) && Lawful(app) && TableFull(app, mapdt)
    }

    constructor (rows: nat, cols: nat, hash: Hash, app: App)
      requires rows > 0 && cols > 0 && Lawful(app)
      ensures this.rows == rows && this.cols == cols && this.hash == hash && this.app == app
              && mapdt == EmptyTable(rows, cols)
      ensures Valid() && forall k :: TableVals(mapdt, k) == multiset{}
    {
      this.rows, this.cols, this.hash, this.app := rows, cols, hash, app;
      mapdt := EmptyTable(rows, cols);
      EmptyTableOk(rows, cols, hash);
    }

    /** Adds a pair to the row of a worker, in the column of its hash. */
    method Emit(row: nat, k: int, v: int)
      requires Valid() && row < rows
      modifies this`mapdt
      ensures Valid() && |mapdt| == |old(mapdt)|
      ensures forall r :: 0 <= r < rows && r != row ==> mapdt[r] == old(mapdt[r])
      ensures forall x :: TableVals(mapdt, x) == TableVals(old(mapdt), x) + if x == k then multiset{v} else multiset{}
    {
      hide AllVals, TableVals, RowOk, Insert, Lawful, RowFull;
      var was := mapdt[row];
      InsertOk(was, cols, hash, k, [v], Emitting(app, v));
      RowSize(was, cols, hash);
      EmitFull(app, was, k, v, hash);
      var row' := Insert(was, k, [v], Emitting(app, v), hash);
      forall x
        ensures TableVals(mapdt[row := row'], x) == TableVals(mapdt, x) + if x == k then multiset{v} else multiset{}
      {
        TableUpdate(mapdt, row, row', x, if x == k then multiset{v} else multiset{});
      }
      mapdt := mapdt[row := row'];
    }

    /** Moves the pairs a worker sampled into its row. */
    method Rehash(row: nat, a: MapBucketManager)
      requires Valid() && a.Valid() && a != this && row < rows && a.rows == rows && a.hash == hash && a.app == app
      requires forall k :: AllVals(mapdt[row], k) == multiset{}
      modifies this`mapdt
      ensures Valid() && |mapdt| == |old(mapdt)|
      ensures forall r :: 0 <= r < rows && r != row ==> mapdt[r] == old(mapdt[r])
      ensures forall k :: TableVals(mapdt, k) == TableVals(old(mapdt), k) + AllVals(a.mapdt[row], k)
    {
      hide AllVals, TableVals, RowOk, Lawful, RowFull;
      var row' := RehashRow(app, a.mapdt[row], a.cols, mapdt[row], cols, hash);
      forall k ensures TableVals(mapdt[row := row'], k) == TableVals(mapdt, k) + AllVals(a.mapdt[row], k) {
        TableUpdate(mapdt, row, row', k, AllVals(a.mapdt[row], k));
      }
      mapdt := mapdt[row := row'];
    }

    /** Runs the map function of a task on a worker. */
    method MapFunction(row: nat, task: Task)
      requires Valid() && row < rows
      modifies this`mapdt
      ensures Valid() && |mapdt| == |old(mapdt)|
      ensures forall r :: 0 <= r < rows && r != row ==> mapdt[r] == old(mapdt[r])
      ensures forall k :: TableVals(mapdt, k) == TableVals(old(mapdt), k) + TaskVals(task, k)
    {
      hide AllVals, TableVals, RowOk, Lawful, RowFull;
      NoTaskVals();
      assert task[..0] == [];
      for i := 0 to |task|
        invariant Valid() && |mapdt| == |old(mapdt)|
        invariant forall r :: 0 <= r < rows && r != row ==> mapdt[r] == old(mapdt[r])
        invariant forall k :: TableVals(mapdt, k) == TableVals(old(mapdt), k) + TaskVals(task[..i], k)
      {
        Emit(row, task[i].key, task[i].val);
        assert task[..i + 1][..i] == task[..i];
      }
      assert task[..|task|] == task;
    }

    /** Groups the pairs of one column over all rows. */
    method DoReduceTask(col: nat) returns (out: seq<Kvs>)
      requires Valid() && col < cols
      ensures ReducedTable(out, col, cols, hash, mapdt) && AllFull(app, out)
    {
      hide Lawful, TableFull, ReducedTable, AllFull;
      out := ReduceTask(app, mapdt, rows, cols, hash, col);
    }
  }

  class Application {
    const ma: seq<Task>      // the splits, each with what its map function emits
    var nextTask: nat        // the shared counter
    ghost var ran: seq<nat>  // the tasks in the order they were taken

    constructor (ma: seq<Task>)
      ensures this.ma == ma && nextTask == 0 && ran == []
    {
      this.ma, nextTask, ran := ma, 0, [];
    }

    ghost predicate Counting() reads this {
      ran == Upto(nextTask)
    }

    /** All workers in the map phase, in any interleaving. A worker first takes over what it sampled, then
        it takes tasks below `last` until there are none. */
    method MapWorkers(m: MapBucketManager, sample: MapBucketManager, last: nat)
      requires m.Valid() && sample.Valid() && m != sample && m.rows == sample.rows && m.hash == sample.hash
               && m.app == sample.app
      requires Counting() && nextTask <= last <= |ma| && m.mapdt == EmptyTable(m.rows, m.cols)
      modifies this, m`mapdt
      ensures m.Valid() && Counting() && nextTask == last
      ensures forall k :: TableVals(m.mapdt, k) == TableVals(sample.mapdt, k) + Emitted(ma[old(nextTask)..last], k)
    {
      hide AllVals, TableVals, TaskVals, RowOk, Emitted, EmptyTable, EmptyRow, StartedVals, Upto, Workers, Unstarted,
           Gathered, Lawful, TableFull;
      var left: set<nat> := Workers(m.rows);
      var rest := ma[nextTask..last];
      Beginning(m.mapdt, m.rows, m.cols, m.hash, sample.mapdt, left, rest);
      while nextTask < last || left != {}
        invariant m.Valid() && Counting() && old(nextTask) <= nextTask <= last
        invariant forall w :: w in left ==> w < m.rows
        invariant Unstarted(m.mapdt, left)
        invariant Gathered(m.mapdt, sample.mapdt, left, rest[..nextTask - old(nextTask)])
        decreases |left| + last - nextTask
      {
        assert exists w: nat :: w < m.rows && (w in left || nextTask < last) by {
          assert 0 in left || 0 !in left;
        }
        var w: nat :| w < m.rows && (w in left || nextTask < last);
        if w in left {
          ghost var was := m.mapdt;
          UnstartedAt(was, left, w);
          m.Rehash(w, sample);
          Start(was, m.mapdt, sample.mapdt, left, w, rest[..nextTask - old(nextTask)]);
          left := left - {w};
        } else {
          var next := nextTask;
          nextTask := nextTask + 1;
          ghost var was := m.mapdt;
          m.MapFunction(w, ma[next]);
          Ran(was, m.mapdt, sample.mapdt, left, w, rest, next - old(nextTask));
          OneMore(ran, next);
          ran := ran + [next];
        }
      }
      assert rest[..|rest|] == rest;
      Ending(m.mapdt, sample.mapdt, rest);
    }

    /** The first `nsample` tasks fill a sample table with columns of its own; its pairs are moved to the real
        table and the other tasks run; then every column is reduced. Whatever the number of samples, the
        numbers of columns, and the workers that take the tasks: every task runs once, and every emitted
        key is reduced once, in the column of its hash, in increasing order, with exactly the values
        emitted for it. Without sampling `nsample` is zero. */
    method SchedRun(nsample: nat, rows: nat, scols: nat, cols: nat, hash: Hash, app: App) returns (out: seq<seq<Kvs>>)
      requires Lawful(app)
      requires nextTask == 0 && ran == [] && nsample <= |ma| && rows > 0 && scols > 0 && cols > 0
      modifies this
      ensures ran == Upto(|ma|) && |out| == cols
      ensures forall c :: 0 <= c < cols ==> ReducedTasks(out[c], c, cols, hash, ma) && AllFull(app, out[c])
    {
      hide RowOk, AllVals, TableVals, Emitted, ReducedTasks, TableOk, EmptyTable, Upto, Lawful, TableFull, AllFull;
      var none := new MapBucketManager(rows, 1, hash, app);
      var sample := new MapBucketManager(rows, scols, hash, app);
      MapWorkers(sample, none, nsample);
      var m := new MapBucketManager(rows, cols, hash, app);
      MapWorkers(m, sample, |ma|);
      forall k ensures TableVals(m.mapdt, k) == Emitted(ma, k) {
        assert ma == ma[0..nsample] + ma[nsample..|ma|];
        EmittedConcat(ma[0..nsample], ma[nsample..|ma|], k);
      }
      out := ReducePhase(m);
    }

    method ReducePhase(m: MapBucketManager) returns (out: seq<seq<Kvs>>)
      requires m.Valid() && forall k :: TableVals(m.mapdt, k) == Emitted(ma, k)
      ensures |out| == m.cols && forall c :: 0 <= c < m.cols ==>
                ReducedTasks(out[c], c, m.cols, m.hash, ma) && AllFull(m.app, out[c])
    {
      hide TableVals, Emitted, ReducedTable, ReducedTasks, Lawful, TableFull, AllFull;
      out := [];
      for c := 0 to m.cols
        invariant |out| == c && forall i :: 0 <= i < c ==>
                    ReducedTasks(out[i], i, m.cols, m.hash, ma) && AllFull(m.app, out[i])
      {
        var o := m.DoReduceTask(c);
        SameVals(o, c, m.cols, m.hash, m.mapdt, ma);
        out := out + [o];
      }
    }
  }

  /** Workers that have not started have empty rows. */
  ghost predicate Unstarted(t: Table, left: set<nat>) {
    forall r, k :: 0 <= r < |t| && r in left ==> AllVals(t[r], k) == multiset{}
  }

  ghost predicate Gathered(t: Table, sample: Table, left: set<nat>, done: seq<Task>) {
    forall k :: TableVals(t, k) == StartedVals(sample, left, k) + Emitted(done, k)
  }

  lemma UnstartedAt(t: Table, left: set<nat>, w: nat)
    requires Unstarted(t, left) && w < |t| && w in left
    ensures forall k :: AllVals(t[w], k) == multiset{}
  {
    hide AllVals;
  }

  lemma OneMore(ran: seq<nat>, n: nat)
    requires ran == Upto(n)
    ensures ran + [n] == Upto(n + 1)
  {
  }

  lemma Beginning(t: Table, rows: nat, cols: nat, hash: Hash, sample: Table, left: set<nat>, rest: seq<Task>)
    requires t == EmptyTable(rows, cols) && cols > 0 && |sample| == rows
    requires forall w: nat :: w < rows ==> w in left
    ensures Unstarted(t, left) && Gathered(t, sample, left, rest[..0])
  {
    EmptyTableOk(rows, cols, hash);
    EmptyRowOk(cols, hash);
    forall k ensures StartedVals(sample, left, k) == multiset{} {
      NoneStarted(sample, left, k);
    }
    assert rest[..0] == [];
  }

  lemma Start(was: Table, t: Table, sample: Table, left: set<nat>, w: nat, done: seq<Task>)
    requires |t| == |was| == |sample| && w < |t| && w in left && Unstarted(was, left)
             && Gathered(was, sample, left, done)
    requires forall r :: 0 <= r < |t| && r != w ==> t[r] == was[r]
    requires forall k :: TableVals(t, k) == TableVals(was, k) + AllVals(sample[w], k)
    ensures Unstarted(t, left - {w}) && Gathered(t, sample, left - {w}, done)
  {
    hide AllVals, TableVals, Emitted, StartedVals;
    forall k ensures TableVals(t, k) == StartedVals(sample, left - {w}, k) + Emitted(done, k) {
      OneStarts(sample, left, w, k);
    }
  }

  lemma Ran(was: Table, t: Table, sample: Table, left: set<nat>, w: nat, rest: seq<Task>, i: nat)
    requires |t| == |was| && w < |t| && w !in left && i < |rest|
    requires Unstarted(was, left) && Gathered(was, sample, left, rest[..i])
    requires forall r :: 0 <= r < |t| && r != w ==> t[r] == was[r]
    requires forall k :: TableVals(t, k) == TableVals(was, k) + TaskVals(rest[i], k)
    ensures Unstarted(t, left) && Gathered(t, sample, left, rest[..i + 1])
  {
    hide AllVals, TableVals, Emitted, StartedVals, TaskVals;
    forall k ensures TableVals(t, k) == StartedVals(sample, left, k) + Emitted(rest[..i + 1], k) {
      EmittedStep(rest, i, k);
    }
  }

  lemma Ending(t: Table, sample: Table, done: seq<Task>)
    requires Gathered(t, sample, {}, done)
    ensures forall k :: TableVals(t, k) == TableVals(sample, k) + Emitted(done, k)
  {
    hide AllVals, TableVals, Emitted, StartedVals;
    forall k ensures TableVals(t, k) == TableVals(sample, k) + Emitted(done, k) {
      AllStarted(sample, k);
    }
  }

  lemma SameVals(out: seq<Kvs>, c: nat, cols: nat, hash: Hash, t: Table, tasks: seq<Task>)
    requires cols > 0 && ReducedTable(out, c, cols, hash, t) && forall k :: TableVals(t, k) == Emitted(tasks, k)
    ensures ReducedTasks(out, c, cols, hash, tasks)
  {
    hide Vals, TableVals, Emitted;
  }

  lemma {:induction false} ValsAt(out: seq<Kvs>, i: nat)
    requires i < |out| && Increasing(Keys(out))
    ensures Vals(out, out[i].key) == multiset(out[i].vals)
  {
    var n := |out| - 1;
    if i == n {
      assert forall j :: 0 <= j < n ==> Keys(out)[j] < Keys(out)[n];
      ValsNone(out[..n], out[i].key);
    } else {
      assert Keys(out)[i] < Keys(out)[n];
      assert Keys(out[..n]) == Keys(out)[..n];
      ValsAt(out[..n], i);
    }
  }

  /** With a combiner or a modifier a reduced key carries what its emitted values fold to, in any order. */
  lemma ReducedFolds(app: App, tasks: seq<Task>, out: seq<Kvs>, c: nat, cols: nat, hash: Hash, i: nat,
      emitted: seq<int>)
    requires cols > 0 && ReducedTasks(out, c, cols, hash, tasks) && AllFull(app, out) && i < |out|
    requires Lawful(app) && Associative(app.op) && Commutative(app.op)
    requires multiset(emitted) == Emitted(tasks, out[i].key)
    ensures emitted != [] && out[i].arr != [] && Fold(app.op, out[i].arr) == Fold(app.op, emitted)
    ensures app.mode.Modifier? ==> out[i].arr == [Fold(app.op, emitted)]
  {
    hide Lawful, Full;
    var k := out[i].key;
    assert HasKey(out, k);
    ValsAt(out, i);
    OrderDoesNotMatter(app, out[i], emitted);
  }
}
