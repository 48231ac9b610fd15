/** Rewriting a dataset as commands: what the commands of a snapshot do when they are replayed. */
module AofSnapshot {
  import opened AofLog
  import opened AofReplay

  // ----- Datasets and commands on them -----

  /** Scores of sorted sets are kept in their printed form. */
  datatype Value =
    | Str(bytes: Bytes)
    | List(elems: seq<Bytes>)
    | Set(members: set<Bytes>)
    | ZSet(scores: map<Bytes, Bytes>)
    | Hash(fields: map<Bytes, Bytes>)

  const NO_EXPIRE: int := -1

  datatype Entry = Entry(value: Value, expire: int)

  type Data = map<(nat, Bytes), Entry>

  datatype Kind = ListKind | SetKind | ZSetKind | HashKind

  const SET: Bytes := [83, 69, 84]
  const PEXPIREAT: Bytes := [80, 69, 88, 80, 73, 82, 69, 65, 84]

  /** RPUSH, SADD, ZADD and HMSET. */
  function Name(kind: Kind): Bytes {
    match kind
    case ListKind => [82, 80, 85, 83, 72]
    case SetKind => [83, 65, 68, 68]
    case ZSetKind => [90, 65, 68, 68]
    case HashKind => [72, 77, 83, 69, 84]
  }

  /** How many arguments make up one element. */
  function Width(kind: Kind): nat {
    match kind
    case ListKind => 1
    case SetKind => 1
    case ZSetKind => 2
    case HashKind => 2
  }

  function Fresh(kind: Kind): Value {
    match kind
    case ListKind => List([])
    case SetKind => Set({})
    case ZSetKind => ZSet(map[])
    case HashKind => Hash(map[])
  }

  predicate HasKind(v: Value, kind: Kind) {
    match kind
    case ListKind => v.List?
    case SetKind => v.Set?
    case ZSetKind => v.ZSet?
    case HashKind => v.Hash?
  }

  /** Adds one element: a list element, a member, a score and a member, or a field and its value. */
  function AddItem(kind: Kind, v: Value, item: seq<Bytes>): (w: Value)
    requires HasKind(v, kind) && |item| == Width(kind)
    ensures HasKind(w, kind)
  {
    match kind
    case ListKind => List(v.elems + [item[0]])
    case SetKind => Set(v.members + {item[0]})
    case ZSetKind => ZSet(v.scores[item[1] := item[0]])
    case HashKind => Hash(v.fields[item[0] := item[1]])
  }

  predicate Wide(kind: Kind, items: seq<seq<Bytes>>) {
    forall i :: 0 <= i < |items| ==> |items[i]| == Width(kind)
  }

  function AddItems(kind: Kind, v: Value, items: seq<seq<Bytes>>): (w: Value)
    requires HasKind(v, kind) && Wide(kind, items)
    ensures HasKind(w, kind)
    decreases items
  {
    if items == [] then v else AddItems(kind, AddItem(kind, v, items[0]), items[1..])
  }

  function Flat(items: seq<seq<Bytes>>): seq<Bytes> {
    if items == [] then [] else items[0] + Flat(items[1..])
  }

  lemma {:induction false} FlatLength(kind: Kind, items: seq<seq<Bytes>>)
    requires Wide(kind, items)
    ensures |Flat(items)| == |items| * Width(kind)
  {
    if items != [] {
      FlatLength(kind, items[1..]);
    }
  }

  /** The arguments of a variadic command, element by element. */
  function Grouped(args: seq<Bytes>, width: nat): (items: seq<seq<Bytes>>)
    requires width > 0
    ensures forall i :: 0 <= i < |items| ==> |items[i]| == width
    decreases args
  {
    if |args| < width then [] else [args[..width]] + Grouped(args[width..], width)
  }

  datatype Meaning = SetCmd | ExpireCmd | AddCmd(kind: Kind) | OtherCmd

  function MeaningOf(c: Cmd): Meaning {
    if Named(c, SET) && |c| == 3 then SetCmd
    else if Named(c, PEXPIREAT) && |c| == 3 then ExpireCmd
    else if Named(c, Name(ListKind)) && |c| > 2 then AddCmd(ListKind)
    else if Named(c, Name(SetKind)) && |c| > 2 then AddCmd(SetKind)
    else if Named(c, Name(ZSetKind)) && |c| > 3 && |c| % 2 == 0 then AddCmd(ZSetKind)
    else if Named(c, Name(HashKind)) && |c| > 3 && |c| % 2 == 0 then AddCmd(HashKind)
    else OtherCmd
  }

  /** All commands but those of a snapshot are arbitrary functions of the dataset. */
  type Others = (Data, Op) -> Data

  /** The effect of an operation. A command for another type of value than the one stored fails and
      changes nothing. */
  function Exec(others: Others, d: Data, op: Op): Data {
    match MeaningOf(op.cmd)
    case SetCmd => d[(op.db, op.cmd[1]) := Entry(Str(op.cmd[2]), NO_EXPIRE)]
    case ExpireCmd =>
      var k := (op.db, op.cmd[1]);
      if k in d then d[k := d[k].(expire := StrTol(op.cmd[2]))] else d
    case AddCmd(kind) =>
      var k := (op.db, op.cmd[1]);
      var items := Grouped(op.cmd[2..], Width(kind));
      if k !in d then d[k := Entry(AddItems(kind, Fresh(kind), items), NO_EXPIRE)]
      else if HasKind(d[k].value, kind) then d[k := d[k].(value := AddItems(kind, d[k].value, items))]
      else d
    case OtherCmd => others(d, op)
  }

  function Run(others: Others, d: Data, ops: seq<Op>): Data
    decreases ops
  {
    if ops == [] then d else Run(others, Exec(others, d, ops[0]), ops[1..])
  }

  lemma {:induction false} RunConcat(others: Others, d: Data, a: seq<Op>, b: seq<Op>)
    ensures Run(others, d, a + b) == Run(others, Run(others, d, a), b)
    decreases a
  {
    if a == [] {
      assert a + b == b;
    } else {
      assert (a + b)[1..] == a[1..] + b;
      RunConcat(others, Exec(others, d, a[0]), a[1..], b);
    }
  }

  // ----- The commands of a snapshot -----

  /** At most this many elements go into one command. */
  const ITEMS_PER_CMD: nat := 64

  /** A key as the rewriting process meets it: aggregates are listed element by element in the order
      of their iterators. */
  datatype Body = StrBody(bytes: Bytes) | ItemsBody(kind: Kind, items: seq<seq<Bytes>>)
  datatype Row = Row(key: Bytes, body: Body, expire: int)

  predicate RowOk(r: Row) {
    && (r.expire == NO_EXPIRE || r.expire >= 0)
    && (r.body.ItemsBody? ==> r.body.items != [] && Wide(r.body.kind, r.body.items))
  }

  function Chunk(n: nat): nat {
    if n > ITEMS_PER_CMD then ITEMS_PER_CMD else n
  }

  function ItemCmd(kind: Kind, key: Bytes, items: seq<seq<Bytes>>): Cmd {
    [Name(kind), key] + Flat(items)
  }

  function ItemCmds(kind: Kind, key: Bytes, items: seq<seq<Bytes>>): seq<Cmd>
    decreases |items|
  {
    if items == [] then []
    else
      var m := Chunk(|items|);
      [ItemCmd(kind, key, items[..m])] + ItemCmds(kind, key, items[m..])
  }

  function BodyCmds(key: Bytes, body: Body): seq<Cmd> {
    match body
    case StrBody(bytes) => [[SET, key, bytes]]
    case ItemsBody(kind, items) => ItemCmds(kind, key, items)
  }

  predicate Expired(expire: int, now: int) {
    expire != NO_EXPIRE && expire < now
  }

  function RowCmds(r: Row, now: int): seq<Cmd>
    requires RowOk(r)
  {
    if Expired(r.expire, now) then []
    else BodyCmds(r.key, r.body) + if r.expire != NO_EXPIRE then [[PEXPIREAT, r.key, Digits(r.expire)]] else []
  }

  function RowsCmds(rows: seq<Row>, now: int): seq<Cmd>
    requires forall i :: 0 <= i < |rows| ==> RowOk(rows[i])
  {
    if rows == [] then [] else RowCmds(rows[0], now) + RowsCmds(rows[1..], now)
  }

  predicate DbsOk(dbs: seq<seq<Row>>) {
    forall j, i :: 0 <= j < |dbs| && 0 <= i < |dbs[j]| ==> RowOk(dbs[j][i])
  }

  /** The snapshot of the databases from number `from` on. */
  function Snapshot(dbs: seq<seq<Row>>, from: nat, now: int): seq<Cmd>
    requires from <= |dbs| && DbsOk(dbs)
    decreases |dbs| - from
  {
    if from == |dbs| then []
    else (if dbs[from] == [] then [] else [Select(from)] + RowsCmds(dbs[from], now)) + Snapshot(dbs, from + 1, now)
  }

  // ----- What they rebuild -----

  /** The value a row stands for, said without reference to commands. */
  function ValueOf(body: Body): Value
    requires body.ItemsBody? ==> Wide(body.kind, body.items)
  {
    match body
    case StrBody(bytes) => Str(bytes)
    case ItemsBody(ListKind, items) => List(seq(|items|, i requires 0 <= i < |items| => items[i][0]))
    case ItemsBody(SetKind, items) => Set(set i | 0 <= i < |items| :: items[i][0])
    case ItemsBody(ZSetKind, items) => ZSet(Pairs(items, 1, 0))
    case ItemsBody(HashKind, items) => Hash(Pairs(items, 0, 1))
  }

  /** Maps column `k` of the items to column `v`, later items winning. */
  function Pairs(items: seq<seq<Bytes>>, k: nat, v: nat): map<Bytes, Bytes>
    requires forall i :: 0 <= i < |items| ==> k < |items[i]| && v < |items[i]|
  {
    if items == [] then map[]
    else var n := |items| - 1; Pairs(items[..n], k, v)[items[n][k] := items[n][v]]
  }

  lemma {:induction false} PairsGet(items: seq<seq<Bytes>>, k: nat, v: nat, j: nat)
    requires forall i :: 0 <= i < |items| ==> k < |items[i]| && v < |items[i]|
    requires j < |items| && forall i :: j < i < |items| ==> items[i][k] != items[j][k]
    ensures items[j][k] in Pairs(items, k, v) && Pairs(items, k, v)[items[j][k]] == items[j][v]
  {
    var n := |items| - 1;
    if j < n {
      PairsGet(items[..n], k, v, j);
    }
  }

  lemma {:induction false} AddItemsSplit(kind: Kind, v: Value, a: seq<seq<Bytes>>, b: seq<seq<Bytes>>)
    requires HasKind(v, kind) && Wide(kind, a) && Wide(kind, b)
    ensures Wide(kind, a + b) && AddItems(kind, v, a + b) == AddItems(kind, AddItems(kind, v, a), b)
    decreases a
  {
    hide AddItem;
    if a == [] {
      assert a + b == b;
    } else {
      assert (a + b)[1..] == a[1..] + b;
      AddItemsSplit(kind, AddItem(kind, v, a[0]), a[1..], b);
    }
  }

  /** Adding all elements of a row to an empty value gives its value. */
  lemma {:induction false} AddItemsBuilds(kind: Kind, items: seq<seq<Bytes>>)
    requires Wide(kind, items)
    ensures AddItems(kind, Fresh(kind), items) == ValueOf(ItemsBody(kind, items))
    decreases |items|
  {
    if items == [] {
    } else {
      var n := |items| - 1;
      var front, last := items[..n], items[n];
      assert items == front + [last];
      AddItemsBuilds(kind, front);
      AddItemsSplit(kind, Fresh(kind), front, [last]);
      AddOne(kind, AddItems(kind, Fresh(kind), front), last);
      BuildStep(kind, front, last);
    }
  }

  lemma AddOne(kind: Kind, v: Value, item: seq<Bytes>)
    requires HasKind(v, kind) && |item| == Width(kind)
    ensures AddItems(kind, v, [item]) == AddItem(kind, v, item)
  {
    assert [item][1..] == [];
  }

  lemma BuildStep(kind: Kind, front: seq<seq<Bytes>>, last: seq<Bytes>)
    requires Wide(kind, front) && |last| == Width(kind)
    ensures Wide(kind, front + [last])
    ensures ValueOf(ItemsBody(kind, front + [last])) == AddItem(kind, ValueOf(ItemsBody(kind, front)), last)
  {
    var items := front + [last];
    assert items[..|front|] == front;
    match kind
    case ListKind =>
    case SetKind =>
      SetStep(front, last);
    case ZSetKind =>
    case HashKind =>
  }

  lemma SetStep(front: seq<seq<Bytes>>, last: seq<Bytes>)
    requires |last| == 1 && forall i :: 0 <= i < |front| ==> |front[i]| == 1
    ensures var items := front + [last];
            (set i | 0 <= i < |items| :: items[i][0]) == (set i | 0 <= i < |front| :: front[i][0]) + {last[0]}
  {
    var items := front + [last];
    var old', new' := set i | 0 <= i < |front| :: front[i][0], set i | 0 <= i < |items| :: items[i][0];
    forall x | x in new' ensures x in old' + {last[0]} {
      var i :| 0 <= i < |items| && items[i][0] == x;
      if i < |front| {
        assert front[i][0] == x;
      }
    }
    forall x | x in old' + {last[0]} ensures x in new' {
      if x == last[0] {
        assert items[|front|][0] == x;
      } else {
        var i :| 0 <= i < |front| && front[i][0] == x;
        assert items[i][0] == x;
      }
    }
  }
}
