/** Replaying a snapshot rebuilds the dataset it was taken of. */
module AofRebuild {
  import opened AofLog
  import opened AofReplay
  import opened AofSnapshot

  // ----- Single commands -----

  function Ops(db: nat, cs: seq<Cmd>): seq<Op> {
    if cs == [] then [] else [Op(db, cs[0])] + Ops(db, cs[1..])
  }

  lemma {:induction false} OpsConcat(db: nat, a: seq<Cmd>, b: seq<Cmd>)
    ensures Ops(db, a + b) == Ops(db, a) + Ops(db, b)
  {
    if a == [] {
      assert a + b == b;
    } else {
      assert (a + b)[1..] == a[1..] + b;
      OpsConcat(db, a[1..], b);
    }
  }

  /** Commands that are not SELECT stay in the selected database. */
  lemma {:induction false} ReplayStays(cs: seq<Cmd>, db: nat)
    requires forall i :: 0 <= i < |cs| ==> |cs[i]| != 2
    ensures Replay(cs, db) == Ops(db, cs) && Selected(cs, db) == db
  {
    if cs != [] {
      ReplayStays(cs[1..], db);
    }
  }

  lemma {:induction false} GroupedFlat(kind: Kind, items: seq<seq<Bytes>>)
    requires Wide(kind, items)
    ensures Grouped(Flat(items), Width(kind)) == items
  {
    if items != [] {
      var w, f := Width(kind), Flat(items);
      assert f[..w] == items[0] && f[w..] == Flat(items[1..]);
      GroupedFlat(kind, items[1..]);
    }
  }

  lemma ItemMeaning(kind: Kind, key: Bytes, items: seq<seq<Bytes>>)
    requires Wide(kind, items) && items != []
    ensures var c := ItemCmd(kind, key, items);
            && |c| > 2 && c[1] == key && MeaningOf(c) == AddCmd(kind) && Grouped(c[2..], Width(kind)) == items
  {
    FlatLength(kind, items);
    GroupedFlat(kind, items);
    var c := ItemCmd(kind, key, items);
    assert c[2..] == Flat(items);
    assert c[0] == Name(kind);
    Names(c, kind);
  }

  lemma Names(c: Cmd, kind: Kind)
    requires c != [] && c[0] == Name(kind) && |c| > 2 && (Width(kind) == 2 ==> |c| > 3 && |c| % 2 == 0)
    ensures MeaningOf(c) == AddCmd(kind)
  {
    assert forall i :: 0 <= i < |Name(kind)| ==> Upper(Name(kind)[i]) == Name(kind)[i];
    assert Named(c, Name(kind));
    assert !Named(c, SET) && !Named(c, PEXPIREAT);
    match kind
    case ListKind =>
    case SetKind =>
      assert !Named(c, Name(ListKind));
    case ZSetKind =>
      assert !Named(c, Name(ListKind));
      assert !Named(c, Name(SetKind)) by { assert Upper(c[0][0]) != Name(SetKind)[0]; }
    case HashKind =>
      assert !Named(c, Name(ListKind)) by { assert Upper(c[0][0]) != Name(ListKind)[0]; }
      assert !Named(c, Name(SetKind)) && !Named(c, Name(ZSetKind));
  }

  lemma OwnNames(key: Bytes, x: Bytes)
    ensures MeaningOf([SET, key, x]) == SetCmd && MeaningOf([PEXPIREAT, key, x]) == ExpireCmd
  {
    assert Named([SET, key, x], SET);
    assert Named([PEXPIREAT, key, x], PEXPIREAT);
    assert !Named([PEXPIREAT, key, x], SET);
  }

  // ----- One row -----

  lemma RunOne(others: Others, d: Data, op: Op)
    ensures Run(others, d, [op]) == Exec(others, d, op)
  {
    assert [op][1..] == [];
  }

  lemma ExecItem(others: Others, d: Data, db: nat, kind: Kind, key: Bytes, items: seq<seq<Bytes>>)
    requires Wide(kind, items) && items != []
    requires (db, key) in d ==> HasKind(d[(db, key)].value, kind) && d[(db, key)].expire == NO_EXPIRE
    ensures Exec(others, d, Op(db, ItemCmd(kind, key, items)))
            == d[(db, key) := Entry(AddItems(kind, if (db, key) in d then d[(db, key)].value else Fresh(kind), items),
               NO_EXPIRE)]
  {
    hide AddItems, MeaningOf, ItemCmd, Grouped;
    ItemMeaning(kind, key, items);
  }

  /** The commands of an aggregate add its elements to what is there, however they are chunked. */
  lemma {:induction false} RunItems(others: Others, d: Data, db: nat, kind: Kind, key: Bytes, items: seq<seq<Bytes>>)
    requires Wide(kind, items) && items != []
    requires (db, key) in d ==> HasKind(d[(db, key)].value, kind) && d[(db, key)].expire == NO_EXPIRE
    ensures Run(others, d, Ops(db, ItemCmds(kind, key, items)))
            == d[(db, key) := Entry(AddItems(kind, if (db, key) in d then d[(db, key)].value else Fresh(kind), items),
               NO_EXPIRE)]
    decreases |items|
  {
    hide AddItems, Exec, ItemCmd, ItemCmds, HasKind, Ops;
    var k, m := (db, key), Chunk(|items|);
    var v := if k in d then d[k].value else Fresh(kind);
    FreshKind(kind);
    var first, rest := items[..m], items[m..];
    assert items == first + rest;
    var c := ItemCmd(kind, key, first);
    ExecItem(others, d, db, kind, key, first);
    var w := AddItems(kind, v, first);
    var d' := d[k := Entry(w, NO_EXPIRE)];
    FirstChunk(db, kind, key, items);
    RunConcat(others, d, [Op(db, c)], Ops(db, ItemCmds(kind, key, rest)));
    RunOne(others, d, Op(db, c));
    AddItemsSplit(kind, v, first, rest);
    if rest == [] {
      assert first == items;
      NoItems(db, kind, key);
    } else {
      RunItems(others, d', db, kind, key, rest);
      assert d'[k := Entry(AddItems(kind, w, rest), NO_EXPIRE)] == d[k := Entry(AddItems(kind, w, rest), NO_EXPIRE)];
    }
  }

  lemma FirstChunk(db: nat, kind: Kind, key: Bytes, items: seq<seq<Bytes>>)
    requires items != []
    ensures var m := Chunk(|items|);
            Ops(db, ItemCmds(kind, key, items))
            == [Op(db, ItemCmd(kind, key, items[..m]))] + Ops(db, ItemCmds(kind, key, items[m..]))
  {
    var m := Chunk(|items|);
    assert ItemCmds(kind, key, items)[1..] == ItemCmds(kind, key, items[m..]);
  }

  lemma NoItems(db: nat, kind: Kind, key: Bytes)
    ensures Ops(db, ItemCmds(kind, key, [])) == []
  {
  }

  lemma FreshKind(kind: Kind)
    ensures HasKind(Fresh(kind), kind)
  {
  }

  lemma RunBody(others: Others, d: Data, db: nat, key: Bytes, body: Body)
    requires (db, key) !in d
    requires body.ItemsBody? ==> body.items != [] && Wide(body.kind, body.items)
    ensures Run(others, d, Ops(db, BodyCmds(key, body))) == d[(db, key) := Entry(ValueOf(body), NO_EXPIRE)]
  {
    match body
    case StrBody(bytes) =>
      OwnNames(key, bytes);
      var c := [SET, key, bytes];
      assert Ops(db, [c]) == [Op(db, c)];
      RunOne(others, d, Op(db, c));
    case ItemsBody(kind, items) =>
      hide ItemCmds, AddItems, ValueOf;
      RunItems(others, d, db, kind, key, items);
      AddItemsBuilds(kind, items);
  }

  /** What a row contributes. */
  function Put(d: Data, db: nat, r: Row, now: int): Data
    requires RowOk(r)
  {
    if Expired(r.expire, now) then d else d[(db, r.key) := Entry(ValueOf(r.body), r.expire)]
  }

  lemma RunRow(others: Others, d: Data, db: nat, r: Row, now: int)
    requires RowOk(r) && (db, r.key) !in d
    ensures Run(others, d, Ops(db, RowCmds(r, now))) == Put(d, db, r, now)
  {
    if !Expired(r.expire, now) {
      hide Exec, ValueOf, BodyCmds;
      var k := (db, r.key);
      RunBody(others, d, db, r.key, r.body);
      if r.expire == NO_EXPIRE {
        assert RowCmds(r, now) == BodyCmds(r.key, r.body);
      } else {
        var c := [PEXPIREAT, r.key, Digits(r.expire)];
        OpsConcat(db, BodyCmds(r.key, r.body), [c]);
        assert Ops(db, [c]) == [Op(db, c)];
        RunConcat(others, d, Ops(db, BodyCmds(r.key, r.body)), [Op(db, c)]);
        var d' := d[k := Entry(ValueOf(r.body), NO_EXPIRE)];
        RunOne(others, d', Op(db, c));
        ExecExpire(others, d', db, r.key, r.expire);
      }
    }
  }

  lemma ExecExpire(others: Others, d: Data, db: nat, key: Bytes, when: nat)
    requires (db, key) in d
    ensures Exec(others, d, Op(db, [PEXPIREAT, key, Digits(when)])) == d[(db, key) := d[(db, key)].(expire := when)]
  {
    OwnNames(key, Digits(when));
    hide MeaningOf, StrTol;
    SelectReads(when);
  }

  // ----- All rows of a database, and all databases -----

  function PutAll(d: Data, db: nat, rows: seq<Row>, now: int): Data
    requires forall i :: 0 <= i < |rows| ==> RowOk(rows[i])
    decreases rows
  {
    if rows == [] then d else PutAll(Put(d, db, rows[0], now), db, rows[1..], now)
  }

  predicate Distinct(rows: seq<Row>) {
    forall i, j :: 0 <= i < j < |rows| ==> rows[i].key != rows[j].key
  }

  lemma {:induction false} RunRows(others: Others, d: Data, db: nat, rows: seq<Row>, now: int)
    requires forall i :: 0 <= i < |rows| ==> RowOk(rows[i])
    requires Distinct(rows) && forall i :: 0 <= i < |rows| ==> (db, rows[i].key) !in d
    ensures Run(others, d, Ops(db, RowsCmds(rows, now))) == PutAll(d, db, rows, now)
    decreases rows
  {
    hide RowOk, RowCmds, Exec;
    if rows != [] {
      RunRow(others, d, db, rows[0], now);
      OpsConcat(db, RowCmds(rows[0], now), RowsCmds(rows[1..], now));
      RunConcat(others, d, Ops(db, RowCmds(rows[0], now)), Ops(db, RowsCmds(rows[1..], now)));
      RunRows(others, Put(d, db, rows[0], now), db, rows[1..], now);
    }
  }

  lemma {:induction false} ItemCmdsLong(kind: Kind, key: Bytes, items: seq<seq<Bytes>>)
    requires Wide(kind, items)
    ensures forall i :: 0 <= i < |ItemCmds(kind, key, items)| ==> |ItemCmds(kind, key, items)[i]| > 2
    decreases |items|
  {
    if items != [] {
      var m := Chunk(|items|);
      ItemCmdsLong(kind, key, items[m..]);
      ItemMeaning(kind, key, items[..m]);
    }
  }

  lemma {:induction false} RowsCmdsLong(rows: seq<Row>, now: int)
    requires forall i :: 0 <= i < |rows| ==> RowOk(rows[i])
    ensures forall i :: 0 <= i < |RowsCmds(rows, now)| ==> |RowsCmds(rows, now)[i]| > 2
  {
    if rows != [] {
      if rows[0].body.ItemsBody? {
        ItemCmdsLong(rows[0].body.kind, rows[0].key, rows[0].body.items);
      }
      RowsCmdsLong(rows[1..], now);
    }
  }

  function PutDbs(d: Data, dbs: seq<seq<Row>>, from: nat, now: int): Data
    requires from <= |dbs| && DbsOk(dbs)
    decreases |dbs| - from
  {
    if from == |dbs| then d else PutDbs(PutAll(d, from, dbs[from], now), dbs, from + 1, now)
  }

  lemma {:induction false} PutAllKeys(d: Data, db: nat, rows: seq<Row>, now: int, k: (nat, Bytes))
    requires forall i :: 0 <= i < |rows| ==> RowOk(rows[i])
    requires Distinct(rows)
    ensures (k in PutAll(d, db, rows, now)) ==
              (k in d || exists i :: 0 <= i < |rows| && k == (db, rows[i].key) && !Expired(rows[i].expire, now))
    ensures forall i :: 0 <= i < |rows| && k == (db, rows[i].key) && !Expired(rows[i].expire, now) ==>
              PutAll(d, db, rows, now)[k] == Entry(ValueOf(rows[i].body), rows[i].expire)
    ensures k in d && (forall i :: 0 <= i < |rows| ==> k != (db, rows[i].key)) ==> PutAll(d, db, rows, now)[k] == d[k]
    decreases rows
  {
    hide ValueOf, Expired;
    if rows != [] {
      var rest := rows[1..];
      assert forall i :: 0 <= i < |rest| ==> rest[i] == rows[i + 1];
      PutAllKeys(Put(d, db, rows[0], now), db, rest, now, k);
      if exists i :: 0 <= i < |rows| && k == (db, rows[i].key) && !Expired(rows[i].expire, now) {
        var i :| 0 <= i < |rows| && k == (db, rows[i].key) && !Expired(rows[i].expire, now);
        if i > 0 {
          assert rest[i - 1] == rows[i];
        }
      }
    }
  }

  lemma {:induction false} RunSnapshot(others: Others, d: Data, dbs: seq<seq<Row>>, from: nat, now: int, sel: nat)
    requires from <= |dbs| && DbsOk(dbs) && forall j :: 0 <= j < |dbs| ==> Distinct(dbs[j])
    requires forall k :: k in d ==> k.0 < from
    ensures Run(others, d, Replay(Snapshot(dbs, from, now), sel)) == PutDbs(d, dbs, from, now)
    decreases |dbs| - from
  {
    hide Exec, IsSelect, RowsCmds;
    if from < |dbs| {
      var rest := Snapshot(dbs, from + 1, now);
      var d' := PutAll(d, from, dbs[from], now);
      forall k | k in d' ensures k.0 < from + 1 {
        PutAllKeys(d, from, dbs[from], now, k);
      }
      if dbs[from] == [] {
        assert Snapshot(dbs, from, now) == rest;
        RunSnapshot(others, d, dbs, from + 1, now, sel);
      } else {
        var cs := RowsCmds(dbs[from], now);
        var s := Select(from);
        assert Snapshot(dbs, from, now) == [s] + (cs + rest);
        SelectReads(from);
        assert ([s] + (cs + rest))[1..] == cs + rest;
        RowsCmdsLong(dbs[from], now);
        ReplayStays(cs, from);
        ReplayConcat(cs, rest, from);
        RunConcat(others, d, Ops(from, cs), Replay(rest, from));
        RunRows(others, d, from, dbs[from], now);
        RunSnapshot(others, d', dbs, from + 1, now, from);
      }
    }
  }

  // ----- The theorem -----

  /** `dbs` lists a dataset: every key once, in its database, with its value and expiry. */
  ghost predicate Lists(dbs: seq<seq<Row>>, d: Data) {
    && DbsOk(dbs)
    && (forall j :: 0 <= j < |dbs| ==> Distinct(dbs[j]))
    && (forall k :: k in d ==> k.0 < |dbs| && exists i :: 0 <= i < |dbs[k.0]| && dbs[k.0][i].key == k.1)
    && (forall j, i :: 0 <= j < |dbs| && 0 <= i < |dbs[j]| ==>
          (j, dbs[j][i].key) in d && d[(j, dbs[j][i].key)] == Entry(ValueOf(dbs[j][i].body), dbs[j][i].expire))
  }

  /** A dataset without the keys that are expired at `now`. */
  function Live(d: Data, now: int): Data {
    map k | k in d && !Expired(d[k].expire, now) :: d[k]
  }

  lemma {:induction false} PutDbsGet(d: Data, dbs: seq<seq<Row>>, from: nat, now: int, data: Data, k: (nat, Bytes))
    requires from <= |dbs| && Lists(dbs, data)
    requires k in d <==> k in Live(data, now) && k.0 < from
    requires k in d ==> d[k] == data[k]
    ensures k in PutDbs(d, dbs, from, now) <==> k in Live(data, now)
    ensures k in PutDbs(d, dbs, from, now) ==> PutDbs(d, dbs, from, now)[k] == data[k]
    decreases |dbs| - from
  {
    hide ValueOf, Wide;
    if from < |dbs| {
      var rows := dbs[from];
      PutAllKeys(d, from, rows, now, k);
      if k.0 == from && k in data {
        var i :| 0 <= i < |rows| && rows[i].key == k.1;
        assert data[k] == Entry(ValueOf(rows[i].body), rows[i].expire);
      }
      PutDbsGet(PutAll(d, from, rows, now), dbs, from + 1, now, data, k);
    }
  }

  /** Replaying a snapshot on an empty server gives exactly the keys of the dataset that were not
      expired when it was taken, with all their elements and expiry times, for every order in which
      databases, hash tables and lists are iterated, and whatever database was selected. */
  lemma SnapshotRebuilds(others: Others, dbs: seq<seq<Row>>, data: Data, now: int, sel: nat)
    requires Lists(dbs, data)
    ensures Run(others, map[], Replay(Snapshot(dbs, 0, now), sel)) == Live(data, now)
  {
    RunSnapshot(others, map[], dbs, 0, now, sel);
    var built := PutDbs(map[], dbs, 0, now);
    hide *;
    forall k: (nat, Bytes)
      ensures k in built <==> k in Live(data, now)
      ensures k in built ==> built[k] == Live(data, now)[k]
    {
      LiveIs(data, now, k);
      PutDbsGet(map[], dbs, 0, now, data, k);
    }
    assert built == Live(data, now);
  }

  lemma LiveIs(data: Data, now: int, k: (nat, Bytes))
    ensures k in Live(data, now) ==> k in data && Live(data, now)[k] == data[k]
  {
  }
}
