/** The rewriting process: the loops that write a snapshot as text. */
module AofRewriter {
  import opened AofLog
  import opened AofReplay
  import opened AofSnapshot
  import AofServer

  /** What is still to be written when the current command wants `r` more elements. */
  ghost function Unwritten(kind: Kind, key: Bytes, items: seq<seq<Bytes>>, i: nat, r: nat): Bytes
    requires i + r <= |items|
  {
    Bulks(Flat(items[i..i + r])) + PrintAll(ItemCmds(kind, key, items[i + r..]))
  }

  lemma OpenChunk(kind: Kind, key: Bytes, items: seq<seq<Bytes>>, i: nat)
    requires i < |items| && Wide(kind, items)
    ensures var m := Chunk(|items| - i);
            Unwritten(kind, key, items, i, 0)
            == Header(STAR, 2 + m * Width(kind)) + Bulk(Name(kind)) + Bulk(key) + Unwritten(kind, key, items, i, m)
  {
    hide Header, Bulk, Bulks, Print, ItemCmd, Name, Width, ItemCmds;
    var m := Chunk(|items| - i);
    var some := items[i..i + m];
    FlatLength(kind, some);
    CommandText(Name(kind), key, Flat(some));
    NextChunk(kind, key, items, i);
    assert items[i..i] == [];
    AofServer.BulksNone();
    FlatNone();
    ItemText(kind, key, some);
  }

  lemma FlatNone()
    ensures Flat([]) == []
  {
  }

  lemma ItemText(kind: Kind, key: Bytes, items: seq<seq<Bytes>>)
    ensures ItemCmd(kind, key, items) == [Name(kind), key] + Flat(items)
  {
  }

  lemma NextChunk(kind: Kind, key: Bytes, items: seq<seq<Bytes>>, i: nat)
    requires i < |items|
    ensures var m := Chunk(|items| - i);
            PrintAll(ItemCmds(kind, key, items[i..]))
            == Print(ItemCmd(kind, key, items[i..i + m])) + PrintAll(ItemCmds(kind, key, items[i + m..]))
  {
    hide Print, ItemCmd;
    var m := Chunk(|items| - i);
    var rest := items[i..];
    assert rest[..m] == items[i..i + m] && rest[m..] == items[i + m..];
    assert ItemCmds(kind, key, rest)[1..] == ItemCmds(kind, key, rest[m..]);
  }

  lemma CommandText(name: Bytes, key: Bytes, args: seq<Bytes>)
    ensures Print([name, key] + args) == Header(STAR, 2 + |args|) + Bulk(name) + Bulk(key) + Bulks(args)
  {
    hide *;
    TwoArgs(name, key, args);
    PrintIs([name, key] + args);
    Regroup(Header(STAR, 2 + |args|), Bulk(name), Bulk(key), Bulks(args));
    assert |[name, key] + args| == 2 + |args|;
  }

  lemma PrintIs(c: Cmd)
    ensures Print(c) == Header(STAR, |c|) + Bulks(c)
  {
  }

  lemma TwoArgs(name: Bytes, key: Bytes, args: seq<Bytes>)
    ensures Bulks([name, key] + args) == Bulk(name) + (Bulk(key) + Bulks(args))
  {
    hide Bulk;
    var c := [name, key] + args;
    assert c[1..] == [key] + args;
    assert ([key] + args)[1..] == args;
  }

  lemma Regroup(a: Bytes, b: Bytes, c: Bytes, d: Bytes)
    ensures a + (b + (c + d)) == a + b + c + d
  {
  }

  lemma WriteItem(kind: Kind, key: Bytes, items: seq<seq<Bytes>>, i: nat, r: nat)
    requires 0 < r && i + r <= |items|
    ensures Unwritten(kind, key, items, i, r) == Bulks(items[i]) + Unwritten(kind, key, items, i + 1, r - 1)
  {
    var some := items[i..i + r];
    assert some[1..] == items[i + 1..i + r];
    BulksConcat(items[i], Flat(some[1..]));
  }

  /** Writes an aggregate: the head of a command every 64 elements, announcing as many elements as
      will follow it, then element by element. What comes out is a list of complete commands. */
  method RewriteItems(r: Bytes, kind: Kind, key: Bytes, elems: seq<seq<Bytes>>) returns (out: Bytes)
    requires Wide(kind, elems)
    ensures out == r + PrintAll(ItemCmds(kind, key, elems))
  {
    hide Bulks, Bulk, Header, Unwritten, ItemCmds;
    out := r;
    var count, items := 0, |elems|;
    ghost var whole := r + Unwritten(kind, key, elems, 0, 0);
    ghost var open := 0;
    UnwrittenEnds(kind, key, elems);
    for i := 0 to |elems|
      invariant items == |elems| - i
      invariant open == if count == 0 then 0 else Least(ITEMS_PER_CMD - count, items)
      invariant 0 <= count < ITEMS_PER_CMD && open <= items
      invariant out + Unwritten(kind, key, elems, i, open) == whole
    {
      if count == 0 {
        var cmdItems := if items > ITEMS_PER_CMD then ITEMS_PER_CMD else items;
        OpenChunk(kind, key, elems, i);
        open := cmdItems;
        out := out + Header(STAR, 2 + cmdItems * Width(kind));
        out := out + Bulk(Name(kind));
        out := out + Bulk(key);
      }
      assert out + Unwritten(kind, key, elems, i, open) == whole;
      WriteItem(kind, key, elems, i, open);
      out := out + Bulks(elems[i]);
      open := open - 1;
      count := count + 1;
      if count == ITEMS_PER_CMD {
        count := 0;
      }
      items := items - 1;
    }
  }

  function Least(a: int, b: int): int {
    if a < b then a else b
  }

  lemma UnwrittenEnds(kind: Kind, key: Bytes, items: seq<seq<Bytes>>)
    ensures Unwritten(kind, key, items, 0, 0) == PrintAll(ItemCmds(kind, key, items))
    ensures Unwritten(kind, key, items, |items|, 0) == []
  {
    assert items[0..] == items && items[0..0] == [] && items[|items|..|items|] == [] && items[|items|..] == [];
  }

  method RewriteBody(r: Bytes, key: Bytes, body: Body) returns (out: Bytes)
    requires body.ItemsBody? ==> Wide(body.kind, body.items)
    ensures out == r + PrintAll(BodyCmds(key, body))
  {
    hide Print, ItemCmds, PrintAll;
    match body {
      case StrBody(bytes) =>
        PrintOne([SET, key, bytes]);
        out := AofServer.CatGenericCommand(r, [SET, key, bytes]);
      case ItemsBody(kind, items) =>
        out := RewriteItems(r, kind, key, items);
    }
  }

  /** Writes one key, unless it is expired, and its expiry time. */
  method RewriteRow(r: Bytes, row: Row, now: int) returns (out: Bytes)
    requires RowOk(row)
    ensures out == r + PrintAll(RowCmds(row, now))
  {
    hide BodyCmds, PrintAll, Print, Digits;
    out := r;
    if row.expire != NO_EXPIRE && row.expire < now {
      PrintNone();
      return;
    }
    out := RewriteBody(out, row.key, row.body);
    if row.expire != NO_EXPIRE {
      var c := [PEXPIREAT, row.key, Digits(row.expire)];
      PrintOne(c);
      PrintAllConcat(BodyCmds(row.key, row.body), [c]);
      out := AofServer.CatGenericCommand(out, c);
    } else {
      assert RowCmds(row, now) == BodyCmds(row.key, row.body);
    }
  }

  lemma PrintNone()
    ensures PrintAll([]) == []
  {
  }

  lemma PrintOne(c: Cmd)
    ensures PrintAll([c]) == Print(c)
  {
    assert [c][1..] == [];
  }

  /** Writes all databases that have keys. */
  method RewriteAppendOnlyFile(dbs: seq<seq<Row>>, now: int) returns (out: Bytes)
    requires DbsOk(dbs)
    ensures out == PrintAll(Snapshot(dbs, 0, now))
  {
    hide Print, RowOk, RowsCmds;
    out := [];
    for j := 0 to |dbs|
      invariant out + PrintAll(Snapshot(dbs, j, now)) == PrintAll(Snapshot(dbs, 0, now))
    {
      if dbs[j] != [] {
        ghost var head := [Select(j)] + RowsCmds(dbs[j], now);
        PrintAllConcat(head, Snapshot(dbs, j + 1, now));
        PrintAllConcat([Select(j)], RowsCmds(dbs[j], now));
        PrintOne(Select(j));
        out := AofServer.CatGenericCommand(out, Select(j));
        out := RewriteRows(out, dbs[j], now);
      } else {
        assert Snapshot(dbs, j, now) == Snapshot(dbs, j + 1, now);
      }
    }
  }

  method RewriteRows(r: Bytes, rows: seq<Row>, now: int) returns (out: Bytes)
    requires forall i :: 0 <= i < |rows| ==> RowOk(rows[i])
    ensures out == r + PrintAll(RowsCmds(rows, now))
  {
    hide RowOk, RowCmds, Print;
    out := r;
    assert rows[0..] == rows;
    for i := 0 to |rows|
      invariant out + PrintAll(RowsCmds(rows[i..], now)) == r + PrintAll(RowsCmds(rows, now))
    {
      assert rows[i..][1..] == rows[i + 1..];
      PrintAllConcat(RowCmds(rows[i], now), RowsCmds(rows[i + 1..], now));
      out := RewriteRow(out, rows[i], now);
    }
  }
}
