/** What a log means: each command is replayed in the database selected by then. */
module AofReplay {
  import opened AofLog
  import opened Bits

  /** A command together with the database it is meant for. */
  datatype Op = Op(db: nat, cmd: Cmd)

  function Upper(b: Byte): Byte {
    if 97 <= b <= 122 then b - 32 else b
  }

  const SELECT: Bytes := [83, 69, 76, 69, 67, 84]

  /** Command names are looked up without regard to case. */
  predicate Named(c: Cmd, name: Bytes) {
    c != [] && |c[0]| == |name| && forall i :: 0 <= i < |name| ==> Upper(c[0][i]) == name[i]
  }

  predicate IsSelect(c: Cmd) {
    Named(c, SELECT) && |c| == 2 && StrTol(c[1]) >= 0
  }

  function Select(db: nat): Cmd {
    [SELECT, Digits(db)]
  }

  lemma SelectReads(db: nat)
    ensures IsSelect(Select(db)) && StrTol(Select(db)[1]) == db
  {
    NumberOfDigits(db, []);
    assert Digits(db) + [] == Digits(db);
    DigitsNonempty(db);
    DigitsAreDigits(db, 0);
    assert SkipSpace(Digits(db)) == Digits(db);
  }

  lemma DigitsNonempty(n: nat)
    ensures Digits(n) != []
  {
  }

  /** The operations a log performs when the selected database is `db` at its start. */
  function Replay(cs: seq<Cmd>, db: nat): seq<Op> {
    if cs == [] then []
    else if IsSelect(cs[0]) then Replay(cs[1..], StrTol(cs[0][1]))
    else [Op(db, cs[0])] + Replay(cs[1..], db)
  }

  /** The database selected after a log. */
  function Selected(cs: seq<Cmd>, db: nat): nat {
    if cs == [] then db
    else Selected(cs[1..], if IsSelect(cs[0]) then StrTol(cs[0][1]) else db)
  }

  lemma {:induction false} ReplayConcat(a: seq<Cmd>, b: seq<Cmd>, db: nat)
    ensures Replay(a + b, db) == Replay(a, db) + Replay(b, Selected(a, db))
    ensures Selected(a + b, db) == Selected(b, Selected(a, db))
  {
    if a == [] {
      assert a + b == b;
    } else {
      assert (a + b)[1..] == a[1..] + b;
      ReplayConcat(a[1..], b, if IsSelect(a[0]) then StrTol(a[0][1]) else db);
    }
  }

  const NO_DB: int := -1

  /** What is logged for one operation when `selected` was the database of the previous one. */
  function Logged(selected: int, op: Op): seq<Cmd> {
    (if op.db != selected then [Select(op.db)] else []) + [op.cmd]
  }

  /** What is logged for a sequence of operations. */
  function LoggedAll(selected: int, ops: seq<Op>): seq<Cmd>
    decreases ops
  {
    if ops == [] then [] else Logged(selected, ops[0]) + LoggedAll(ops[0].db, ops[1..])
  }

  function LastDb(selected: int, ops: seq<Op>): int {
    if ops == [] then selected else ops[|ops| - 1].db
  }

  lemma {:induction false} LoggedAllAppend(selected: int, ops: seq<Op>, op: Op)
    ensures LoggedAll(selected, ops + [op]) == LoggedAll(selected, ops) + Logged(LastDb(selected, ops), op)
    decreases ops
  {
    if ops == [] {
      assert (ops + [op])[1..] == [];
    } else {
      assert (ops + [op])[1..] == ops[1..] + [op];
      LoggedAllAppend(ops[0].db, ops[1..], op);
    }
  }

  /** The log of a sequence of operations replays as exactly these operations, each in its own
      database, whatever was selected before, provided the writer either starts without a selected
      database or agrees with the reader about it. */
  lemma {:induction false} ReplayOfLogged(selected: int, ops: seq<Op>, db: nat)
    requires selected == NO_DB || selected == db
    requires forall i :: 0 <= i < |ops| ==> !IsSelect(ops[i].cmd)
    ensures Replay(LoggedAll(selected, ops), db) == ops
    ensures ops != [] ==> Selected(LoggedAll(selected, ops), db) == ops[|ops| - 1].db
    decreases ops
  {
    hide IsSelect, Logged;
    if ops != [] {
      var op := ops[0];
      var first, rest := Logged(selected, op), LoggedAll(op.db, ops[1..]);
      LoggedReplays(selected, op, db);
      ReplayConcat(first, rest, db);
      ReplayOfLogged(op.db, ops[1..], op.db);
      if ops[1..] == [] {
        assert rest == [];
      }
    }
  }

  lemma LoggedReplays(selected: int, op: Op, db: nat)
    requires selected == NO_DB || selected == db
    requires !IsSelect(op.cmd)
    ensures Replay(Logged(selected, op), db) == [op] && Selected(Logged(selected, op), db) == op.db
  {
    SelectReads(op.db);
    hide IsSelect, StrTol;
    assert [op.cmd][1..] == [];
    assert Replay([op.cmd], op.db) == [op];
    assert Selected([op.cmd], op.db) == op.db;
    if op.db != selected {
      assert Logged(selected, op)[1..] == [op.cmd];
    }
  }
}
