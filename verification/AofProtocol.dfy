/** A background rewrite as a system of steps: the server goes on executing, logging and flushing
    while the forked process writes a snapshot, receives the differences through a pipe, and agrees
    with the server on when to stop. */
module AofProtocol {
  import opened AofLog
  import opened AofReplay
  import opened AofSnapshot
  import opened AofRebuild

  // ----- States and steps -----

  /** The forked process: writing the snapshot, waiting for the server's agreement, having it, done
      with success, or done with an error. */
  datatype Phase = Idle | Writing | Asked | Acked | Finished | Failed

  /** Whether the server logs: not at all, only for a rewrite that is to switch the file on, or fully. */
  datatype Mode = Off | Waiting | On

  /** The server's live dataset, its file and write buffer, its last selected database, whether it logs,
      and the rewrite buffer. */
  datatype Server = Server(data: Data, file: Bytes, buf: Bytes, selected: int, aof: Mode, pending: Bytes, stop: bool)

  /** The text of the snapshot, the differences received so far, and the finished file. */
  datatype Child = Child(phase: Phase, snap: Bytes, diff: Bytes, temp: Bytes)

  /** The data pipe, and the two pipes that carry a single mark each. */
  datatype Pipes = Pipes(data: Bytes, toParent: bool, toChild: bool)

  /** What happened so far: the commands in file and buffer, the commands of the snapshot, the dataset at the
      fork and the time of the fork, the operations logged since, and whether the file was installed by a
      rewrite that met no expired key. */
  datatype History = History(log: seq<Cmd>, snapCmds: seq<Cmd>, forked: Data, now: int, fed: seq<Op>, clean: bool)

  /** What the snapshot stands for. */
  function Base(h: History): Data {
    Live(h.forked, h.now)
  }

  datatype State = State(server: Server, child: Child, pipes: Pipes, hist: History)

  datatype Step =
    | Fork(dbs: seq<seq<Row>>, now: int, start: bool)
    | Feed(op: Op)
    | Flush(n: nat)
    | Send(n: nat)
    | Read(n: nat)
    | Ask
    | Ack(sent: bool)
    | GetAck
    | Finish
    | ChildFails
    | Install
    | GiveUp
    | Stop(n: nat)

  /** The environment of loading and the effect of ordinary commands. */
  datatype World = World(env: Env, others: Others)

  ghost predicate Knows(w: World) {
    w.env.known(SELECT) && w.env.known(SET) && w.env.known(PEXPIREAT) && forall k: Kind :: w.env.known(Name(k))
  }

  ghost predicate OpOk(w: World, op: Op) {
    op.db < LIMIT && Fits(op.cmd) && op.cmd != [] && w.env.known(op.cmd[0]) && !IsSelect(op.cmd)
  }

  predicate BodyFits(b: Body) {
    match b
    case StrBody(bytes) => |bytes| < LIMIT
    case ItemsBody(_, items) => forall i, j :: 0 <= i < |items| && 0 <= j < |items[i]| ==> |items[i][j]| < LIMIT
  }

  predicate RowFits(r: Row) {
    |r.key| < LIMIT && r.expire < LIMIT && BodyFits(r.body)
  }

  ghost predicate Enabled(w: World, s: State, step: Step) {
    match step
    case Fork(dbs, now, start) =>
      && s.child.phase == Idle && (start ==> s.server.aof == Off) && Lists(dbs, s.server.data) && |dbs| < LIMIT
      && forall j, i :: 0 <= j < |dbs| && 0 <= i < |dbs[j]| ==> RowFits(dbs[j][i])
    case Feed(op) => OpOk(w, op)
    case Flush(n) => s.server.aof != Off && n <= |s.server.buf|
    case Send(n) => s.child.phase != Idle && !s.server.stop && n <= |s.server.pending|
    case Read(n) => (s.child.phase == Writing || s.child.phase == Acked) && n <= |s.pipes.data|
    case Ask => s.child.phase == Writing
    case Ack(_) => s.pipes.toParent
    case GetAck => s.child.phase == Asked && s.pipes.toChild
    case Finish => s.child.phase == Acked && s.pipes.data == []
    case ChildFails => s.child.phase in {Writing, Asked, Acked}
    case Install => s.child.phase == Finished
    case GiveUp => s.child.phase in {Finished, Failed}
    case Stop(n) => s.server.aof != Off && n <= |s.server.buf|
  }

  function Text(selected: int, op: Op): Bytes {
    PrintAll(Logged(selected, op))
  }

  function After(w: World, s: State, step: Step): State
    requires match step
             case Fork(dbs, _, _) => DbsOk(dbs)
             case Flush(n) => n <= |s.server.buf|
             case Send(n) => n <= |s.server.pending|
             case Read(n) => n <= |s.pipes.data|
             case Stop(n) => n <= |s.server.buf|
             case _ => true
  {
    var v, c, p, h := s.server, s.child, s.pipes, s.hist;
    match step
    case Fork(dbs, now, start) =>
      var cs := Snapshot(dbs, 0, now);
      State(v.(selected := NO_DB, aof := if start then Waiting else v.aof, pending := [], stop := false),
            Child(Writing, PrintAll(cs), [], []), Pipes([], false, false),
            History(h.log, cs, v.data, now, [], h.clean))
    case Feed(op) =>
      var text := Text(v.selected, op);
      if v.aof == Off then s.(server := v.(data := Exec(w.others, v.data, op)))
      else
        s.(server := v.(data := Exec(w.others, v.data, op), selected := op.db,
                        buf := v.buf + (if v.aof == On then text else []),
                        pending := v.pending + (if c.phase != Idle then text else [])),
           hist := h.(log := h.log + (if v.aof == On then Logged(v.selected, op) else []), fed := h.fed + [op]))
    case Flush(n) => s.(server := v.(file := v.file + v.buf[..n], buf := v.buf[n..]))
    case Send(n) => s.(server := v.(pending := v.pending[n..]), pipes := p.(data := p.data + v.pending[..n]))
    case Read(n) => s.(child := c.(diff := c.diff + p.data[..n]), pipes := p.(data := p.data[n..]))
    case Ask => s.(child := c.(phase := Asked), pipes := p.(toParent := true))
    case Ack(sent) => s.(server := v.(stop := true), pipes := p.(toParent := false, toChild := sent))
    case GetAck => s.(child := c.(phase := Acked), pipes := p.(toChild := false))
    case Finish => s.(child := c.(phase := Finished, temp := c.snap + c.diff))
    case ChildFails => s.(child := c.(phase := Failed))
    case Install =>
      var installed := s.(server := v.(file := c.temp + v.pending, pending := []), child := c.(phase := Idle));
      if v.aof == Off then installed
      else
        installed.(server := installed.server.(buf := [], selected := NO_DB, aof := On),
                   hist := h.(log := h.snapCmds + LoggedAll(NO_DB, h.fed), clean := Base(h) == h.forked))
    case GiveUp => s.(server := v.(pending := []), child := c.(phase := Idle))
    case Stop(n) =>
      s.(server := v.(file := v.file + v.buf[..n], buf := v.buf[n..], selected := NO_DB, aof := Off, pending := []),
         child := c.(phase := Idle))
  }

  ghost predicate Next(w: World, s: State, step: Step, t: State) {
    Enabled(w, s, step) && t == After(w, s, step)
  }

  /** A server that starts with the file off or waiting for its first rewrite, with any dataset, or one that has
      just loaded the log in its file, which may be empty. */
  ghost predicate Init(w: World, s: State) {
    && s.child.phase == Idle && s.server.pending == [] && s.server.selected == NO_DB
    && s.pipes == Pipes([], false, false)
    && (s.server.aof == On ==>
          && s.server.buf == [] && s.server.file == PrintAll(s.hist.log) && ValidLog(w.env, s.hist.log)
          && Run(w.others, map[], Replay(s.hist.log, 0)) == s.server.data)
  }

  ghost predicate IsRun(w: World, run: seq<State>, steps: seq<Step>) {
    && |run| == |steps| + 1 && Init(w, run[0]) && Knows(w)
    && forall i :: 0 <= i < |steps| ==> Next(w, run[i], steps[i], run[i + 1])
  }

  // ----- Invariants -----

  /** File and buffer hold a log that replays to the live dataset. */
  ghost predicate LogInv(w: World, s: State) {
    s.server.aof == On ==>
      && s.server.file + s.server.buf == PrintAll(s.hist.log)
      && ValidLog(w.env, s.hist.log)
      && (s.server.selected == NO_DB || s.server.selected == Selected(s.hist.log, 0))
      && (s.hist.clean ==> Run(w.others, map[], Replay(s.hist.log, 0)) == s.server.data)
  }

  predicate Active(p: Phase) {
    p in {Writing, Asked, Acked, Finished}
  }

  /** Every byte fed since the fork is received, in the pipe, or still to be sent, in this order. */
  ghost predicate DiffInv(s: State) {
    Active(s.child.phase) ==>
      && PrintAll(LoggedAll(NO_DB, s.hist.fed)) == s.child.diff + s.pipes.data + s.server.pending
      && (s.server.aof != Off ==> s.server.selected == LastDb(NO_DB, s.hist.fed))
      && (s.child.phase == Finished ==> s.pipes.data == [] && s.child.temp == s.child.snap + s.child.diff)
  }

  /** The snapshot stands for the forked dataset, and the live one is ahead by what was fed. */
  ghost predicate SnapInv(w: World, s: State) {
    Active(s.child.phase) ==>
      && s.child.snap == PrintAll(s.hist.snapCmds)
      && ValidLog(w.env, s.hist.snapCmds)
      && Run(w.others, map[], Replay(s.hist.snapCmds, 0)) == Base(s.hist)
      && (forall i :: 0 <= i < |s.hist.fed| ==> OpOk(w, s.hist.fed[i]))
      && (s.server.aof != Off ==> Run(w.others, s.hist.forked, s.hist.fed) == s.server.data)
      && (s.server.aof == Off ==> s.hist.fed == [])
  }

  /** Nothing is sent any more once the agreement to stop is on its way. */
  ghost predicate StopInv(s: State) {
    && (s.pipes.toChild || s.child.phase in {Acked, Finished} ==> s.server.stop)
    && (s.child.phase == Idle ==> s.server.pending == [])
  }

  ghost predicate Inv(w: World, s: State) {
    LogInv(w, s) && DiffInv(s) && SnapInv(w, s) && StopInv(s)
  }

  // ----- Valid logs -----

  lemma ValidConcat(env: Env, a: seq<Cmd>, b: seq<Cmd>)
    requires ValidLog(env, a) && ValidLog(env, b)
    ensures ValidLog(env, a + b)
  {
  }

  lemma NoneValid(w: World)
    ensures ValidLog(w.env, [])
  {
  }

  lemma SelectFits(w: World, db: nat)
    requires Knows(w) && db < LIMIT
    ensures ValidLog(w.env, [Select(db)])
  {
    LimitShort(db);
  }

  lemma LoggedValid(w: World, selected: int, op: Op)
    requires Knows(w) && OpOk(w, op)
    ensures ValidLog(w.env, Logged(selected, op))
  {
    hide IsSelect, Fits, Knows, Select;
    SelectFits(w, op.db);
    assert Logged(selected, op) == [op.cmd] || Logged(selected, op) == [Select(op.db)] + [op.cmd];
  }

  lemma {:induction false} LoggedAllValid(w: World, selected: int, ops: seq<Op>)
    requires Knows(w) && forall i :: 0 <= i < |ops| ==> OpOk(w, ops[i])
    ensures ValidLog(w.env, LoggedAll(selected, ops))
    decreases ops
  {
    hide OpOk, Knows, Logged;
    if ops != [] {
      LoggedValid(w, selected, ops[0]);
      LoggedAllValid(w, ops[0].db, ops[1..]);
      ValidConcat(w.env, Logged(selected, ops[0]), LoggedAll(ops[0].db, ops[1..]));
    }
  }

  ghost predicate ItemsFit(items: seq<seq<Bytes>>) {
    forall i, j :: 0 <= i < |items| && 0 <= j < |items[i]| ==> |items[i][j]| < LIMIT
  }

  lemma {:induction false} FlatFits(items: seq<seq<Bytes>>)
    requires ItemsFit(items)
    ensures forall i :: 0 <= i < |Flat(items)| ==> |Flat(items)[i]| < LIMIT
  {
    if items != [] {
      FlatFits(items[1..]);
    }
  }

  lemma ItemCmdValid(w: World, kind: Kind, key: Bytes, items: seq<seq<Bytes>>)
    requires Knows(w) && Wide(kind, items) && |items| <= ITEMS_PER_CMD && |key| < LIMIT && ItemsFit(items)
    ensures ValidLog(w.env, [ItemCmd(kind, key, items)])
  {
    FlatLength(kind, items);
    FlatFits(items);
    assert |items| * Width(kind) <= 2 * |items|;
    assert |Name(kind)| < LIMIT;
  }

  lemma {:induction false} ItemCmdsValid(w: World, kind: Kind, key: Bytes, items: seq<seq<Bytes>>)
    requires Knows(w) && Wide(kind, items) && |key| < LIMIT && ItemsFit(items)
    ensures ValidLog(w.env, ItemCmds(kind, key, items))
    decreases |items|
  {
    hide Knows, ItemCmd;
    if items != [] {
      var m := Chunk(|items|);
      ItemCmdValid(w, kind, key, items[..m]);
      ItemCmdsValid(w, kind, key, items[m..]);
      ValidConcat(w.env, [ItemCmd(kind, key, items[..m])], ItemCmds(kind, key, items[m..]));
    }
  }

  lemma RowValid(w: World, r: Row, now: int)
    requires Knows(w) && RowOk(r) && RowFits(r)
    ensures ValidLog(w.env, RowCmds(r, now))
  {
    hide ItemCmds;
    if !Expired(r.expire, now) {
      match r.body {
        case StrBody(bytes) =>
        case ItemsBody(kind, items) =>
          ItemCmdsValid(w, kind, r.key, items);
      }
      if r.expire != NO_EXPIRE {
        LimitShort(r.expire);
        assert ValidLog(w.env, [[PEXPIREAT, r.key, Digits(r.expire)]]);
        ValidConcat(w.env, BodyCmds(r.key, r.body), [[PEXPIREAT, r.key, Digits(r.expire)]]);
      }
    }
  }

  lemma {:induction false} RowsValid(w: World, rows: seq<Row>, now: int)
    requires Knows(w) && forall i :: 0 <= i < |rows| ==> RowOk(rows[i]) && RowFits(rows[i])
    ensures ValidLog(w.env, RowsCmds(rows, now))
  {
    hide Knows, RowOk, RowFits, RowCmds;
    if rows != [] {
      RowValid(w, rows[0], now);
      RowsValid(w, rows[1..], now);
      ValidConcat(w.env, RowCmds(rows[0], now), RowsCmds(rows[1..], now));
    }
  }

  lemma DbValid(w: World, db: nat, rows: seq<Row>, now: int)
    requires Knows(w) && db < LIMIT && forall i :: 0 <= i < |rows| ==> RowOk(rows[i]) && RowFits(rows[i])
    ensures ValidLog(w.env, [Select(db)] + RowsCmds(rows, now))
  {
    hide Knows, RowOk, RowFits, RowsCmds, Select, ValidLog;
    RowsValid(w, rows, now);
    SelectFits(w, db);
    ValidConcat(w.env, [Select(db)], RowsCmds(rows, now));
  }

  lemma {:induction false} SnapshotValid(w: World, dbs: seq<seq<Row>>, from: nat, now: int)
    requires Knows(w) && from <= |dbs| < LIMIT && DbsOk(dbs)
    requires forall j, i :: 0 <= j < |dbs| && 0 <= i < |dbs[j]| ==> RowFits(dbs[j][i])
    ensures ValidLog(w.env, Snapshot(dbs, from, now))
    decreases |dbs| - from
  {
    hide Knows, RowOk, RowFits, RowsCmds, Select, ValidLog, PrintAll;
    NoneValid(w);
    if from < |dbs| {
      SnapshotValid(w, dbs, from + 1, now);
      var rest := Snapshot(dbs, from + 1, now);
      if dbs[from] != [] {
        DbValid(w, from, dbs[from], now);
        ValidConcat(w.env, [Select(from)] + RowsCmds(dbs[from], now), rest);
      } else {
        assert [] + rest == rest;
      }
    }
  }

  // ----- Every step keeps the invariants -----

  lemma {:induction false} RunAppend(w: World, d: Data, ops: seq<Op>, op: Op)
    ensures Run(w.others, d, ops + [op]) == Exec(w.others, Run(w.others, d, ops), op)
  {
    hide Exec;
    RunConcat(w.others, d, ops, [op]);
    RunOne(w.others, Run(w.others, d, ops), op);
  }

  lemma FeedLog(w: World, s: State, op: Op, t: State)
    requires Knows(w) && LogInv(w, s) && s.server.aof == On && Next(w, s, Feed(op), t)
    ensures LogInv(w, t)
  {
    hide Exec, IsSelect, Knows, ValidLog, PrintAll, Logged;
    var log, more := s.hist.log, Logged(s.server.selected, op);
    PrintAllConcat(log, more);
    LoggedValid(w, s.server.selected, op);
    ValidConcat(w.env, log, more);
    ReplayConcat(log, more, 0);
    LoggedReplays(s.server.selected, op, Selected(log, 0));
    RunAppend(w, map[], Replay(log, 0), op);
    assert t.server.file + t.server.buf == (s.server.file + s.server.buf) + PrintAll(more);
  }

  lemma InstallLog(w: World, s: State, t: State)
    requires Knows(w) && SnapInv(w, s) && DiffInv(s) && Next(w, s, Install, t)
    ensures LogInv(w, t) && t.server.data == s.server.data
    ensures t.server.file == PrintAll(s.hist.snapCmds + LoggedAll(NO_DB, s.hist.fed))
    ensures Replay(s.hist.snapCmds + LoggedAll(NO_DB, s.hist.fed), 0) == Replay(s.hist.snapCmds, 0) + s.hist.fed
    ensures Run(w.others, map[], Replay(s.hist.snapCmds, 0) + s.hist.fed) == Run(w.others, Base(s.hist), s.hist.fed)
  {
    hide Exec, Knows, ValidLog, PrintAll, IsSelect, Fits, LoggedAll, Run, Replay;
    var snap, fed := s.hist.snapCmds, LoggedAll(NO_DB, s.hist.fed);
    PrintAllConcat(snap, fed);
    LoggedAllValid(w, NO_DB, s.hist.fed);
    ValidConcat(w.env, snap, fed);
    ReplayConcat(snap, fed, 0);
    ReplayOfLogged(NO_DB, s.hist.fed, Selected(snap, 0));
    RunConcat(w.others, map[], Replay(snap, 0), s.hist.fed);
    assert t.server.file + [] == t.server.file;
    assert t.server.file == s.child.snap + (s.child.diff + s.pipes.data + s.server.pending);
  }

  lemma StepLog(w: World, s: State, step: Step, t: State)
    requires Knows(w) && Inv(w, s) && Next(w, s, step, t)
    ensures LogInv(w, t)
  {
    hide Exec, Knows, ValidLog, PrintAll, Replay, Run, Lists, Snapshot, Live, Logged, LoggedAll;
    match step {
      case Feed(op) =>
        if s.server.aof == On {
          FeedLog(w, s, op, t);
        }
      case Flush(n) =>
        assert s.server.buf == s.server.buf[..n] + s.server.buf[n..];
        assert t.server.file + t.server.buf == s.server.file + s.server.buf;
      case Install =>
        InstallLog(w, s, t);
      case _ =>
    }
  }

  lemma FeedDiff(w: World, s: State, op: Op, t: State)
    requires DiffInv(s) && Active(s.child.phase) && Next(w, s, Feed(op), t)
    ensures DiffInv(t)
  {
    hide Exec, PrintAll, Logged, OpOk, LoggedAll;
    var v, h := s.server, s.hist;
    if v.aof != Off {
      LoggedAllAppend(NO_DB, h.fed, op);
      PrintAllConcat(LoggedAll(NO_DB, h.fed), Logged(v.selected, op));
      Grow(s.child.diff, s.pipes.data, v.pending, Text(v.selected, op));
    }
  }

  lemma Grow(a: Bytes, b: Bytes, c: Bytes, d: Bytes)
    ensures a + b + c + d == a + b + (c + d)
  {
  }

  lemma SendMoves(a: Bytes, b: Bytes, c: Bytes, n: nat)
    requires n <= |c|
    ensures a + (b + c[..n]) + c[n..] == a + b + c
  {
    assert c == c[..n] + c[n..];
  }

  lemma ReadMoves(a: Bytes, b: Bytes, c: Bytes, n: nat)
    requires n <= |b|
    ensures a + b[..n] + b[n..] + c == a + b + c
  {
    assert b == b[..n] + b[n..];
  }

  lemma StepDiff(w: World, s: State, step: Step, t: State)
    requires DiffInv(s) && StopInv(s) && Next(w, s, step, t)
    ensures DiffInv(t)
  {
    hide Exec, PrintAll, Lists, Snapshot, Live, Logged, OpOk, LoggedAll, RowFits;
    var v, c, p := s.server, s.child, s.pipes;
    if Active(c.phase) {
      match step {
        case Feed(op) =>
          FeedDiff(w, s, op, t);
        case Send(n) =>
          SendMoves(c.diff, p.data, v.pending, n);
        case Read(n) =>
          ReadMoves(c.diff, p.data, v.pending, n);
        case _ =>
      }
    } else if step.Fork? {
      PrintsNothing();
    }
  }

  lemma PrintsNothing()
    ensures LoggedAll(NO_DB, []) == [] && PrintAll([]) == []
  {
  }

  lemma StepSnap(w: World, s: State, step: Step, t: State)
    requires Knows(w) && SnapInv(w, s) && Next(w, s, step, t)
    ensures SnapInv(w, t)
  {
    hide Exec, PrintAll, Logged, OpOk, ValidLog, Replay, Knows, Live;
    match step {
      case Fork(dbs, now, start) =>
        SnapshotRebuilds(w.others, dbs, s.server.data, now, 0);
        SnapshotValid(w, dbs, 0, now);
      case Feed(op) =>
        if Active(s.child.phase) {
          RunAppend(w, s.hist.forked, s.hist.fed, op);
        }
      case _ =>
    }
  }

  lemma StepStop(w: World, s: State, step: Step, t: State)
    requires StopInv(s) && Next(w, s, step, t)
    ensures StopInv(t)
  {
    hide Exec, PrintAll, Logged, OpOk, Snapshot, Lists, Live, LoggedAll;
  }

  lemma StepInv(w: World, s: State, step: Step, t: State)
    requires Knows(w) && Inv(w, s) && Next(w, s, step, t)
    ensures Inv(w, t)
  {
    hide Knows, LogInv, DiffInv, SnapInv, StopInv, Next;
    StepLog(w, s, step, t);
    StepDiff(w, s, step, t);
    StepSnap(w, s, step, t);
    StepStop(w, s, step, t);
  }

  lemma InitInv(w: World, s: State)
    requires Init(w, s)
    ensures Inv(w, s)
  {
    hide PrintAll, Replay, Run, ValidLog;
    assert s.server.file + [] == s.server.file;
  }

  lemma {:induction false} RunInv(w: World, run: seq<State>, steps: seq<Step>, i: nat)
    requires IsRun(w, run, steps) && i < |run|
    ensures Inv(w, run[i])
  {
    hide Inv, Next, Init, Knows;
    if i == 0 {
      InitInv(w, run[0]);
    } else {
      RunInv(w, run, steps, i - 1);
      StepInv(w, run[i - 1], steps[i - 1], run[i]);
    }
  }

  // ----- The theorems -----

  /** Whenever a rewrite is installed, in any run, the new file is the text of the snapshot followed by
      everything logged since the fork, in order, nothing lost or repeated; it replays as the snapshot
      followed by exactly those operations. */
  lemma InstalledFile(w: World, run: seq<State>, steps: seq<Step>, i: nat)
    requires IsRun(w, run, steps) && i < |steps| && steps[i] == Install
    ensures var h := run[i].hist;
            var log := h.snapCmds + LoggedAll(NO_DB, h.fed);
            && run[i + 1].server.file == PrintAll(log)
            && Replay(log, 0) == Replay(h.snapCmds, 0) + h.fed
            && Run(w.others, map[], Replay(log, 0)) == Run(w.others, Base(h), h.fed)
  {
    RunInv(w, run, steps, i);
    InstallLog(w, run[i], run[i + 1]);
  }

  /** At every moment of every run with the file on, file and buffer together load without error and
      replay to the live dataset, provided the rewrite that installed the file, if any, met no expired
      key. Rewrites that failed or were replaced do not matter. */
  lemma AlwaysReplays(w: World, run: seq<State>, steps: seq<Step>, i: nat)
    requires IsRun(w, run, steps) && i < |run|
    requires var s := run[i]; s.server.aof == On && s.hist.clean && s.hist.log != [] && !w.env.inMulti(s.hist.log)
    ensures var s := run[i];
            && Load(w.env, s.server.file + s.server.buf) == Loaded(s.hist.log, |s.server.file + s.server.buf|)
            && Run(w.others, map[], Replay(s.hist.log, 0)) == s.server.data
  {
    RunInv(w, run, steps, i);
    LoadOfLog(w.env, run[i].hist.log);
  }

  ghost predicate NoneExpired(data: Data, now: int) {
    forall k :: k in data ==> !Expired(data[k].expire, now)
  }

  /** The dataset that a snapshot stands for is the forked one exactly if no key was expired. */
  lemma LiveIff(data: Data, now: int)
    ensures Live(data, now) == data <==> NoneExpired(data, now)
  {
    if Live(data, now) == data {
      forall k | k in data ensures !Expired(data[k].expire, now) {
        assert k in Live(data, now);
      }
    }
  }

  /** Right after a rewrite with nothing logged in between, the file replays to the live dataset exactly if
      no key was expired at the fork. */
  lemma ReplaysIffNoneExpired(w: World, run: seq<State>, steps: seq<Step>, i: nat)
    requires IsRun(w, run, steps) && i < |steps| && steps[i] == Install
    requires run[i].server.aof != Off && run[i].hist.fed == []
    ensures var h, t := run[i].hist, run[i + 1];
            && t.server.aof == On && t.server.data == h.forked
            && (Run(w.others, map[], Replay(t.hist.log, 0)) == t.server.data <==> NoneExpired(h.forked, h.now))
  {
    RunInv(w, run, steps, i);
    InstallLog(w, run[i], run[i + 1]);
    LiveIff(run[i].hist.forked, run[i].hist.now);
  }

  /** A server with one expired key. */
  function OneExpired(): State {
    var data := map[(0, [107]) := Entry(Str([118]), 5)];
    State(Server(data, [], [], NO_DB, Waiting, [], false), Child(Idle, [], [], []), Pipes([], false, false),
          History([], [], map[], 0, [], true))
  }

  function ForkIt(): Step {
    Fork([[Row([107], StrBody([118]), 5)]], 6, false)
  }

  /** Forking while the key is expired and still there. */
  lemma ForkExpired(w: World) returns (s: State)
    ensures Next(w, OneExpired(), ForkIt(), s) && Init(w, OneExpired())
    ensures s.child.phase == Writing && s.pipes == Pipes([], false, false) && s.server.aof == Waiting
    ensures s.hist.fed == [] && !NoneExpired(s.hist.forked, s.hist.now)
  {
    hide Snapshot, PrintAll, Lists, Run, Replay;
    var s0, dbs := OneExpired(), ForkIt().dbs;
    OneListed(dbs, s0.server.data);
    assert Enabled(w, s0, ForkIt());
    s := After(w, s0, ForkIt());
    assert (0, [107]) in s.hist.forked;
  }

  /** A rewrite during which nothing happens. */
  lemma QuickRewrite(w: World, s: State) returns (t: seq<State>)
    requires s.child.phase == Writing && s.pipes == Pipes([], false, false) && s.server.aof == Waiting
    ensures |t| == 5 && Next(w, s, Ask, t[0]) && Next(w, t[0], Ack(true), t[1]) && Next(w, t[1], GetAck, t[2])
    ensures Next(w, t[2], Finish, t[3]) && Next(w, t[3], Install, t[4])
    ensures t[3].hist == s.hist && t[3].server.aof == Waiting
  {
    hide Snapshot, PrintAll, Lists, Run, Replay, LoggedAll;
    var s1 := After(w, s, Ask);
    var s2 := After(w, s1, Ack(true));
    var s3 := After(w, s2, GetAck);
    var s4 := After(w, s3, Finish);
    t := [s1, s2, s3, s4, After(w, s4, Install)];
  }

  /** The run that loses it. */
  lemma ExpiredKeyLost(w: World) returns (run: seq<State>, steps: seq<Step>)
    requires Knows(w)
    ensures IsRun(w, run, steps) && |run| == 7 && run[0] == OneExpired() && run[6].server.aof == On
    ensures Run(w.others, map[], Replay(run[6].hist.log, 0)) != run[6].server.data
  {
    hide Next, Init, OneExpired, ForkIt, Run, Replay, Knows;
    var s := ForkExpired(w);
    var t := QuickRewrite(w, s);
    steps := [ForkIt(), Ask, Ack(true), GetAck, Finish, Install];
    run := [OneExpired(), s, t[0], t[1], t[2], t[3], t[4]];
    ReplaysIffNoneExpired(w, run, steps, 5);
  }

  lemma OneListed(dbs: seq<seq<Row>>, data: Data)
    requires dbs == [[Row([107], StrBody([118]), 5)]] && data == map[(0, [107]) := Entry(Str([118]), 5)]
    ensures Lists(dbs, data) && RowFits(dbs[0][0])
  {
  }

  /** When the server dies at any moment, and the last write reached the disk only in part, loading
      what is there with truncation allowed runs a prefix of the log: all commands whose text is
      complete. */
  lemma CrashLoadsPrefix(w: World, run: seq<State>, steps: seq<Step>, i: nat, k: nat)
    requires IsRun(w, run, steps) && i < |run|
    requires var s := run[i]; s.server.aof == On && 0 < k <= |s.server.file + s.server.buf|
    requires w.env.loadTruncated && w.env.truncateOk
    ensures var s := run[i];
            var m := Complete(s.hist.log, k);
            Load(w.env, (s.server.file + s.server.buf)[..k]) == Loaded(s.hist.log[..m], |PrintAll(s.hist.log[..m])|)
  {
    RunInv(w, run, steps, i);
    LoadOfCutLog(w.env, run[i].hist.log, k);
  }
}
