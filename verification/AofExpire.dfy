/** Commands that set a time to live: what they do live, what is logged for them, and when the two agree. */
module AofExpire {
  import opened AofLog
  import opened AofReplay
  import opened AofSnapshot
  import opened AofRebuild

  /** EXPIRE, PEXPIRE, EXPIREAT, SETEX and PSETEX. */
  datatype Timed = Expire | PExpire | ExpireAt | SetEx | PSetEx | Untimed

  const EXPIRE: Bytes := [69, 88, 80, 73, 82, 69]
  const PEXPIRE: Bytes := [80, 69, 88, 80, 73, 82, 69]
  const EXPIREAT: Bytes := [69, 88, 80, 73, 82, 69, 65, 84]
  const SETEX: Bytes := [83, 69, 84, 69, 88]
  const PSETEX: Bytes := [80, 83, 69, 84, 69, 88]
  const DEL: Bytes := [68, 69, 76]

  function TimedOf(c: Cmd): (t: Timed)
    ensures t in {Expire, PExpire, ExpireAt} ==> |c| == 3
    ensures t in {SetEx, PSetEx} ==> |c| == 4
  {
    if |c| == 3 && Named(c, EXPIRE) then Expire
    else if |c| == 3 && Named(c, PEXPIRE) then PExpire
    else if |c| == 3 && Named(c, EXPIREAT) then ExpireAt
    else if |c| == 4 && Named(c, SETEX) then SetEx
    else if |c| == 4 && Named(c, PSETEX) then PSetEx
    else Untimed
  }

  predicate Relative(t: Timed) {
    t != ExpireAt
  }

  function Unit(t: Timed): int {
    if t in {PExpire, PSetEx} then 1 else 1000
  }

  /** The moment in milliseconds that an argument stands for when the clock shows `clock`. */
  function When(t: Timed, arg: Bytes, clock: int): int {
    Unit(t) * StrTol(arg) + if Relative(t) then clock else 0
  }

  // ----- Printed moments -----

  function Printed(n: int): Bytes {
    if n < 0 then [MINUS] + Digits(-n) else Digits(n)
  }

  lemma PrintedReads(n: int)
    ensures StrTol(Printed(n)) == n
  {
    var m: nat := if n < 0 then -n else n;
    NumberInit(m);
    DigitsNonempty(m);
    DigitsAreDigits(m, 0);
    if n < 0 {
      assert SkipSpace(Printed(n)) == Printed(n) && Printed(n)[1..] == Digits(m);
    } else {
      assert SkipSpace(Printed(n)) == Printed(n);
    }
  }

  // ----- What is logged -----

  function ExpireAtCmd(t: Timed, key: Bytes, arg: Bytes, clock: int): Cmd {
    [PEXPIREAT, key, Printed(When(t, arg, clock))]
  }

  /** A time to live becomes a moment, by the clock at the time of logging. */
  function Translated(c: Cmd, clock: int): (cs: seq<Cmd>)
    ensures cs != []
  {
    match TimedOf(c)
    case Untimed => [c]
    case SetEx => [[SET, c[1], c[3]], ExpireAtCmd(SetEx, c[1], c[2], clock)]
    case PSetEx => [[SET, c[1], c[3]], ExpireAtCmd(PSetEx, c[1], c[2], clock)]
    case t => [ExpireAtCmd(t, c[1], c[2], clock)]
  }

  /** Commands for one database need no SELECT between them. */
  lemma {:induction false} LoggedSame(db: nat, cs: seq<Cmd>)
    ensures LoggedAll(db, Ops(db, cs)) == cs
  {
    if cs != [] {
      LoggedSame(db, cs[1..]);
      assert Ops(db, cs)[1..] == Ops(db, cs[1..]);
    }
  }

  lemma LoggedOnce(selected: int, db: nat, cs: seq<Cmd>)
    requires cs != []
    ensures LoggedAll(selected, Ops(db, cs)) == (if db != selected then [Select(db)] else []) + cs
  {
    LoggedSame(db, cs[1..]);
    assert Ops(db, cs)[1..] == Ops(db, cs[1..]);
  }

  // ----- What happens live -----

  /** Whether the command sets a moment that has not passed. `base` is the clock that a time to live is added to,
      `now` the clock that the moment is compared with. */
  predicate Lasting(d: Data, db: nat, c: Cmd, base: int, now: int) {
    match TimedOf(c)
    case Untimed => false
    case SetEx => StrTol(c[2]) > 0
    case PSetEx => StrTol(c[2]) > 0
    case t => (db, c[1]) in d && When(t, c[2], base) > now
  }

  /** The command deletes its key, since the moment has passed. */
  predicate Deleting(d: Data, db: nat, c: Cmd, base: int, now: int) {
    var t := TimedOf(c);
    t in {Expire, PExpire, ExpireAt} && (db, c[1]) in d && When(t, c[2], base) <= now
  }

  /** The dataset with the moment set by the clock `clock`. */
  function Stamped(d: Data, db: nat, c: Cmd, clock: int): Data
    requires TimedOf(c) != Untimed && (TimedOf(c) in {SetEx, PSetEx} || (db, c[1]) in d)
  {
    var t, k := TimedOf(c), (db, c[1]);
    if t in {SetEx, PSetEx} then d[k := Entry(Str(c[3]), When(t, c[2], clock))]
    else d[k := d[k].(expire := When(t, c[2], clock))]
  }

  function LiveExec(d: Data, db: nat, c: Cmd, base: int, now: int): Data
    requires TimedOf(c) != Untimed
  {
    if Deleting(d, db, c, base, now) then d - {(db, c[1])}
    else if Lasting(d, db, c, base, now) then Stamped(d, db, c, base)
    else d
  }

  /** What goes to the log: nothing if nothing changed, a DEL for a deletion, otherwise the translation. */
  function LoggedFor(d: Data, db: nat, c: Cmd, base: int, now: int, clock: int): seq<Cmd> {
    if Deleting(d, db, c, base, now) then [[DEL, c[1]]]
    else if Lasting(d, db, c, base, now) then Translated(c, clock)
    else []
  }

  /** DEL is one of the commands that the model leaves open. */
  ghost predicate Deletes(others: Others) {
    forall d, db, key :: others(d, Op(db, [DEL, key])) == d - {(db, key)}
  }

  // ----- Replaying it -----

  lemma ExecExpireAt(others: Others, d: Data, db: nat, t: Timed, key: Bytes, arg: Bytes, clock: int)
    requires (db, key) in d
    ensures Exec(others, d, Op(db, ExpireAtCmd(t, key, arg, clock)))
         == d[(db, key) := d[(db, key)].(expire := When(t, arg, clock))]
  {
    hide MeaningOf, When, Printed;
    OwnNames(key, Printed(When(t, arg, clock)));
    PrintedReads(When(t, arg, clock));
  }

  lemma OpsOne(db: nat, c: Cmd)
    ensures Ops(db, [c]) == [Op(db, c)]
  {
    assert [c][1..] == [];
  }

  lemma ExecSet(others: Others, d: Data, db: nat, key: Bytes, x: Bytes)
    ensures Exec(others, d, Op(db, [SET, key, x])) == d[(db, key) := Entry(Str(x), NO_EXPIRE)]
  {
    hide MeaningOf;
    OwnNames(key, x);
  }

  /** What the translation of a command that lasts does when it is replayed. */
  lemma ReplayLasting(others: Others, d: Data, db: nat, c: Cmd, base: int, now: int, clock: int)
    requires Lasting(d, db, c, base, now)
    ensures Run(others, d, Ops(db, Translated(c, clock))) == Stamped(d, db, c, clock)
  {
    hide Exec, When, Named;
    var t, k := TimedOf(c), (db, c[1]);
    var last := ExpireAtCmd(t, c[1], c[2], clock);
    if t in {SetEx, PSetEx} {
      var first: Cmd := [SET, c[1], c[3]];
      assert Translated(c, clock) == [first] + [last];
      OpsOne(db, first);
      OpsOne(db, last);
      OpsConcat(db, [first], [last]);
      ExecSet(others, d, db, c[1], c[3]);
      var d' := d[k := Entry(Str(c[3]), NO_EXPIRE)];
      ExecExpireAt(others, d', db, t, c[1], c[2], clock);
      RunConcat(others, d, [Op(db, first)], [Op(db, last)]);
      RunOne(others, d, Op(db, first));
      RunOne(others, d', Op(db, last));
    } else {
      assert Translated(c, clock) == [last];
      OpsOne(db, last);
      ExecExpireAt(others, d, db, t, c[1], c[2], clock);
      RunOne(others, d, Op(db, last));
    }
  }

  /** For every command with a time to live and every dataset: replaying what was logged gives the live dataset if
      and only if the command set no moment by a relative time, or the clock read at logging shows what it showed
      at execution. */
  lemma ReplaysIffClocksAgree(others: Others, d: Data, db: nat, c: Cmd, base: int, now: int, clock: int)
    requires TimedOf(c) != Untimed && Deletes(others)
    ensures Run(others, d, Ops(db, LoggedFor(d, db, c, base, now, clock))) == LiveExec(d, db, c, base, now)
            <==> (Lasting(d, db, c, base, now) && Relative(TimedOf(c)) ==> base == clock)
  {
    hide Exec, Named;
    var t, k := TimedOf(c), (db, c[1]);
    if Deleting(d, db, c, base, now) {
      var del: Cmd := [DEL, c[1]];
      OpsOne(db, del);
      RunOne(others, d, Op(db, del));
      ExecDel(others, d, db, c[1]);
    } else if Lasting(d, db, c, base, now) {
      ReplayLasting(others, d, db, c, base, now, clock);
      hide Run, Lasting, Deleting;
      var live := LiveExec(d, db, c, base, now);
      var again := Run(others, d, Ops(db, Translated(c, clock)));
      assert live[k].expire == When(t, c[2], base) && again[k].expire == When(t, c[2], clock);
    }
  }

  lemma ExecDel(others: Others, d: Data, db: nat, key: Bytes)
    requires Deletes(others)
    ensures Exec(others, d, Op(db, [DEL, key])) == d - {(db, key)}
  {
  }

  /** One second, set at moment 0 and logged at moment 1, replays as a later expiry. */
  lemma ExpiryDrifts(others: Others)
    requires Deletes(others)
    ensures var d: Data := map[(0, [107]) := Entry(Str([118]), NO_EXPIRE)];
            var c: Cmd := [EXPIRE, [107], [49]];
            TimedOf(c) == Expire && Run(others, d, Ops(0, LoggedFor(d, 0, c, 0, 0, 1))) != LiveExec(d, 0, c, 0, 0)
  {
    var d: Data := map[(0, [107]) := Entry(Str([118]), NO_EXPIRE)];
    var c: Cmd := [EXPIRE, [107], [49]];
    assert Named(c, EXPIRE);
    assert StrTol([49]) == 1 by {
      PrintedReads(1);
      assert Printed(1) == [49];
    }
    hide Run, Exec;
    ReplaysIffClocksAgree(others, d, 0, c, 0, 0, 1);
  }
}
