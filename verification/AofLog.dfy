/** The append only file as text: how commands are printed, and what the loader makes of any file. */
module AofLog {
  import opened Bits

  type Bytes = seq<Byte>

  /** A command is its argument vector. */
  type Cmd = seq<Bytes>

  const STAR: Byte := 42
  const DOLLAR: Byte := 36
  const CR: Byte := 13
  const LF: Byte := 10
  const PLUS: Byte := 43
  const MINUS: Byte := 45

  /** Lengths and counts are `long long` in the program; their decimal form has at most 19 digits. */
  const LIMIT: nat := 0x8000_0000_0000_0000

  // ----- Printing -----

  function Digits(n: nat): Bytes {
    if n < 10 then [48 + n] else Digits(n / 10) + [48 + n % 10]
  }

  function Header(mark: Byte, n: nat): Bytes {
    [mark] + Digits(n) + [CR, LF]
  }

  function Bulk(a: Bytes): Bytes {
    Header(DOLLAR, |a|) + a + [CR, LF]
  }

  function Bulks(args: seq<Bytes>): Bytes {
    if args == [] then [] else Bulk(args[0]) + Bulks(args[1..])
  }

  function Print(c: Cmd): Bytes {
    Header(STAR, |c|) + Bulks(c)
  }

  function PrintAll(cs: seq<Cmd>): Bytes {
    if cs == [] then [] else Print(cs[0]) + PrintAll(cs[1..])
  }

  lemma {:induction false} BulksConcat(a: seq<Bytes>, b: seq<Bytes>)
    ensures Bulks(a + b) == Bulks(a) + Bulks(b)
  {
    if a == [] {
      assert a + b == b;
    } else {
      assert (a + b)[1..] == a[1..] + b;
      BulksConcat(a[1..], b);
    }
  }

  lemma {:induction false} PrintAllConcat(a: seq<Cmd>, b: seq<Cmd>)
    ensures PrintAll(a + b) == PrintAll(a) + PrintAll(b)
  {
    if a == [] {
      assert a + b == b;
    } else {
      assert (a + b)[1..] == a[1..] + b;
      PrintAllConcat(a[1..], b);
    }
  }

  // ----- Reading a line and a number -----

  /** How much `fgets` takes with room for `room` bytes: up to and including a line feed. */
  function LineLength(s: Bytes, room: nat): (n: nat)
    ensures n <= |s| && n <= room
    ensures s != [] && room > 0 ==> n > 0
  {
    if s == [] || room == 0 then 0 else if s[0] == LF then 1 else 1 + LineLength(s[1..], room - 1)
  }

  const ROOM: nat := 127

  /** Whether that read ran into the end of the file. */
  predicate HitsEof(s: Bytes) {
    LineLength(s, ROOM) == |s| && |s| < ROOM && (s == [] || s[|s| - 1] != LF)
  }

  predicate IsSpace(b: Byte) { b == 32 || 9 <= b <= 13 }

  predicate IsDigit(b: Byte) { 48 <= b <= 57 }

  function SkipSpace(s: Bytes): Bytes {
    if s != [] && IsSpace(s[0]) then SkipSpace(s[1..]) else s
  }

  function Number(s: Bytes, acc: nat): nat {
    if s != [] && IsDigit(s[0]) then Number(s[1..], 10 * acc + (s[0] - 48)) else acc
  }

  /** `strtol` and `atoi` in base ten. */
  function StrTol(s: Bytes): int {
    var t := SkipSpace(s);
    if t != [] && t[0] == MINUS then 0 - Number(t[1..], 0)
    else if t != [] && t[0] == PLUS then Number(t[1..], 0)
    else Number(t, 0)
  }

  // ----- Loading -----

  /** What one attempt to read a command yields. */
  datatype Parsed =
    | End
    | Command(argv: Cmd, used: nat)
    | ShortRead
    | Broken

  /** Reads `n` more arguments. */
  function ParseArgs(s: Bytes, n: nat, argv: Cmd, used: nat): (p: Parsed)
    ensures p.Command? ==> used <= p.used <= used + |s|
    decreases n
  {
    if n == 0 then Command(argv, used)
    else if s == [] then ShortRead
    else if s[0] != DOLLAR then Broken
    else
      var e := LineLength(s, ROOM);
      var len := StrTol(s[1..e]);
      if len < 0 then Broken
      else if e + len + 2 > |s| then ShortRead
      else ParseArgs(s[e + len + 2..], n - 1, argv + [s[e..e + len]], used + e + len + 2)
  }

  /** Reads one command from what is left of the file. */
  function ParseCommand(s: Bytes): (p: Parsed)
    ensures p.Command? ==> 0 < p.used <= |s| && p.argv != []
  {
    if s == [] then End
    else if s[0] != STAR then Broken
    else
      var e := LineLength(s, ROOM);
      if e == 1 || s[1] == 0 then (if HitsEof(s) then ShortRead else Broken)
      else
        var argc := StrTol(s[1..e]);
        if argc < 1 then Broken
        else
          assert ParseArgs(s[e..], argc, [], e).Command? ==> |ParseArgs(s[e..], argc, [], e).argv| == argc by {
            ArgsCounted(s[e..], argc, [], e);
          }
          ParseArgs(s[e..], argc, [], e)
  }

  lemma {:induction false} ArgsCounted(s: Bytes, n: nat, argv: Cmd, used: nat)
    ensures ParseArgs(s, n, argv, used).Command? ==> |ParseArgs(s, n, argv, used).argv| == |argv| + n
    decreases n
  {
    hide LineLength, StrTol;
    if n > 0 && s != [] && s[0] == DOLLAR {
      var e := LineLength(s, ROOM);
      var len := StrTol(s[1..e]);
      if len >= 0 && e + len + 2 <= |s| {
        ArgsCounted(s[e + len + 2..], n - 1, argv + [s[e..e + len]], used + e + len + 2);
      }
    }
  }

  /** The outcome of loading: nothing to load, the commands run and the length the file is left with,
      or the program gives up. */
  datatype Outcome = Empty | Loaded(cmds: seq<Cmd>, keep: nat) | Fatal

  /** What surrounds the loader: which command names exist, whether the client is inside a
      transaction after a sequence of commands, the option to load truncated files, and whether
      truncating the file succeeds. */
  datatype Env = Env(known: Bytes -> bool, inMulti: seq<Cmd> -> bool, loadTruncated: bool, truncateOk: bool)

  function Unexpected(env: Env, done: seq<Cmd>, validUpTo: nat): Outcome {
    if env.loadTruncated && env.truncateOk then Loaded(done, validUpTo) else Fatal
  }

  /** The rest of a load after `done` was run and `at` bytes were read. */
  function LoadFrom(env: Env, s: Bytes, done: seq<Cmd>, at: nat): Outcome
    decreases |s|
  {
    match ParseCommand(s)
    case End => if env.inMulti(done) then Unexpected(env, done, at) else Loaded(done, at)
    case ShortRead => Unexpected(env, done, at)
    case Broken => Fatal
    case Command(argv, used) =>
      if !env.known(argv[0]) then Fatal
      else LoadFrom(env, s[used..], done + [argv], at + used)
  }

  function Load(env: Env, file: Bytes): Outcome {
    if file == [] then Empty else LoadFrom(env, file, [], 0)
  }

  // ----- Printed numbers read back -----

  lemma {:induction false} DigitsAreDigits(n: nat, i: nat)
    requires i < |Digits(n)|
    ensures IsDigit(Digits(n)[i]) && Digits(n)[i] != LF
    ensures n > 0 && i == 0 ==> Digits(n)[0] > 48
  {
    if n >= 10 {
      if i < |Digits(n / 10)| {
        DigitsAreDigits(n / 10, i);
      }
    }
  }

  lemma {:induction false} DigitsShort(n: nat, k: nat, bound: nat)
    requires n < bound && bound == Ten(k) && k > 0
    ensures 1 <= |Digits(n)| <= k
  {
    if n >= 10 {
      DigitsShort(n / 10, k - 1, Ten(k - 1));
    }
  }

  function Ten(k: nat): nat {
    if k == 0 then 1 else 10 * Ten(k - 1)
  }

  lemma LimitShort(n: nat)
    requires n < LIMIT
    ensures 1 <= |Digits(n)| <= 20
  {
    assert Ten(4) == 10000;
    assert Ten(8) == 1_0000_0000;
    assert Ten(12) == 1_0000_0000_0000;
    assert Ten(16) == 1_0000_0000_0000_0000;
    assert Ten(20) == 1_0000_0000_0000_0000_0000;
    DigitsShort(n, 20, Ten(20));
  }

  lemma {:induction false} NumberOfDigits(n: nat, rest: Bytes)
    requires rest == [] || !IsDigit(rest[0])
    ensures Number(Digits(n) + rest, 0) == n
  {
    NumberSplit(Digits(n), rest, 0);
    NumberInit(n);
  }

  lemma {:induction false} NumberInit(n: nat)
    ensures Number(Digits(n), 0) == n
  {
    if n >= 10 {
      NumberInit(n / 10);
      forall i | 0 <= i < |Digits(n / 10)| ensures IsDigit(Digits(n / 10)[i]) {
        DigitsAreDigits(n / 10, i);
      }
      NumberStep(Digits(n / 10), [48 + n % 10], 0);
    }
  }

  lemma {:induction false} NumberStep(a: Bytes, b: Bytes, acc: nat)
    requires forall i :: 0 <= i < |a| ==> IsDigit(a[i])
    ensures Number(a + b, acc) == Number(b, Number(a, acc))
  {
    if a == [] {
      assert a + b == b;
    } else {
      assert (a + b)[1..] == a[1..] + b;
      NumberStep(a[1..], b, 10 * acc + (a[0] - 48));
    }
  }

  lemma {:induction false} NumberSplit(a: Bytes, rest: Bytes, acc: nat)
    requires rest == [] || !IsDigit(rest[0])
    ensures Number(a + rest, acc) == Number(a, acc)
  {
    if a == [] {
      assert a + rest == rest;
    } else if IsDigit(a[0]) {
      assert (a + rest)[1..] == a[1..] + rest;
      NumberSplit(a[1..], rest, 10 * acc + (a[0] - 48));
    }
  }

  lemma {:induction false} NumberGrows(s: Bytes, acc: nat)
    ensures Number(s, acc) >= acc
  {
    if s != [] && IsDigit(s[0]) {
      NumberGrows(s[1..], 10 * acc + (s[0] - 48));
    }
  }

  lemma {:induction false} LineOf(a: Bytes, rest: Bytes, room: nat)
    requires forall i :: 0 <= i < |a| ==> a[i] != LF
    requires |a| < room
    ensures LineLength(a + [LF] + rest, room) == |a| + 1
    ensures LineLength(a, room) == |a|
  {
    if a != [] {
      assert (a + [LF] + rest)[1..] == a[1..] + [LF] + rest;
      LineOf(a[1..], rest, room - 1);
    }
  }

  // ----- A printed header, whole or cut -----

  lemma HeaderMark(mark: Byte, n: nat)
    ensures |Header(mark, n)| > 2 && Header(mark, n)[0] == mark
  {
  }

  lemma HeaderWhole(mark: Byte, n: nat, rest: Bytes)
    requires n < LIMIT && mark != LF
    ensures var s := Header(mark, n) + rest;
            var e := |Header(mark, n)|;
            e > 1 && s[1] != 0 && LineLength(s, ROOM) == e && StrTol(s[1..e]) == n
  {
    var h := Header(mark, n);
    LimitShort(n);
    var body := [mark] + Digits(n) + [CR];
    forall i | 0 <= i < |body| ensures body[i] != LF {
      if 0 < i <= |Digits(n)| {
        DigitsAreDigits(n, i - 1);
      }
    }
    LineOf(body, rest, ROOM);
    assert h + rest == body + [LF] + rest;
    assert (h + rest)[1..|h|] == Digits(n) + [CR, LF];
    DigitsAreDigits(n, 0);
    assert SkipSpace(Digits(n) + [CR, LF]) == Digits(n) + [CR, LF];
    NumberOfDigits(n, [CR, LF]);
  }

  lemma HeaderCut(mark: Byte, n: nat, k: nat)
    requires n < LIMIT && mark != LF && 0 < k < |Header(mark, n)|
    ensures var s := Header(mark, n)[..k];
            && LineLength(s, ROOM) == k && HitsEof(s) && StrTol(s[1..]) >= 0
            && (k > 1 ==> s[1] != 0 && (n > 0 ==> StrTol(s[1..]) > 0))
  {
    var s := Header(mark, n)[..k];
    LimitShort(n);
    forall i | 0 <= i < k ensures s[i] != LF {
      if 0 < i <= |Digits(n)| {
        DigitsAreDigits(n, i - 1);
        assert s[i] == Digits(n)[i - 1];
      }
    }
    LineOf(s, [], ROOM);
    if k > 1 {
      DigitsAreDigits(n, 0);
      var t := s[1..];
      assert t[0] == Digits(n)[0];
      assert SkipSpace(t) == t;
      NumberGrows(t[1..], t[0] - 48);
      assert Number(t, 0) == Number(t[1..], t[0] - 48);
    }
  }

  // ----- Commands, whole or cut -----

  predicate Fits(c: Cmd) {
    |c| < LIMIT && forall i :: 0 <= i < |c| ==> |c[i]| < LIMIT
  }

  lemma ArgStep(a: Bytes, more: Bytes, n: nat, argv: Cmd, used: nat)
    requires |a| < LIMIT
    ensures ParseArgs(Bulk(a) + more, n + 1, argv, used) == ParseArgs(more, n, argv + [a], used + |Bulk(a)|)
  {
    hide LineLength, StrTol, Header, HitsEof, ParseArgs;
    var h := Header(DOLLAR, |a|);
    HeaderMark(DOLLAR, |a|);
    HeaderWhole(DOLLAR, |a|, a + [CR, LF] + more);
    Slices(h, a, more);
    ReadsArg(Bulk(a) + more, |h|, |a|, n, argv, used);
  }

  lemma ReadsArg(s: Bytes, e: nat, len: nat, n: nat, argv: Cmd, used: nat)
    requires 0 < e && e + len + 2 <= |s| && s[0] == DOLLAR && LineLength(s, ROOM) == e && StrTol(s[1..e]) == len
    ensures ParseArgs(s, n + 1, argv, used)
         == ParseArgs(s[e + len + 2..], n, argv + [s[e..e + len]], used + e + len + 2)
  {
    hide LineLength, StrTol;
  }

  lemma Slices(h: Bytes, a: Bytes, more: Bytes)
    ensures var s := h + (a + [CR, LF] + more);
            h + a + [CR, LF] + more == s && s[|h|..|h| + |a|] == a && s[|h| + |a| + 2..] == more
  {
  }

  /** Arguments read back, binary content included. */
  lemma {:induction false} ArgsRoundTrip(args: seq<Bytes>, rest: Bytes, argv: Cmd, used: nat)
    requires Fits(args)
    ensures ParseArgs(Bulks(args) + rest, |args|, argv, used) == Command(argv + args, used + |Bulks(args)|)
  {
    hide Bulk;
    if args == [] {
      assert argv + args == argv;
      assert Bulks(args) + rest == rest;
    } else {
      assert Bulks(args) + rest == Bulk(args[0]) + (Bulks(args[1..]) + rest);
      ArgStep(args[0], Bulks(args[1..]) + rest, |args| - 1, argv, used);
      ArgsRoundTrip(args[1..], rest, argv + [args[0]], used + |Bulk(args[0])|);
      assert argv + [args[0]] + args[1..] == argv + args;
    }
  }

  lemma ArgCut(a: Bytes, k: nat, n: nat, argv: Cmd, used: nat)
    requires |a| < LIMIT && k < |Bulk(a)|
    ensures ParseArgs(Bulk(a)[..k], n + 1, argv, used) == ShortRead
  {
    hide LineLength, StrTol, Header, HitsEof;
    var h := Header(DOLLAR, |a|);
    HeaderMark(DOLLAR, |a|);
    var s := Bulk(a)[..k];
    if 0 < k < |h| {
      HeaderCut(DOLLAR, |a|, k);
      assert s == h[..k];
      assert s[1..k] == s[1..];
    } else if |h| <= k {
      var more := (a + [CR, LF])[..k - |h|];
      assert s == h + more;
      HeaderWhole(DOLLAR, |a|, more);
    }
  }

  /** Arguments that are cut anywhere are noticed as such. */
  lemma {:induction false} ArgsCut(args: seq<Bytes>, k: nat, argv: Cmd, used: nat)
    requires Fits(args) && k < |Bulks(args)|
    ensures ParseArgs(Bulks(args)[..k], |args|, argv, used) == ShortRead
  {
    hide Bulk, ParseArgs;
    var a := args[0];
    if k < |Bulk(a)| {
      assert Bulks(args)[..k] == Bulk(a)[..k];
      ArgCut(a, k, |args| - 1, argv, used);
    } else {
      var more := Bulks(args[1..])[..k - |Bulk(a)|];
      assert Bulks(args)[..k] == Bulk(a) + more;
      ArgStep(a, more, |args| - 1, argv, used);
      ArgsCut(args[1..], k - |Bulk(a)|, argv + [a], used + |Bulk(a)|);
    }
  }

  lemma CommandRoundTrip(c: Cmd, rest: Bytes)
    requires Fits(c) && c != []
    ensures ParseCommand(Print(c) + rest) == Command(c, |Print(c)|)
  {
    hide LineLength, StrTol, Header, HitsEof;
    var h := Header(STAR, |c|);
    HeaderMark(STAR, |c|);
    assert Print(c) + rest == h + (Bulks(c) + rest);
    HeaderWhole(STAR, |c|, Bulks(c) + rest);
    assert (Print(c) + rest)[|h|..] == Bulks(c) + rest;
    ArgsRoundTrip(c, rest, [], |h|);
    assert [] + c == c;
  }

  lemma CommandCut(c: Cmd, k: nat)
    requires Fits(c) && c != [] && 0 < k < |Print(c)|
    ensures ParseCommand(Print(c)[..k]) == ShortRead
  {
    hide LineLength, StrTol, Header, HitsEof;
    var h := Header(STAR, |c|);
    HeaderMark(STAR, |c|);
    var s := Print(c)[..k];
    if k < |h| {
      assert s == h[..k];
      HeaderCut(STAR, |c|, k);
      assert s[1..k] == s[1..] && s[k..] == [];
    } else {
      var more := Bulks(c)[..k - |h|];
      assert s == h + more;
      HeaderWhole(STAR, |c|, more);
      assert s[|h|..] == more;
      ArgsCut(c, k - |h|, [], |h|);
    }
  }

  lemma PrintNonempty(c: Cmd)
    ensures Print(c) != []
  {
    HeaderMark(STAR, |c|);
  }

  lemma NothingLeft()
    ensures ParseCommand([]) == End
  {
  }

  // ----- Whole logs -----

  predicate ValidLog(env: Env, cs: seq<Cmd>) {
    forall i :: 0 <= i < |cs| ==> Fits(cs[i]) && cs[i] != [] && env.known(cs[i][0])
  }

  /** How many commands of a log are complete within its first `k` bytes. */
  function Complete(cs: seq<Cmd>, k: nat): (m: nat)
    ensures m <= |cs|
  {
    if cs == [] || k < |Print(cs[0])| then 0 else 1 + Complete(cs[1..], k - |Print(cs[0])|)
  }

  /** What is complete ends within the cut, and the next command would not. */
  lemma {:induction false} CompleteBounds(cs: seq<Cmd>, k: nat)
    requires k <= |PrintAll(cs)|
    ensures var m := Complete(cs, k);
            && |PrintAll(cs[..m])| <= k
            && (m < |cs| ==> k < |PrintAll(cs[..m + 1])|)
            && (m == |cs| ==> k == |PrintAll(cs)|)
  {
    hide Print, PrintAll;
    var m := Complete(cs, k);
    PrintNone();
    if m > 0 {
      PrintFirst(cs);
      CompleteBounds(cs[1..], k - |Print(cs[0])|);
      assert cs[..m][1..] == cs[1..][..m - 1];
      PrintFirst(cs[..m]);
      if m < |cs| {
        assert cs[..m + 1][1..] == cs[1..][..m];
        PrintFirst(cs[..m + 1]);
      }
    } else if cs != [] {
      assert cs[..1][1..] == [];
      PrintFirst(cs[..1]);
    }
  }

  lemma PrintFirst(cs: seq<Cmd>)
    requires cs != []
    ensures PrintAll(cs) == Print(cs[0]) + PrintAll(cs[1..])
  {
  }

  lemma PrintNone()
    ensures PrintAll([]) == []
  {
  }

  /** What a load must do with the first `k` bytes of a log. */
  ghost function CutOutcome(env: Env, cs: seq<Cmd>, k: nat, done: seq<Cmd>, at: nat): Outcome {
    var m := Complete(cs, k);
    var keep := |PrintAll(cs[..m])|;
    if keep == k && !env.inMulti(done + cs[..m]) then Loaded(done + cs[..m], at + k)
    else Unexpected(env, done + cs[..m], at + keep)
  }

  lemma {:induction false} LoadFromCut(env: Env, cs: seq<Cmd>, k: nat, done: seq<Cmd>, at: nat)
    requires ValidLog(env, cs) && k <= |PrintAll(cs)|
    ensures LoadFrom(env, PrintAll(cs)[..k], done, at) == CutOutcome(env, cs, k, done, at)
    decreases cs
  {
    hide ParseCommand, Print, Unexpected, Fits;
    if cs != [] {
      PrintNonempty(cs[0]);
    }
    NothingLeft();
    var s := PrintAll(cs)[..k];
    var m := Complete(cs, k);
    if k == 0 {
      assert m == 0 && done + cs[..0] == done;
    } else if k < |Print(cs[0])| {
      assert s == Print(cs[0])[..k];
      CommandCut(cs[0], k);
      assert m == 0 && done + cs[..0] == done;
    } else {
      var n := |Print(cs[0])|;
      var rest := PrintAll(cs[1..])[..k - n];
      assert s == Print(cs[0]) + rest;
      CommandRoundTrip(cs[0], rest);
      assert s[n..] == rest;
      LoadFromCut(env, cs[1..], k - n, done + [cs[0]], at + n);
      assert done + [cs[0]] + cs[1..][..m - 1] == done + cs[..m];
      assert cs[..m][1..] == cs[1..][..m - 1];
    }
  }

  /** For every cut of a valid log: exactly the complete commands are run, in order and byte for byte;
      the file is cut after the last of them; and without the option to load truncated files only a
      cut between commands and outside a transaction loads at all. */
  lemma LoadOfCutLog(env: Env, cs: seq<Cmd>, k: nat)
    requires ValidLog(env, cs) && k <= |PrintAll(cs)|
    ensures var m := Complete(cs, k);
            var keep := |PrintAll(cs[..m])|;
            Load(env, PrintAll(cs)[..k]) ==
              if k == 0 then Empty
              else if keep == k && !env.inMulti(cs[..m]) then Loaded(cs[..m], k)
              else if env.loadTruncated && env.truncateOk then Loaded(cs[..m], keep)
              else Fatal
  {
    LoadFromCut(env, cs, k, [], 0);
    assert [] + cs[..Complete(cs, k)] == cs[..Complete(cs, k)];
  }

  /** The whole log loads completely. */
  lemma LoadOfLog(env: Env, cs: seq<Cmd>)
    requires ValidLog(env, cs) && cs != [] && !env.inMulti(cs)
    ensures Load(env, PrintAll(cs)) == Loaded(cs, |PrintAll(cs)|)
  {
    var k := |PrintAll(cs)|;
    assert PrintAll(cs)[..k] == PrintAll(cs);
    CompleteBounds(cs, k);
    CompleteAll(cs);
    assert cs[..|cs|] == cs;
    assert Print(cs[0]) != [];
    LoadOfCutLog(env, cs, k);
  }

  lemma {:induction false} CompleteAll(cs: seq<Cmd>)
    ensures Complete(cs, |PrintAll(cs)|) == |cs|
  {
    if cs != [] {
      CompleteAll(cs[1..]);
    }
  }
}
