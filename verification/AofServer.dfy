/** The server's side of the append only file: printing and loading commands, the write buffer, and
    the block list that collects what is written while a rewrite runs. */
module AofServer {
  import opened AofLog
  import opened AofReplay
  import opened AofExpire
  import AofRebuild
  import AofSnapshot

  // ----- Printing and loading -----

  /** Appends a command to a buffer. */
  method CatGenericCommand(dst: Bytes, argv: Cmd) returns (out: Bytes)
    ensures out == dst + Print(argv)
  {
    hide Bulks, Digits;
    out := dst + [STAR] + Digits(|argv|) + [CR, LF];
    assert out == dst + Header(STAR, |argv|);
    ghost var head := out;
    BulksNone();
    for j := 0 to |argv|
      invariant out == head + Bulks(argv[..j])
    {
      ghost var before := out;
      out := out + [DOLLAR] + Digits(|argv[j]|) + [CR, LF];
      out := out + argv[j];
      out := out + [CR, LF];
      assert out == before + Bulk(argv[j]);
      assert argv[..j + 1] == argv[..j] + [argv[j]];
      BulksConcat(argv[..j], [argv[j]]);
      BulksOne(argv[j]);
    }
    assert argv[..|argv|] == argv;
  }

  lemma BulksNone()
    ensures Bulks([]) == []
  {
  }

  lemma BulksOne(a: Bytes)
    ensures Bulks([a]) == Bulk(a)
  {
    assert [a][1..] == [];
  }

  /** Loads a file: a loop over commands, each with a loop over its arguments. */
  method LoadAppendOnlyFile(env: Env, file: Bytes) returns (outcome: Outcome)
    ensures outcome == Load(env, file)
  {
    hide ParseCommand, Unexpected;
    if file == [] {
      return Empty;
    }
    var pos, validUpTo, done := 0, 0, [];
    while true
      invariant 0 <= pos == validUpTo <= |file|
      invariant LoadFrom(env, file[pos..], done, pos) == Load(env, file)
      decreases |file| - pos
    {
      var p := ReadCommand(file, pos);
      match p {
        case End =>
          if env.inMulti(done) {
            return Unexpected(env, done, validUpTo);
          }
          return Loaded(done, pos);
        case ShortRead =>
          return Unexpected(env, done, validUpTo);
        case Broken =>
          return Fatal;
        case Command(argv, used) =>
          if !env.known(argv[0]) {
            return Fatal;
          }
          assert file[pos..][used..] == file[pos + used..];
          done := done + [argv];
          pos := pos + used;
          validUpTo := pos;
      }
    }
  }

  /** Reads one command at `pos`. */
  method ReadCommand(file: Bytes, pos: nat) returns (p: Parsed)
    requires pos <= |file|
    ensures p == ParseCommand(file[pos..])
  {
    ghost var s := file[pos..];
    if pos == |file| {
      return End;
    }
    if file[pos] != STAR {
      return Broken;
    }
    var e := LineLength(file[pos..], ROOM);
    if e == 1 || file[pos + 1] == 0 {
      return if HitsEof(file[pos..]) then ShortRead else Broken;
    }
    assert file[pos + 1..pos + e] == s[1..e];
    var argc := StrTol(file[pos + 1..pos + e]);
    if argc < 1 {
      return Broken;
    }
    assert s[e..] == file[pos + e..];
    p := ReadArgs(file, pos + e, argc, e);
  }

  /** Reads `argc` arguments at `start`. */
  method ReadArgs(file: Bytes, start: nat, argc: nat, used: nat) returns (p: Parsed)
    requires start <= |file|
    ensures p == ParseArgs(file[start..], argc, [], used)
  {
    hide LineLength, StrTol, ParseArgs;
    var pos, argv := start, [];
    for j := 0 to argc
      invariant start <= pos <= |file|
      invariant ParseArgs(file[start..], argc, [], used) == ParseArgs(file[pos..], argc - j, argv, used + (pos - start))
    {
      ghost var s := file[pos..];
      ParseOne(s, argc - j - 1, argv, used + (pos - start));
      if pos == |file| {
        return ShortRead;
      }
      if file[pos] != DOLLAR {
        return Broken;
      }
      var e := LineLength(file[pos..], ROOM);
      assert file[pos + 1..pos + e] == s[1..e];
      var len := StrTol(file[pos + 1..pos + e]);
      if len < 0 {
        return Broken;
      }
      if pos + e + len > |file| {
        return ShortRead;
      }
      var arg := file[pos + e..pos + e + len];
      if pos + e + len + 2 > |file| {
        return ShortRead;
      }
      assert arg == s[e..e + len];
      assert s[e + len + 2..] == file[pos + e + len + 2..];
      argv := argv + [arg];
      pos := pos + e + len + 2;
    }
    ParseDone(file[pos..], argv, used + (pos - start));
    p := Command(argv, used + (pos - start));
  }

  lemma ParseOne(s: Bytes, n: nat, argv: Cmd, used: nat)
    ensures ParseArgs(s, n + 1, argv, used)
         == if s == [] then ShortRead
            else if s[0] != DOLLAR then Broken
            else
              var e := LineLength(s, ROOM);
              var len := StrTol(s[1..e]);
              if len < 0 then Broken
              else if e + len + 2 > |s| then ShortRead
              else ParseArgs(s[e + len + 2..], n, argv + [s[e..e + len]], used + e + len + 2)
  {
    hide LineLength, StrTol;
  }

  lemma ParseDone(s: Bytes, argv: Cmd, used: nat)
    ensures ParseArgs(s, 0, argv, used) == Command(argv, used)
  {
  }

  // ----- The block list -----

  /** A block: the bytes in use, and how many more may be added. Bytes sent from the front do not
      become free again. */
  datatype Block = Block(data: Bytes, free: nat)

  const BLOCK_SIZE: nat := 10485760

  function Contents(blocks: seq<Block>): Bytes {
    if blocks == [] then [] else blocks[0].data + Contents(blocks[1..])
  }

  lemma {:induction false} ContentsConcat(a: seq<Block>, b: seq<Block>)
    ensures Contents(a + b) == Contents(a) + Contents(b)
  {
    if a == [] {
      assert a + b == b;
    } else {
      assert (a + b)[1..] == a[1..] + b;
      ContentsConcat(a[1..], b);
    }
  }

  lemma ContentsOne(b: Block)
    ensures Contents([b]) == b.data
  {
    assert [b][1..] == [];
  }

  lemma Assoc(a: Bytes, b: Bytes, c: Bytes)
    ensures a + (b + c) == a + b + c
  {
  }

  lemma TakeFront(sent: Bytes, data: Bytes, n: nat, rest: Bytes)
    requires n <= |data|
    ensures sent + (data + rest) == sent + data[..n] + (data[n..] + rest)
  {
  }

  lemma GrowLast(blocks: seq<Block>, piece: Bytes)
    requires blocks != [] && |piece| <= blocks[|blocks| - 1].free
    ensures Contents(Grown(blocks, piece)) == Contents(blocks) + piece
  {
    hide Contents, Longer;
    var front, last := blocks[..|blocks| - 1], blocks[|blocks| - 1];
    ContentsLast(front, last);
    ContentsLast(front, Longer(last, piece));
    LongerIs(last, piece);
    Assoc(Contents(front), last.data, piece);
    assert blocks == front + [last];
  }

  lemma LongerIs(b: Block, piece: Bytes)
    requires |piece| <= b.free
    ensures Longer(b, piece).data == b.data + piece
  {
  }

  lemma ContentsLast(front: seq<Block>, last: Block)
    ensures Contents(front + [last]) == Contents(front) + last.data
  {
    hide Contents;
    ContentsConcat(front, [last]);
    ContentsOne(last);
  }

  function Longer(b: Block, piece: Bytes): Block
    requires |piece| <= b.free
  {
    Block(b.data + piece, b.free - |piece|)
  }

  function Grown(blocks: seq<Block>, piece: Bytes): seq<Block>
    requires blocks != [] && |piece| <= blocks[|blocks| - 1].free
  {
    var last := blocks[|blocks| - 1];
    blocks[..|blocks| - 1] + [Longer(last, piece)]
  }

  ghost predicate Sized(blocks: seq<Block>) {
    forall i :: 0 <= i < |blocks| ==> |blocks[i].data| + blocks[i].free <= BLOCK_SIZE
  }

  lemma GrownValid(blocks: seq<Block>, piece: Bytes)
    requires Sized(blocks) && blocks != [] && |piece| <= blocks[|blocks| - 1].free
    ensures Sized(Grown(blocks, piece)) && Grown(blocks, piece) != []
  {
  }

  lemma ContentsFirst(blocks: seq<Block>)
    requires blocks != []
    ensures Contents(blocks) == blocks[0].data + Contents(blocks[1..])
  {
  }

  lemma ContentsNone()
    ensures Contents([]) == []
  {
  }

  class RewriteBuffer {
    var blocks: seq<Block>

    ghost predicate Valid()
      reads this
    {
      Sized(blocks)
    }

    constructor ()
      ensures Valid() && blocks == []
    {
      blocks := [];
    }

    method Reset()
      modifies this
      ensures Valid() && Contents(blocks) == []
    {
      blocks := [];
    }

    /** Adds bytes at the end, filling the last block before new ones are allocated. */
    method Append(s: Bytes)
      requires Valid()
      modifies this
      ensures Valid() && Contents(blocks) == old(Contents(blocks)) + s
    {
      hide Contents, Grown;
      var at := 0;
      assert s[..at] == [];
      while at < |s|
        invariant Valid() && at <= |s|
        invariant Contents(blocks) == old(Contents(blocks)) + s[..at]
        decreases |s| - at, if blocks != [] && blocks[|blocks| - 1].free > 0 then 0 else 1
      {
        if blocks != [] && blocks[|blocks| - 1].free > 0 {
          var free := blocks[|blocks| - 1].free;
          var thislen := if free < |s| - at then free else |s| - at;
          GrownValid(blocks, s[at..at + thislen]);
          GrowLast(blocks, s[at..at + thislen]);
          assert s[..at + thislen] == s[..at] + s[at..at + thislen];
          blocks := Grown(blocks, s[at..at + thislen]);
          at := at + thislen;
        }
        if at < |s| {
          ContentsConcat(blocks, [Block([], BLOCK_SIZE)]);
          ContentsOne(Block([], BLOCK_SIZE));
          blocks := blocks + [Block([], BLOCK_SIZE)];
        }
      }
      assert s[..|s|] == s;
    }

    /** Sends blocks from the front to the child until told to stop, the list is empty, or the pipe
        takes nothing more. How much a write takes is up to the pipe. What was sent and what is left
        is together what was there before. */
    method WriteDiffData(stop: bool) returns (sent: Bytes)
      requires Valid()
      modifies this
      ensures Valid() && sent + Contents(blocks) == old(Contents(blocks))
      ensures stop ==> sent == []
    {
      hide Contents;
      sent := [];
      while true
        invariant Valid() && sent + Contents(blocks) == old(Contents(blocks))
        invariant stop ==> sent == []
        decreases |Contents(blocks)| + |blocks|
      {
        if stop || blocks == [] {
          return;
        }
        var block := blocks[0];
        ContentsFirst(blocks);
        if |block.data| > 0 {
          var nwritten: int :| -1 <= nwritten <= |block.data|;
          if nwritten <= 0 {
            return;
          }
          TakeFront(sent, block.data, nwritten, Contents(blocks[1..]));
          sent := sent + block.data[..nwritten];
          block := Block(block.data[nwritten..], block.free);
          assert ([block] + blocks[1..])[1..] == blocks[1..];
          blocks := [block] + blocks[1..];
          ContentsFirst(blocks);
        }
        if |block.data| == 0 {
          blocks := blocks[1..];
        }
      }
    }

    /** Writes all blocks to a file, one write each; a write that is not complete ends it with an
        error. The list itself is not changed. */
    method Write(file: Bytes) returns (ok: bool, out: Bytes)
      ensures ok ==> out == file + Contents(blocks)
      ensures file <= out <= file + Contents(blocks)
    {
      hide Contents;
      ContentsNone();
      out := file;
      for j := 0 to |blocks|
        invariant out == file + Contents(blocks[..j])
      {
        assert blocks[..j + 1] == blocks[..j] + [blocks[j]];
        ContentsConcat(blocks[..j], [blocks[j]]);
        ContentsOne(blocks[j]);
        assert blocks == blocks[..j + 1] + blocks[j + 1..];
        ContentsConcat(blocks[..j + 1], blocks[j + 1..]);
        var used := |blocks[j].data|;
        if used > 0 {
          var nwritten: int :| -1 <= nwritten <= used;
          if nwritten != used {
            out := out + blocks[j].data[..if nwritten < 0 then 0 else nwritten];
            return false, out;
          }
          out := out + blocks[j].data;
        }
      }
      assert blocks[..|blocks|] == blocks;
      ok := true;
    }
  }

  // ----- The write buffer -----

  datatype Policy = Always | EverySec | Never

  class Appender {
    var enabled: bool
    var rewriting: bool
    var selectedDb: int
    var buf: Bytes
    var file: Bytes
    var currentSize: nat
    var lastWriteOk: bool
    var postponedSince: nat
    const rewriteBuf: RewriteBuffer

    ghost predicate Valid()
      reads this, rewriteBuf
    {
      rewriteBuf.Valid() && currentSize == |file|
    }

    constructor (enabled: bool, file: Bytes)
      ensures Valid() && this.file == file && buf == [] && this.enabled == enabled && !rewriting && selectedDb == NO_DB
    {
      this.enabled, this.file, currentSize := enabled, file, |file|;
      rewriting, selectedDb, buf, lastWriteOk, postponedSince := false, NO_DB, [], true, 0;
      rewriteBuf := new RewriteBuffer();
    }

    /** Logs an operation: its text, with a SELECT in front where the database changes and a time to live turned
        into a moment by the clock, goes to the write buffer and, while a rewrite runs, to the rewrite buffer as
        well. */
    method Feed(op: Op, clock: int)
      requires Valid()
      modifies this`buf, this`selectedDb, rewriteBuf
      ensures Valid() && selectedDb == op.db
      ensures buf == old(buf) + if enabled then FeedText(old(selectedDb), op, clock) else []
      ensures Contents(rewriteBuf.blocks)
              == old(Contents(rewriteBuf.blocks)) + if rewriting then FeedText(old(selectedDb), op, clock) else []
    {
      hide FeedText;
      var text := CatFeed(selectedDb, op, clock);
      selectedDb := op.db;
      if enabled {
        buf := buf + text;
      }
      if rewriting {
        rewriteBuf.Append(text);
      }
    }

    /** Tries to write the buffer to the file. The operating system decides how much of a write
        succeeds and whether a short write can be undone. Unless the program exits, nothing of the log
        is lost, duplicated or reordered: file and buffer together stay the same, the size counter is
        right, and a failed write leaves a flag. */
    method Flush(force: bool, policy: Policy, syncInProgress: bool, now: nat, nwritten: int, truncateOk: bool)
        returns (exited: bool)
      requires Valid() && -1 <= nwritten <= |buf|
      modifies this`file, this`buf, this`currentSize, this`lastWriteOk, this`postponedSince
      ensures !exited ==> Valid() && file + buf == old(file + buf)
      ensures old(file) <= file <= old(file + buf)
      ensures exited ==> policy == Always && nwritten != old(|buf|)
      ensures buf != [] && !exited ==>
                !lastWriteOk || (file == old(file) && policy == EverySec && syncInProgress && !force)
    {
      exited := false;
      if buf == [] {
        return;
      }
      if policy == EverySec && !force && syncInProgress {
        if postponedSince == 0 {
          postponedSince := now;
          return;
        } else if now - postponedSince < 2 {
          return;
        }
      }
      var n := nwritten;
      if n > 0 {
        file := file + buf[..n];
      }
      postponedSince := 0;
      assert buf == buf[..if n < 0 then 0 else n] + buf[if n < 0 then 0 else n..];
      if n != |buf| {
        if n != -1 && truncateOk {
          file := file[..currentSize];
          n := -1;
        }
        if policy == Always {
          exited := true;
          return;
        }
        lastWriteOk := false;
        if n > 0 {
          currentSize := currentSize + n;
          buf := buf[n..];
        }
        return;
      }
      lastWriteOk := true;
      currentSize := currentSize + n;
      buf := [];
    }
  }

  method CatFeed(selected: int, op: Op, clock: int) returns (text: Bytes)
    ensures text == FeedText(selected, op, clock)
  {
    hide Print, Select, FeedText, TimedOf;
    text := [];
    if op.db != selected {
      text := CatGenericCommand(text, Select(op.db));
    }
    var c, t := op.cmd, TimedOf(op.cmd);
    FeedTextIs(selected, op, clock);
    if t in {Expire, PExpire, ExpireAt} {
      text := CatGenericCommand(text, ExpireAtCmd(t, c[1], c[2], clock));
    } else if t in {SetEx, PSetEx} {
      text := CatGenericCommand(text, [AofSnapshot.SET, c[1], c[3]]);
      text := CatGenericCommand(text, ExpireAtCmd(t, c[1], c[2], clock));
    } else {
      text := CatGenericCommand(text, c);
    }
  }

  /** The text of the operations that one command is logged as. */
  function FeedText(selected: int, op: Op, clock: int): Bytes {
    PrintAll(LoggedAll(selected, AofRebuild.Ops(op.db, Translated(op.cmd, clock))))
  }

  lemma FeedTextIs(selected: int, op: Op, clock: int)
    ensures var c, t := op.cmd, TimedOf(op.cmd);
            FeedText(selected, op, clock)
            == (if op.db != selected then Print(Select(op.db)) else [])
               + (if t in {Expire, PExpire, ExpireAt} then Print(ExpireAtCmd(t, c[1], c[2], clock))
                  else if t in {SetEx, PSetEx}
                  then Print([AofSnapshot.SET, c[1], c[3]]) + Print(ExpireAtCmd(t, c[1], c[2], clock))
                  else Print(c))
  {
    hide Print, Select, ExpireAtCmd, TimedOf;
    var cs := Translated(op.cmd, clock);
    LoggedOnce(selected, op.db, cs);
    PrintAllConcat(if op.db != selected then [Select(op.db)] else [], cs);
    PrintOne(Select(op.db));
    PrintOne(cs[0]);
    if |cs| == 2 {
      PrintAllConcat([cs[0]], [cs[1]]);
      PrintOne(cs[1]);
      assert cs == [cs[0]] + [cs[1]];
    } else {
      assert cs == [cs[0]];
    }
    PrintNone();
  }

  lemma PrintOne(c: Cmd)
    ensures PrintAll([c]) == Print(c)
  {
    hide Print;
    assert [c][1..] == [];
  }
}
