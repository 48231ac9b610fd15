/** Bit operations on strings: four machine words at a time while all strings last, then byte by byte
    with missing bytes taken as zero. */
module Bitop {

  type Bytes = seq<bv8>

  datatype Op = OpAnd | OpOr | OpXor | OpNot

  function ByteOp(op: Op, x: bv8, y: bv8): bv8 {
    match op
    case OpAnd => And8(x, y)
    case OpOr => Or8(x, y)
    case OpXor => Xor8(x, y)
    case OpNot => x
  }

  function And8(x: bv8, y: bv8): bv8 {
    x & y
  }

  function Or8(x: bv8, y: bv8): bv8 {
    x | y
  }

  function Xor8(x: bv8, y: bv8): bv8 {
    x ^ y
  }

  function ByteAt(s: Bytes, j: nat): bv8 {
    if j < |s| then s[j] else 0
  }

  /** The result byte: the first string, inverted for NOT, combined with the others in turn. */
  function FoldByte(op: Op, keys: seq<Bytes>, j: nat, n: nat): bv8
    requires n <= |keys|
  {
    if n == 0 then 0
    else if n == 1 then (if op.OpNot? then !ByteAt(keys[0], j) else ByteAt(keys[0], j))
    else ByteOp(op, FoldByte(op, keys, j, n - 1), ByteAt(keys[n - 1], j))
  }

  function MaxLength(keys: seq<Bytes>): (m: nat)
    ensures forall i :: 0 <= i < |keys| ==> |keys[i]| <= m
  {
    if keys == [] then 0
    else
      var n := |keys| - 1;
      var m := MaxLength(keys[..n]);
      assert forall i :: 0 <= i < n ==> keys[i] == keys[..n][i];
      if |keys[n]| > m then |keys[n]| else m
  }

  /** The bytewise meaning of the whole operation. */
  function BitopSpec(op: Op, keys: seq<Bytes>): Bytes {
    seq(MaxLength(keys), j requires 0 <= j < MaxLength(keys) => FoldByte(op, keys, j, |keys|))
  }

  // ----- Machine words -----

  /** A word of 64 bits holds eight bytes, the first in memory being the lowest. */
  const WORD: nat := 8

  function Lowest(w: bv64): bv8 {
    (w & 0xFF) as bv8
  }

  function Right(w: bv64): bv64 {
    w >> 8
  }

  function Shifted(w: bv64, k: nat): bv64 {
    if k == 0 then w else Right(Shifted(w, k - 1))
  }

  /** Byte `k` of a word. */
  function Lane(w: bv64, k: nat): bv8 {
    Lowest(Shifted(w, k))
  }

  function Packed(a: bv8, b: bv8, c: bv8, d: bv8, e: bv8, f: bv8, g: bv8, h: bv8): bv64 {
    (a as bv64) | ((b as bv64) << 8) | ((c as bv64) << 16) | ((d as bv64) << 24)
    | ((e as bv64) << 32) | ((f as bv64) << 40) | ((g as bv64) << 48) | ((h as bv64) << 56)
  }

  function LoadWord(s: Bytes, at: nat): bv64
    requires at + WORD <= |s|
  {
    Packed(s[at], s[at + 1], s[at + 2], s[at + 3], s[at + 4], s[at + 5], s[at + 6], s[at + 7])
  }

  lemma PackedLow(a: bv8, b: bv8, c: bv8, d: bv8, e: bv8, f: bv8, g: bv8, h: bv8)
    ensures var w := Packed(a, b, c, d, e, f, g, h);
            && Lowest(w) == a && Lowest(Right(w)) == b && Lowest(Right(Right(w))) == c
            && Lowest(Right(Right(Right(w)))) == d
  {
  }

  lemma PackedHigh(a: bv8, b: bv8, c: bv8, d: bv8, e: bv8, f: bv8, g: bv8, h: bv8)
    ensures var w := Right(Right(Right(Right(Packed(a, b, c, d, e, f, g, h)))));
            && Lowest(w) == e && Lowest(Right(w)) == f && Lowest(Right(Right(w))) == g
            && Lowest(Right(Right(Right(w)))) == h
  {
  }

  lemma LowLane(s: Bytes, at: nat, k: nat)
    requires at + WORD <= |s| && k < 4
    ensures Lane(LoadWord(s, at), k) == s[at + k]
  {
    hide Packed, Lowest, Right;
    PackedLow(s[at], s[at + 1], s[at + 2], s[at + 3], s[at + 4], s[at + 5], s[at + 6], s[at + 7]);
    var w := LoadWord(s, at);
    assert Shifted(w, 1) == Right(Shifted(w, 0)) && Shifted(w, 2) == Right(Shifted(w, 1));
  }

  lemma HighLane(s: Bytes, at: nat, k: nat)
    requires at + WORD <= |s| && 4 <= k < WORD
    ensures Lane(LoadWord(s, at), k) == s[at + k]
  {
    hide Packed, Lowest, Right;
    PackedHigh(s[at], s[at + 1], s[at + 2], s[at + 3], s[at + 4], s[at + 5], s[at + 6], s[at + 7]);
    var w := LoadWord(s, at);
    assert Shifted(w, 1) == Right(w) && Shifted(w, 2) == Right(Shifted(w, 1));
    assert Shifted(w, 3) == Right(Shifted(w, 2)) && Shifted(w, 4) == Right(Shifted(w, 3));
    assert Shifted(w, 5) == Right(Shifted(w, 4)) && Shifted(w, 6) == Right(Shifted(w, 5));
  }

  /** What is read as a word has the bytes of memory as its lanes. */
  lemma LoadedLane(s: Bytes, at: nat, k: nat)
    requires at + WORD <= |s| && k < WORD
    ensures Lane(LoadWord(s, at), k) == s[at + k]
  {
    hide Lane, LoadWord;
    if k < 4 {
      LowLane(s, at, k);
    } else {
      HighLane(s, at, k);
    }
  }

  function And64(x: bv64, y: bv64): bv64 {
    x & y
  }

  function Or64(x: bv64, y: bv64): bv64 {
    x | y
  }

  function Xor64(x: bv64, y: bv64): bv64 {
    x ^ y
  }

  function WordOp(op: Op, x: bv64, y: bv64): bv64 {
    match op
    case OpAnd => And64(x, y)
    case OpOr => Or64(x, y)
    case OpXor => Xor64(x, y)
    case OpNot => x
  }

  lemma LowestAnd(x: bv64, y: bv64)
    ensures Lowest(And64(x, y)) == And8(Lowest(x), Lowest(y)) && Right(And64(x, y)) == And64(Right(x), Right(y))
  {
  }

  lemma LowestOr(x: bv64, y: bv64)
    ensures Lowest(Or64(x, y)) == Or8(Lowest(x), Lowest(y)) && Right(Or64(x, y)) == Or64(Right(x), Right(y))
  {
  }

  lemma LowestXor(x: bv64, y: bv64)
    ensures Lowest(Xor64(x, y)) == Xor8(Lowest(x), Lowest(y)) && Right(Xor64(x, y)) == Xor64(Right(x), Right(y))
  {
  }

  lemma LowestOp(op: Op, x: bv64, y: bv64)
    ensures Lowest(WordOp(op, x, y)) == ByteOp(op, Lowest(x), Lowest(y))
    ensures Right(WordOp(op, x, y)) == WordOp(op, Right(x), Right(y))
  {
    hide Lowest, Right, And8, Or8, Xor8, And64, Or64, Xor64;
    match op
    case OpAnd => LowestAnd(x, y);
    case OpOr => LowestOr(x, y);
    case OpXor => LowestXor(x, y);
    case OpNot =>
  }

  lemma {:induction false} ShiftedOp(op: Op, x: bv64, y: bv64, k: nat)
    ensures Shifted(WordOp(op, x, y), k) == WordOp(op, Shifted(x, k), Shifted(y, k))
  {
    hide Lowest, Right, WordOp;
    if k > 0 {
      ShiftedOp(op, x, y, k - 1);
      LowestOp(op, Shifted(x, k - 1), Shifted(y, k - 1));
    }
  }

  /** An operator on words acts on every lane alike. */
  lemma LaneOp(op: Op, x: bv64, y: bv64, k: nat)
    ensures Lane(WordOp(op, x, y), k) == ByteOp(op, Lane(x, k), Lane(y, k))
  {
    hide Lowest, Shifted, WordOp, ByteOp;
    ShiftedOp(op, x, y, k);
    LowestOp(op, Shifted(x, k), Shifted(y, k));
  }

  lemma AllOnes(x: bv64, b: bv8)
    ensures !x == Xor64(x, Packed(0xFF, 0xFF, 0xFF, 0xFF, 0xFF, 0xFF, 0xFF, 0xFF)) && Xor8(b, 0xFF) == !b
  {
  }

  /** And so does the complement, which is an exclusive or with ones in all lanes. */
  lemma LaneNot(x: bv64, k: nat)
    requires k < WORD
    ensures Lane(!x, k) == !Lane(x, k)
  {
    hide Lane, Packed, Xor64, Xor8;
    var ones: Bytes := [0xFF, 0xFF, 0xFF, 0xFF, 0xFF, 0xFF, 0xFF, 0xFF];
    AllOnes(x, Lane(x, k));
    LoadedLane(ones, 0, k);
    LaneOp(OpXor, x, LoadWord(ones, 0), k);
  }

  // ----- Words and blocks in place -----

  method StoreWord(res: array<bv8>, at: nat, w: bv64)
    requires at + WORD <= res.Length
    modifies res
    ensures forall t :: 0 <= t < res.Length ==> res[t] == if at <= t < at + WORD then Lane(w, t - at) else old(res[t])
  {
    hide Lane;
    for k := 0 to WORD
      invariant forall t :: 0 <= t < res.Length ==> res[t] == if at <= t < at + k then Lane(w, t - at) else old(res[t])
    {
      res[at + k] := Lane(w, k);
    }
  }

  /** Four words of the result are combined with four words of a key. */
  method CombineBlock(op: Op, res: array<bv8>, j: nat, key: Bytes)
    requires j + 4 * WORD <= res.Length && j + 4 * WORD <= |key|
    modifies res
    ensures forall t :: 0 <= t < res.Length ==>
              res[t] == if j <= t < j + 4 * WORD then ByteOp(op, old(res[t]), key[t]) else old(res[t])
  {
    hide ByteOp, WordOp, Lane, LoadWord;
    for n := 0 to 4
      invariant forall t :: 0 <= t < res.Length ==>
                  res[t] == if j <= t < j + WORD * n then ByteOp(op, old(res[t]), key[t]) else old(res[t])
    {
      var at := j + WORD * n;
      var x, y := LoadWord(res[..], at), LoadWord(key, at);
      forall k | 0 <= k < WORD ensures Lane(WordOp(op, x, y), k) == ByteOp(op, res[at + k], key[at + k]) {
        LaneOp(op, x, y, k);
        LoadedLane(res[..], at, k);
        LoadedLane(key, at, k);
      }
      StoreWord(res, at, WordOp(op, x, y));
    }
  }

  method InvertBlock(res: array<bv8>, j: nat)
    requires j + 4 * WORD <= res.Length
    modifies res
    ensures forall t :: 0 <= t < res.Length ==> res[t] == if j <= t < j + 4 * WORD then !old(res[t]) else old(res[t])
  {
    hide Lane, LoadWord;
    for n := 0 to 4
      invariant forall t :: 0 <= t < res.Length ==>
                  res[t] == if j <= t < j + WORD * n then !old(res[t]) else old(res[t])
    {
      var at := j + WORD * n;
      var x := LoadWord(res[..], at);
      var y := !x;
      forall k | 0 <= k < WORD ensures Lane(y, k) == !res[at + k] {
        LaneNot(x, k);
        LoadedLane(res[..], at, k);
      }
      StoreWord(res, at, y);
    }
  }

  // ----- The command -----

  lemma {:induction false} MaxReached(keys: seq<Bytes>, m: nat)
    requires (forall i :: 0 <= i < |keys| ==> |keys[i]| <= m)
             && (m == 0 || exists i :: 0 <= i < |keys| && |keys[i]| == m)
    ensures MaxLength(keys) == m
  {
    if keys != [] {
      var n := |keys| - 1;
      if m == 0 {
        MaxReached(keys[..n], 0);
      } else if |keys[n]| != m {
        var i :| 0 <= i < |keys| && |keys[i]| == m;
        assert keys[..n][i] == keys[i];
        MaxReached(keys[..n], m);
      } else {
        MaxAtMost(keys[..n], m);
      }
    }
  }

  lemma {:induction false} MaxAtMost(keys: seq<Bytes>, m: nat)
    requires forall i :: 0 <= i < |keys| ==> |keys[i]| <= m
    ensures MaxLength(keys) <= m
  {
    if keys != [] {
      MaxAtMost(keys[..|keys| - 1], m);
    }
  }

  /** The fast path covers whole blocks of 32 bytes that every key has. */
  method FastPath(op: Op, keys: seq<Bytes>, minlen: nat, res: array<bv8>) returns (j: nat)
    requires |keys| > 0 && (op.OpNot? ==> |keys| == 1) && minlen <= res.Length
    requires forall i :: 0 <= i < |keys| ==> minlen <= |keys[i]|
    requires forall t :: 0 <= t < minlen ==> res[t] == keys[0][t]
    modifies res
    ensures j <= res.Length && forall t :: 0 <= t < j ==> res[t] == FoldByte(op, keys, t, |keys|)
  {
    hide ByteOp;
    j := 0;
    var left := minlen;
    while left >= 4 * WORD
      invariant j + left == minlen && left >= 0
      invariant forall t :: 0 <= t < j ==> res[t] == FoldByte(op, keys, t, |keys|)
      invariant forall t :: j <= t < minlen ==> res[t] == keys[0][t]
    {
      if op.OpNot? {
        InvertBlock(res, j);
      } else {
        for i := 1 to |keys|
          invariant forall t :: 0 <= t < j ==> res[t] == FoldByte(op, keys, t, |keys|)
          invariant forall t :: j <= t < j + 32 ==> res[t] == FoldByte(op, keys, t, i)
          invariant forall t :: j + 32 <= t < minlen ==> res[t] == keys[0][t]
        {
          CombineBlock(op, res, j, keys[i]);
        }
      }
      j := j + 4 * WORD;
      left := left - 4 * WORD;
    }
  }

  method Lengths(keys: seq<Bytes>) returns (minlen: nat, maxlen: nat)
    requires |keys| > 0
    ensures maxlen == MaxLength(keys) && minlen <= maxlen && forall i :: 0 <= i < |keys| ==> minlen <= |keys[i]|
  {
    minlen, maxlen := 0, 0;
    for k := 0 to |keys|
      invariant (forall i :: 0 <= i < k ==> minlen <= |keys[i]| <= maxlen) && minlen <= maxlen
      invariant maxlen == 0 || exists i :: 0 <= i < k && |keys[i]| == maxlen
      invariant k == 0 ==> minlen == 0
    {
      if |keys[k]| > maxlen {
        maxlen := |keys[k]|;
      }
      if k == 0 || |keys[k]| < minlen {
        minlen := |keys[k]|;
      }
    }
    MaxReached(keys, maxlen);
  }

  method SlowByte(op: Op, keys: seq<Bytes>, j: nat) returns (output: bv8)
    requires |keys| > 0 && (op.OpNot? ==> |keys| == 1)
    ensures output == FoldByte(op, keys, j, |keys|)
  {
    hide ByteOp;
    output := if |keys[0]| <= j then 0 else keys[0][j];
    if op.OpNot? {
      output := !output;
    }
    for i := 1 to |keys|
      invariant output == FoldByte(op, keys, j, i)
    {
      var byte := if |keys[i]| <= j then 0 else keys[i][j];
      output := ByteOp(op, output, byte);
    }
  }

  /** The command: as long as the longest string; every byte is the fold over all keys. */
  method BitopCommand(op: Op, keys: seq<Bytes>) returns (out: Bytes)
    requires |keys| > 0 && (op.OpNot? ==> |keys| == 1)
    ensures out == BitopSpec(op, keys)
  {
    hide ByteOp, FoldByte, MaxLength;
    var minlen, maxlen := Lengths(keys);
    if maxlen == 0 {
      return [];
    }
    var res := new bv8[maxlen](_ => 0);
    var j := 0;
    if minlen >= 4 * WORD && |keys| <= 16 {
      for t := 0 to minlen
        invariant forall u :: 0 <= u < t ==> res[u] == keys[0][u]
      {
        res[t] := keys[0][t];
      }
      j := FastPath(op, keys, minlen, res);
    }
    while j < maxlen
      invariant j <= maxlen && forall t :: 0 <= t < j ==> res[t] == FoldByte(op, keys, t, |keys|)
    {
      var output := SlowByte(op, keys, j);
      res[j] := output;
      j := j + 1;
    }
    out := res[..];
  }
}
