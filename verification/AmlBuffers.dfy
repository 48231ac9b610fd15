/** The send buffers of one process. A send in progress still reads its buffer while new entries are
    gathered, so a buffer handed to the transport is swapped for the one of a finished send. */
module AmlBuffers {
  import opened Bits

  class SendSide {
    const nodes: nat
    const slots: nat
    const nbuf: array<nat>            // buffer being filled for each destination
    const activebuf: array<nat>       // buffer last used by each send slot
    const store: array<seq<Byte>>     // the buffers themselves
    const busy: array<bool>           // send slots whose transfer is not finished
    const promised: array<seq<Byte>>  // what each slot was told to send

    /** No two of the places in `nbuf` and `activebuf` name the same buffer. */
    ghost predicate Apart()
      reads nbuf, activebuf
    {
      && (forall i :: 0 <= i < nbuf.Length ==> nbuf[i] < nodes + slots)
      && (forall k :: 0 <= k < activebuf.Length ==> activebuf[k] < nodes + slots)
      && (forall i, j :: 0 <= i < j < nbuf.Length ==> nbuf[i] != nbuf[j])
      && (forall k, m :: 0 <= k < m < activebuf.Length ==> activebuf[k] != activebuf[m])
      && (forall i, k :: 0 <= i < nbuf.Length && 0 <= k < activebuf.Length ==> nbuf[i] != activebuf[k])
    }

    /** Distinct arrays of the right sizes, and every unfinished send finds its bytes untouched. */
    ghost predicate Valid()
      reads this, nbuf, activebuf, store, busy, promised
    {
      && nbuf != activebuf && store != promised
      && nbuf.Length == nodes && activebuf.Length == busy.Length == promised.Length == slots
      && store.Length == nodes + slots
      && Apart()
      && (forall k :: 0 <= k < slots && busy[k] ==> store[activebuf[k]] == promised[k])
    }

    /** The bytes gathered for a destination so far. */
    ghost function Gathered(node: nat): seq<Byte>
      requires Valid() && node < nodes
      reads this, nbuf, activebuf, store, busy, promised
    {
      store[nbuf[node]]
    }

    constructor (nodes: nat, slots: nat)
      ensures Valid() && this.nodes == nodes && this.slots == slots
      ensures forall k :: 0 <= k < slots ==> !busy[k]
      ensures forall i :: 0 <= i < nodes ==> Gathered(i) == []
    {
      this.nodes, this.slots := nodes, slots;
      nbuf := new nat[nodes](i => i);
      activebuf := new nat[slots](k requires k >= 0 => nodes + k);
      store := new seq<Byte>[nodes + slots](_ => []);
      busy := new bool[slots](_ => false);
      promised := new seq<Byte>[slots](_ => []);
    }

    /** Gathers an entry for a destination; every send in progress keeps its bytes. */
    method Put(node: nat, bytes: seq<Byte>)
      requires Valid() && node < nodes
      modifies store
      ensures Valid() && Gathered(node) == old(Gathered(node)) + bytes
      ensures forall i :: 0 <= i < nodes && i != node ==> Gathered(i) == old(Gathered(i))
    {
      store[nbuf[node]] := store[nbuf[node]] + bytes;
    }

    /** Starts sending what was gathered for a destination from a free slot, and goes on gathering in
        the buffer that slot used before. */
    method Flush(node: nat, index: nat)
      requires Valid() && node < nodes && index < slots && !busy[index]
      modifies nbuf, activebuf, busy, promised, store
      ensures Valid() && busy[index] && promised[index] == old(Gathered(node)) && Gathered(node) == []
      ensures forall i :: 0 <= i < nodes && i != node ==> Gathered(i) == old(Gathered(i))
      ensures forall k :: 0 <= k < slots && k != index ==> busy[k] == old(busy[k]) && promised[k] == old(promised[k])
    {
      promised[index] := store[nbuf[node]];
      busy[index] := true;
      var tmp := activebuf[index];
      activebuf[index] := nbuf[node];
      nbuf[node] := tmp;
      store[nbuf[node]] := [];
    }

    /** Whenever the transport gets round to a slot, it sends what that slot was told to send. */
    method Transfer(index: nat) returns (bytes: seq<Byte>)
      requires Valid() && index < slots && busy[index]
      modifies busy
      ensures Valid() && !busy[index] && bytes == promised[index]
      ensures forall i :: 0 <= i < nodes ==> Gathered(i) == old(Gathered(i))
      ensures forall k :: 0 <= k < slots && k != index ==> busy[k] == old(busy[k])
    {
      bytes := store[activebuf[index]];
      busy[index] := false;
    }
  }
}
