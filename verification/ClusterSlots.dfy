/** One node's view of who serves which hash slot: the table from slots to nodes, mirrored in one
    bitmap per node, with configuration epochs. */
module ClusterSlots {

  const SLOTS: nat := 16384

  // ----- Bitmaps -----

  type Bitmap = seq<bv8>

  /** `1 << i` for a bit number inside a byte. */
  function Mask(i: nat): bv8
    requires i < 8
  {
    if i == 0 then 1 else if i == 1 then 2 else if i == 2 then 4 else if i == 3 then 8
    else if i == 4 then 16 else if i == 5 then 32 else if i == 6 then 64 else 128
  }

  predicate TestBit(b: Bitmap, pos: nat)
    requires pos < 8 * |b|
  {
    Has(b[pos / 8], pos % 8)
  }

  predicate Has(x: bv8, i: nat)
    requires i < 8
  {
    x & Mask(i) != 0
  }

  function With(x: bv8, i: nat): bv8
    requires i < 8
  {
    x | Mask(i)
  }

  function Without(x: bv8, i: nat): bv8
    requires i < 8
  {
    x & !Mask(i)
  }

  function SetBit(b: Bitmap, pos: nat): Bitmap
    requires pos < 8 * |b|
  {
    b[pos / 8 := With(b[pos / 8], pos % 8)]
  }

  function ClearBit(b: Bitmap, pos: nat): Bitmap
    requires pos < 8 * |b|
  {
    b[pos / 8 := Without(b[pos / 8], pos % 8)]
  }

  lemma MaskSet(x: bv8, i: nat, k: nat)
    requires i < 8 && k < 8
    ensures Has(With(x, i), k) <==> i == k || Has(x, k)
  {
  }

  lemma MaskClear(x: bv8, i: nat, k: nat)
    requires i < 8 && k < 8
    ensures Has(Without(x, i), k) <==> i != k && Has(x, k)
  {
  }

  /** Setting or clearing a bit changes that bit and no other. */
  lemma BitUpdates(b: Bitmap, pos: nat, p: nat)
    requires pos < 8 * |b| && p < 8 * |b|
    ensures TestBit(SetBit(b, pos), p) <==> p == pos || TestBit(b, p)
    ensures TestBit(ClearBit(b, pos), p) <==> p != pos && TestBit(b, p)
  {
    hide Has, With, Without;
    if p / 8 == pos / 8 {
      MaskSet(b[pos / 8], pos % 8, p % 8);
      MaskClear(b[pos / 8], pos % 8, p % 8);
    }
  }

  /** Number of set bits below position `n`. */
  function Population(b: Bitmap, n: nat): nat
    requires n <= 8 * |b|
  {
    if n == 0 then 0 else Population(b, n - 1) + (if TestBit(b, n - 1) then 1 else 0)
  }

  lemma {:induction false} PopulationUpdate(b: Bitmap, pos: nat, n: nat)
    requires pos < 8 * |b| && n <= 8 * |b|
    ensures Population(SetBit(b, pos), n) == Population(b, n) + (if pos < n && !TestBit(b, pos) then 1 else 0)
    ensures Population(ClearBit(b, pos), n) == Population(b, n) - (if pos < n && TestBit(b, pos) then 1 else 0)
  {
    hide TestBit, SetBit, ClearBit;
    if n > 0 {
      PopulationUpdate(b, pos, n - 1);
      BitUpdates(b, pos, n - 1);
    }
  }

  // ----- The cluster state -----

  /** What a node is: its configuration epoch, whether it is a master, and whom it replicates. */
  datatype Node = Node(configEpoch: nat, isMaster: bool, slaveof: int)

  /** What a node serves: its slot bitmap and the count of its slots. */
  datatype Served = Served(slots: Bitmap, numslots: int)

  const NONE: int := -1

  ghost predicate Counted(x: Served) {
    8 * |x.slots| == SLOTS && x.numslots == Population(x.slots, SLOTS)
  }

  function Added(x: Served, slot: nat): Served
    requires slot < 8 * |x.slots|
  {
    Served(SetBit(x.slots, slot), if TestBit(x.slots, slot) then x.numslots else x.numslots + 1)
  }

  function Removed(x: Served, slot: nat): Served
    requires slot < 8 * |x.slots|
  {
    Served(ClearBit(x.slots, slot), if TestBit(x.slots, slot) then x.numslots - 1 else x.numslots)
  }

  lemma BitMoves(x: Served, slot: nat)
    requires Counted(x) && slot < SLOTS
    ensures Counted(Added(x, slot)) && Counted(Removed(x, slot))
    ensures forall j :: 0 <= j < SLOTS ==> TestBit(Added(x, slot).slots, j) == (j == slot || TestBit(x.slots, j))
    ensures forall j :: 0 <= j < SLOTS ==> TestBit(Removed(x, slot).slots, j) == (j != slot && TestBit(x.slots, j))
  {
    PopulationUpdate(x.slots, slot, SLOTS);
    forall j | 0 <= j < SLOTS
      ensures TestBit(SetBit(x.slots, slot), j) == (j == slot || TestBit(x.slots, j))
      ensures TestBit(ClearBit(x.slots, slot), j) == (j != slot && TestBit(x.slots, j))
    {
      BitUpdates(x.slots, slot, j);
    }
  }

  /** A node has slot count zero exactly if it serves no slot. */
  lemma {:induction false} EmptyIffZero(b: Bitmap, n: nat)
    requires n <= 8 * |b|
    ensures Population(b, n) == 0 <==> forall j :: 0 <= j < n ==> !TestBit(b, j)
  {
    if n > 0 {
      EmptyIffZero(b, n - 1);
    }
  }

  /** Every slot has a known owner or none, and is set in the bitmap of its owner and no other. */
  ghost predicate Mirrored(served: map<int, Served>, slots: seq<int>)
    requires |slots| == SLOTS && forall n :: n in served ==> 8 * |served[n].slots| == SLOTS
  {
    && (forall j :: 0 <= j < SLOTS ==> slots[j] == NONE || slots[j] in served)
    && (forall n, j :: n in served && 0 <= j < SLOTS ==> (slots[j] == n <==> TestBit(served[n].slots, j)))
  }

  /** A node after `n` was forgotten: the replicas of a master no longer know their master. */
  function Orphaned(x: Node, n: int, isMaster: bool): Node {
    if isMaster && x.slaveof == n then x.(slaveof := NONE) else x
  }

  /** The owner a slot gets when `sender` claims it with `epoch`: a slot that is not being imported is
      rebound if it has no owner or one with an older configuration. */
  function Rebound(nodes: map<int, Node>, owner: int, importing: int, claims: bool, sender: int, epoch: nat): int {
    if claims && owner != sender && importing == NONE
      && (owner == NONE || (owner in nodes && nodes[owner].configEpoch < epoch))
    then sender else owner
  }

  /** The whole table after the claims of `sender`. */
  function Claimed(nodes: map<int, Node>, was: seq<int>, importing: seq<int>, claimed: Bitmap, sender: int,
      epoch: nat): seq<int>
    requires |was| == |importing| == 8 * |claimed|
  {
    seq(|was|, j requires 0 <= j < |was| => Rebound(nodes, was[j], importing[j], TestBit(claimed, j), sender, epoch))
  }

  /** Slot `j` changes hands exactly if it is claimed, not already the claimant's, not being imported, and
      unassigned or owned under a strictly smaller configuration epoch. */
  ghost predicate MovesExactly(nodes: map<int, Node>, was: seq<int>, now: seq<int>, importing: seq<int>,
                               claimed: Bitmap, sender: int, epoch: nat, j: nat)
    requires j < |was| == |now| == |importing| == 8 * |claimed|
  {
    now[j] != was[j] <==>
      && TestBit(claimed, j) && was[j] != sender && importing[j] == NONE
      && (was[j] != NONE ==> was[j] in nodes && nodes[was[j]].configEpoch < epoch)
  }

  lemma RebindOnlyForward(nodes: map<int, Node>, was: seq<int>, importing: seq<int>, claimed: Bitmap, sender: int,
                          epoch: nat, j: nat)
    requires |was| == |importing| == 8 * |claimed| && j < |was|
    ensures MovesExactly(nodes, was, Claimed(nodes, was, importing, claimed, sender, epoch), importing, claimed, sender,
            epoch, j)
  {
  }

  /** What handling a claim may come to: the node stays what it is and the keys of some slots have to go; it
      becomes a replica; it follows the pointer of a master it does not have; or it stops on the
      assertion that a new replica has no slots. */
  datatype Outcome = Kept(dirty: seq<nat>) | Demoted | NoMaster | AssertionFails

  ghost predicate Lost(was: seq<int>, now: seq<int>, m: int)
    requires |was| == |now|
  {
    exists j :: 0 <= j < |was| && was[j] == m && now[j] != was[j]
  }

  /** A replica that knows no master is given a claim on a slot that nobody serves or imports. */
  ghost predicate OrphanClaim(me: Node, was: seq<int>, importing: seq<int>, claimed: Bitmap)
    requires |was| == |importing| == 8 * |claimed|
  {
    !me.isMaster && me.slaveof == NONE && exists j :: 0 <= j < |was| && Open(was, importing, claimed, j)
  }

  predicate Open(was: seq<int>, importing: seq<int>, claimed: Bitmap, j: nat)
    requires j < |was| == |importing| == 8 * |claimed|
  {
    TestBit(claimed, j) && was[j] == NONE && importing[j] == NONE
  }

  lemma LostNothing(nodes: map<int, Node>, was: seq<int>, importing: seq<int>, claimed: Bitmap, sender: int, epoch: nat)
    requires |was| == |importing| == 8 * |claimed| && sender != NONE
    ensures Lost(was, Claimed(nodes, was, importing, claimed, sender, epoch), NONE)
            <==> exists j :: 0 <= j < |was| && Open(was, importing, claimed, j)
  {
    hide TestBit;
    var now := Claimed(nodes, was, importing, claimed, sender, epoch);
    if j :| 0 <= j < |was| && Open(was, importing, claimed, j) {
      assert now[j] == sender;
    }
    if Lost(was, now, NONE) {
      var j :| 0 <= j < |was| && was[j] == NONE && now[j] != was[j];
      assert Open(was, importing, claimed, j);
    }
  }

  /** What is known about `sender` itself does not influence its claims. */
  lemma OwnEpochIrrelevant(nodes: map<int, Node>, nodes': map<int, Node>, was: seq<int>, importing: seq<int>,
                           claimed: Bitmap, sender: int, epoch: nat)
    requires |was| == |importing| == 8 * |claimed|
    requires nodes.Keys == nodes'.Keys && forall n :: n in nodes && n != sender ==> nodes'[n] == nodes[n]
    ensures Claimed(nodes', was, importing, claimed, sender, epoch)
            == Claimed(nodes, was, importing, claimed, sender, epoch)
  {
  }

  /** Whether one of the first `n` slots was taken from `m`. */
  ghost predicate TookFrom(was: seq<int>, now: seq<int>, m: int, n: nat)
    requires n <= |was| == |now|
  {
    n > 0 && (TookFrom(was, now, m, n - 1) || (was[n - 1] == m && now[n - 1] != was[n - 1]))
  }

  lemma {:induction false} TookFromIff(was: seq<int>, now: seq<int>, m: int, n: nat)
    requires n <= |was| == |now|
    ensures TookFrom(was, now, m, n) <==> exists j :: 0 <= j < n && was[j] == m && now[j] != was[j]
  {
    if n > 0 {
      TookFromIff(was, now, m, n - 1);
    }
  }

  /** The slots among the first `n` that `me` lost while they still hold keys, in order. */
  function Dirty(was: seq<int>, now: seq<int>, me: int, hasKeys: seq<bool>, n: nat): seq<nat>
    requires n <= |was| == |now| == |hasKeys|
  {
    if n == 0 then []
    else if was[n - 1] == me && now[n - 1] != me && hasKeys[n - 1] then Dirty(was, now, me, hasKeys, n - 1) + [n - 1]
    else Dirty(was, now, me, hasKeys, n - 1)
  }

  lemma {:induction false} DirtyIff(was: seq<int>, now: seq<int>, me: int, hasKeys: seq<bool>, n: nat, j: nat)
    requires n <= |was| == |now| == |hasKeys|
    ensures j in Dirty(was, now, me, hasKeys, n) <==> j < n && was[j] == me && now[j] != me && hasKeys[j]
  {
    if n > 0 {
      DirtyIff(was, now, me, hasKeys, n - 1, j);
    }
  }

  /** The table after every slot of `from` went to `to`. */
  function Handed(was: seq<int>, from: int, to: int): seq<int> {
    seq(|was|, j requires 0 <= j < |was| => if was[j] == from then to else was[j])
  }

  /** The first `j` entries are as in `target`, the others as before. */
  ghost predicate PartDone(cur: seq<int>, target: seq<int>, was: seq<int>, j: nat) {
    |cur| == |target| == |was| && forall i :: 0 <= i < |cur| ==> cur[i] == if i < j then target[i] else was[i]
  }

  lemma PartNone(was: seq<int>, target: seq<int>)
    requires |was| == |target|
    ensures PartDone(was, target, was, 0)
  {
  }

  lemma PartAt(cur: seq<int>, target: seq<int>, was: seq<int>, j: nat)
    requires PartDone(cur, target, was, j)
    ensures |cur| == |target| == |was|
    ensures j < |cur| ==> cur[j] == was[j] && PartDone(cur[j := target[j]], target, was, j + 1)
    ensures j >= |cur| ==> cur == target
  {
  }

  lemma NoneServed(b: Bitmap)
    requires 8 * |b| == SLOTS && forall i :: 0 <= i < |b| ==> b[i] == 0
    ensures Counted(Served(b, 0)) && forall j :: 0 <= j < SLOTS ==> !TestBit(b, j)
  {
    EmptyIffZero(b, SLOTS);
  }

  class Cluster {
    const myself: int
    var nodes: map<int, Node>
    var served: map<int, Served>
    var currentEpoch: nat
    const slots: array<int>
    const importing: array<int>

    /** The table and the bitmaps say the same, the counts are right, and no configuration epoch is ahead
        of the current epoch. */
    ghost predicate Valid()
      reads this, slots, importing
    {
      && slots.Length == importing.Length == SLOTS && slots != importing
      && myself in nodes && NONE !in nodes && nodes.Keys == served.Keys
      && (forall n :: n in nodes ==> nodes[n].configEpoch <= currentEpoch)
      && (forall n :: n in served ==> Counted(served[n]))
      && Mirrored(served, slots[..])
      && (forall j :: 0 <= j < SLOTS ==> importing[j] == NONE || importing[j] in nodes)
    }

    /** A node that knows some others and nobody's slots. */
    constructor (myself: int, nodes: map<int, Node>, currentEpoch: nat)
      requires myself in nodes && NONE !in nodes && forall n :: n in nodes ==> nodes[n].configEpoch <= currentEpoch
      ensures Valid() && this.myself == myself && this.nodes == nodes && this.currentEpoch == currentEpoch
      ensures fresh(slots) && fresh(importing)
      ensures forall j :: 0 <= j < SLOTS ==> slots[j] == NONE && importing[j] == NONE
    {
      this.myself, this.nodes, this.currentEpoch := myself, nodes, currentEpoch;
      var none: Bitmap := seq(SLOTS / 8, _ => 0);
      this.served := map n | n in nodes :: Served(none, 0);
      slots, importing := new int[SLOTS](_ => NONE), new int[SLOTS](_ => NONE);
      NoneServed(none);
    }

    lemma ServesNone(n: int)
      requires Valid() && n in nodes
      ensures served[n].numslots == 0 <==> n !in slots[..]
    {
      hide Mirrored, Counted;
      ServesNothing(n);
      assert forall j :: 0 <= j < SLOTS ==> slots[..][j] == slots[j];
    }

    lemma Owners()
      requires Valid()
      ensures forall j :: 0 <= j < SLOTS ==> slots[..][j] == NONE || slots[..][j] in nodes
    {
    }

    /** A node that lost a slot is a known one. */
    lemma LostIsServed(was: seq<int>, now: seq<int>, m: int)
      requires Valid() && |was| == |now| == SLOTS && m != NONE && Lost(was, now, m)
      requires forall j :: 0 <= j < SLOTS ==> was[j] == NONE || was[j] in nodes
      ensures m in nodes
    {
    }

    lemma Mirrors(n: int, j: nat)
      requires Valid() && n in nodes && j < SLOTS
      ensures 8 * |served[n].slots| == SLOTS
      ensures slots[j] == n <==> TestBit(served[n].slots, j)
    {
      assert slots[..][j] == slots[j];
    }

    lemma ServesNothing(n: int)
      requires Valid() && n in nodes
      ensures served[n].numslots == 0 <==> forall j :: 0 <= j < SLOTS ==> slots[j] != n
    {
      hide Mirrored;
      EmptyIffZero(served[n].slots, SLOTS);
      forall j | 0 <= j < SLOTS ensures slots[j] == n <==> TestBit(served[n].slots, j) {
        Mirrors(n, j);
      }
    }

    /** Gives an unassigned slot to a node; an assigned slot is left alone. */
    method AddSlot(n: int, slot: nat) returns (ok: bool)
      requires Valid() && n in nodes && slot < SLOTS
      modifies this`served, slots
      ensures Valid()
      ensures ok == (old(slots[slot]) == NONE)
      ensures slots[..] == old(slots[..])[slot := if ok then n else old(slots[slot])]
    {
      if slots[slot] != NONE {
        return false;
      }
      BitMoves(served[n], slot);
      served := served[n := Added(served[n], slot)];
      slots[slot] := n;
      ok := true;
    }

    /** Takes a slot from its owner. The bit cleared in the owner's bitmap was always set. */
    method DelSlot(slot: nat) returns (ok: bool)
      requires Valid() && slot < SLOTS
      modifies this`served, slots
      ensures Valid()
      ensures ok == (old(slots[slot]) != NONE)
      ensures slots[..] == old(slots[..])[slot := NONE]
    {
      var n := slots[slot];
      if n == NONE {
        return false;
      }
      BitMoves(served[n], slot);
      assert TestBit(served[n].slots, slot);
      served := served[n := Removed(served[n], slot)];
      slots[slot] := NONE;
      ok := true;
    }

    /** Takes a slot from its owner, if any, and gives it to another node. */
    method Reassign(n: int, slot: nat)
      requires Valid() && n in nodes && slot < SLOTS
      modifies this`served, slots
      ensures Valid()
      ensures slots[..] == old(slots[..])[slot := n]
    {
      hide Mirrored, Counted;
      var _ := DelSlot(slot);
      var _ := AddSlot(n, slot);
    }

    /** Takes all its slots from a node. */
    method DelNodeSlots(n: int)
      requires Valid() && n in nodes
      modifies this`served, slots
      ensures Valid() && slots[..] == Handed(old(slots[..]), n, NONE) && served[n].numslots == 0
    {
      hide Mirrored, Counted, PartDone, TestBit;
      ghost var was, target := slots[..], Handed(slots[..], n, NONE);
      PartNone(was, target);
      for j := 0 to SLOTS
        invariant Valid() && PartDone(slots[..], target, was, j)
      {
        PartAt(slots[..], target, was, j);
        assert slots[j] == slots[..][j];
        Mirrors(n, j);
        ghost var cur := slots[..];
        if TestBit(served[n].slots, j) {
          var _ := DelSlot(j);
        }
        assert slots[..] == cur[j := target[j]];
      }
      PartAt(slots[..], target, was, SLOTS);
      assert forall j :: 0 <= j < SLOTS ==> slots[j] == slots[..][j] != n;
      ServesNothing(n);
    }

    /** Forgets a node: its slots become unassigned and no slot is imported from it any more. */
    method DelNode(n: int)
      requires Valid() && n in nodes && n != myself
      modifies this`nodes, this`served, slots, importing
      ensures Valid() && currentEpoch == old(currentEpoch)
      ensures nodes == map m | m in old(nodes) && m != n :: Orphaned(old(nodes)[m], n, old(nodes)[n].isMaster)
      ensures slots[..] == Handed(old(slots[..]), n, NONE) && importing[..] == Handed(old(importing[..]), n, NONE)
    {
      hide Mirrored, Counted, PartDone;
      ghost var was, target := slots[..], Handed(slots[..], n, NONE);
      ghost var from, cleared := importing[..], Handed(importing[..], n, NONE);
      PartNone(was, target);
      PartNone(from, cleared);
      for j := 0 to SLOTS
        invariant Valid() && nodes == old(nodes)
        invariant PartDone(slots[..], target, was, j) && PartDone(importing[..], cleared, from, j)
      {
        PartAt(slots[..], target, was, j);
        PartAt(importing[..], cleared, from, j);
        assert slots[j] == slots[..][j] && importing[j] == importing[..][j];
        Unlink(n, j);
      }
      PartAt(slots[..], target, was, SLOTS);
      PartAt(importing[..], cleared, from, SLOTS);
      Forget(n);
    }

    method Unlink(n: int, j: nat)
      requires Valid() && j < SLOTS && n != NONE
      modifies this`served, slots, importing
      ensures Valid()
      ensures slots[..] == old(slots[..])[j := if old(slots[j]) == n then NONE else old(slots[j])]
      ensures importing[..] == old(importing[..])[j := if old(importing[j]) == n then NONE else old(importing[j])]
    {
      hide Mirrored, Counted;
      if importing[j] == n {
        StopImport(j);
      }
      if slots[j] == n {
        var _ := DelSlot(j);
      }
    }

    method StopImport(j: nat)
      requires Valid() && j < SLOTS
      modifies importing
      ensures Valid() && importing[..] == old(importing[..])[j := NONE]
    {
      hide Mirrored, Counted;
      importing[j] := NONE;
      assert slots[..] == old(slots[..]);
    }

    method Forget(n: int)
      requires Valid() && n in nodes && n != myself && n !in slots[..] && n !in importing[..]
      modifies this`nodes, this`served
      ensures Valid()
      ensures nodes == map m | m in old(nodes) && m != n :: Orphaned(old(nodes)[m], n, old(nodes)[n].isMaster)
    {
      var isMaster := nodes[n].isMaster;
      nodes := map m | m in nodes && m != n :: Orphaned(nodes[m], n, isMaster);
      served := served - {n};
      assert forall j :: 0 <= j < SLOTS ==> importing[j] in importing[..];
    }

    /** The node whose slots this node serves or would take over. */
    function CurMaster(): int
      reads this
      requires myself in nodes
    {
      if nodes[myself].isMaster then myself else nodes[myself].slaveof
    }

    /** Decides about one claimed slot. */
    method RebindOne(j: nat, sender: int, epoch: nat, claims: bool) returns (moved: bool)
      requires Valid() && sender in nodes && sender != myself && j < SLOTS
      modifies this`served, slots
      ensures Valid()
      ensures slots[..] == old(slots[..])[j := Rebound(nodes, old(slots[j]), importing[j], claims, sender, epoch)]
      ensures moved <==> slots[j] != old(slots[j])
    {
      moved := false;
      if claims && slots[j] != sender && importing[j] == NONE {
        if slots[j] == NONE || nodes[slots[j]].configEpoch < epoch {
          Reassign(sender, j);
          moved := true;
        }
      }
    }

    /** Applies the slots that `sender` claims with configuration epoch `epoch`; reports whether the
        current master lost a slot, and the lost slots that still hold keys. */
    method Rebind(sender: int, epoch: nat, claimed: Bitmap, hasKeys: seq<bool>) returns (lost: bool, dirty: seq<nat>)
      requires Valid() && sender in nodes && sender != myself && 8 * |claimed| == SLOTS == |hasKeys|
      modifies this`served, slots
      ensures Valid()
      ensures slots[..] == Claimed(nodes, old(slots[..]), importing[..], claimed, sender, epoch)
      ensures forall j :: 0 <= j < SLOTS ==>
                MovesExactly(nodes, old(slots[..]), slots[..], importing[..], claimed, sender, epoch, j)
      ensures lost <==> Lost(old(slots[..]), slots[..], CurMaster())
      ensures dirty == Dirty(old(slots[..]), slots[..], myself, hasKeys, SLOTS)
    {
      hide TestBit, Counted, Rebound, Mirrored, PartDone;
      ghost var was := slots[..];
      ghost var target := Claimed(nodes, slots[..], importing[..], claimed, sender, epoch);
      PartNone(was, target);
      lost, dirty := false, [];
      var curmaster := CurMaster();
      for j := 0 to SLOTS
        invariant Valid() && PartDone(slots[..], target, was, j)
        invariant lost == TookFrom(was, target, curmaster, j)
        invariant dirty == Dirty(was, target, myself, hasKeys, j)
      {
        PartAt(slots[..], target, was, j);
        var owner := slots[j];
        assert owner == slots[..][j] == was[j];
        assert target[j] == Rebound(nodes, owner, importing[j], TestBit(claimed, j), sender, epoch);
        var moved := RebindOne(j, sender, epoch, TestBit(claimed, j));
        assert slots[j] == target[j];
        if moved {
          if owner == myself && hasKeys[j] {
            dirty := dirty + [j];
          }
          if owner == curmaster {
            lost := true;
          }
        }
      }
      PartAt(slots[..], target, was, SLOTS);
      TookFromIff(was, target, curmaster, SLOTS);
      forall j | 0 <= j < SLOTS ensures MovesExactly(nodes, was, target, importing[..], claimed, sender, epoch, j) {
        RebindOnlyForward(nodes, was, importing[..], claimed, sender, epoch, j);
      }
    }

    /** Handles the slots claimed by `sender`. A node whose master lost its last slot this way becomes
        a replica of `sender`; otherwise the keys of the returned slots have to go. */
    method UpdateSlotsConfigWith(sender: int, epoch: nat, claimed: Bitmap, hasKeys: seq<bool>) returns (out: Outcome)
      requires Valid() && sender in nodes && 8 * |claimed| == SLOTS == |hasKeys|
      modifies this`nodes, this`served, slots, importing
      ensures Valid()
      ensures sender == myself ==> slots[..] == old(slots[..]) && out == Kept([])
      ensures sender != myself ==>
                slots[..] == Claimed(old(nodes), old(slots[..]), old(importing[..]), claimed, sender, epoch)
      ensures out.NoMaster? <==>
                sender != myself && OrphanClaim(old(nodes)[myself], old(slots[..]), old(importing[..]), claimed)
      ensures out.Demoted? || out.AssertionFails? <==>
                && sender != myself && old(CurMaster()) != NONE && Lost(old(slots[..]), slots[..], old(CurMaster()))
                && old(CurMaster()) !in slots[..]
      ensures out.AssertionFails? ==> myself in slots[..]
      ensures out.Demoted? ==> myself !in slots[..]
      ensures out.Kept? ==> out.dirty == Dirty(old(slots[..]), slots[..], myself, hasKeys, SLOTS)
      ensures nodes
              == if out.Demoted? then old(nodes)[myself := old(nodes)[myself].(isMaster := false, slaveof := sender)]
                       else old(nodes)
      ensures !out.Demoted? ==> importing[..] == old(importing[..])
    {
      hide Mirrored, Counted, Claimed, Dirty, Lost, OrphanClaim, TestBit, MovesExactly;
      ghost var was, from := slots[..], importing[..];
      if sender == myself {
        NothingDirty(was, myself, hasKeys, SLOTS);
        return Kept([]);
      }
      var curmaster := CurMaster();
      Owners();
      var lost, dirty := Rebind(sender, epoch, claimed, hasKeys);
      NoMasterIff(nodes, was, from, claimed, sender, epoch, nodes[myself], curmaster, lost);
      if lost {
        if curmaster == NONE {
          return NoMaster;
        }
        LostIsServed(was, slots[..], curmaster);
        ServesNone(curmaster);
        ServesNone(myself);
        if served[curmaster].numslots == 0 {
          if served[myself].numslots != 0 {
            return AssertionFails;
          }
          SetMaster(sender);
          return Demoted;
        }
      }
      out := Kept(dirty);
    }

    /** Becomes a replica of another node; possible only without slots. A former master stops all
        imports. */
    method SetMaster(n: int)
      requires Valid() && n in nodes && n != myself && served[myself].numslots == 0
      modifies this`nodes, importing
      ensures Valid()
      ensures nodes == old(nodes)[myself := old(nodes)[myself].(isMaster := false, slaveof := n)]
      ensures forall j :: 0 <= j < SLOTS ==>
                importing[j] == if old(nodes)[myself].isMaster then NONE else old(importing[j])
    {
      hide Mirrored, Counted;
      if nodes[myself].isMaster {
        for j := 0 to SLOTS
          invariant Valid() && nodes == old(nodes)
          invariant forall i :: 0 <= i < SLOTS ==> importing[i] == if i < j then NONE else old(importing[i])
        {
          StopImport(j);
          assert forall i :: 0 <= i < SLOTS ==> importing[i] == importing[..][i];
        }
      }
      nodes := nodes[myself := nodes[myself].(isMaster := false, slaveof := n)];
    }

    /** Takes over all slots of the master after a won election. */
    method FailoverReplaceYourMaster()
      requires Valid() && (!nodes[myself].isMaster ==> nodes[myself].slaveof == NONE || nodes[myself].slaveof in nodes)
      modifies this`nodes, this`served, slots
      ensures Valid()
      ensures old(nodes)[myself].isMaster || old(nodes)[myself].slaveof == NONE ==>
                slots[..] == old(slots[..]) && nodes == old(nodes)
      ensures !old(nodes)[myself].isMaster && old(nodes)[myself].slaveof != NONE ==>
                && nodes == old(nodes)[myself := old(nodes)[myself].(isMaster := true, slaveof := NONE)]
                && slots[..] == Handed(old(slots[..]), old(nodes)[myself].slaveof, myself)
    {
      hide Mirrored, Counted, TestBit;
      var oldmaster := nodes[myself].slaveof;
      if nodes[myself].isMaster || oldmaster == NONE {
        return;
      }
      SetNodeAsMaster(myself);
      ClaimSlotsOf(oldmaster);
    }

    method ClaimSlotsOf(oldmaster: int)
      requires Valid() && oldmaster in nodes
      modifies this`served, slots
      ensures Valid() && slots[..] == Handed(old(slots[..]), oldmaster, myself)
    {
      hide Mirrored, Counted, TestBit, PartDone;
      ghost var was, target := slots[..], Handed(slots[..], oldmaster, myself);
      PartNone(was, target);
      for j := 0 to SLOTS
        invariant Valid() && PartDone(slots[..], target, was, j)
      {
        PartAt(slots[..], target, was, j);
        assert slots[j] == slots[..][j];
        Mirrors(oldmaster, j);
        ghost var cur := slots[..];
        if TestBit(served[oldmaster].slots, j) {
          Reassign(myself, j);
        }
        assert slots[..] == cur[j := target[j]];
      }
      PartAt(slots[..], target, was, SLOTS);
    }

    /** Marks a node as a master that replicates nobody. */
    method SetNodeAsMaster(n: int)
      requires Valid() && n in nodes
      modifies this`nodes
      ensures Valid()
      ensures nodes == old(nodes)[n := if old(nodes)[n].isMaster then old(nodes)[n]
                                       else old(nodes)[n].(isMaster := true, slaveof := NONE)]
    {
      hide Mirrored, Counted;
      if !nodes[n].isMaster {
        nodes := nodes[n := nodes[n].(isMaster := true, slaveof := NONE)];
      }
    }

    /** On every packet from a known node: a newer current epoch first, then a newer configuration
        epoch of the sender. */
    method SeeHeader(sender: int, cur: nat, conf: nat)
      requires Valid() && sender in nodes && conf <= cur
      modifies this`nodes, this`currentEpoch
      ensures Valid() && currentEpoch == if cur > old(currentEpoch) then cur else old(currentEpoch)
      ensures nodes == old(nodes)[sender := old(nodes)[sender].(configEpoch :=
                if conf > old(nodes)[sender].configEpoch then conf else old(nodes)[sender].configEpoch)]
    {
      hide Mirrored, Counted;
      if cur > currentEpoch {
        currentEpoch := cur;
      }
      if conf > nodes[sender].configEpoch {
        nodes := nodes[sender := nodes[sender].(configEpoch := conf)];
      }
    }

    /** A packet says that its sender replicates `master`, which may be unknown. A sender that was a
        master until now loses all its slots. */
    method SenderIsSlave(sender: int, master: int)
      requires Valid() && sender in nodes
      modifies this`nodes, this`served, slots
      ensures Valid()
      ensures slots[..] == if old(nodes)[sender].isMaster then Handed(old(slots[..]), sender, NONE) else old(slots[..])
      ensures nodes == old(nodes)[sender := Node(old(nodes)[sender].configEpoch, false,
                                                 if master in old(nodes) then master else old(nodes)[sender].slaveof)]
    {
      hide Mirrored, Counted, Handed;
      if nodes[sender].isMaster {
        DelNodeSlots(sender);
        nodes := nodes[sender := nodes[sender].(isMaster := false)];
      }
      if master in nodes && nodes[sender].slaveof != master {
        nodes := nodes[sender := nodes[sender].(slaveof := master)];
      }
    }

    /** Handles an UPDATE packet about node `n`, which may be unknown. Only a configuration newer than
        the known one is looked at, and then the slots are decided with that epoch. */
    method ProcessUpdate(n: int, reported: nat, claimed: Bitmap, hasKeys: seq<bool>) returns (out: Outcome)
      requires Valid() && reported <= currentEpoch && 8 * |claimed| == SLOTS == |hasKeys|
      modifies this`nodes, this`served, slots, importing
      ensures Valid() && nodes.Keys == old(nodes.Keys)
      ensures n !in old(nodes) || reported <= old(nodes)[n].configEpoch ==>
                slots[..] == old(slots[..]) && nodes == old(nodes) && out == Kept([])
      ensures n == myself ==> slots[..] == old(slots[..]) && out == Kept([])
      ensures n in old(nodes) && n != myself && old(nodes)[n].configEpoch < reported ==>
                && nodes[n].configEpoch == reported && nodes[n].isMaster
                && slots[..] == Claimed(old(nodes), old(slots[..]), old(importing[..]), claimed, n, reported)
                && (out.NoMaster? <==> OrphanClaim(old(nodes)[myself], old(slots[..]), old(importing[..]), claimed))
                && (out.Demoted? || out.AssertionFails? <==>
                      && old(CurMaster()) != NONE && Lost(old(slots[..]), slots[..], old(CurMaster()))
                      && old(CurMaster()) !in slots[..])
                && (out.AssertionFails? ==> myself in slots[..])
                && (out.Demoted? ==>
                      && myself !in slots[..]
                      && nodes[myself] == old(nodes)[myself].(isMaster := false, slaveof := n))
                && (!out.Demoted? ==> nodes[myself] == old(nodes)[myself])
                && (out.Kept? ==> out.dirty == Dirty(old(slots[..]), slots[..], myself, hasKeys, SLOTS))
    {
      hide Mirrored, Counted, Claimed, TestBit, OrphanClaim, Lost, Dirty;
      if n !in nodes || nodes[n].configEpoch >= reported {
        return Kept([]);
      }
      SetNodeAsMaster(n);
      nodes := nodes[n := nodes[n].(configEpoch := reported)];
      OwnEpochIrrelevant(old(nodes), nodes, slots[..], importing[..], claimed, n, reported);
      out := UpdateSlotsConfigWith(n, reported, claimed, hasKeys);
    }
  }

  lemma {:induction false} NothingDirty(was: seq<int>, me: int, hasKeys: seq<bool>, n: nat)
    requires n <= |was| == |hasKeys|
    ensures Dirty(was, was, me, hasKeys, n) == []
  {
    if n > 0 {
      NothingDirty(was, me, hasKeys, n - 1);
    }
  }

  /** With no master to lose slots, something was lost exactly if an open slot was claimed. */
  lemma NoMasterIff(nodes: map<int, Node>, was: seq<int>, importing: seq<int>, claimed: Bitmap, sender: int, epoch: nat,
                    me: Node, curmaster: int, lost: bool)
    requires |was| == |importing| == 8 * |claimed| && sender != NONE
    requires lost <==> Lost(was, Claimed(nodes, was, importing, claimed, sender, epoch), curmaster)
    requires curmaster == NONE <==> !me.isMaster && me.slaveof == NONE
    ensures lost && curmaster == NONE <==> OrphanClaim(me, was, importing, claimed)
  {
    hide Claimed, Lost, TestBit;
    LostNothing(nodes, was, importing, claimed, sender, epoch);
  }

  /** A replica that has lost sight of its master, and a claim that makes it follow the missing pointer. */
  method OrphanCrashes(hasKeys: seq<bool>, claimed: Bitmap) returns (c: Cluster, out: Outcome)
    requires |hasKeys| == SLOTS == 8 * |claimed| && TestBit(claimed, 0)
    ensures out == NoMaster
  {
    hide TestBit, Dirty, Claimed, Lost;
    c := new Cluster(0, map[0 := Node(0, false, NONE), 1 := Node(1, true, NONE)], 1);
    assert Open(c.slots[..], c.importing[..], claimed, 0);
    out := c.UpdateSlotsConfigWith(1, 1, claimed, hasKeys);
  }

  /** The table of the run below: the master of node 0 serves slot 0, node 0 itself slot 1. */
  lemma MasterLosesAll(nodes: map<int, Node>, was: seq<int>, importing: seq<int>, claimed: Bitmap)
    requires |was| == |importing| == 8 * |claimed| && |was| > 1 && TestBit(claimed, 0) && !TestBit(claimed, 1)
    requires 1 in nodes && nodes[1].configEpoch == 0 && was[0] == 1 && was[1] == 0
    requires forall j :: 1 < j < |was| ==> was[j] == NONE
    requires forall j :: 0 <= j < |was| ==> importing[j] == NONE
    ensures var now := Claimed(nodes, was, importing, claimed, 2, 1);
            Lost(was, now, 1) && 1 !in now && 0 in now
  {
    hide TestBit;
    var now := Claimed(nodes, was, importing, claimed, 2, 1);
    assert was[0] == 1 && now[0] == 2 && now[1] == 0;
  }

  /** A replica that serves a slot of its own and whose master loses its last slot to node 2: the assertion that
      a new replica serves nothing fails. */
  method ServingReplicaAsserts(hasKeys: seq<bool>, claimed: Bitmap) returns (c: Cluster, out: Outcome)
    requires |hasKeys| == SLOTS == 8 * |claimed| && TestBit(claimed, 0) && !TestBit(claimed, 1)
    ensures out == AssertionFails
  {
    hide TestBit, Dirty, Claimed, Lost;
    c := new Cluster(0, map[0 := Node(0, false, 1), 1 := Node(0, true, NONE), 2 := Node(1, true, NONE)], 1);
    var first := c.AddSlot(1, 0);
    var second := c.AddSlot(0, 1);
    MasterLosesAll(c.nodes, c.slots[..], c.importing[..], claimed);
    out := c.UpdateSlotsConfigWith(2, 1, claimed, hasKeys);
  }
}
