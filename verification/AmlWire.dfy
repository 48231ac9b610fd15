/** The byte format of an aggregation buffer: headers and payloads laid end to end, and the loops
    that take a received buffer apart again. */
module AmlWire {
  import opened Bits

  /** One entry as the receiving loop hands it on. */
  datatype Entry = Entry(routing: nat, hndl: nat, data: seq<Byte>)

  /** Two-byte fields are stored low byte first. */
  function Low(n: nat): Byte { n % 256 }

  function High(n: nat): Byte
    requires n < 65536
  {
    n / 256
  }

  function Word(lo: Byte, hi: Byte): nat {
    (lo as int) + 256 * (hi as int)
  }

  lemma WordRoundTrip(n: nat)
    requires n < 65536
    ensures Word(Low(n), High(n)) == n
  {
  }

  /** Internode header: size, handler, routing. */
  function Header(e: Entry): seq<Byte>
    requires Fits(e)
  {
    [Low(|e.data|), High(|e.data|), e.hndl, e.routing]
  }

  /** Intranode header: routing, size, handler. */
  function HeaderIntra(e: Entry): seq<Byte>
    requires FitsIntra(e)
  {
    [Low(e.routing), High(e.routing), Low(|e.data|), High(|e.data|), e.hndl]
  }

  function Pack(e: Entry): seq<Byte>
    requires Fits(e)
  {
    Header(e) + e.data
  }

  function PackIntra(e: Entry): seq<Byte>
    requires FitsIntra(e)
  {
    HeaderIntra(e) + e.data
  }

  /** Entries whose header fields hold their values: handler numbers are stored in a signed byte. */
  predicate Fits(e: Entry) { |e.data| < 65536 && e.hndl < 128 && e.routing < 256 }

  predicate FitsIntra(e: Entry) { |e.data| < 65536 && e.hndl < 128 && e.routing < 65536 }

  function PackAll(es: seq<Entry>): seq<Byte>
    requires forall e :: e in es ==> Fits(e)
  {
    if es == [] then [] else Pack(es[0]) + PackAll(es[1..])
  }

  function PackAllIntra(es: seq<Entry>): seq<Byte>
    requires forall e :: e in es ==> FitsIntra(e)
  {
    if es == [] then [] else PackIntra(es[0]) + PackAllIntra(es[1..])
  }

  /** Appending an entry to a buffer appends its packed form. */
  lemma {:induction false} PackAppend(es: seq<Entry>, e: Entry)
    requires (forall x :: x in es ==> Fits(x)) && Fits(e)
    ensures PackAll(es + [e]) == PackAll(es) + Pack(e)
  {
    if es == [] {
      assert es + [e] == [e];
      assert [e][1..] == [];
    } else {
      assert (es + [e])[1..] == es[1..] + [e];
      PackAppend(es[1..], e);
    }
  }

  lemma {:induction false} PackAppendIntra(es: seq<Entry>, e: Entry)
    requires (forall x :: x in es ==> FitsIntra(x)) && FitsIntra(e)
    ensures PackAllIntra(es + [e]) == PackAllIntra(es) + PackIntra(e)
  {
    if es == [] {
      assert es + [e] == [e];
      assert [e][1..] == [];
    } else {
      assert (es + [e])[1..] == es[1..] + [e];
      PackAppendIntra(es[1..], e);
    }
  }

  /** What the receiving loop reads at position `i`, where the entries `rest` begin. */
  lemma HeadAt(message: seq<Byte>, i: nat, rest: seq<Entry>)
    requires i <= |message| && rest != [] && forall e :: e in rest ==> Fits(e)
    requires message[i..] == PackAll(rest)
    ensures var n := |rest[0].data|;
            && i + 4 + n <= |message| && Word(message[i], message[i + 1]) == n
            && message[i + 2] == rest[0].hndl && message[i + 3] == rest[0].routing
            && message[i + 4..i + 4 + n] == rest[0].data && message[i + 4 + n..] == PackAll(rest[1..])
  {
    var e, tail := rest[0], PackAll(rest[1..]);
    assert Fits(e);
    Slices(message, i, Header(e), e.data, tail);
    WordRoundTrip(|e.data|);
  }

  lemma HeadAtIntra(message: seq<Byte>, i: nat, rest: seq<Entry>)
    requires i <= |message| && rest != [] && forall e :: e in rest ==> FitsIntra(e)
    requires message[i..] == PackAllIntra(rest)
    ensures var n := |rest[0].data|;
            && i + 5 + n <= |message| && Word(message[i + 2], message[i + 3]) == n
            && Word(message[i], message[i + 1]) == rest[0].routing && message[i + 4] == rest[0].hndl
            && message[i + 5..i + 5 + n] == rest[0].data && message[i + 5 + n..] == PackAllIntra(rest[1..])
  {
    var e, tail := rest[0], PackAllIntra(rest[1..]);
    assert FitsIntra(e);
    Slices(message, i, HeaderIntra(e), e.data, tail);
    WordRoundTrip(|e.data|);
    WordRoundTrip(e.routing);
  }

  lemma Slices(message: seq<Byte>, i: nat, hdr: seq<Byte>, data: seq<Byte>, tail: seq<Byte>)
    requires i <= |message| && message[i..] == hdr + data + tail
    ensures var h, n := |hdr|, |data|;
            && i + h + n <= |message| && (forall k :: 0 <= k < h ==> message[i + k] == hdr[k])
            && message[i + h..i + h + n] == data && message[i + h + n..] == tail
  {
    var m, h, n := message[i..], |hdr|, |data|;
    assert forall k :: 0 <= k < |m| ==> m[k] == message[i + k];
    assert message[i + h..i + h + n] == m[h..h + n];
    assert message[i + h + n..] == m[h + n..];
  }

  lemma EmptyPack()
    ensures PackAll([]) == [] && PackAllIntra([]) == []
  {
  }

  /** The receiving loop for internode messages finds exactly the entries packed by the sender. */
  method Process(message: seq<Byte>, ghost packed: seq<Entry>) returns (es: seq<Entry>)
    requires forall e :: e in packed ==> Fits(e)
    requires message == PackAll(packed)
    ensures es == packed
  {
    hide PackAll;
    es := [];
    var i := 0;
    ghost var rest := packed;
    while i < |message|
      invariant i <= |message| && packed == es + rest
      invariant forall e :: e in rest ==> Fits(e)
      invariant message[i..] == PackAll(rest)
    {
      EmptyPack();
      HeadAt(message, i, rest);
      var sz := Word(message[i], message[i + 1]);
      es := es + [Entry(message[i + 3], message[i + 2], message[i + 4..i + 4 + sz])];
      rest := rest[1..];
      i := i + sz + 4;
    }
    if rest != [] { HeadAt(message, i, rest); }
  }

  /** The receiving loop for intranode messages finds exactly the entries packed by the sender. */
  method ProcessIntra(message: seq<Byte>, ghost packed: seq<Entry>) returns (es: seq<Entry>)
    requires forall e :: e in packed ==> FitsIntra(e)
    requires message == PackAllIntra(packed)
    ensures es == packed
  {
    hide PackAllIntra;
    es := [];
    var i := 0;
    ghost var rest := packed;
    while i < |message|
      invariant i <= |message| && packed == es + rest
      invariant forall e :: e in rest ==> FitsIntra(e)
      invariant message[i..] == PackAllIntra(rest)
    {
      EmptyPack();
      HeadAtIntra(message, i, rest);
      var sz := Word(message[i + 2], message[i + 3]);
      es := es + [Entry(Word(message[i], message[i + 1]), message[i + 4], message[i + 5..i + 5 + sz])];
      rest := rest[1..];
      i := i + 5 + sz;
    }
    if rest != [] { HeadAtIntra(message, i, rest); }
  }
}
