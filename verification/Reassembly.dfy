/**
 * A host that reassembles while packets arrive: it keeps the fragments it has read in offset order, and
 * glues them together as soon as they are complete.
 */
module Reassembly {
  import opened Packets
  import opened Fragment

  /** Keeps the list in offset order; a fragment that starts where another one does is a duplicate. */
  function Insert(held: seq<Fragment>, f: Fragment): seq<Fragment> {
    if held == [] || f.offset < held[0].offset then [f] + held
    else if f.offset == held[0].offset then held
    else [held[0]] + Insert(held[1..], f)
  }

  /** What the host holds after these packets, one after the other. */
  function Held(arrived: seq<seq<Byte>>): seq<Fragment> {
    if arrived == [] then []
    else
      var n := |arrived| - 1;
      match ReadFragment(arrived[n])
      case None => Held(arrived[..n])
      case Some(f) => Insert(Held(arrived[..n]), f)
  }

  /**
   * The message in these fragments, if from `offset` up to a last one each starts where the previous one
   * ended; fragments that start in between are passed over.
   */
  function Glue(held: seq<Fragment>, offset: nat): Option<seq<Byte>> {
    if held == [] || held[0].offset > offset then None
    else if held[0].offset < offset then Glue(held[1..], offset)
    else
      var f := held[0];
      if !f.more then (if Fits(offset, f.payload) then Some(f.payload) else None)
      else if |f.payload| == 0 || |f.payload| % 8 != 0 then None
      else match Glue(held[1..], offset + |f.payload| / 8)
        case None => None
        case Some(rest) => Some(f.payload + rest)
  }

  function Reassemble(arrived: seq<seq<Byte>>): Option<seq<Byte>> {
    Glue(Held(arrived), 0)
  }

  // ---------------------------------------------------------------- what is held

  predicate InOffsetOrder(held: seq<Fragment>) {
    forall i, j :: 0 <= i < j < |held| ==> held[i].offset < held[j].offset
  }

  lemma {:induction false} InsertKeepsOrder(held: seq<Fragment>, f: Fragment)
    requires InOffsetOrder(held)
    ensures InOffsetOrder(Insert(held, f))
    ensures forall g :: g in Insert(held, f) ==> g in held || g == f
    ensures forall g :: g in held ==> g in Insert(held, f)
    ensures exists g :: g in Insert(held, f) && g.offset == f.offset
  {
    if held == [] || f.offset < held[0].offset {
      assert f in Insert(held, f);
    } else if f.offset == held[0].offset {
      assert held[0] in held;
    } else {
      InsertKeepsOrder(held[1..], f);
      assert held == [held[0]] + held[1..];
      var g :| g in Insert(held[1..], f) && g.offset == f.offset;
      assert g in Insert(held, f);
      forall x | x in Insert(held[1..], f) ensures held[0].offset < x.offset {
        assert x in held[1..] || x == f;
      }
    }
  }

  /** Fragments that start at the same place are the same. */
  ghost predicate NoClash(fragments: set<Fragment>) {
    forall f, g :: f in fragments && g in fragments && f.offset == g.offset ==> f == g
  }

  lemma {:induction false} HeldIsRead(arrived: seq<seq<Byte>>)
    ensures InOffsetOrder(Held(arrived))
    ensures forall f :: f in Held(arrived) ==> f in ReadAll(arrived)
    ensures NoClash(ReadAll(arrived)) ==> forall f :: f in ReadAll(arrived) ==> f in Held(arrived)
  {
    if arrived != [] {
      var n := |arrived| - 1;
      HeldIsRead(arrived[..n]);
      hide ReadFragment;
      ReadAllSnoc(arrived);
      var read := ReadFragment(arrived[n]);
      if read.Some? {
        InsertKeepsOrder(Held(arrived[..n]), read.value);
        if NoClash(ReadAll(arrived)) {
          InsertHolds(Held(arrived[..n]), ReadAll(arrived), read.value);
        }
      }
    }
  }

  lemma ReadAllSnoc(arrived: seq<seq<Byte>>)
    requires arrived != []
    ensures var n := |arrived| - 1;
      ReadAll(arrived) == ReadAll(arrived[..n]) +
        if ReadFragment(arrived[n]).Some? then {ReadFragment(arrived[n]).value} else {}
  {
    hide ReadFragment;
    var n := |arrived| - 1;
    assert arrived == arrived[..n] + [arrived[n]];
    forall f | f in ReadAll(arrived)
      ensures f in ReadAll(arrived[..n]) || ReadFragment(arrived[n]) == Some(f)
    {
      var p :| p in arrived && ReadFragment(p).Some? && ReadFragment(p).value == f;
      assert p in arrived[..n] || p == arrived[n];
    }
    forall f | f in ReadAll(arrived[..n]) ensures f in ReadAll(arrived) {
      var p :| p in arrived[..n] && ReadFragment(p).Some? && ReadFragment(p).value == f;
      assert p in arrived;
    }
  }

  /** The newest fragment is held, or one that cannot be told from it. */
  lemma InsertHolds(held: seq<Fragment>, read: set<Fragment>, f: Fragment)
    requires InOffsetOrder(held) && NoClash(read) && f in read && forall g :: g in held ==> g in read
    ensures f in Insert(held, f)
  {
    InsertKeepsOrder(held, f);
    var g :| g in Insert(held, f) && g.offset == f.offset;
  }

  // ---------------------------------------------------------------- what is glued

  /** Whatever is glued can be assembled. */
  lemma {:induction false} GlueAssembles(held: seq<Fragment>, offset: nat, fragments: set<Fragment>)
    requires Glue(held, offset).Some? && forall f :: f in held ==> f in fragments
    ensures Assembles(fragments, offset, Glue(held, offset).value)
  {
    hide Assembles, Fits;
    var f, m := held[0], Glue(held, offset).value;
    if f.offset < offset {
      GlueAssembles(held[1..], offset, fragments);
    } else {
      if f.more {
        GlueAssembles(held[1..], offset + |f.payload| / 8, fragments);
        assert m[|f.payload|..] == Glue(held[1..], offset + |f.payload| / 8).value;
      }
      AssemblesBy(fragments, offset, m, f);
    }
  }

  lemma TailMembers(held: seq<Fragment>, f: Fragment)
    requires InOffsetOrder(held) && held != []
    ensures f in held[1..] <==> f in held && f != held[0]
    ensures f in held ==> held[0].offset <= f.offset && (held[0].offset == f.offset ==> f == held[0])
  {
    assert held == [held[0]] + held[1..];
  }

  /** Whatever can be assembled from the fragments that are held is glued. */
  lemma {:induction false} GlueFinds(held: seq<Fragment>, offset: nat, fragments: set<Fragment>, m: seq<Byte>)
    requires InOffsetOrder(held) && forall f :: f in fragments && f.offset >= offset ==> f in held
    requires Assembles(fragments, offset, m)
    ensures Glue(held, offset) == Some(m)
  {
    hide Assembles, Fits, InOffsetOrder;
    var f := Piece(fragments, offset, m);
    TailMembers(held, f);
    var next := if held[0].offset < offset || !f.more then offset else offset + |f.payload| / 8;
    forall g | g in fragments && g.offset >= next && g != held[0] ensures g in held[1..] {
      TailMembers(held, g);
    }
    TailInOrder(held);
    if held[0].offset < offset {
      GlueFinds(held[1..], offset, fragments, m);
    } else if f.more {
      GlueFinds(held[1..], next, fragments, m[|f.payload|..]);
      assert m == f.payload + m[|f.payload|..];
    }
  }

  lemma TailInOrder(held: seq<Fragment>)
    requires InOffsetOrder(held) && held != []
    ensures InOffsetOrder(held[1..])
  {
  }

  /** As long as no two fragments start at the same place, the host gets whatever can be assembled. */
  lemma ReassembleFinds(arrived: seq<seq<Byte>>, m: seq<Byte>)
    ensures Reassemble(arrived) == Some(m) ==> Assembles(ReadAll(arrived), 0, m)
    ensures NoClash(ReadAll(arrived)) ==> (Reassemble(arrived) == Some(m) <==> Assembles(ReadAll(arrived), 0, m))
  {
    hide Held, Glue, ReadAll, Assembles, NoClash, InOffsetOrder;
    HeldIsRead(arrived);
    if Reassemble(arrived) == Some(m) {
      GlueAssembles(Held(arrived), 0, ReadAll(arrived));
    }
    if NoClash(ReadAll(arrived)) && Assembles(ReadAll(arrived), 0, m) {
      GlueFinds(Held(arrived), 0, ReadAll(arrived), m);
    }
  }

  // ---------------------------------------------------------------- the fragments of one message

  lemma {:induction false} AssemblesMore(few: set<Fragment>, many: set<Fragment>, offset: nat, m: seq<Byte>)
    requires few <= many && Assembles(few, offset, m)
    ensures Assembles(many, offset, m)
    decreases |m|
  {
    hide Assembles, Fits;
    var f := Piece(few, offset, m);
    if f.more {
      AssemblesMore(few, many, offset + |f.payload| / 8, m[|f.payload|..]);
    }
    AssemblesBy(many, offset, m, f);
  }

  lemma NoClashInWindow(message: seq<Byte>, base: nat, origin: nat)
    requires InWindow(message, base, origin)
    ensures NoClash(SentFragments(message, base))
  {
    hide FragmentAt, Count, InWindow;
    var sent := SentFragments(message, base);
    forall f, g | f in sent && g in sent && f.offset == g.offset ensures f == g {
      var i :| 0 <= i < Count(message) && f == FragmentAt(message, base, i);
      var j :| 0 <= j < Count(message) && g == FragmentAt(message, base, j);
      WindowFragment(message, base, origin, i);
      WindowFragment(message, base, origin, j);
    }
  }

  /** Nothing less will do: an assembly of the message uses every fragment. */
  lemma {:induction false} NeedsAll(message: seq<Byte>, base: nat, origin: nat, fragments: set<Fragment>, i: nat, j: nat)
    requires InWindow(message, base, origin) && i <= j < Count(message) && fragments <= SentFragments(message, base)
    requires Assembles(fragments, origin + OFFSET_STEP * i, Rest(message, i))
    ensures FragmentAt(message, base, j) in fragments
    decreases j - i
  {
    hide Count, Chunk, Rest, FragmentAt, InWindow, Assembles;
    var f := Piece(fragments, origin + OFFSET_STEP * i, Rest(message, i));
    var n :| 0 <= n < Count(message) && f == FragmentAt(message, base, n);
    WindowFragment(message, base, origin, n);
    assert n == i;
    if i < j {
      RestSplits(message, i);
      assert Rest(message, i)[|f.payload|..] == Rest(message, i + 1);
      NeedsAll(message, base, origin, fragments, i + 1, j);
    }
  }

  // ---------------------------------------------------------------- the results

  /**
   * While the packets of a datagram inside the window arrive, in any order and with any repetition, the host
   * has nothing until every packet has arrived, and from then on exactly the message.
   */
  lemma ReassembleWhileArriving(message: seq<Byte>, base: nat, arrived: seq<seq<Byte>>)
    requires message != [] && InWindow(message, base, 0)
    requires forall p :: p in arrived ==> p in Fragments(message, base)
    ensures Reassemble(arrived) ==
      if forall p :: p in Fragments(message, base) ==> p in arrived then Some(message) else None
  {
    hide InWindow, Count, ReadAll, SentFragments, Reassemble, Assembles, Rest, FragmentAt, WirePacket;
    var packets := Fragments(message, base);
    NoClashInWindow(message, base, 0);
    ReadSome(message, base, arrived);
    ReassembleFinds(arrived, message);
    if forall p :: p in packets ==> p in arrived {
      ReassemblyExact(message, base, 0, arrived);
    } else if Reassemble(arrived).Some? {
      var m := Reassemble(arrived).value;
      ReassembleFinds(arrived, m);
      ReadAllIsSent(message, base, packets);
      AssemblesMore(ReadAll(arrived), SentFragments(message, base), 0, m);
      ReassemblyExact(message, base, 0, packets);
      var p :| p in packets && p !in arrived;
      var j :| 0 <= j < |packets| && packets[j] == p;
      WholeMessage(message);
      NeedsAll(message, base, 0, ReadAll(arrived), 0, j);
      var i :| 0 <= i < Count(message) && FragmentAt(message, base, j) == FragmentAt(message, base, i) && packets[i] in arrived;
      DistinctFragments(message, base, i, j);
    }
  }

  lemma WholeMessage(message: seq<Byte>)
    requires message != []
    ensures 0 < Count(message) && Rest(message, 0) == message
  {
  }

  /** Every fragment that has been read is one of the message's, and its packet has arrived. */
  lemma ReadSome(message: seq<Byte>, base: nat, arrived: seq<seq<Byte>>)
    requires forall p :: p in arrived ==> p in Fragments(message, base)
    ensures ReadAll(arrived) <= SentFragments(message, base)
    ensures forall f :: f in ReadAll(arrived) ==>
      exists i :: 0 <= i < Count(message) && f == FragmentAt(message, base, i) && Fragments(message, base)[i] in arrived
  {
    hide ReadFragment, WirePacket, FragmentAt;
    var packets := Fragments(message, base);
    forall f | f in ReadAll(arrived)
      ensures f in SentFragments(message, base)
      ensures exists i :: 0 <= i < Count(message) && f == FragmentAt(message, base, i) && packets[i] in arrived
    {
      var p :| p in arrived && ReadFragment(p).Some? && ReadFragment(p).value == f;
      var i :| 0 <= i < |packets| && packets[i] == p;
      assert p == WirePacket(message, base, i);
      HostReadsPacket(message, base, i);
    }
  }

  lemma DistinctFragments(message: seq<Byte>, base: nat, i: nat, j: nat)
    requires InWindow(message, base, 0) && i < Count(message) && j < Count(message)
    requires FragmentAt(message, base, i) == FragmentAt(message, base, j)
    ensures i == j
  {
    hide FragmentAt, InWindow, Count;
    WindowFragment(message, base, 0, i);
    WindowFragment(message, base, 0, j);
  }

  /**
   * When all packets of a datagram have arrived, in any order and with any repetition, the host has the message
   * if and only if the datagram starts at 0 of a window with the flag bit clear and is no longer than a datagram
   * may be.
   */
  lemma ReassembleExact(message: seq<Byte>, base: nat, arrived: seq<seq<Byte>>)
    requires message != []
    requires forall p :: p in arrived <==> p in Fragments(message, base)
    ensures Reassemble(arrived) == Some(message) <==> InWindow(message, base, 0)
  {
    hide InWindow, Count, ReadAll, SentFragments, Reassemble, Assembles, Fragments;
    ReassembleFinds(arrived, message);
    ReassemblyExact(message, base, 0, arrived);
    if InWindow(message, base, 0) {
      ReadAllIsSent(message, base, arrived);
      NoClashInWindow(message, base, 0);
    }
  }

  /** After n fragments of a run: exactly when n is a multiple of 16384 and the datagram is short enough. */
  lemma ReassembleAfter(message: seq<Byte>, n: nat, arrived: seq<seq<Byte>>)
    requires message != []
    requires forall p :: p in arrived <==> p in Fragments(message, OFFSET_STEP * n)
    ensures Reassemble(arrived) == Some(message) <==>
            n % 0x4000 == 0 && HEADER_LENGTH + |message| <= MAXIMUM_DATAGRAM
  {
    hide InWindow, Count, ReadAll, Reassemble, Assembles, Fragments;
    ReassembleExact(message, OFFSET_STEP * n, arrived);
    ReassemblyExact(message, OFFSET_STEP * n, 0, arrived);
    HostRebuildsDatagram(message, n, arrived);
  }
}
