/** The concatenated message the concatinator sends for a group, and how it decodes. */
module Message {
  import opened Packets
  import opened Merge
  import Wire

  function Ids(members: seq<Tagged>): seq<Byte> {
    if members == [] then [] else Ids(members[..|members| - 1]) + members[|members| - 1].packet.id
  }

  function Data(members: seq<Tagged>): seq<Byte> {
    if members == [] then [] else Data(members[..|members| - 1]) + members[|members| - 1].packet.data
  }

  /** `"[" + packet_src_ids + "]---> " + frame + data_s`. */
  function Assemble(frame: int, ids: seq<Byte>, data: seq<Byte>): seq<Byte> {
    [Wire.OPEN] + ids + Wire.ARROW + Wire.PrintFrame(frame) + data
  }

  function Encode(g: Group): seq<Byte> {
    Assemble(g.frame, Ids(g.members), Data(g.members))
  }

  /** The text of a message, character by character. */
  lemma EncodeIsPrinted(g: Group)
    requires 0 <= g.frame < 256
    ensures Encode(g) ==
      Wire.Text("[") + Ids(g.members) + Wire.Text("]---> ") + Wire.Text(Wire.HexText(g.frame)) + Data(g.members)
  {
    hide Wire.PrintFrame, Wire.HexText;
    Wire.FrameIsPrinted(g.frame);
    assert Wire.Text("[") == [Wire.OPEN];
    assert Wire.Text("]---> ") == Wire.ARROW;
  }

  /** The guard before sending. */
  predicate Sendable(g: Group) {
    Ids(g.members) != [] && Data(g.members) != []
  }

  /** A message is sent unless all ids or all data are empty. */
  lemma SendableExactly(g: Group)
    ensures Sendable(g) <==> !(forall i :: 0 <= i < |g.members| ==> g.members[i].packet.id == []) &&
                             !(forall i :: 0 <= i < |g.members| ==> g.members[i].packet.data == [])
  {
    IdsEmpty(g.members);
    DataEmpty(g.members);
  }

  lemma {:induction false} IdsEmpty(members: seq<Tagged>)
    ensures Ids(members) == [] <==> forall i :: 0 <= i < |members| ==> members[i].packet.id == []
  {
    if members != [] {
      var n := |members| - 1;
      IdsEmpty(members[..n]);
      assert Ids(members) == [] <==> Ids(members[..n]) == [] && members[n].packet.id == [];
    }
  }

  lemma {:induction false} DataEmpty(members: seq<Tagged>)
    ensures Data(members) == [] <==> forall i :: 0 <= i < |members| ==> members[i].packet.data == []
  {
    if members != [] {
      var n := |members| - 1;
      DataEmpty(members[..n]);
      assert Data(members) == [] <==> Data(members[..n]) == [] && members[n].packet.data == [];
    }
  }

  /** The messages sent for a sequence of rounds. */
  function Messages(groups: seq<Group>): seq<seq<Byte>> {
    if groups == [] then []
    else
      var n := |groups| - 1;
      Messages(groups[..n]) + if Sendable(groups[n]) then [Encode(groups[n])] else []
  }

  lemma MessagesSnoc(groups: seq<Group>, g: Group)
    ensures Messages(groups + [g]) == Messages(groups) + if Sendable(g) then [Encode(g)] else []
  {
    assert (groups + [g])[..|groups|] == groups;
  }

  lemma {:induction false} MessagesConcat(a: seq<Group>, b: seq<Group>)
    ensures Messages(a + b) == Messages(a) + Messages(b)
  {
    hide Sendable, Encode;
    if b == [] {
      assert a + b == a;
    } else {
      var front, g := b[..|b| - 1], b[|b| - 1];
      MessagesConcat(a, front);
      MessagesSnoc(a + front, g);
      assert a + b == a + front + [g];
    }
  }

  lemma {:induction false} MessagesNotEmpty(groups: seq<Group>)
    ensures forall j :: 0 <= j < |Messages(groups)| ==> Messages(groups)[j] != []
  {
    hide Sendable;
    if groups != [] {
      MessagesNotEmpty(groups[..|groups| - 1]);
    }
  }

  lemma IdsSnoc(members: seq<Tagged>, t: Tagged)
    ensures Ids(members + [t]) == Ids(members) + t.packet.id
    ensures Data(members + [t]) == Data(members) + t.packet.data
  {
    assert (members + [t])[..|members|] == members;
  }

  // ---------------------------------------------------------------- decoding

  /** A group as a reader of the message sees it: which queue a packet came from is not on the wire. */
  datatype Decoded = Decoded(frame: int, ids: seq<seq<Byte>>, data: seq<seq<Byte>>)

  function View(g: Group): Decoded {
    Decoded(g.frame, seq(|g.members|, i requires 0 <= i < |g.members| => g.members[i].packet.id),
                     seq(|g.members|, i requires 0 <= i < |g.members| => g.members[i].packet.data))
  }

  const MEMBER_LENGTH := 6153

  /** The i-th of n equal slices that start at `from`. */
  function Slice(message: seq<Byte>, from: nat, length: nat, i: nat): seq<Byte> {
    if from + i * length + length <= |message| then message[from + i * length..from + i * length + length] else []
  }

  /** Recovers the number of packets from the length, then ids, frame number and data. */
  function Decode(message: seq<Byte>): Option<Decoded> {
    if |message| < 9 || (|message| - 9) % MEMBER_LENGTH != 0 then None
    else
      var n := (|message| - 9) / MEMBER_LENGTH;
      if 9 + 10 * n > |message| then None
      else
        match Wire.ReadFrame(message[7 + 10 * n], message[8 + 10 * n])
        case None => None
        case Some(frame) =>
          Some(Decoded(frame, seq(n, i requires 0 <= i => Slice(message, 1, ID_LENGTH, i)),
                              seq(n, i requires 0 <= i => Slice(message, 9 + 10 * n, DATA_LENGTH, i))))
  }

  predicate AllDelivered(members: seq<Tagged>) {
    forall i :: 0 <= i < |members| ==> Delivered(members[i].packet)
  }

  lemma SliceAppend(front: seq<Byte>, piece: seq<Byte>, length: nat, n: nat, i: nat)
    requires |front| == length * n && |piece| == length && i <= n
    ensures Slice(front + piece, 0, length, i) == if i == n then piece else Slice(front, 0, length, i)
  {
    if i < n {
      PieceFits(i, n, length);
      SliceOf([], front, piece, front + piece, length, i);
    } else {
      SliceOf(front, piece, [], front + piece, length, 0);
    }
  }

  lemma PieceFits(i: nat, n: nat, length: nat)
    requires i < n
    ensures i * length + length <= length * n
  {
    var k := n - i - 1;
    calc {
      length * n;
    ==  { assert n == i + 1 + k; }
      length * (i + 1 + k);
    ==
      i * length + length + k * length;
    >=
      i * length + length;
    }
  }

  lemma {:induction false} IdsLayout(members: seq<Tagged>)
    requires AllDelivered(members)
    ensures |Ids(members)| == ID_LENGTH * |members|
    ensures forall i :: 0 <= i < |members| ==> Slice(Ids(members), 0, ID_LENGTH, i) == members[i].packet.id
  {
    if members != [] {
      var n := |members| - 1;
      IdsLayout(members[..n]);
      hide Ids, Slice;
      IdsSplit(members);
      forall i | 0 <= i < |members| ensures Slice(Ids(members), 0, ID_LENGTH, i) == members[i].packet.id {
        SliceAppend(Ids(members[..n]), members[n].packet.id, ID_LENGTH, n, i);
        assert i < n ==> members[..n][i] == members[i];
      }
    }
  }

  lemma IdsSplit(members: seq<Tagged>)
    requires members != []
    ensures Ids(members) == Ids(members[..|members| - 1]) + members[|members| - 1].packet.id
  {
  }

  lemma {:induction false} DataLayout(members: seq<Tagged>)
    requires AllDelivered(members)
    ensures |Data(members)| == DATA_LENGTH * |members|
    ensures forall i :: 0 <= i < |members| ==> Slice(Data(members), 0, DATA_LENGTH, i) == members[i].packet.data
  {
    if members != [] {
      var n := |members| - 1;
      DataLayout(members[..n]);
      hide Data, Slice;
      DataSplit(members);
      forall i | 0 <= i < |members| ensures Slice(Data(members), 0, DATA_LENGTH, i) == members[i].packet.data {
        SliceAppend(Data(members[..n]), members[n].packet.data, DATA_LENGTH, n, i);
        assert i < n ==> members[..n][i] == members[i];
      }
    }
  }

  lemma DataSplit(members: seq<Tagged>)
    requires members != []
    ensures Data(members) == Data(members[..|members| - 1]) + members[|members| - 1].packet.data
  {
  }

  /** Decoding the message of a group of delivered packets returns the group. */
  lemma DecodeEncode(g: Group)
    requires AllDelivered(g.members) && 0 <= g.frame < 256
    ensures |Encode(g)| == 9 + MEMBER_LENGTH * |g.members|
    ensures Decode(Encode(g)) == Some(View(g))
  {
    hide Encode, Slice, Wire.ReadFrame;
    EncodeLayout(g);
    MemberCount(|g.members|);
    var d := Decode(Encode(g));
    assert d.Some? && d.value.frame == g.frame;
    assert d.value.ids == View(g).ids && d.value.data == View(g).data;
  }

  lemma EncodeLayout(g: Group)
    requires AllDelivered(g.members) && 0 <= g.frame < 256
    ensures |Encode(g)| == 9 + MEMBER_LENGTH * |g.members|
    ensures Wire.ReadFrame(Encode(g)[7 + 10 * |g.members|], Encode(g)[8 + 10 * |g.members|]) == Some(g.frame)
    ensures forall i :: 0 <= i < |g.members| ==> Slice(Encode(g), 1, ID_LENGTH, i) == g.members[i].packet.id
    ensures forall i :: 0 <= i < |g.members| ==>
      Slice(Encode(g), 9 + 10 * |g.members|, DATA_LENGTH, i) == g.members[i].packet.data
  {
    hide Wire.ReadFrame, Wire.PrintFrame, Ids, Data, Slice;
    var n, message := |g.members|, Encode(g);
    IdsLayout(g.members);
    DataLayout(g.members);
    Wire.PrintReadFrame(g.frame);
    var head, digits := [Wire.OPEN] + Ids(g.members) + Wire.ARROW, Wire.PrintFrame(g.frame);
    assert |head| == 7 + 10 * n && message == head + digits + Data(g.members);
    assert message[7 + 10 * n] == digits[0] && message[8 + 10 * n] == digits[1];
    forall i | 0 <= i < n
      ensures Slice(message, 1, ID_LENGTH, i) == g.members[i].packet.id
      ensures Slice(message, 9 + 10 * n, DATA_LENGTH, i) == g.members[i].packet.data
    {
      var open, tail := [Wire.OPEN], Wire.ARROW + digits + Data(g.members);
      assert message == open + Ids(g.members) + tail;
      SliceOf(open, Ids(g.members), tail, message, ID_LENGTH, i);
      assert message == (head + digits) + Data(g.members) + [];
      SliceOf(head + digits, Data(g.members), [], message, DATA_LENGTH, i);
    }
  }

  lemma MemberCount(n: nat)
    ensures (MEMBER_LENGTH * n) / MEMBER_LENGTH == n && (MEMBER_LENGTH * n) % MEMBER_LENGTH == 0
  {
  }

  lemma SliceOf(front: seq<Byte>, middle: seq<Byte>, back: seq<Byte>, message: seq<Byte>, length: nat, i: nat)
    requires message == front + middle + back && i * length + length <= |middle|
    ensures Slice(message, |front|, length, i) == Slice(middle, 0, length, i)
    ensures i == 0 && |middle| == length ==> Slice(middle, 0, length, i) == middle
  {
    SubOf(front, middle, back, i * length, i * length + length);
  }

  lemma SubOf(front: seq<Byte>, middle: seq<Byte>, back: seq<Byte>, lo: nat, hi: nat)
    requires lo <= hi <= |middle|
    ensures (front + middle + back)[|front| + lo..|front| + hi] == middle[lo..hi]
  {
  }

  /** The concatenated message determines the group that was sent. */
  lemma EncodeInjective(a: Group, b: Group)
    requires AllDelivered(a.members) && 0 <= a.frame < 256
    requires AllDelivered(b.members) && 0 <= b.frame < 256
    requires Encode(a) == Encode(b)
    ensures View(a) == View(b)
  {
    DecodeEncode(a);
    DecodeEncode(b);
  }
}
