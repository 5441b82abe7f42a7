/** Sender, receiver, queues, merge, fragmentation and the receiving host put together. */
module Pipeline {
  import opened Packets
  import opened Merge
  import opened Message
  import opened Fragment
  import Wire
  import Alignment
  import AlignmentExact
  import Reachability
  import Concatinator
  import opened Reassembly

  // ---------------------------------------------------------------- from a group to the receiving host

  /** These packets arrive in some order, each at least once, and nothing else does. */
  ghost predicate Arrives(arrived: seq<seq<Byte>>, packets: seq<seq<Byte>>) {
    forall p :: p in arrived <==> p in packets
  }

  /**
   * End to end for one group of delivered packets: after `sent` fragments of the run, a host that
   * receives its packets in any order rebuilds the message exactly when `sent` is a multiple of 16384
   * and the group has at most ten packets; what it rebuilds can only be the message, and decodes to
   * the ids, the frame number and the data of the group.
   */
  lemma HostRecoversGroup(g: Group, sent: nat, arrived: seq<seq<Byte>>)
    requires AllDelivered(g.members) && 0 <= g.frame < 256
    requires Arrives(arrived, Fragments(Encode(g), OFFSET_STEP * sent))
    ensures Assembles(ReadAll(arrived), 0, Encode(g)) <==> sent % 0x4000 == 0 && |g.members| <= 10
    ensures sent % 0x4000 == 0 && |g.members| <= 10 ==>
      forall m :: Assembles(ReadAll(arrived), 0, m) ==> Decode(m) == Some(View(g))
  {
    hide Encode, Decode, Assembles, Fragments, ReadAll, InWindow;
    DecodeEncode(g);
    HostRebuildsDatagram(Encode(g), sent, arrived);
    ReassemblyExact(Encode(g), OFFSET_STEP * sent, 0, arrived);
  }

  /**
   * The same for every message of every run: its packets are a segment of what has been sent, and a host
   * that receives that segment in any order can rebuild the message exactly when the number of packets
   * sent before it is a multiple of 16384 and the datagram is no longer than a header can say.
   */
  lemma HostRecoversMessage(n: nat, events: seq<Concatinator.Event>, j: nat)
    requires Concatinator.Run(n, events) && j < |Messages(Concatinator.After(n, events).rounds)|
    ensures var s := Concatinator.After(n, events);
      var messages := Messages(s.rounds);
      var sent := |Concatinator.WireOf(messages[..j])|;
      && sent + Count(messages[j]) <= |s.wire|
      && forall arrived :: Arrives(arrived, s.wire[sent..sent + Count(messages[j])]) ==>
           (Assembles(ReadAll(arrived), 0, messages[j]) <==> sent % 0x4000 == 0 && HEADER_LENGTH + |messages[j]| <= MAXIMUM_DATAGRAM)
  {
    hide Concatinator.Run, Concatinator.After, Concatinator.WireOf, Messages, Count, Assembles, ReadAll, Fragments;
    Concatinator.RunInvariant(n, events);
    var messages := Messages(Concatinator.After(n, events).rounds);
    Concatinator.DatagramOnWire(messages, j);
    MessagesNotEmpty(Concatinator.After(n, events).rounds);
    var sent := |Concatinator.WireOf(messages[..j])|;
    forall arrived | Arrives(arrived, Fragments(messages[j], OFFSET_STEP * sent))
      ensures Assembles(ReadAll(arrived), 0, messages[j]) <==> sent % 0x4000 == 0 && HEADER_LENGTH + |messages[j]| <= MAXIMUM_DATAGRAM
    {
      HostRebuildsDatagram(messages[j], sent, arrived);
    }
  }

  // ---------------------------------------------------------------- from the senders to the merge

  /** One link: a sender and the receiver that listens for it, with the message numbers that arrive. */
  datatype Link = Link(id: seq<Byte>, payload: seq<Byte>, arrivals: seq<Wire.Arrival>, tags: seq<Option<nat>>)

  predicate Ascending(numbers: seq<nat>) {
    forall i, j :: 0 <= i < j < |numbers| ==> numbers[i] < numbers[j]
  }

  /** Every frame 254 of a finished wrap got through. */
  ghost predicate KeepsWraps(numbers: seq<nat>) {
    forall i, e: nat :: 0 <= i < |numbers| && e < numbers[i] / 255 ==> WrapNumber(e) in numbers
  }

  /** The message that carries frame 254 for the e-th time. */
  function WrapNumber(e: nat): nat {
    255 * e + 254
  }

  /** Messages arrive in order; other arrivals neither pass for the sender's nor make the parser throw. */
  ghost predicate Streaming(link: Link) {
    && |link.id| == ID_LENGTH && |link.payload| == PAYLOAD_LENGTH
    && Wire.Carries(link.id, link.payload, link.arrivals, link.tags)
    && (forall j :: 0 <= j < |link.tags| && link.tags[j].None? ==> Wire.Judge(link.id, link.arrivals[j]) == Wire.Ignore)
    && Ascending(Wire.Numbers(link.tags))
  }

  /** Besides, no wrap is lost. */
  ghost predicate Working(link: Link) {
    Streaming(link) && KeepsWraps(Wire.Numbers(link.tags))
  }

  /** What the receivers of these links push. */
  function Delivery(links: seq<Link>): (h: Histories)
    ensures |h| == |links|
  {
    seq(|links|, q requires 0 <= q < |links| => Wire.Received(links[q].id, links[q].arrivals))
  }

  function StampsOf(links: seq<Link>): (stamps: Alignment.Stamps)
    ensures |stamps| == |links|
  {
    seq(|links|, q requires 0 <= q < |links| =>
      var numbers := Wire.Numbers(links[q].tags);
      seq(|numbers|, i requires 0 <= i < |numbers| => Alignment.StampOf(numbers[i])))
  }

  lemma WrapStamp(e: nat)
    ensures Alignment.StampOf(WrapNumber(e)) == Alignment.Stamp(e, 254)
  {
  }

  /** Receivers of streaming links deliver subsequences of the stream. */
  lemma DeliveryIsStreamed(links: seq<Link>)
    requires forall q :: 0 <= q < |links| ==> Streaming(links[q])
    ensures Alignment.Streamed(Delivery(links), StampsOf(links), 254)
    ensures forall q, i :: 0 <= q < |links| && 0 <= i < |Delivery(links)[q]| ==> Delivered(Delivery(links)[q][i])
  {
    hide Wire.Received, Wire.Numbers, Streaming, Alignment.StampOf;
    var h: Histories := Delivery(links);
    var stamps: Alignment.Stamps := StampsOf(links);
    forall q | 0 <= q < |links|
      ensures |stamps[q]| == |h[q]|
      ensures forall i :: 0 <= i < |h[q]| ==> h[q][i].frame == stamps[q][i].frame <= 254 && Delivered(h[q][i])
      ensures forall i, j :: 0 <= i < j < |h[q]| ==> Alignment.Before(stamps[q][i], stamps[q][j])
    {
      LinkIsStreamed(links[q]);
    }
  }

  /** Receivers of working links besides deliver every last frame. */
  lemma DeliveryKeepsWraps(links: seq<Link>)
    requires forall q :: 0 <= q < |links| ==> Working(links[q])
    ensures Alignment.KeepsLastFrames(StampsOf(links), 254)
  {
    hide Wire.Numbers, Alignment.StampOf, Working;
    var stamps: Alignment.Stamps := StampsOf(links);
    forall q, i, e: nat | 0 <= q < |links| && 0 <= i < |stamps[q]| && e < stamps[q][i].epoch
      ensures Alignment.Stamp(e, 254) in stamps[q]
    {
      var j := LinkKeepsWraps(links[q], i, e);
      assert stamps[q][j] == Alignment.Stamp(e, 254);
    }
  }

  lemma LinkIsStreamed(link: Link)
    requires Streaming(link)
    ensures var h, numbers := Wire.Received(link.id, link.arrivals), Wire.Numbers(link.tags);
      && |h| == |numbers|
      && (forall i :: 0 <= i < |h| ==> h[i].frame == Alignment.StampOf(numbers[i]).frame <= 254 && Delivered(h[i]))
      && (forall i :: 0 <= i < |h| ==> h[i] == Wire.StreamPacket(link.id, link.payload, numbers[i]))
      && (forall i, j :: 0 <= i < j < |h| ==> Alignment.Before(Alignment.StampOf(numbers[i]), Alignment.StampOf(numbers[j])))
  {
    hide Wire.Received, Wire.Numbers, Wire.Carries;
    Wire.ReceiverRecoversStream(link.id, link.payload, link.arrivals, link.tags);
    var numbers := Wire.Numbers(link.tags);
    forall i, j | 0 <= i < j < |numbers| ensures Alignment.Before(Alignment.StampOf(numbers[i]), Alignment.StampOf(numbers[j])) {
      Alignment.StampsInOrder(numbers[i], numbers[j]);
    }
  }

  lemma LinkKeepsWraps(link: Link, i: nat, e: nat) returns (j: nat)
    requires Working(link) && i < |Wire.Numbers(link.tags)| && e < Alignment.StampOf(Wire.Numbers(link.tags)[i]).epoch
    ensures j < |Wire.Numbers(link.tags)| && Alignment.StampOf(Wire.Numbers(link.tags)[j]) == Alignment.Stamp(e, 254)
  {
    hide Wire.Numbers, Wire.Carries;
    var numbers := Wire.Numbers(link.tags);
    assert WrapNumber(e) in numbers;
    j :| 0 <= j < |numbers| && numbers[j] == WrapNumber(e);
    WrapStamp(e);
  }

  /**
   * The pipeline under loss: in every run whose queues were fed by working links, the rounds are
   * aligned across all queues, no message is suppressed, and each message on the wire decodes to the
   * surviving packets of its (epoch, frame).
   */
  lemma PipelineAligned(links: seq<Link>, events: seq<Concatinator.Event>)
    requires forall q :: 0 <= q < |links| ==> Working(links[q])
    requires Concatinator.Run(|links|, events)
    requires Concatinator.After(|links|, events).pushed == Delivery(links)
    ensures var s := Concatinator.After(|links|, events);
      && Alignment.Streamed(Delivery(links), StampsOf(links), 254)
      && (exists keys :: Alignment.AlignedRun(Delivery(links), StampsOf(links), Progress(s.base, s.rounds), keys))
      && s.wire == Concatinator.WireOf(Messages(s.rounds)) && |Messages(s.rounds)| == |s.rounds|
      && forall j :: 0 <= j < |s.rounds| ==> Decode(Messages(s.rounds)[j]) == Some(View(s.rounds[j]))
  {
    hide Concatinator.Run, Concatinator.After, Wire.Received, Wire.Numbers, Streaming, Rounds, Messages, Encode, Decode;
    var s := AllRoundsDelivered(links, events);
    var h, stamps := Delivery(links), StampsOf(links);
    DeliveryIsStreamed(links);
    DeliveryKeepsWraps(links);
    Concatinator.RunInvariant(|links|, events);
    AlignmentExact.AlignedUnderLoss(h, stamps, 254, |s.rounds|);
    Concatinator.NothingSuppressed(s.rounds);
    forall j | 0 <= j < |s.rounds| ensures Decode(Messages(s.rounds)[j]) == Some(View(s.rounds[j])) {
      DecodeEncode(s.rounds[j]);
    }
  }

  /** Every round of such a run consists of delivered packets under a printable frame number. */
  lemma AllRoundsDelivered(links: seq<Link>, events: seq<Concatinator.Event>) returns (s: Concatinator.State)
    requires forall q :: 0 <= q < |links| ==> Streaming(links[q])
    requires Concatinator.Run(|links|, events)
    requires Concatinator.After(|links|, events).pushed == Delivery(links)
    ensures s == Concatinator.After(|links|, events)
    ensures forall j :: 0 <= j < |s.rounds| ==>
      s.rounds[j].members != [] && AllDelivered(s.rounds[j].members) && 0 <= s.rounds[j].frame < 256
  {
    hide Concatinator.Run, Concatinator.After, Wire.Received, Wire.Numbers, Streaming, Rounds, AllDelivered;
    s := Concatinator.After(|links|, events);
    DeliveryIsStreamed(links);
    Concatinator.RunInvariant(|links|, events);
    var h := Delivery(links);
    forall q, i | 0 <= q < |h| && 0 <= i < |h[q]| ensures Delivered(h[q][i]) && h[q][i].frame >= 0 {
      LinkIsStreamed(links[q]);
    }
    forall j | 0 <= j < |s.rounds|
      ensures s.rounds[j].members != [] && AllDelivered(s.rounds[j].members) && 0 <= s.rounds[j].frame < 256
    {
      RoundIsDelivered(h, |s.rounds|, j);
    }
  }

  lemma RoundIsDelivered(h: Histories, k: nat, j: nat)
    requires forall q, i :: 0 <= q < |h| && 0 <= i < |h[q]| ==> Delivered(h[q][i]) && h[q][i].frame >= 0
    requires Rounds(h, k).Some? && j < k
    ensures var g := Rounds(h, k).value.groups[j];
      g.members != [] && AllDelivered(g.members) && 0 <= g.frame < 256
  {
    hide Rounds;
    var g: Group := Rounds(h, k).value.groups[j];
    var t := GroupHasMember(h, k, j);
    forall i | 0 <= i < |g.members| ensures Delivered(g.members[i].packet) {
      MemberIsPushed(h, k, j, g.members[i]);
    }
    MemberIsPushed(h, k, j, t);
  }

  /**
   * Exactly which deliveries keep the pipeline aligned: every run whose queues were fed by streaming links,
   * whatever has been lost, emits strictly increasing (epoch, frame) with exactly the surviving packets of
   * each, if and only if at every cut of the deliveries later epochs have larger frame numbers.
   */
  lemma PipelineAlignedExact(links: seq<Link>)
    requires forall q :: 0 <= q < |links| ==> Streaming(links[q])
    ensures Alignment.SameShape(Delivery(links), StampsOf(links))
    ensures (forall events :: Feeds(links, events) ==> RunIsAligned(links, events))
       <==> AlignmentExact.CutsAligned(Delivery(links), StampsOf(links))
  {
    hide Concatinator.Run, Concatinator.After, Wire.Received, Wire.Numbers, Streaming, Rounds, AlignmentExact.CutsAligned,
      Alignment.AlignedRun;
    var h, stamps := Delivery(links), StampsOf(links);
    DeliveryIsStreamed(links);
    AlignmentExact.MergeAlignedExact(h, stamps, 254);
    if AlignmentExact.CutsAligned(h, stamps) {
      forall events | Feeds(links, events) ensures RunIsAligned(links, events) {
        Concatinator.RunInvariant(|links|, events);
      }
    }
    if forall events :: Feeds(links, events) ==> RunIsAligned(links, events) {
      forall k: nat | Rounds(h, k).Some?
        ensures exists keys :: Alignment.AlignedRun(h, stamps, Rounds(h, k).value, keys)
      {
        var events := Reachability.RoundsAreReachable(h, k);
        assert Feeds(links, events);
      }
    }
  }

  /** In this run the queues were pushed exactly what the links deliver. */
  ghost predicate Feeds(links: seq<Link>, events: seq<Concatinator.Event>) {
    Concatinator.Run(|links|, events) && Concatinator.After(|links|, events).pushed == Delivery(links)
  }

  ghost predicate RunIsAligned(links: seq<Link>, events: seq<Concatinator.Event>)
    requires Feeds(links, events) && Alignment.SameShape(Delivery(links), StampsOf(links))
  {
    var s := Concatinator.After(|links|, events);
    exists keys :: Alignment.AlignedRun(Delivery(links), StampsOf(links), Progress(s.base, s.rounds), keys)
  }

  // ---------------------------------------------------------------- from the senders to the host

  /** The i-th message that arrives over a link has this stamp and is delivered as this packet. */
  predicate Arrived(link: Link, key: Alignment.Stamp, packet: Packet, i: int) {
    && 0 <= i < |Wire.Numbers(link.tags)|
    && Alignment.StampOf(Wire.Numbers(link.tags)[i]) == key
    && packet == Wire.StreamPacket(link.id, link.payload, Wire.Numbers(link.tags)[i])
  }

  /** t is a message that its queue's sender sent with this stamp and that arrived. */
  ghost predicate SentAndArrived(links: seq<Link>, key: Alignment.Stamp, t: Tagged) {
    t.queue < |links| && exists i :: Arrived(links[t.queue], key, t.packet, i)
  }

  lemma CarriedIsSent(links: seq<Link>, key: Alignment.Stamp, t: Tagged)
    requires forall q :: 0 <= q < |links| ==> Working(links[q])
    ensures Alignment.SameShape(Delivery(links), StampsOf(links))
    ensures Alignment.Carried(Delivery(links), StampsOf(links), key, t) <==> SentAndArrived(links, key, t)
  {
    hide Wire.Received, Wire.Numbers, Wire.Carries, Alignment.StampOf, Wire.StreamPacket;
    var h: Histories := Delivery(links);
    var stamps: Alignment.Stamps := StampsOf(links);
    forall q | 0 <= q < |links|
      ensures |stamps[q]| == |h[q]|
      ensures forall i :: 0 <= i < |h[q]| ==>
        h[q][i] == Wire.StreamPacket(links[q].id, links[q].payload, Wire.Numbers(links[q].tags)[i])
    {
      LinkIsStreamed(links[q]);
    }
    if t.queue < |links| {
      var q := t.queue;
      forall i | 0 <= i < |h[q]|
        ensures stamps[q][i] == key && h[q][i] == t.packet <==> Arrived(links[q], key, t.packet, i)
      {
        assert stamps[q][i] == Alignment.StampOf(Wire.Numbers(links[q].tags)[i]);
      }
      if i :| Arrived(links[q], key, t.packet, i) {
        assert 0 <= i < |h[q]|;
      }
    }
  }

  /** What a host reads out of the packets that arrive. */
  function HostView(arrived: seq<seq<Byte>>): Option<Decoded> {
    match Reassemble(arrived)
    case None => None
    case Some(message) => Decode(message)
  }

  /** The host gets the j-th round back, exactly when the datagram starts in place and is short enough. */
  ghost predicate RoundRecovered(s: Concatinator.State, j: nat)
    requires j < |s.rounds| == |Messages(s.rounds)|
  {
    var m, sent := Messages(s.rounds)[j], |Concatinator.WireOf(Messages(s.rounds)[..j])|;
    && sent + Count(m) <= |s.wire|
    && forall arrived :: Arrives(arrived, s.wire[sent..sent + Count(m)]) ==>
         && (Reassemble(arrived) == Some(m) <==> sent % 0x4000 == 0 && |s.rounds[j].members| <= 10)
         && (sent % 0x4000 == 0 && |s.rounds[j].members| <= 10 ==> HostView(arrived) == Some(View(s.rounds[j])))
  }

  /**
   * End to end. In every run whose queues are fed by working links there are strictly increasing stamps, one
   * for each round, such that the members of a round are exactly the messages its stamp was sent with that
   * arrived, one per queue and in queue order; and a host that receives a round's packets in any order gets
   * exactly their ids, frame number and data if and only if the packets sent before are a multiple of 16384
   * and the round has at most ten members.
   */
  lemma SenderToHost(links: seq<Link>, events: seq<Concatinator.Event>) returns (keys: seq<Alignment.Stamp>)
    requires forall q :: 0 <= q < |links| ==> Working(links[q])
    requires Concatinator.Run(|links|, events)
    requires Concatinator.After(|links|, events).pushed == Delivery(links)
    ensures var s := Concatinator.After(|links|, events);
      && |keys| == |s.rounds| == |Messages(s.rounds)|
      && (forall i, j :: 0 <= i < j < |keys| ==> Alignment.Before(keys[i], keys[j]))
      && forall j :: 0 <= j < |keys| ==>
           && s.rounds[j].frame == keys[j].frame && Alignment.QueueOrder(s.rounds[j].members)
           && (forall t :: t in s.rounds[j].members <==> SentAndArrived(links, keys[j], t))
           && RoundRecovered(s, j)
  {
    hide Concatinator.Run, Concatinator.After, Wire.Received, Wire.Numbers, Streaming, Rounds, Messages, Encode, Decode,
      RoundRecovered, SentAndArrived, Alignment.Carried, Alignment.ConsumedUpTo;
    PipelineAligned(links, events);
    var s: Concatinator.State := Concatinator.After(|links|, events);
    var h, stamps := Delivery(links), StampsOf(links);
    keys :| Alignment.AlignedRun(h, stamps, Progress(s.base, s.rounds), keys);
    forall j, t | 0 <= j < |keys| ensures t in s.rounds[j].members <==> SentAndArrived(links, keys[j], t) {
      CarriedIsSent(links, keys[j], t);
    }
    forall j | 0 <= j < |keys| ensures RoundRecovered(s, j) {
      RoundIsRecovered(links, events, j);
    }
  }

  lemma RoundIsRecovered(links: seq<Link>, events: seq<Concatinator.Event>, j: nat)
    requires forall q :: 0 <= q < |links| ==> Working(links[q])
    requires Concatinator.Run(|links|, events)
    requires Concatinator.After(|links|, events).pushed == Delivery(links)
    requires j < |Concatinator.After(|links|, events).rounds|
    ensures |Messages(Concatinator.After(|links|, events).rounds)| == |Concatinator.After(|links|, events).rounds|
    ensures RoundRecovered(Concatinator.After(|links|, events), j)
  {
    hide Concatinator.Run, Concatinator.After, Wire.Received, Wire.Numbers, Streaming, Rounds, Messages, Encode, Decode,
      Concatinator.WireOf, Fragments, Reassemble, Count, Alignment.AlignedRun;
    PipelineAligned(links, events);
    var s: Concatinator.State := Concatinator.After(|links|, events);
    RoundLength(links, events, j);
    Concatinator.DatagramOnWire(Messages(s.rounds), j);
    var m, sent := Messages(s.rounds)[j], |Concatinator.WireOf(Messages(s.rounds)[..j])|;
    MessagesNotEmpty(s.rounds);
    forall arrived | Arrives(arrived, Fragments(m, OFFSET_STEP * sent))
      ensures Reassemble(arrived) == Some(m) <==> sent % 0x4000 == 0 && |s.rounds[j].members| <= 10
    {
      ReassembleAfter(m, sent, arrived);
    }
  }

  lemma RoundLength(links: seq<Link>, events: seq<Concatinator.Event>, j: nat)
    requires forall q :: 0 <= q < |links| ==> Working(links[q])
    requires Concatinator.Run(|links|, events)
    requires Concatinator.After(|links|, events).pushed == Delivery(links)
    requires j < |Concatinator.After(|links|, events).rounds|
    ensures |Messages(Concatinator.After(|links|, events).rounds)| == |Concatinator.After(|links|, events).rounds|
    ensures |Messages(Concatinator.After(|links|, events).rounds)[j]|
         == 9 + MEMBER_LENGTH * |Concatinator.After(|links|, events).rounds[j].members|
  {
    hide Concatinator.Run, Concatinator.After, Wire.Received, Wire.Numbers, Streaming, Rounds, Messages, Encode, Decode;
    var s := AllRoundsDelivered(links, events);
    Concatinator.NothingSuppressed(s.rounds);
    DecodeEncode(s.rounds[j]);
  }

  /**
   * Without loss the n-th round has frame n mod 255 and holds, in queue order, the id and payload of the n-th
   * message of every sender, across all wraps of the frame number.
   */
  lemma PipelineLockstep(links: seq<Link>, events: seq<Concatinator.Event>)
    requires forall q :: 0 <= q < |links| ==> Working(links[q])
    requires forall q, i :: 0 <= q < |links| && 0 <= i < |Wire.Numbers(links[q].tags)| ==>
      Wire.Numbers(links[q].tags)[i] == i
    requires Concatinator.Run(|links|, events)
    requires Concatinator.After(|links|, events).pushed == Delivery(links)
    ensures var s := Concatinator.After(|links|, events);
      forall n :: 0 <= n < |s.rounds| ==>
        && s.rounds[n].frame == n % 255 && |s.rounds[n].members| == |links|
        && forall q :: 0 <= q < |links| ==>
             s.rounds[n].members[q] == Tagged(q, Wire.StreamPacket(links[q].id, links[q].payload, n))
  {
    hide Concatinator.Run, Concatinator.After, Wire.Received, Wire.Carries, Rounds;
    var s: Concatinator.State := Concatinator.After(|links|, events);
    var h: Histories := Delivery(links);
    Concatinator.RunInvariant(|links|, events);
    forall q, i | 0 <= q < |h| && 0 <= i < |h[q]|
      ensures h[q][i].frame == i % 255 && h[q][i] == Wire.StreamPacket(links[q].id, links[q].payload, i)
    {
      LinkIsStreamed(links[q]);
    }
    Alignment.LosslessLockstep(h, |s.rounds|);
  }
}
