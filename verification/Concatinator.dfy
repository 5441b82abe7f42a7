/**
 * The concatinator thread, interleaved with receivers that push at any moment. A round scans the front
 * of every queue for the least frame number, then goes over the queues again and pops every front that
 * carries it; each access to a queue is one step of its own.
 */
module Concatinator {
  import opened Packets
  import opened Order
  import opened Merge
  import opened Message
  import opened Fragment

  /** Where the thread is in its loop body. `members` lists what was appended to ids and data so far. */
  datatype Phase =
    | Scan(i: nat, least: int)
    | Collect(i: nat, least: int, members: seq<Tagged>)
    | PopFront(i: nat, least: int, members: seq<Tagged>)

  /**
   * The queues, the sent packets and the running fragment offset, with the history: everything pushed,
   * the positions at the start of the round, and the groups of the finished rounds.
   */
  datatype State = State(
    queues: Histories, phase: Phase, wire: seq<seq<Byte>>, offset: nat,
    pushed: Histories, base: Positions, rounds: seq<Group>)

  datatype Event = Push(q: nat, packet: Packet) | ScanFront | CollectFront | Pop | EndScan | Send

  function Initial(n: nat): State {
    State(seq(n, _ => []), Scan(0, 256), [], 0, seq(n, _ => []), Zeros(n), [])
  }

  // ---------------------------------------------------------------- steps

  /** `front` and `pop_front` block on an empty queue; pushes are always possible. */
  predicate Enabled(s: State, e: Event) {
    match e
    case Push(q, _) => q < |s.queues| && |s.pushed| == |s.queues|
    case ScanFront => s.phase.Scan? && s.phase.i < |s.queues| && s.queues[s.phase.i] != []
    case EndScan => s.phase.Scan? && s.phase.i == |s.queues|
    case CollectFront => s.phase.Collect? && s.phase.i < |s.queues| && s.queues[s.phase.i] != []
    case Pop => s.phase.PopFront? && s.phase.i < |s.queues| && s.queues[s.phase.i] != []
    case Send => s.phase.Collect? && s.phase.i == |s.queues|
  }

  function Apply(s: State, e: Event): State
    requires Enabled(s, e)
  {
    match e
    case Push(q, p) => s.(queues := s.queues[q := s.queues[q] + [p]], pushed := s.pushed[q := s.pushed[q] + [p]])
    case ScanFront =>
      var frame := s.queues[s.phase.i][0].frame;
      s.(phase := Scan(s.phase.i + 1, if frame < s.phase.least then frame else s.phase.least))
    case EndScan => s.(phase := Collect(0, s.phase.least, []))
    case CollectFront =>
      var Collect(i, least, members) := s.phase;
      var p := s.queues[i][0];
      if p.frame == least then s.(phase := PopFront(i, least, members + [Tagged(i, p)]))
      else s.(phase := Collect(i + 1, least, members))
    case Pop =>
      var PopFront(i, least, members) := s.phase;
      s.(queues := s.queues[i := s.queues[i][1..]], phase := Collect(i + 1, least, members))
    case Send =>
      var g := Group(s.phase.least, s.phase.members);
      var s1 := if Sendable(g) then
                  s.(wire := s.wire + Fragments(Encode(g), s.offset),
                     offset := s.offset + OFFSET_STEP * Count(Encode(g)))
                else s;
      s1.(phase := Scan(0, 256), base := Consumed(s),
          rounds := if g.members == [] then s.rounds else s.rounds + [g])
  }

  /** How much of each queue's history has been popped. */
  function Consumed(s: State): Positions {
    seq(|s.queues|, q requires 0 <= q < |s.queues| =>
      if q < |s.pushed| && |s.queues[q]| <= |s.pushed[q]| then |s.pushed[q]| - |s.queues[q]| else 0)
  }

  // ---------------------------------------------------------------- what has been sent

  function OffsetAfter(messages: seq<seq<Byte>>): nat {
    if messages == [] then 0
    else OffsetAfter(messages[..|messages| - 1]) + OFFSET_STEP * Count(messages[|messages| - 1])
  }

  /** All packets of these messages: each datagram starts at the offset where the previous one stopped. */
  function WireOf(messages: seq<seq<Byte>>): seq<seq<Byte>> {
    if messages == [] then []
    else
      var n := |messages| - 1;
      WireOf(messages[..n]) + Fragments(messages[n], OffsetAfter(messages[..n]))
  }

  lemma WireSnoc(messages: seq<seq<Byte>>, m: seq<Byte>)
    ensures WireOf(messages + [m]) == WireOf(messages) + Fragments(m, OffsetAfter(messages))
    ensures OffsetAfter(messages + [m]) == OffsetAfter(messages) + OFFSET_STEP * Count(m)
  {
    assert (messages + [m])[..|messages|] == messages;
  }

  /** The offset counts the packets sent so far, 1125 for each; it never goes back to zero. */
  lemma {:induction false} OffsetCountsPackets(messages: seq<seq<Byte>>)
    ensures OffsetAfter(messages) == OFFSET_STEP * |WireOf(messages)|
  {
    hide Count, WirePacket;
    if messages != [] {
      OffsetCountsPackets(messages[..|messages| - 1]);
    }
  }

  /** The j-th datagram follows the earlier ones on the wire, and its base offset is their number. */
  lemma {:induction false} DatagramOnWire(messages: seq<seq<Byte>>, j: nat)
    requires j < |messages|
    ensures var sent, wire := |WireOf(messages[..j])|, WireOf(messages);
      && sent + Count(messages[j]) <= |wire|
      && wire[sent..sent + Count(messages[j])] == Fragments(messages[j], OFFSET_STEP * sent)
  {
    hide Count, WirePacket, OffsetAfter;
    var n := |messages| - 1;
    assert messages[..n] + [messages[n]] == messages;
    WireSnoc(messages[..n], messages[n]);
    OffsetCountsPackets(messages[..n]);
    if j < n {
      DatagramOnWire(messages[..n], j);
      assert messages[..n][..j] == messages[..j];
    }
  }

  // ---------------------------------------------------------------- the invariant

  /** Queue contents are what remains of the histories after these positions. */
  ghost predicate Holds(s: State, at: Positions) {
    && |s.queues| == |s.pushed| == |at|
    && forall q :: 0 <= q < |at| ==> at[q] <= |s.pushed[q]| && s.queues[q] == s.pushed[q][at[q]..]
  }

  /** The scan has seen the first n fronts. */
  ghost predicate Seen(s: State, n: nat) {
    n <= |s.base| == |s.pushed| && forall q :: 0 <= q < n ==> s.base[q] < |s.pushed[q]|
  }

  /** The first n fronts; defined while the scan may still wait for the rest. */
  function SeenFronts(s: State, n: nat): seq<Packet>
    requires Seen(s, n)
  {
    seq(n, q requires 0 <= q < n => s.pushed[q][s.base[q]])
  }

  ghost predicate InPhase(s: State) {
    match s.phase
    case Scan(i, least) =>
      Holds(s, s.base) && Seen(s, i) && least == LeastFrame(SeenFronts(s, i), i)
    case Collect(i, least, members) =>
      && Seen(s, |s.base|) && i <= |s.base| && least == LeastFrame(SeenFronts(s, |s.base|), |s.base|)
      && members == Matching(SeenFronts(s, |s.base|), least, i)
      && Holds(s, Popped(SeenFronts(s, |s.base|), s.base, least, i))
    case PopFront(i, least, members) =>
      && Seen(s, |s.base|) && i < |s.base| && least == LeastFrame(SeenFronts(s, |s.base|), |s.base|)
      && members == Matching(SeenFronts(s, |s.base|), least, i + 1)
      && SeenFronts(s, |s.base|)[i].frame == least
      && Holds(s, Popped(SeenFronts(s, |s.base|), s.base, least, i))
  }

  ghost predicate Invariant(s: State) {
    && |s.queues| == |s.pushed| == |s.base|
    && Rounds(s.pushed, |s.rounds|) == Some(Progress(s.base, s.rounds))
    && InPhase(s)
    && s.wire == WireOf(Messages(s.rounds)) && s.offset == OffsetAfter(Messages(s.rounds))
  }

  lemma InitialInvariant(n: nat)
    ensures Invariant(Initial(n))
  {
    RoundsStart(Initial(n).pushed);
  }

  /** A push changes no front and no position, so it preserves the invariant in every phase. */
  lemma PushInvariant(s: State, e: Event)
    requires Invariant(s) && Enabled(s, e) && e.Push?
    ensures Invariant(Apply(s, e))
  {
    hide Rounds, LeastFrame, Matching, WireOf, Messages, OffsetAfter;
    var t := Apply(s, e);
    RoundsKeep(s.pushed, t.pushed, |s.rounds|);
    PushKeepsFronts(s, e);
  }

  lemma PushKeepsFronts(s: State, e: Event)
    requires |s.queues| == |s.pushed| == |s.base| && Enabled(s, e) && e.Push?
    ensures forall at :: Holds(s, at) ==> Holds(Apply(s, e), at)
    ensures forall n: nat :: Seen(s, n) ==> Seen(Apply(s, e), n) && SeenFronts(Apply(s, e), n) == SeenFronts(s, n)
  {
  }

  lemma ScanInvariant(s: State)
    requires Invariant(s) && s.phase.Scan? && Enabled(s, ScanFront)
    ensures Invariant(Apply(s, ScanFront))
  {
    hide Rounds, WireOf, Messages, OffsetAfter, LeastFrame;
    var i := s.phase.i;
    var t := Apply(s, ScanFront);
    LeastFramePrefix(SeenFronts(s, i), SeenFronts(t, i + 1), i);
    LeastFrameNext(SeenFronts(t, i + 1), i);
  }

  lemma {:induction false} LeastFramePrefix(a: seq<Packet>, b: seq<Packet>, n: nat)
    requires n <= |a| <= |b| && a == b[..|a|]
    ensures LeastFrame(a, n) == LeastFrame(b, n)
  {
    if n > 0 {
      LeastFramePrefix(a, b, n - 1);
    }
  }

  lemma LeastFrameNext(fronts: seq<Packet>, n: nat)
    requires n < |fronts|
    ensures var m := LeastFrame(fronts, n);
      LeastFrame(fronts, n + 1) == if fronts[n].frame < m then fronts[n].frame else m
  {
  }

  lemma EndScanInvariant(s: State)
    requires Invariant(s) && Enabled(s, EndScan)
    ensures Invariant(Apply(s, EndScan))
  {
    hide Rounds, LeastFrame, WireOf, Messages, OffsetAfter;
    var fronts := SeenFronts(s, |s.base|);
    assert Popped(fronts, s.base, s.phase.least, 0) == s.base;
  }

  lemma CollectInvariant(s: State)
    requires Invariant(s) && Enabled(s, CollectFront)
    ensures Invariant(Apply(s, CollectFront))
  {
    hide Rounds, LeastFrame, Matching, WireOf, Messages, OffsetAfter;
    var Collect(i, least, _) := s.phase;
    var fronts := SeenFronts(s, |s.base|);
    assert s.queues[i][0] == fronts[i];
    MatchingNext(fronts, least, i);
    if fronts[i].frame != least {
      assert Popped(fronts, s.base, least, i + 1) == Popped(fronts, s.base, least, i);
    }
  }

  lemma MatchingNext(fronts: seq<Packet>, frame: int, n: nat)
    requires n < |fronts|
    ensures Matching(fronts, frame, n + 1) ==
            Matching(fronts, frame, n) + if fronts[n].frame == frame then [Tagged(n, fronts[n])] else []
  {
  }

  /** The packet that is popped is the one that was appended. */
  lemma PopInvariant(s: State)
    requires Invariant(s) && Enabled(s, Pop)
    ensures Invariant(Apply(s, Pop))
  {
    hide Rounds, LeastFrame, Matching, WireOf, Messages, OffsetAfter;
    var PopFront(i, least, _) := s.phase;
    var fronts := SeenFronts(s, |s.base|);
    var at, next := Popped(fronts, s.base, least, i), Popped(fronts, s.base, least, i + 1);
    assert next == at[i := at[i] + 1];
  }

  lemma SendInvariant(s: State)
    requires Invariant(s) && Enabled(s, Send)
    ensures Invariant(Apply(s, Send))
  {
    hide Rounds, LeastFrame, Matching, WireOf, Messages, OffsetAfter, Sendable, Encode, Fragments;
    var Collect(_, least, members) := s.phase;
    var g, t := Group(least, members), Apply(s, Send);
    RoundEnds(s);
    SentMessages(s, g);
    NoFronts(SeenFronts(t, 0));
    if s.base == [] {
      assert t.base == s.base;
    } else {
      RoundExtends(s.pushed, |s.rounds|);
    }
  }

  /** The group about to be sent is the round's group over the fronts at the start of the round. */
  lemma RoundEnds(s: State)
    requires Invariant(s) && Enabled(s, Send)
    ensures Holds(s, Consumed(s))
    ensures s.base == [] ==> s.phase.members == []
    ensures s.base != [] ==> s.phase.members != [] && Ready(s.pushed, s.base)
    ensures s.base != [] ==> Consumed(s) == NextPositions(s.pushed, s.base)
    ensures s.base != [] ==> Group(s.phase.least, s.phase.members) == RoundGroup(Fronts(s.pushed, s.base))
  {
    hide Rounds, LeastFrame, Matching, WireOf, Messages, OffsetAfter;
    var fronts, least := SeenFronts(s, |s.base|), s.phase.least;
    assert Consumed(s) == Popped(fronts, s.base, least, |s.base|);
    if s.base == [] {
      NoMatching(fronts, least);
    } else {
      assert Fronts(s.pushed, s.base) == fronts;
      var t := RoundHasMember(fronts);
    }
  }

  lemma EndedRoundHasPackets(s: State)
    requires Invariant(s) && s.phase.Collect? && s.phase.i == |s.queues| && s.base != []
    ensures s.phase.members != []
  {
    hide Invariant, Consumed, Ready, NextPositions, RoundGroup, Fronts, Holds;
    RoundEnds(s);
  }

  lemma NoFronts(fronts: seq<Packet>)
    ensures LeastFrame(fronts, 0) == 256
  {
  }

  lemma NoMatching(fronts: seq<Packet>, frame: int)
    ensures Matching(fronts, frame, 0) == []
  {
  }

  lemma SentMessages(s: State, g: Group)
    requires s.wire == WireOf(Messages(s.rounds)) && s.offset == OffsetAfter(Messages(s.rounds))
    ensures Messages([]) == [] && (g.members == [] ==> !Sendable(g))
    ensures var sent := Messages(s.rounds + [g]);
      if Sendable(g) then
        WireOf(sent) == s.wire + Fragments(Encode(g), s.offset) &&
        OffsetAfter(sent) == s.offset + OFFSET_STEP * Count(Encode(g))
      else WireOf(sent) == s.wire && OffsetAfter(sent) == s.offset
  {
    hide WireOf, OffsetAfter, Encode, Fragments, Count;
    MessagesSnoc(s.rounds, g);
    if Sendable(g) {
      WireSnoc(Messages(s.rounds), Encode(g));
    }
    assert Messages(s.rounds) + [] == Messages(s.rounds);
    assert g.members == [] ==> Ids(g.members) == [];
  }

  lemma InvariantStep(s: State, e: Event)
    requires Invariant(s) && Enabled(s, e)
    ensures Invariant(Apply(s, e))
  {
    hide Invariant, Apply;
    match e
    case Push(_, _) => PushInvariant(s, e);
    case ScanFront => ScanInvariant(s);
    case EndScan => EndScanInvariant(s);
    case CollectFront => CollectInvariant(s);
    case Pop => PopInvariant(s);
    case Send => SendInvariant(s);
  }

  // ---------------------------------------------------------------- runs

  /** The state after a sequence of steps of n queues, if each is enabled when its turn comes. */
  function Replay(n: nat, events: seq<Event>): Option<State> {
    if events == [] then Some(Initial(n))
    else
      var k := |events| - 1;
      match Replay(n, events[..k])
      case None => None
      case Some(s) => if Enabled(s, events[k]) then Some(Apply(s, events[k])) else None
  }

  predicate Run(n: nat, events: seq<Event>) {
    Replay(n, events).Some?
  }

  function After(n: nat, events: seq<Event>): State
    requires Run(n, events)
  {
    Replay(n, events).value
  }

  lemma RunSnoc(n: nat, events: seq<Event>, e: Event)
    requires Run(n, events) && Enabled(After(n, events), e)
    ensures Run(n, events + [e]) && After(n, events + [e]) == Apply(After(n, events), e)
  {
    assert (events + [e])[..|events|] == events;
  }

  lemma RunLast(n: nat, events: seq<Event>)
    requires Run(n, events) && events != []
    ensures var k := |events| - 1;
      && Run(n, events[..k]) && Enabled(After(n, events[..k]), events[k])
      && After(n, events) == Apply(After(n, events[..k]), events[k])
  {
  }

  lemma RunNothing(n: nat)
    ensures Run(n, []) && After(n, []) == Initial(n)
  {
  }

  lemma {:induction false} RunInvariant(n: nat, events: seq<Event>)
    requires Run(n, events)
    ensures Invariant(After(n, events)) && |After(n, events).pushed| == n
  {
    hide Replay, Run, After, Enabled, Apply, Invariant;
    if events == [] {
      RunNothing(n);
      InitialInvariant(n);
    } else {
      var k := |events| - 1;
      RunLast(n, events);
      RunInvariant(n, events[..k]);
      InvariantStep(After(n, events[..k]), events[k]);
      SameQueueCount(After(n, events[..k]), events[k]);
    }
  }

  lemma SameQueueCount(s: State, e: Event)
    requires Enabled(s, e)
    ensures |Apply(s, e).pushed| == |s.pushed|
  {
  }

  // ---------------------------------------------------------------- the results for runs

  /**
   * Interleaving independence: in every reachable state, however pushes interleave with the two passes,
   * the finished rounds are a prefix of the merge of everything pushed, and the packets on the wire are
   * exactly the fragments of their messages.
   */
  lemma OutputIsPrefixOfMerge(n: nat, events: seq<Event>)
    requires Run(n, events)
    ensures var s := After(n, events);
      && s.rounds <= Merged(s.pushed) && s.wire == WireOf(Messages(s.rounds))
      && Messages(s.rounds) <= Messages(Merged(s.pushed))
  {
    hide Replay, Run, After, Rounds, Merged, Messages, WireOf, InPhase;
    RunInvariant(n, events);
    var s := After(n, events);
    RoundsMerge(s.pushed, |s.rounds|);
    MessagesConcat(s.rounds, Merged(Remaining(s.pushed, s.base)));
  }

  /** Two runs in which the queues received the same packets agree as far as both have got. */
  lemma SameHistoriesAgree(n: nat, a: seq<Event>, b: seq<Event>)
    requires Run(n, a) && Run(n, b) && After(n, a).pushed == After(n, b).pushed
    requires |After(n, a).rounds| <= |After(n, b).rounds|
    ensures After(n, a).rounds <= After(n, b).rounds && After(n, a).wire <= After(n, b).wire
  {
    hide Replay, Run, After, Merged, Messages, WireOf;
    OutputIsPrefixOfMerge(n, a);
    OutputIsPrefixOfMerge(n, b);
    var x, y := After(n, a).rounds, After(n, b).rounds;
    assert y == x + y[|x|..];
    MessagesConcat(x, y[|x|..]);
    WirePrefix(Messages(x), Messages(y[|x|..]));
  }

  lemma {:induction false} WirePrefix(a: seq<seq<Byte>>, b: seq<seq<Byte>>)
    ensures WireOf(a) <= WireOf(a + b)
  {
    hide WireOf;
    if b == [] {
      assert a + b == a;
    } else {
      var front := b[..|b| - 1];
      WirePrefix(a, front);
      WireSnoc(a + front, b[|b| - 1]);
      assert a + b == a + front + [b[|b| - 1]];
    }
  }

  /** The thread waits on an empty queue. */
  predicate Blocked(s: State) {
    && s.phase.i < |s.queues| && s.queues[s.phase.i] == []
  }

  /**
   * The thread only ever blocks in the scan, never between finding the minimum and popping it, and when
   * it blocks it has output the whole merge of what has been pushed: nothing complete is held back.
   */
  lemma BlockedIsComplete(n: nat, events: seq<Event>)
    requires Run(n, events) && Blocked(After(n, events))
    ensures After(n, events).phase.Scan?
    ensures After(n, events).rounds == Merged(After(n, events).pushed)
  {
    hide Replay, Run, After, Rounds, Merged, Messages, WireOf, LeastFrame, Matching;
    RunInvariant(n, events);
    var s := After(n, events);
    StuckIsComplete(s.pushed, |s.rounds|);
  }

  /** What the thread has appended to the current message. */
  function Partial(s: State): seq<Tagged> {
    if s.phase.Scan? then [] else s.phase.members
  }

  /** Of a queue whose front has been appended but not yet popped, the rest. */
  function Uncollected(s: State, q: nat): seq<Packet>
    requires q < |s.queues|
  {
    if s.phase.PopFront? && s.phase.i == q && s.queues[q] != [] then s.queues[q][1..] else s.queues[q]
  }

  /**
   * Conservation: what was pushed into a queue is what the finished rounds and the current message hold
   * of it, followed by what is left in the queue. Nothing is lost, duplicated or reordered.
   */
  lemma Conservation(n: nat, events: seq<Event>, q: nat)
    requires Run(n, events) && q < n
    ensures |After(n, events).queues| == |After(n, events).pushed| == n
    ensures var s := After(n, events);
      s.pushed[q] == OfQueueAll(s.rounds, q) + OfQueue(Partial(s), q) + Uncollected(s, q)
  {
    hide Replay, Run, After, Rounds, InPhase, OfQueue, OfQueueAll, Partial, Uncollected;
    RunInvariant(n, events);
    var s := After(n, events);
    RoundsConserve(s.pushed, |s.rounds|, q);
    PartialConserves(s, q);
    Splits(s.pushed[q], s.base[q], OfQueue(Partial(s), q), Uncollected(s, q));
  }

  lemma Splits(all: seq<Packet>, n: nat, a: seq<Packet>, b: seq<Packet>)
    requires n <= |all| && all[n..] == a + b
    ensures all == all[..n] + a + b
  {
    assert all == all[..n] + all[n..];
  }

  lemma PartialConserves(s: State, q: nat)
    requires Invariant(s) && q < |s.queues|
    ensures s.base[q] <= |s.pushed[q]|
    ensures s.pushed[q][s.base[q]..] == OfQueue(Partial(s), q) + Uncollected(s, q)
  {
    hide Rounds, Messages, WireOf, LeastFrame, Matching, OfQueue;
    var here, all := s.base[q], s.pushed[q];
    if here < |all| {
      assert all[here..] == [all[here]] + all[here + 1..];
      assert all[here..][1..] == all[here + 1..];
    }
    match s.phase
    case Scan(_, _) => NothingOfQueue(q);
    case Collect(i, least, _) => MatchingOfQueue(SeenFronts(s, |s.base|), least, i, q);
    case PopFront(i, least, _) => MatchingOfQueue(SeenFronts(s, |s.base|), least, i + 1, q);
  }

  lemma NothingOfQueue(q: nat)
    ensures OfQueue([], q) == []
  {
  }

  /** With packets as the receivers deliver them, the guard never suppresses a message. */
  lemma {:induction false} NothingSuppressed(groups: seq<Group>)
    requires forall j :: 0 <= j < |groups| ==> groups[j].members != [] && AllDelivered(groups[j].members)
    ensures |Messages(groups)| == |groups|
    ensures forall j :: 0 <= j < |groups| ==> Messages(groups)[j] == Encode(groups[j])
  {
    hide Encode, Messages, AllDelivered, Sendable;
    if groups == [] {
      NoMessages();
    } else {
      var front, g := groups[..|groups| - 1], groups[|groups| - 1];
      NothingSuppressed(front);
      DeliveredIsSendable(g);
      MessagesSnoc(front, g);
      assert groups == front + [g];
    }
  }

  lemma NoMessages()
    ensures Messages([]) == []
  {
  }

  lemma DeliveredIsSendable(g: Group)
    requires g.members != [] && AllDelivered(g.members)
    ensures Sendable(g)
  {
    IdsLayout(g.members);
    DataLayout(g.members);
  }

  // ---------------------------------------------------------------- the thread as an object

  type Arrivals = seq<(nat, Packet)>

  predicate BatchAddressed(batch: Arrivals, n: nat) {
    forall k :: 0 <= k < |batch| ==> batch[k].0 < n
  }

  /** Every arrival is for one of the n queues. */
  predicate Addressed(schedule: seq<Arrivals>, n: nat) {
    forall j :: 0 <= j < |schedule| ==> BatchAddressed(schedule[j], n)
  }

  /** What the queues have been given after one more batch. */
  function PushBatch(h: Histories, batch: Arrivals): (r: Histories)
    ensures |r| == |h|
  {
    if batch == [] then h
    else
      var k := |batch| - 1;
      var before, (q, packet) := PushBatch(h, batch[..k]), batch[k];
      if q < |h| then before[q := before[q] + [packet]] else before
  }

  /** What n queues have been given after all these batches, each packet behind the earlier ones. */
  function PushAll(n: nat, schedule: seq<Arrivals>): (r: Histories)
    ensures |r| == n
  {
    if schedule == [] then seq(n, _ => [])
    else PushBatch(PushAll(n, schedule[..|schedule| - 1]), schedule[|schedule| - 1])
  }

  // What has been pushed, queue by queue, in the order of arrival.

  lemma {:induction false} PushBatchConcat(h: Histories, a: Arrivals, b: Arrivals)
    ensures PushBatch(h, a + b) == PushBatch(PushBatch(h, a), b)
  {
    if b == [] {
      assert a + b == a;
    } else {
      var front := b[..|b| - 1];
      PushBatchConcat(h, a, front);
      assert (a + b)[..|a + b| - 1] == a + front;
    }
  }

  /** All arrivals of a schedule, one after the other. */
  function Flat(schedule: seq<Arrivals>): Arrivals {
    if schedule == [] then [] else Flat(schedule[..|schedule| - 1]) + schedule[|schedule| - 1]
  }

  lemma {:induction false} FlatConcat(a: seq<Arrivals>, b: seq<Arrivals>)
    ensures Flat(a + b) == Flat(a) + Flat(b)
    ensures |b| == 1 ==> Flat(b) == b[0]
  {
    if b == [] {
      assert a + b == a;
    } else {
      FlatConcat(a, b[..|b| - 1]);
      assert (a + b)[..|a + b| - 1] == a + b[..|b| - 1];
    }
  }

  /** One batch with all arrivals comes to the same. */
  lemma {:induction false} PushAllIsFlat(n: nat, schedule: seq<Arrivals>)
    ensures PushAll(n, schedule) == PushBatch(PushAll(n, []), Flat(schedule))
  {
    if schedule != [] {
      var k := |schedule| - 1;
      PushAllIsFlat(n, schedule[..k]);
      PushBatchConcat(PushAll(n, []), Flat(schedule[..k]), schedule[k]);
    }
  }

  /** A batch appends to queue q exactly the packets addressed to it, in the order of arrival. */
  lemma {:induction false} PushedInOrder(h: Histories, batch: Arrivals, q: nat) returns (at: seq<nat>)
    requires q < |h|
    ensures Lists(at, set j | 0 <= j < |batch| && batch[j].0 == q)
    ensures |PushBatch(h, batch)[q]| == |h[q]| + |at| && h[q] <= PushBatch(h, batch)[q]
    ensures forall k :: 0 <= k < |at| ==> at[k] < |batch| && PushBatch(h, batch)[q][|h[q]| + k] == batch[at[k]].1
  {
    if batch == [] {
      at := [];
    } else {
      var n := |batch| - 1;
      at := PushedInOrder(h, batch[..n], q);
      hide Lists;
      var before := set j | 0 <= j < n && batch[..n][j].0 == q;
      var all := set j | 0 <= j < |batch| && batch[j].0 == q;
      if batch[n].0 == q {
        ListsSnoc(at, before, n);
        assert all == before + {n};
        at := at + [n];
      } else {
        assert all == before;
      }
    }
  }

  /** These are the packets addressed to queue q, in the order of arrival. */
  ghost predicate ArrivedInOrder(arrivals: Arrivals, q: nat, packets: seq<Packet>) {
    exists at :: Lists(at, set j | 0 <= j < |arrivals| && arrivals[j].0 == q) && |at| == |packets| &&
                 (forall k :: 0 <= k < |at| ==> at[k] < |arrivals| && packets[k] == arrivals[at[k]].1)
  }

  /** What a whole schedule pushes into queue q are the packets addressed to it, in the order of arrival. */
  lemma ScheduleInOrder(n: nat, schedule: seq<Arrivals>, q: nat)
    requires q < n
    ensures ArrivedInOrder(Flat(schedule), q, PushAll(n, schedule)[q])
  {
    PushAllIsFlat(n, schedule);
    assert PushAll(n, [])[q] == [];
    var at := PushedInOrder(PushAll(n, []), Flat(schedule), q);
  }

  /**
   * The concatinator with its queues. Receivers run at the schedule's pleasure: before every access to a
   * queue, and repeatedly while the thread waits on an empty one, the next batch of packets, which may be
   * empty, is pushed. The run is observed until the schedule is over and the thread waits. `trace` records
   * it as steps of the system above.
   */
  class Thread {
    var queues: Histories
    var wire: seq<seq<Byte>>
    var offset: nat
    var clock: nat
    ghost var phase: Phase
    ghost var pushed: Histories
    ghost var base: Positions
    ghost var rounds: seq<Group>
    ghost var trace: seq<Event>

    ghost function Snapshot(): State
      reads this
    {
      State(queues, phase, wire, offset, pushed, base, rounds)
    }

    ghost predicate Valid()
      reads this
    {
      Run(|queues|, trace) && After(|queues|, trace) == Snapshot()
    }

    /** The arrivals up to now are those of the schedule. */
    ghost predicate Fed(schedule: seq<Arrivals>)
      reads this
    {
      clock <= |schedule| && pushed == PushAll(|queues|, schedule[..clock])
    }

    /** The schedule is over, and the thread waits on an empty queue. */
    ghost predicate Waiting(schedule: seq<Arrivals>)
      reads this
    {
      clock == |schedule| && Blocked(Snapshot())
    }

    constructor ()
      ensures Valid() && queues == [] && clock == 0 && Snapshot() == Initial(0)
    {
      queues, wire, offset, clock := [], [], 0, 0;
      phase, pushed, base, rounds, trace := Scan(0, 256), [], [], [], [];
      new;
      RunNothing(0);
    }

    /** `addQueue`, before the thread starts. */
    method AddQueue()
      requires Snapshot() == Initial(|queues|) && trace == []
      modifies this
      ensures Valid() && trace == [] && clock == old(clock)
      ensures Snapshot() == Initial(old(|queues|) + 1)
    {
      queues, pushed, base := queues + [[]], pushed + [[]], base + [0];
      RunNothing(|queues|);
    }

    /** Records the step that has just been carried out. */
    ghost method Note(e: Event, before: State)
      requires Run(|queues|, trace) && After(|queues|, trace) == before
      requires Enabled(before, e) && Snapshot() == Apply(before, e)
      modifies `trace
      ensures Valid() && trace == old(trace) + [e]
    {
      RunSnoc(|queues|, trace, e);
      trace := trace + [e];
    }

    /** One batch of packets arrives. */
    method Receive(batch: Arrivals)
      requires Valid() && BatchAddressed(batch, |queues|)
      modifies `queues, `pushed, `trace
      ensures Valid() && |queues| == old(|queues|) && old(trace) <= trace
      ensures trace == old(trace) + seq(|batch|, k requires 0 <= k < |batch| => Push(batch[k].0, batch[k].1))
      ensures pushed == PushBatch(old(pushed), batch)
      ensures forall q :: 0 <= q < |queues| ==> old(queues)[q] <= queues[q]
    {
      hide Valid;
      for k := 0 to |batch|
        invariant Valid() && |queues| == old(|queues|) && old(trace) <= trace
        invariant |trace| == |old(trace)| + k
        invariant forall i :: 0 <= i < k ==> trace[|old(trace)| + i] == Push(batch[i].0, batch[i].1)
        invariant pushed == PushBatch(old(pushed), batch[..k])
        invariant forall q :: 0 <= q < |queues| ==> old(queues)[q] <= queues[q]
      {
        assert batch[..k + 1][..k] == batch[..k];
        SameLength();
        ReceiveOne(batch[k].0, batch[k].1);
      }
      assert batch[..|batch|] == batch;
      assert trace == old(trace) + seq(|batch|, k requires 0 <= k < |batch| => Push(batch[k].0, batch[k].1));
    }

    /** `push_back` by a receiver. */
    method ReceiveOne(q: nat, packet: Packet)
      requires Valid() && q < |queues| == |pushed|
      modifies `queues, `pushed, `trace
      ensures Valid() && trace == old(trace) + [Push(q, packet)]
      ensures queues == old(queues[q := queues[q] + [packet]]) && pushed == old(pushed[q := pushed[q] + [packet]])
    {
      hide Run, After;
      ghost var before := Snapshot();
      queues := queues[q := queues[q] + [packet]];
      pushed := pushed[q := pushed[q] + [packet]];
      Note(Push(q, packet), before);
    }

    /** The next batch of the schedule arrives. */
    method ReceiveNext(schedule: seq<Arrivals>)
      requires Valid() && Fed(schedule) && clock < |schedule| && Addressed(schedule, |queues|)
      modifies `queues, `pushed, `trace, `clock
      ensures Valid() && |queues| == old(|queues|) && old(trace) <= trace
      ensures clock == old(clock) + 1 && Fed(schedule)
      ensures forall q :: 0 <= q < |queues| ==> old(queues)[q] <= queues[q]
    {
      hide Run, After, PushBatch;
      assert schedule[..clock + 1][..clock] == schedule[..clock];
      Receive(schedule[clock]);
      clock := clock + 1;
    }

    lemma SameLength()
      requires Valid()
      ensures |pushed| == |queues| == |base| && Invariant(Snapshot())
    {
      RunInvariant(|queues|, trace);
    }

    /** `queue->front()`: None when the schedule is over and the queue is still empty. */
    method Front(i: nat, schedule: seq<Arrivals>) returns (packet: Option<Packet>)
      requires Valid() && i < |queues| && Fed(schedule)
      requires Addressed(schedule, |queues|)
      modifies `queues, `pushed, `trace, `clock
      ensures Valid() && |queues| == old(|queues|) && old(trace) <= trace
      ensures old(clock) <= clock && Fed(schedule)
      ensures packet == if queues[i] == [] then None else Some(queues[i][0])
      ensures queues[i] == [] ==> clock == |schedule|
      ensures forall q :: 0 <= q < |queues| ==> old(queues)[q] <= queues[q]
    {
      hide Run, After, PushAll, Addressed;
      if clock < |schedule| {
        ReceiveNext(schedule);
      }
      while queues[i] == [] && clock < |schedule|
        invariant Valid() && |queues| == old(|queues|) && old(trace) <= trace
        invariant old(clock) <= clock && Fed(schedule)
        invariant forall q :: 0 <= q < |queues| ==> old(queues)[q] <= queues[q]
        decreases |schedule| - clock
      {
        ReceiveNext(schedule);
      }
      return if queues[i] == [] then None else Some(queues[i][0]);
    }

    /** The first pass: the least frame number among the fronts. */
    method FindLeast(schedule: seq<Arrivals>) returns (done: bool, least: int)
      requires Valid() && Fed(schedule) && phase == Scan(0, 256)
      requires Addressed(schedule, |queues|)
      modifies `queues, `pushed, `trace, `clock, `phase
      ensures Valid() && |queues| == old(|queues|) && old(trace) <= trace
      ensures old(clock) <= clock && Fed(schedule)
      ensures done ==> phase == Collect(0, least, [])
      ensures !done ==> Waiting(schedule)
    {
      hide Run, After, PushAll, Addressed;
      least := 256;
      var i := 0;
      while i < |queues|
        invariant Valid() && |queues| == old(|queues|) && old(trace) <= trace
        invariant old(clock) <= clock && Fed(schedule) && i <= |queues|
        invariant phase == Scan(i, least)
      {
        var current := Front(i, schedule);
        if current == None {
          return false, least;
        }
        ghost var before := Snapshot();
        if current.value.frame < least {
          least := current.value.frame;
        }
        i := i + 1;
        phase := Scan(i, least);
        Note(ScanFront, before);
      }
      ghost var before := Snapshot();
      phase := Collect(0, least, []);
      Note(EndScan, before);
      done := true;
    }

    /** `queue->pop_front()`, by itself a section in which the thread could wait. */
    method PopFrontOf(i: nat, schedule: seq<Arrivals>) returns (done: bool)
      requires Valid() && i < |queues| && Fed(schedule) && phase.PopFront? && phase.i == i
      requires Addressed(schedule, |queues|)
      modifies `queues, `pushed, `trace, `clock, `phase
      ensures Valid() && |queues| == old(|queues|) && old(trace) <= trace
      ensures old(clock) <= clock && Fed(schedule)
      ensures done ==> phase == Collect(i + 1, old(phase).least, old(phase).members)
      ensures !done ==> Waiting(schedule)
    {
      hide Run, After;
      var current := Front(i, schedule);
      if current == None {
        return false;
      }
      ghost var before := Snapshot();
      queues := queues[i := queues[i][1..]];
      phase := Collect(i + 1, phase.least, phase.members);
      Note(Pop, before);
      done := true;
    }

    /** The second pass: append and pop every front with that number. */
    method CollectLeast(least: int, schedule: seq<Arrivals>) returns (done: bool, ids: seq<Byte>, data: seq<Byte>)
      requires Valid() && Fed(schedule) && phase == Collect(0, least, [])
      requires Addressed(schedule, |queues|)
      modifies `queues, `pushed, `trace, `clock, `phase
      ensures Valid() && |queues| == old(|queues|) && old(trace) <= trace
      ensures old(clock) <= clock && Fed(schedule)
      ensures done ==> phase.Collect? && phase.i == |queues| && phase.least == least
      ensures done ==> ids == Ids(phase.members) && data == Data(phase.members)
      ensures !done ==> Waiting(schedule)
    {
      hide Run, After, PushAll, Addressed;
      ids, data := [], [];
      var i := 0;
      while i < |queues|
        invariant Valid() && |queues| == old(|queues|) && old(trace) <= trace
        invariant old(clock) <= clock && Fed(schedule) && i <= |queues|
        invariant phase.Collect? && phase.i == i && phase.least == least
        invariant ids == Ids(phase.members) && data == Data(phase.members)
      {
        done, ids, data := CollectOne(i, least, ids, data, schedule);
        if !done {
          return;
        }
        i := i + 1;
      }
      done := true;
    }

    /** The body of the second pass for queue i. */
    method CollectOne(i: nat, least: int, ids0: seq<Byte>, data0: seq<Byte>, schedule: seq<Arrivals>)
      returns (done: bool, ids: seq<Byte>, data: seq<Byte>)
      requires Valid() && i < |queues| && Fed(schedule) && Addressed(schedule, |queues|)
      requires phase.Collect? && phase.i == i && phase.least == least
      requires ids0 == Ids(phase.members) && data0 == Data(phase.members)
      modifies `queues, `pushed, `trace, `clock, `phase
      ensures Valid() && |queues| == old(|queues|) && old(trace) <= trace
      ensures old(clock) <= clock && Fed(schedule)
      ensures done ==> phase.Collect? && phase.i == i + 1 && phase.least == least
      ensures done ==> ids == Ids(phase.members) && data == Data(phase.members)
      ensures !done ==> Waiting(schedule)
    {
      hide Run, After, PushAll, Addressed, Ids, Data;
      ids, data, done := ids0, data0, false;
      var current := Front(i, schedule);
      if current == None {
        return;
      }
      ghost var before, t := Snapshot(), Tagged(i, current.value);
      if current.value.frame == least {
        IdsSnoc(phase.members, t);
        ids, data := ids + current.value.id, data + current.value.data;
        phase := PopFront(i, least, phase.members + [t]);
        Note(CollectFront, before);
        done := PopFrontOf(i, schedule);
      } else {
        phase := Collect(i + 1, least, phase.members);
        Note(CollectFront, before);
        done := true;
      }
    }

    /** One iteration of the loop body of `startConcatinator`. */
    method Round(schedule: seq<Arrivals>) returns (done: bool)
      requires Valid() && Fed(schedule) && phase == Scan(0, 256)
      requires Addressed(schedule, |queues|)
      modifies this
      ensures Valid() && |queues| == old(|queues|) && old(trace) <= trace
      ensures old(clock) <= clock && Fed(schedule)
      ensures old(rounds) <= rounds && (done ==> phase == Scan(0, 256))
      ensures done && queues != [] ==> |rounds| == old(|rounds|) + 1
      ensures !done ==> Waiting(schedule) && rounds == old(rounds)
    {
      hide Run, After, PushAll, Addressed;
      var found, least := FindLeast(schedule);
      if !found {
        return false;
      }
      var collected, ids, data := CollectLeast(least, schedule);
      if !collected {
        return false;
      }
      Emit(least, ids, data);
      done := true;
    }

    lemma RoundHasPackets()
      requires Valid() && phase.Collect? && phase.i == |queues| && queues != []
      ensures phase.members != []
    {
      hide Run, After, Invariant;
      SameLength();
      EndedRoundHasPackets(Snapshot());
    }

    /** The end of the loop body: the guard and the send loop. */
    method Emit(least: int, ids: seq<Byte>, data: seq<Byte>)
      requires Valid() && phase.Collect? && phase.i == |queues| && phase.least == least
      requires ids == Ids(phase.members) && data == Data(phase.members)
      modifies this
      ensures Valid() && queues == old(queues) && pushed == old(pushed) && clock == old(clock) && phase == Scan(0, 256)
      ensures trace == old(trace) + [Send] && old(rounds) <= rounds && (queues != [] ==> |rounds| == old(|rounds|) + 1)
    {
      hide Run, After, Fragments, Count, Ids, Data, Assemble, Consumed;
      ghost var before := Snapshot();
      ghost var g := Group(least, phase.members);
      if queues != [] {
        RoundHasPackets();
      }
      if data != [] && ids != [] {
        var sendBuf := Assemble(least, ids, data);
        var packets, next := SendMessage(sendBuf, offset);
        wire, offset := wire + packets, next;
      }
      phase, base := Scan(0, 256), Consumed(before);
      rounds := if g.members == [] then rounds else rounds + [g];
      Note(Send, before);
    }

    /** One iteration, and whether another one can have any effect: without queues the loop just spins. */
    method Iterate(schedule: seq<Arrivals>) returns (active: bool)
      requires Valid() && Fed(schedule) && phase == Scan(0, 256)
      requires Addressed(schedule, |queues|)
      modifies this
      ensures Valid() && |queues| == old(|queues|) && old(clock) <= clock && Fed(schedule)
      ensures active ==> phase == Scan(0, 256) && (clock > old(clock) || |rounds| == old(|rounds|) + 1)
      ensures !active ==> clock == |schedule| && (queues == [] || Waiting(schedule)) && |rounds| >= old(|rounds|)
    {
      hide Run, After, Addressed, PushAll;
      if clock < |schedule| {
        ReceiveNext(schedule);
      }
      active := Round(schedule);
      if queues == [] && clock == |schedule| {
        active := false;
      }
    }

    /** What is known when the loop has come to rest. */
    lemma RestIsComplete(schedule: seq<Arrivals>)
      requires Valid() && Fed(schedule) && clock == |schedule| && (queues == [] || Waiting(schedule))
      ensures pushed == PushAll(|queues|, schedule) && rounds == Merged(pushed) && wire == WireOf(Messages(Merged(pushed)))
    {
      hide Run, After, PushAll, WireOf, Messages, Merged;
      OutputIsPrefixOfMerge(|queues|, trace);
      assert schedule[..clock] == schedule;
      if queues == [] {
        NothingToMerge(pushed);
      } else {
        BlockedIsComplete(|queues|, trace);
      }
    }

    /**
     * The whole thread: whatever the schedule of arrivals, when they are over and the thread waits, it has
     * sent exactly the fragments of the messages of the whole merge of what arrived.
     */
    method StartConcatinator(schedule: seq<Arrivals>)
      requires Snapshot() == Initial(|queues|) && trace == [] && clock == 0
      requires Addressed(schedule, |queues|)
      modifies this
      ensures Valid() && |queues| == old(|queues|) && clock == |schedule|
      ensures pushed == PushAll(|queues|, schedule)
      ensures forall q :: 0 <= q < |queues| ==> ArrivedInOrder(Flat(schedule), q, pushed[q])
      ensures rounds == Merged(PushAll(|queues|, schedule))
      ensures wire == WireOf(Messages(Merged(PushAll(|queues|, schedule))))
    {
      RunNothing(|queues|);
      assert Valid() && Fed(schedule);
      hide Run, After, Addressed, PushAll, Valid, Waiting, Merged, WireOf, Messages, Snapshot;
      var active := true;
      while active
        invariant Valid() && |queues| == old(|queues|) && Fed(schedule)
        invariant active ==> phase == Scan(0, 256)
        invariant !active ==> clock == |schedule| && (queues == [] || Waiting(schedule))
        decreases |schedule| - clock, RoundsLeft(), active
      {
        RoundsBounded();
        active := Iterate(schedule);
        RoundsBounded();
      }
      RestIsComplete(schedule);
      forall q | 0 <= q < |queues| ensures ArrivedInOrder(Flat(schedule), q, pushed[q]) {
        ScheduleInOrder(|queues|, schedule, q);
      }
    }

    /** How many rounds can still take place with what has been pushed. */
    ghost function RoundsLeft(): int
      reads this
    {
      |Merged(pushed)| - |rounds|
    }

    lemma RoundsBounded()
      requires Valid()
      ensures |rounds| <= |Merged(pushed)|
    {
      OutputIsPrefixOfMerge(|queues|, trace);
    }
  }

  lemma NothingToMerge(h: Histories)
    requires h == []
    ensures Merged(h) == []
  {
  }
}
