/**
 * The frame-aligned merge as a pure function of the packets each queue has ever received, and the
 * rounds of the concatinator over those histories.
 */
module Merge {
  import opened Packets

  type Histories = seq<seq<Packet>>

  datatype Tagged = Tagged(queue: nat, packet: Packet)

  /** The packets of one round: a frame number and, in queue order, every front that carries it. */
  datatype Group = Group(frame: int, members: seq<Tagged>)

  // ---------------------------------------------------------------- one round over the fronts

  /** Minimum of 256 and the first n frame numbers, as the scan computes it. */
  function LeastFrame(fronts: seq<Packet>, n: nat): (m: int)
    requires n <= |fronts|
    ensures m <= 256 && forall q :: 0 <= q < n ==> m <= fronts[q].frame
    ensures n > 0 ==> exists q :: 0 <= q < n && fronts[q].frame == m
  {
    if n == 0 then 256
    else
      var m := LeastFrame(fronts, n - 1);
      if fronts[n - 1].frame < m then fronts[n - 1].frame else m
  }

  /** Those of the first n fronts that carry this frame number. */
  function Matching(fronts: seq<Packet>, frame: int, n: nat): seq<Tagged>
    requires n <= |fronts|
  {
    if n == 0 then []
    else Matching(fronts, frame, n - 1) + if fronts[n - 1].frame == frame then [Tagged(n - 1, fronts[n - 1])] else []
  }

  function RoundGroup(fronts: seq<Packet>): Group {
    var m := LeastFrame(fronts, |fronts|);
    Group(m, Matching(fronts, m, |fronts|))
  }

  lemma {:induction false} MatchingIsComplete(fronts: seq<Packet>, frame: int, n: nat, t: Tagged)
    requires n <= |fronts|
    ensures t in Matching(fronts, frame, n) <==>
            t.queue < n && t.packet == fronts[t.queue] && t.packet.frame == frame
  {
    if n > 0 {
      MatchingIsComplete(fronts, frame, n - 1, t);
    }
  }

  // ---------------------------------------------------------------- the reference merge

  predicate AllNonEmpty(h: Histories) {
    h != [] && forall q :: 0 <= q < |h| ==> h[q] != []
  }

  function Heads(h: Histories): (fronts: seq<Packet>)
    requires AllNonEmpty(h)
    ensures |fronts| == |h|
  {
    seq(|h|, q requires 0 <= q < |h| => h[q][0])
  }

  function DropHeads(h: Histories, frame: int): (r: Histories)
    requires AllNonEmpty(h)
    ensures |r| == |h|
  {
    seq(|h|, q requires 0 <= q < |h| => if h[q][0].frame == frame then h[q][1..] else h[q])
  }

  function Total(h: Histories): nat {
    if h == [] then 0 else Total(h[..|h| - 1]) + |h[|h| - 1]|
  }

  lemma {:induction false} TotalDecreases(h: Histories, r: Histories)
    requires |r| == |h| && forall q :: 0 <= q < |h| ==> |r[q]| <= |h[q]|
    ensures Total(r) <= Total(h)
    ensures (exists q :: 0 <= q < |h| && |r[q]| < |h[q]|) ==> Total(r) < Total(h)
  {
    if h != [] {
      TotalDecreases(h[..|h| - 1], r[..|h| - 1]);
      if q :| 0 <= q < |h| && |r[q]| < |h[q]| {
        if q < |h| - 1 {
          assert |r[..|h| - 1][q]| < |h[..|h| - 1][q]|;
        }
      }
    }
  }

  /**
   * The merge: as long as every queue has a packet, one group with all heads of the least frame
   * number, then the merge of what is left.
   */
  function Merged(h: Histories): seq<Group>
    decreases Total(h)
  {
    if !AllNonEmpty(h) then []
    else
      var g := RoundGroup(Heads(h));
      var rest := DropHeads(h, g.frame);
      assert Total(rest) < Total(h) by {
        var q :| 0 <= q < |h| && Heads(h)[q].frame == g.frame;
        assert |rest[q]| < |h[q]|;
        TotalDecreases(h, rest);
      }
      [g] + Merged(rest)
  }

  // ---------------------------------------------------------------- rounds over positions

  type Positions = seq<nat>

  predicate Within(h: Histories, at: Positions) {
    |at| == |h| && forall q :: 0 <= q < |h| ==> at[q] <= |h[q]|
  }

  /** Every queue has a packet at its position. */
  predicate Ready(h: Histories, at: Positions) {
    h != [] && |at| == |h| && forall q :: 0 <= q < |h| ==> at[q] < |h[q]|
  }

  function Fronts(h: Histories, at: Positions): (fronts: seq<Packet>)
    requires Ready(h, at)
    ensures |fronts| == |h|
  {
    seq(|h|, q requires 0 <= q < |h| => h[q][at[q]])
  }

  /** Positions after the first n fronts that carry this frame number have been popped. */
  function Popped(fronts: seq<Packet>, at: Positions, frame: int, n: nat): (r: Positions)
    requires n <= |fronts| == |at|
    ensures |r| == |at|
  {
    seq(|at|, q requires 0 <= q < |at| => if q < n && fronts[q].frame == frame then at[q] + 1 else at[q])
  }

  function NextPositions(h: Histories, at: Positions): (r: Positions)
    requires Ready(h, at)
    ensures Within(h, r)
  {
    Popped(Fronts(h, at), at, RoundGroup(Fronts(h, at)).frame, |h|)
  }

  function Zeros(n: nat): (at: Positions)
    ensures |at| == n && forall q :: 0 <= q < n ==> at[q] == 0
  {
    seq(n, _ => 0)
  }

  datatype Progress = Progress(at: Positions, groups: seq<Group>)

  /** Where k rounds lead and what they emit; None if some round would have to wait. */
  function Rounds(h: Histories, k: nat): (r: Option<Progress>)
    ensures r.Some? ==> Within(h, r.value.at) && |r.value.groups| == k
  {
    if k == 0 then Some(Progress(Zeros(|h|), []))
    else match Rounds(h, k - 1)
      case None => None
      case Some(p) =>
        if Ready(h, p.at) then Some(Progress(NextPositions(h, p.at), p.groups + [RoundGroup(Fronts(h, p.at))]))
        else None
  }

  lemma RoundsUnfold(h: Histories, k: nat)
    requires k > 0 && Rounds(h, k).Some?
    ensures Rounds(h, k - 1).Some? && Ready(h, Rounds(h, k - 1).value.at)
    ensures var before := Rounds(h, k - 1).value;
      Rounds(h, k).value == Progress(NextPositions(h, before.at), before.groups + [RoundGroup(Fronts(h, before.at))])
  {
  }

  lemma RoundsStart(h: Histories)
    ensures Rounds(h, 0) == Some(Progress(Zeros(|h|), []))
  {
  }

  function Remaining(h: Histories, at: Positions): (r: Histories)
    requires Within(h, at)
    ensures |r| == |h|
  {
    seq(|h|, q requires 0 <= q < |h| => h[q][at[q]..])
  }

  /** The rounds compute the merge: what they emit, followed by the merge of what they left. */
  lemma {:induction false} RoundsMerge(h: Histories, k: nat)
    requires Rounds(h, k).Some?
    ensures Merged(h) == Rounds(h, k).value.groups + Merged(Remaining(h, Rounds(h, k).value.at))
  {
    hide Rounds, Merged, Remaining, NextPositions, Ready, Fronts, RoundGroup;
    if k == 0 {
      RoundsStart(h);
      AllRemains(h);
    } else {
      RoundsUnfold(h, k);
      var before := Rounds(h, k - 1).value;
      RoundsMerge(h, k - 1);
      RemainingRound(h, before.at);
    }
  }

  lemma AllRemains(h: Histories)
    ensures Remaining(h, Zeros(|h|)) == h
  {
  }

  lemma RemainingRound(h: Histories, at: Positions)
    requires Ready(h, at)
    ensures Merged(Remaining(h, at)) == [RoundGroup(Fronts(h, at))] + Merged(Remaining(h, NextPositions(h, at)))
  {
    var rest := Remaining(h, at);
    assert AllNonEmpty(rest) && Heads(rest) == Fronts(h, at);
    assert DropHeads(rest, RoundGroup(Fronts(h, at)).frame) == Remaining(h, NextPositions(h, at));
  }

  /** When some queue has nothing left, the rounds have emitted the whole merge. */
  lemma StuckIsComplete(h: Histories, k: nat)
    requires Rounds(h, k).Some? && !Ready(h, Rounds(h, k).value.at)
    ensures Rounds(h, k).value.groups == Merged(h)
  {
    RoundsMerge(h, k);
    var p := Rounds(h, k).value;
    if h != [] {
      var q :| 0 <= q < |h| && p.at[q] >= |h[q]|;
      assert Remaining(h, p.at)[q] == [];
    }
  }

  // ---------------------------------------------------------------- monotonicity

  /** More packets may have been pushed behind what was there. */
  predicate Extends(h: Histories, more: Histories) {
    |more| == |h| && forall q :: 0 <= q < |h| ==> h[q] <= more[q]
  }

  lemma {:induction false} RoundsKeep(h: Histories, more: Histories, k: nat)
    requires Extends(h, more) && Rounds(h, k).Some?
    ensures Rounds(more, k) == Rounds(h, k)
  {
    hide Rounds, NextPositions, Fronts, RoundGroup, Ready, Extends;
    if k == 0 {
      RoundsStart(h);
      RoundsStart(more);
      SameQueues(h, more);
    } else {
      RoundsUnfold(h, k);
      RoundsKeep(h, more, k - 1);
      RoundKeeps(h, more, Rounds(h, k - 1).value.at);
      RoundExtends(more, k - 1);
    }
  }

  lemma SameQueues(h: Histories, more: Histories)
    requires Extends(h, more)
    ensures |h| == |more|
  {
  }

  lemma RoundKeeps(h: Histories, more: Histories, at: Positions)
    requires Extends(h, more) && Ready(h, at)
    ensures Ready(more, at) && Fronts(more, at) == Fronts(h, at) && NextPositions(more, at) == NextPositions(h, at)
  {
  }

  /** Pushing more packets only appends to the merge. */
  lemma MergeIsMonotone(h: Histories, more: Histories)
    requires Extends(h, more)
    ensures Merged(h) <= Merged(more)
  {
    var k := RunToEnd(h, 0);
    StuckIsComplete(h, k);
    RoundsKeep(h, more, k);
    RoundsMerge(more, k);
  }

  lemma {:induction false} RunToEnd(h: Histories, k: nat) returns (n: nat)
    requires Rounds(h, k).Some?
    ensures Rounds(h, n).Some? && !Ready(h, Rounds(h, n).value.at)
    decreases Total(Remaining(h, Rounds(h, k).value.at))
  {
    hide Rounds, Remaining, NextPositions, Fronts, RoundGroup;
    var at := Rounds(h, k).value.at;
    if !Ready(h, at) {
      n := k;
    } else {
      RoundExtends(h, k);
      RoundShrinks(h, at);
      n := RunToEnd(h, k + 1);
    }
  }

  lemma RoundExtends(h: Histories, k: nat)
    requires Rounds(h, k).Some? && Ready(h, Rounds(h, k).value.at)
    ensures Rounds(h, k + 1).Some?
    ensures Rounds(h, k + 1).value.at == NextPositions(h, Rounds(h, k).value.at)
    ensures Rounds(h, k + 1).value.groups == Rounds(h, k).value.groups + [RoundGroup(Fronts(h, Rounds(h, k).value.at))]
  {
  }

  lemma RoundShrinks(h: Histories, at: Positions)
    requires Ready(h, at)
    ensures Total(Remaining(h, NextPositions(h, at))) < Total(Remaining(h, at))
  {
    var before, after := Remaining(h, at), Remaining(h, NextPositions(h, at));
    var q :| 0 <= q < |h| && Fronts(h, at)[q].frame == RoundGroup(Fronts(h, at)).frame;
    assert |after[q]| < |before[q]|;
    TotalDecreases(before, after);
  }

  // ---------------------------------------------------------------- conservation

  /** The packets of queue q among some members, in order. */
  function OfQueue(members: seq<Tagged>, q: nat): seq<Packet> {
    if members == [] then []
    else
      var n := |members| - 1;
      OfQueue(members[..n], q) + if members[n].queue == q then [members[n].packet] else []
  }

  function OfQueueAll(groups: seq<Group>, q: nat): seq<Packet> {
    if groups == [] then []
    else OfQueueAll(groups[..|groups| - 1], q) + OfQueue(groups[|groups| - 1].members, q)
  }

  lemma {:induction false} MatchingOfQueue(fronts: seq<Packet>, frame: int, n: nat, q: nat)
    requires n <= |fronts|
    ensures OfQueue(Matching(fronts, frame, n), q) ==
            if q < n && fronts[q].frame == frame then [fronts[q]] else []
  {
    if n > 0 {
      MatchingOfQueue(fronts, frame, n - 1, q);
      hide OfQueue;
      var before, t := Matching(fronts, frame, n - 1), Tagged(n - 1, fronts[n - 1]);
      if t.packet.frame == frame {
        assert Matching(fronts, frame, n) == before + [t];
        OfQueueSnoc(before, t, q);
      } else {
        assert Matching(fronts, frame, n) == before;
      }
    }
  }

  lemma OfQueueSnoc(members: seq<Tagged>, t: Tagged, q: nat)
    ensures OfQueue(members + [t], q) == OfQueue(members, q) + if t.queue == q then [t.packet] else []
  {
    assert (members + [t])[..|members|] == members;
  }

  lemma OfQueueAllSnoc(groups: seq<Group>, g: Group, q: nat)
    ensures OfQueueAll(groups + [g], q) == OfQueueAll(groups, q) + OfQueue(g.members, q)
  {
    assert (groups + [g])[..|groups|] == groups;
  }

  /** Projected onto a queue, the emitted groups are exactly the packets consumed from it, in order. */
  lemma {:induction false} RoundsConserve(h: Histories, k: nat, q: nat)
    requires Rounds(h, k).Some? && q < |h|
    ensures OfQueueAll(Rounds(h, k).value.groups, q) == h[q][..Rounds(h, k).value.at[q]]
  {
    hide Rounds, NextPositions, Ready, Fronts, RoundGroup;
    if k > 0 {
      RoundsUnfold(h, k);
      RoundsConserve(h, k - 1, q);
      RoundConserves(h, Rounds(h, k - 1).value, q);
    } else {
      RoundsStart(h);
    }
  }

  lemma RoundConserves(h: Histories, p: Progress, q: nat)
    requires Ready(h, p.at) && q < |h| && OfQueueAll(p.groups, q) == h[q][..p.at[q]]
    ensures OfQueueAll(p.groups + [RoundGroup(Fronts(h, p.at))], q) == h[q][..NextPositions(h, p.at)[q]]
  {
    hide OfQueue, OfQueueAll, Matching, LeastFrame;
    var fronts, i := Fronts(h, p.at), p.at[q];
    MatchingOfQueue(fronts, RoundGroup(fronts).frame, |h|, q);
    OfQueueAllSnoc(p.groups, RoundGroup(fronts), q);
    assert h[q][..i + 1] == h[q][..i] + [h[q][i]];
  }

  /** Every round that takes place emits at least one packet. */
  lemma {:induction false} GroupHasMember(h: Histories, k: nat, j: nat) returns (t: Tagged)
    requires Rounds(h, k).Some? && j < k
    ensures t in Rounds(h, k).value.groups[j].members
  {
    hide Rounds, NextPositions, RoundGroup, Fronts;
    RoundsUnfold(h, k);
    if j < k - 1 {
      t := GroupHasMember(h, k - 1, j);
    } else {
      t := RoundHasMember(Fronts(h, Rounds(h, k - 1).value.at));
    }
  }

  /** Every packet of a group was pushed, and carries the group's frame number. */
  lemma {:induction false} MemberIsPushed(h: Histories, k: nat, j: nat, t: Tagged)
    requires Rounds(h, k).Some? && j < k && t in Rounds(h, k).value.groups[j].members
    ensures t.queue < |h| && t.packet in h[t.queue] && t.packet.frame == Rounds(h, k).value.groups[j].frame
  {
    hide Rounds, NextPositions, RoundGroup, Fronts;
    RoundsUnfold(h, k);
    if j < k - 1 {
      MemberIsPushed(h, k - 1, j, t);
    } else {
      FrontIsPushed(h, Rounds(h, k - 1).value.at, t);
    }
  }

  lemma FrontIsPushed(h: Histories, at: Positions, t: Tagged)
    requires Ready(h, at) && t in RoundGroup(Fronts(h, at)).members
    ensures t.queue < |h| && t.packet in h[t.queue] && t.packet.frame == RoundGroup(Fronts(h, at)).frame
  {
    var fronts := Fronts(h, at);
    MatchingIsComplete(fronts, RoundGroup(fronts).frame, |h|, t);
    assert t.packet == h[t.queue][at[t.queue]];
  }

  lemma RoundHasMember(fronts: seq<Packet>) returns (t: Tagged)
    requires fronts != []
    ensures t in RoundGroup(fronts).members
  {
    var m := LeastFrame(fronts, |fronts|);
    var q: nat :| q < |fronts| && fronts[q].frame == m;
    t := Tagged(q, fronts[q]);
    MatchingIsComplete(fronts, m, |fronts|, t);
  }
}
