/**
 * Exactly which losses the merge survives: for any streams, whatever has been lost, a condition on the
 * histories that holds if and only if no round ever mixes or overtakes epochs.
 */
module AlignmentExact {
  import opened Packets
  import opened Merge
  import opened Alignment

  /** The earliest stamp among the fronts. */
  ghost predicate Earliest(stamps: Stamps, at: Positions, s: Stamp)
    requires |at| == |stamps| && forall q :: 0 <= q < |stamps| ==> at[q] < |stamps[q]|
  {
    && (exists q :: 0 <= q < |stamps| && stamps[q][at[q]] == s)
    && (forall q :: 0 <= q < |stamps| ==> !Before(stamps[q][at[q]], s))
  }

  /** The round from these positions consumes exactly the fronts of this stamp. */
  predicate Consumes(h: Histories, stamps: Stamps, at: Positions, s: Stamp)
    requires SameShape(h, stamps) && Ready(h, at)
  {
    forall q :: 0 <= q < |h| ==> (NextPositions(h, at)[q] == at[q] + 1 <==> stamps[q][at[q]] == s)
  }

  ghost predicate RoundAligned(h: Histories, stamps: Stamps, at: Positions)
    requires SameShape(h, stamps) && Ready(h, at)
  {
    forall s :: Earliest(stamps, at, s) ==> Consumes(h, stamps, at, s)
  }

  /** Every round that can ever take place consumes exactly the fronts of the earliest stamp. */
  ghost predicate RunAligned(h: Histories, stamps: Stamps)
    requires SameShape(h, stamps)
  {
    forall k: nat :: Rounds(h, k).Some? && Ready(h, Rounds(h, k).value.at) ==>
      RoundAligned(h, stamps, Rounds(h, k).value.at)
  }

  /** The histories cut at stamp s: before the cut is everything earlier, and s is next somewhere. */
  ghost predicate CutAt(h: Histories, stamps: Stamps, at: Positions, s: Stamp)
    requires SameShape(h, stamps)
  {
    Ready(h, at) && Earliest(stamps, at, s) && AllBefore(h, stamps, at, s)
  }

  /** Fronts of a later epoch than s have larger frame numbers than s. */
  predicate LaterAreLarger(stamps: Stamps, at: Positions, s: Stamp)
    requires |at| == |stamps| && forall q :: 0 <= q < |stamps| ==> at[q] < |stamps[q]|
  {
    forall q :: 0 <= q < |stamps| && stamps[q][at[q]].epoch > s.epoch ==> stamps[q][at[q]].frame > s.frame
  }

  /** What the histories must satisfy, without running the merge. */
  ghost predicate CutsAligned(h: Histories, stamps: Stamps)
    requires SameShape(h, stamps)
  {
    forall at, s :: CutAt(h, stamps, at, s) ==> LaterAreLarger(stamps, at, s)
  }

  // ---------------------------------------------------------------- one round

  /** A round consumes exactly the fronts of the earliest stamp exactly when later ones are larger. */
  lemma RoundAlignedExact(h: Histories, stamps: Stamps, last: int, at: Positions, s: Stamp)
    requires Streamed(h, stamps, last) && Ready(h, at) && Earliest(stamps, at, s)
    ensures Consumes(h, stamps, at, s) <==> LaterAreLarger(stamps, at, s)
  {
    var m, fronts, next := RoundGroup(Fronts(h, at)).frame, Fronts(h, at), NextPositions(h, at);
    forall q | 0 <= q < |h|
      ensures fronts[q].frame == stamps[q][at[q]].frame && (next[q] == at[q] + 1 <==> fronts[q].frame == m)
    {
      assert h[q][at[q]].frame == stamps[q][at[q]].frame;
    }
    var first :| 0 <= first < |h| && stamps[first][at[first]] == s;
    assert m <= fronts[first].frame;
    var least :| 0 <= least < |h| && fronts[least].frame == m;
    assert stamps[least][at[least]] == s ==> m == s.frame;
  }

  lemma {:induction false} EarliestOf(stamps: Stamps, at: Positions, n: nat) returns (s: Stamp)
    requires |at| == |stamps| && forall q :: 0 <= q < |stamps| ==> at[q] < |stamps[q]|
    requires 0 < n <= |stamps|
    ensures exists q :: 0 <= q < n && stamps[q][at[q]] == s
    ensures forall q :: 0 <= q < n ==> !Before(stamps[q][at[q]], s)
  {
    s := stamps[n - 1][at[n - 1]];
    if n > 1 {
      var t := EarliestOf(stamps, at, n - 1);
      if !Before(s, t) {
        s := t;
      }
    }
  }

  lemma EarliestFront(h: Histories, stamps: Stamps, at: Positions) returns (s: Stamp)
    requires SameShape(h, stamps) && Ready(h, at)
    ensures Earliest(stamps, at, s)
  {
    s := EarliestOf(stamps, at, |stamps|);
  }

  lemma Shaped(h: Histories, stamps: Stamps, last: int)
    requires Streamed(h, stamps, last)
    ensures SameShape(h, stamps)
  {
  }

  // ---------------------------------------------------------------- from the histories to the rounds

  /** Everything consumed comes before everything that is next. */
  ghost predicate Separated(h: Histories, stamps: Stamps, at: Positions)
    requires SameShape(h, stamps) && Within(h, at)
  {
    forall q, i, p :: 0 <= q < |h| && 0 <= i < at[q] && 0 <= p < |h| && at[p] < |h[p]| ==>
      Before(stamps[q][i], stamps[p][at[p]])
  }

  lemma SeparatedIsCut(h: Histories, stamps: Stamps, at: Positions, s: Stamp)
    requires SameShape(h, stamps) && Within(h, at) && Ready(h, at)
    requires Separated(h, stamps, at) && Earliest(stamps, at, s)
    ensures CutAt(h, stamps, at, s)
  {
  }

  lemma SeparatedRound(h: Histories, stamps: Stamps, last: int, at: Positions, s: Stamp)
    requires Streamed(h, stamps, last) && Within(h, at) && Ready(h, at)
    requires Separated(h, stamps, at) && Earliest(stamps, at, s) && Consumes(h, stamps, at, s)
    ensures Separated(h, stamps, NextPositions(h, at))
  {
    hide Streamed;
    Shaped(h, stamps, last);
    var next := NextPositions(h, at);
    forall q, i, p | 0 <= q < |h| && 0 <= i < next[q] && 0 <= p < |h| && next[p] < |h[p]|
      ensures Before(stamps[q][i], stamps[p][next[p]])
    {
      if next[p] > at[p] {
        InOrder(h, stamps, last, p, at[p], next[p]);
      }
      if i < at[q] {
        assert Before(stamps[q][i], stamps[p][at[p]]);
      }
    }
  }

  lemma {:induction false} RoundsSeparated(h: Histories, stamps: Stamps, last: int, k: nat)
    requires Streamed(h, stamps, last) && CutsAligned(h, stamps) && Rounds(h, k).Some?
    ensures Separated(h, stamps, Rounds(h, k).value.at)
  {
    hide Rounds, Streamed, Earliest, Consumes, LaterAreLarger, NextPositions, Separated, CutAt;
    Shaped(h, stamps, last);
    if k == 0 {
      RoundsStart(h);
      NothingConsumed(h, stamps);
    } else {
      RoundsUnfold(h, k);
      RoundsSeparated(h, stamps, last, k - 1);
      var at := Rounds(h, k - 1).value.at;
      var s := EarliestFront(h, stamps, at);
      SeparatedIsCut(h, stamps, at, s);
      RoundAlignedExact(h, stamps, last, at, s);
      SeparatedRound(h, stamps, last, at, s);
    }
  }

  lemma NothingConsumed(h: Histories, stamps: Stamps)
    requires SameShape(h, stamps)
    ensures Within(h, Zeros(|h|)) && Separated(h, stamps, Zeros(|h|))
  {
  }

  lemma CutsAlignRuns(h: Histories, stamps: Stamps, last: int)
    requires Streamed(h, stamps, last) && SameShape(h, stamps) && CutsAligned(h, stamps)
    ensures RunAligned(h, stamps)
  {
    hide Rounds, Streamed, Earliest, Consumes, LaterAreLarger, Separated, CutAt;
    forall k: nat, s | Rounds(h, k).Some? && Ready(h, Rounds(h, k).value.at) &&
                       Earliest(stamps, Rounds(h, k).value.at, s)
      ensures Consumes(h, stamps, Rounds(h, k).value.at, s)
    {
      RoundsSeparated(h, stamps, last, k);
      SeparatedIsCut(h, stamps, Rounds(h, k).value.at, s);
      RoundAlignedExact(h, stamps, last, Rounds(h, k).value.at, s);
    }
  }

  // ---------------------------------------------------------------- from the rounds to the histories

  predicate UpTo(at: Positions, cut: Positions) {
    |at| == |cut| && forall q :: 0 <= q < |at| ==> at[q] <= cut[q]
  }

  /** An aligned round does not step over a cut it has not reached. */
  lemma RoundStaysUpTo(h: Histories, stamps: Stamps, at: Positions, cut: Positions, s: Stamp)
    requires SameShape(h, stamps) && CutAt(h, stamps, cut, s) && UpTo(at, cut) && at != cut
    requires Ready(h, at) && RoundAligned(h, stamps, at)
    ensures UpTo(NextPositions(h, at), cut)
  {
    var first := EarliestFront(h, stamps, at);
    assert Consumes(h, stamps, at, first);
    var p :| 0 <= p < |h| && at[p] < cut[p];
    assert Before(stamps[p][at[p]], s);
    forall q | 0 <= q < |h| ensures NextPositions(h, at)[q] <= cut[q] {
      assert !Before(stamps[q][cut[q]], s);
    }
  }

  /** Aligned runs pass through every cut. */
  lemma {:induction false} ReachesCut(h: Histories, stamps: Stamps, k: nat, cut: Positions, s: Stamp) returns (n: nat)
    requires SameShape(h, stamps) && RunAligned(h, stamps) && CutAt(h, stamps, cut, s)
    requires Rounds(h, k).Some? && UpTo(Rounds(h, k).value.at, cut)
    ensures Rounds(h, n).Some? && Rounds(h, n).value.at == cut
    decreases Total(Remaining(h, Rounds(h, k).value.at))
  {
    hide Rounds, Remaining, NextPositions, RoundAligned, Earliest, AllBefore, RoundGroup;
    var at := Rounds(h, k).value.at;
    if at == cut {
      n := k;
    } else {
      RoundStaysUpTo(h, stamps, at, cut, s);
      RoundExtends(h, k);
      RoundShrinks(h, at);
      n := ReachesCut(h, stamps, k + 1, cut, s);
    }
  }

  lemma RunsAlignCuts(h: Histories, stamps: Stamps, last: int)
    requires Streamed(h, stamps, last) && SameShape(h, stamps) && RunAligned(h, stamps)
    ensures CutsAligned(h, stamps)
  {
    hide Rounds, Streamed, Earliest, Consumes, LaterAreLarger, AllBefore;
    forall cut, s | CutAt(h, stamps, cut, s) ensures LaterAreLarger(stamps, cut, s) {
      RoundsStart(h);
      var k := ReachesCut(h, stamps, 0, cut, s);
      RoundAlignedExact(h, stamps, last, cut, s);
    }
  }

  // ---------------------------------------------------------------- what aligned rounds emit

  /** An aligned round extends an aligned run by one output. */
  lemma AlignedStep(h: Histories, stamps: Stamps, last: int, p: Progress, keys: seq<Stamp>, s: Stamp)
    requires Streamed(h, stamps, last) && Within(h, p.at) && Ready(h, p.at) && AlignedRun(h, stamps, p, keys)
    requires CutAt(h, stamps, p.at, s) && Consumes(h, stamps, p.at, s)
    ensures AlignedRun(h, stamps,
              Progress(NextPositions(h, p.at), p.groups + [RoundGroup(Fronts(h, p.at))]), keys + [s])
  {
    hide Streamed, AllBefore, HoldsExactly, Consumes, NextPositions, Earliest, RoundGroup;
    Shaped(h, stamps, last);
    StepHoldsExactly(h, stamps, last, p.at, s);
    StepConsumes(h, stamps, last, p.at, s);
    if keys != [] {
      KeyIsLater(h, stamps, p.at, keys[|keys| - 1], s);
    }
  }

  lemma KeyIsLater(h: Histories, stamps: Stamps, at: Positions, previous: Stamp, s: Stamp)
    requires SameShape(h, stamps) && Ready(h, at) && Earliest(stamps, at, s) && ConsumedUpTo(h, stamps, at, previous)
    ensures Before(previous, s)
  {
    var q :| 0 <= q < |stamps| && stamps[q][at[q]] == s;
    assert !(at[q] < at[q]);
  }

  lemma StepConsumes(h: Histories, stamps: Stamps, last: int, at: Positions, s: Stamp)
    requires Streamed(h, stamps, last) && SameShape(h, stamps) && Within(h, at)
    requires CutAt(h, stamps, at, s) && Consumes(h, stamps, at, s)
    ensures ConsumedUpTo(h, stamps, NextPositions(h, at), s)
  {
    hide Streamed;
    var next := NextPositions(h, at);
    forall q, i | 0 <= q < |h| && 0 <= i < |h[q]| ensures i < next[q] <==> !Before(s, stamps[q][i]) {
      assert !Before(stamps[q][at[q]], s);
      if i > at[q] {
        InOrder(h, stamps, last, q, at[q], i);
      }
    }
  }

  lemma StepHoldsExactly(h: Histories, stamps: Stamps, last: int, at: Positions, s: Stamp)
    requires Streamed(h, stamps, last) && SameShape(h, stamps) && Within(h, at)
    requires CutAt(h, stamps, at, s) && Consumes(h, stamps, at, s)
    ensures RoundGroup(Fronts(h, at)).frame == s.frame
    ensures HoldsExactly(h, stamps, s, RoundGroup(Fronts(h, at)).members)
  {
    hide AllBefore;
    var fronts := Fronts(h, at);
    var m := RoundGroup(fronts).frame;
    MatchingInOrder(fronts, m, |h|);
    var first :| 0 <= first < |h| && stamps[first][at[first]] == s;
    assert h[first][at[first]].frame == s.frame;
    forall t ensures t in RoundGroup(fronts).members <==> Carried(h, stamps, s, t) {
      MatchingIsComplete(fronts, m, |h|, t);
      if t.queue < |h| {
        assert NextPositions(h, at)[t.queue] == at[t.queue] + 1 <==> fronts[t.queue].frame == m;
        OnlyFrontCarries(h, stamps, last, at, s, t);
      }
    }
  }

  lemma {:induction false} AlignedKeys(h: Histories, stamps: Stamps, last: int, k: nat) returns (keys: seq<Stamp>)
    requires Streamed(h, stamps, last) && SameShape(h, stamps) && CutsAligned(h, stamps) && Rounds(h, k).Some?
    ensures AlignedRun(h, stamps, Rounds(h, k).value, keys)
  {
    hide Rounds, Streamed, Earliest, Consumes, LaterAreLarger, NextPositions, RoundGroup, Separated, AlignedRun;
    if k == 0 {
      RoundsStart(h);
      keys := [];
      NothingEmitted(h, stamps);
    } else {
      RoundsUnfold(h, k);
      keys := AlignedKeys(h, stamps, last, k - 1);
      var p := Rounds(h, k - 1).value;
      var s := EarliestFront(h, stamps, p.at);
      RoundsSeparated(h, stamps, last, k - 1);
      SeparatedIsCut(h, stamps, p.at, s);
      RoundAlignedExact(h, stamps, last, p.at, s);
      AlignedStep(h, stamps, last, p, keys, s);
      keys := keys + [s];
    }
  }

  lemma NothingEmitted(h: Histories, stamps: Stamps)
    requires SameShape(h, stamps)
    ensures AlignedRun(h, stamps, Progress(Zeros(|h|), []), [])
  {
  }

  /** Conversely, outputs with these properties come from aligned rounds only. */
  lemma OutputRoundAligned(h: Histories, stamps: Stamps, last: int, at: Positions, key: Stamp, s: Stamp)
    requires Streamed(h, stamps, last) && SameShape(h, stamps) && Within(h, at) && Ready(h, at)
    requires HoldsExactly(h, stamps, key, RoundGroup(Fronts(h, at)).members)
    requires ConsumedUpTo(h, stamps, NextPositions(h, at), key) && Earliest(stamps, at, s)
    ensures Consumes(h, stamps, at, s)
  {
    hide Streamed, QueueOrder;
    var fronts, next := Fronts(h, at), NextPositions(h, at);
    var m := RoundGroup(fronts).frame;
    var t := RoundHasMember(fronts);
    MatchingIsComplete(fronts, m, |h|, t);
    assert !Before(key, stamps[t.queue][at[t.queue]]);
    var q :| 0 <= q < |h| && stamps[q][at[q]] == s;
    assert !Before(key, s);
    var u := Tagged(q, fronts[q]);
    MatchingIsComplete(fronts, m, |h|, u);
    assert Carried(h, stamps, key, u);
    var i :| 0 <= i < |h[q]| && stamps[q][i] == key;
    assert i < next[q];
    NotBehind(h, stamps, last, q, i, at[q]);
  }

  lemma NotBehind(h: Histories, stamps: Stamps, last: int, q: nat, i: nat, n: nat)
    requires Streamed(h, stamps, last) && q < |h| && i <= n < |h[q]| && !Before(stamps[q][i], stamps[q][n])
    ensures i == n
  {
  }

  /** However many rounds have taken place, what they emitted is an aligned run. */
  ghost predicate OutputsAligned(h: Histories, stamps: Stamps)
    requires SameShape(h, stamps)
  {
    forall k: nat :: Rounds(h, k).Some? ==> exists keys :: AlignedRun(h, stamps, Rounds(h, k).value, keys)
  }

  lemma OutputsAlignRuns(h: Histories, stamps: Stamps, last: int)
    requires Streamed(h, stamps, last) && SameShape(h, stamps) && OutputsAligned(h, stamps)
    ensures RunAligned(h, stamps)
  {
    hide Rounds, Streamed, Earliest, Consumes, HoldsExactly, ConsumedUpTo, RoundGroup, NextPositions, Fronts;
    forall k: nat, s | Rounds(h, k).Some? && Ready(h, Rounds(h, k).value.at) &&
                       Earliest(stamps, Rounds(h, k).value.at, s)
      ensures Consumes(h, stamps, Rounds(h, k).value.at, s)
    {
      RoundExtends(h, k);
      var keys :| AlignedRun(h, stamps, Rounds(h, k + 1).value, keys);
      OutputRoundAligned(h, stamps, last, Rounds(h, k).value.at, keys[k], s);
    }
  }

  // ---------------------------------------------------------------- the result

  /**
   * Exactly when the merge stays aligned, whatever has been lost. These are equivalent: every round consumes
   * exactly the fronts of the earliest stamp; every run emits outputs with strictly increasing (epoch, frame),
   * each holding exactly the surviving packets of its (epoch, frame); and at every cut of the histories the
   * fronts of later epochs have larger frame numbers.
   */
  lemma MergeAlignedExact(h: Histories, stamps: Stamps, last: int)
    requires Streamed(h, stamps, last)
    ensures SameShape(h, stamps)
    ensures RunAligned(h, stamps) <==> CutsAligned(h, stamps)
    ensures OutputsAligned(h, stamps) <==> CutsAligned(h, stamps)
  {
    Shaped(h, stamps, last);
    hide Rounds, Streamed, CutsAligned, RunAligned, AlignedRun;
    if CutsAligned(h, stamps) {
      CutsAlignRuns(h, stamps, last);
      forall k: nat | Rounds(h, k).Some? ensures exists keys :: AlignedRun(h, stamps, Rounds(h, k).value, keys) {
        var keys := AlignedKeys(h, stamps, last, k);
      }
    }
    if OutputsAligned(h, stamps) {
      OutputsAlignRuns(h, stamps, last);
    }
    if RunAligned(h, stamps) {
      RunsAlignCuts(h, stamps, last);
    }
  }

  /** Keeping the last frame of every epoch is enough: then no front is ever of a later epoch than another. */
  lemma KeepingLastFramesIsEnough(h: Histories, stamps: Stamps, last: int)
    requires Streamed(h, stamps, last) && KeepsLastFrames(stamps, last)
    ensures SameShape(h, stamps) && CutsAligned(h, stamps)
  {
    Shaped(h, stamps, last);
    forall at, s | CutAt(h, stamps, at, s) ensures LaterAreLarger(stamps, at, s) {
      hide Streamed, KeepsLastFrames;
      var p :| 0 <= p < |h| && stamps[p][at[p]] == s;
      FrameInRange(h, stamps, last, p, at[p]);
      forall q | 0 <= q < |h| ensures stamps[q][at[q]].epoch <= s.epoch {
        if s.epoch < stamps[q][at[q]].epoch {
          var i := LastFrameBehind(h, stamps, last, q, at[q], s.epoch);
        }
      }
    }
  }

  lemma FrameInRange(h: Histories, stamps: Stamps, last: int, q: nat, i: nat)
    requires Streamed(h, stamps, last) && q < |h| && i < |h[q]|
    ensures stamps[q][i].frame <= last
  {
    assert h[q][i].frame == stamps[q][i].frame;
  }

  /** The last frame of an earlier epoch lies behind. */
  lemma LastFrameBehind(h: Histories, stamps: Stamps, last: int, q: nat, n: nat, e: nat) returns (i: nat)
    requires Streamed(h, stamps, last) && KeepsLastFrames(stamps, last)
    requires q < |h| && n < |h[q]| && e < stamps[q][n].epoch
    ensures i < n && stamps[q][i] == Stamp(e, last)
  {
    i :| 0 <= i < |stamps[q]| && stamps[q][i] == Stamp(e, last);
  }

  // ---------------------------------------------------------------- kept wraps

  /** Every packet that is next in its queue belongs to epoch e. */
  ghost predicate NextInEpoch(h: Histories, stamps: Stamps, at: Positions, e: nat)
    requires SameShape(h, stamps) && |at| == |h|
  {
    forall q :: 0 <= q < |h| && at[q] < |h[q]| ==> stamps[q][at[q]].epoch == e
  }

  lemma NotLaterEpoch(h: Histories, stamps: Stamps, last: int, p: Progress, keys: seq<Stamp>, q: nat, r: nat)
    requires Streamed(h, stamps, last) && KeepsLastFrames(stamps, last)
    requires SameShape(h, stamps) && Within(h, p.at) && AlignedRun(h, stamps, p, keys)
    requires q < |h| && p.at[q] < |h[q]| && r < |h| && p.at[r] < |h[r]|
    ensures stamps[q][p.at[q]].epoch >= stamps[r][p.at[r]].epoch
  {
    hide Streamed, KeepsLastFrames, HoldsExactly;
    FrameInRange(h, stamps, last, q, p.at[q]);
    if stamps[q][p.at[q]].epoch < stamps[r][p.at[r]].epoch {
      var i := LastFrameBehind(h, stamps, last, r, p.at[r], stamps[q][p.at[q]].epoch);
    }
  }

  /**
   * Alignment under loss and across wraps. If every history is a subsequence of the sender's stream that
   * keeps each epoch's last frame, then at every loop head all packets that are next in their queues
   * belong to one epoch, the outputs so far have strictly increasing (epoch, frame), each output holds
   * exactly the surviving packets of its (epoch, frame) in queue order, and none of an earlier stamp is
   * left behind.
   */
  lemma AlignedUnderLoss(h: Histories, stamps: Stamps, last: int, k: nat)
    requires Streamed(h, stamps, last) && KeepsLastFrames(stamps, last) && Rounds(h, k).Some?
    ensures SameShape(h, stamps)
    ensures exists keys :: AlignedRun(h, stamps, Rounds(h, k).value, keys)
    ensures exists e: nat :: NextInEpoch(h, stamps, Rounds(h, k).value.at, e)
  {
    hide Rounds, AlignedRun, Streamed, KeepsLastFrames, CutsAligned;
    KeepingLastFramesIsEnough(h, stamps, last);
    var keys := AlignedKeys(h, stamps, last, k);
    var p := Rounds(h, k).value;
    forall q: nat, r: nat | q < |h| && p.at[q] < |h[q]| && r < |h| && p.at[r] < |h[r]|
      ensures stamps[q][p.at[q]].epoch == stamps[r][p.at[r]].epoch
    {
      NotLaterEpoch(h, stamps, last, p, keys, q, r);
      NotLaterEpoch(h, stamps, last, p, keys, r, q);
    }
    if q: nat :| q < |h| && p.at[q] < |h[q]| {
      assert NextInEpoch(h, stamps, p.at, stamps[q][p.at[q]].epoch);
    } else {
      assert NextInEpoch(h, stamps, p.at, 0);
    }
  }

  // ---------------------------------------------------------------- special cases

  ghost predicate FramesIncrease(h: Histories) {
    forall q, i, j :: 0 <= q < |h| && 0 <= i < j < |h[q]| ==> h[q][i].frame < h[q][j].frame
  }

  ghost predicate HoldsAllOfFrame(h: Histories, g: Group) {
    && QueueOrder(g.members)
    && forall t :: t in g.members <==> t.queue < |h| && t.packet in h[t.queue] && t.packet.frame == g.frame
  }

  /**
   * Sorted complete merge: if frame numbers increase in every history, the emitted ones strictly increase
   * and every group holds all packets of its number across all queues, although the minimum was found in
   * one pass and used in another.
   */
  lemma SortedMerge(h: Histories, k: nat)
    requires FramesIncrease(h) && Rounds(h, k).Some?
    ensures forall i, j :: 0 <= i < j < k ==> Rounds(h, k).value.groups[i].frame < Rounds(h, k).value.groups[j].frame
    ensures forall j :: 0 <= j < k ==> HoldsAllOfFrame(h, Rounds(h, k).value.groups[j])
  {
    hide Rounds;
    var stamps := SingleEpoch(h);
    KeepingLastFramesIsEnough(h, stamps, 256);
    var keys := AlignedKeys(h, stamps, 256, k);
    var groups := Rounds(h, k).value.groups;
    forall j | 0 <= j < k ensures keys[j].epoch == 0 && HoldsAllOfFrame(h, groups[j]) {
      var t := GroupHasMember(h, k, j);
      assert Carried(h, stamps, keys[j], t);
      SingleEpochGroup(h, stamps, keys[j], groups[j]);
    }
  }

  /** Increasing frame numbers are a stream that never wraps. */
  ghost function SingleEpoch(h: Histories): (stamps: Stamps)
    requires FramesIncrease(h)
    ensures Streamed(h, stamps, 256) && KeepsLastFrames(stamps, 256)
    ensures forall q, i :: 0 <= q < |h| && 0 <= i < |h[q]| ==> stamps[q][i] == Stamp(0, h[q][i].frame)
  {
    seq(|h|, q requires 0 <= q < |h| => seq(|h[q]|, i requires 0 <= i < |h[q]| => Stamp(0, h[q][i].frame)))
  }

  lemma SingleEpochGroup(h: Histories, stamps: Stamps, key: Stamp, g: Group)
    requires FramesIncrease(h) && stamps == SingleEpoch(h)
    requires key == Stamp(0, g.frame) && HoldsExactly(h, stamps, key, g.members)
    ensures HoldsAllOfFrame(h, g)
  {
    forall t ensures t in g.members <==> t.queue < |h| && t.packet in h[t.queue] && t.packet.frame == g.frame {
      if t.queue < |h| && t.packet in h[t.queue] && t.packet.frame == g.frame {
        var i :| 0 <= i < |h[t.queue]| && h[t.queue][i] == t.packet;
        assert stamps[t.queue][i] == key;
        assert Carried(h, stamps, key, t);
      }
    }
  }

  // ---------------------------------------------------------------- one lost packet

  /** The histories when queue q0 has lost its packet number `lost` and nothing else. */
  function Losing(h: Histories, q0: nat, lost: nat): (g: Histories)
    requires q0 < |h| && lost < |h[q0]|
    ensures |g| == |h|
  {
    h[q0 := h[q0][..lost] + h[q0][lost + 1..]]
  }

  /** The number, in its sender's stream, of the i-th packet that queue q receives. */
  function NumberOf(q0: nat, lost: nat, q: nat, i: nat): nat {
    if q == q0 && i >= lost then i + 1 else i
  }

  function StampsLosing(h: Histories, q0: nat, lost: nat): (stamps: Stamps)
    requires q0 < |h| && lost < |h[q0]|
    ensures SameShape(Losing(h, q0, lost), stamps)
  {
    var g := Losing(h, q0, lost);
    seq(|g|, q requires 0 <= q < |g| =>
      seq(|g[q]|, i requires 0 <= i < |g[q]| => StampOf(NumberOf(q0, lost, q, i))))
  }

  lemma LosingIsStreamed(h: Histories, q0: nat, lost: nat)
    requires Lossless(h) && q0 < |h| && lost < |h[q0]|
    ensures Streamed(Losing(h, q0, lost), StampsLosing(h, q0, lost), 254)
  {
    var g: Histories := Losing(h, q0, lost);
    var stamps: Stamps := StampsLosing(h, q0, lost);
    forall q, i | 0 <= q < |g| && 0 <= i < |g[q]| ensures g[q][i].frame == stamps[q][i].frame <= 254 {
      assert g[q][i] == h[q][NumberOf(q0, lost, q, i)];
    }
    forall q, i, j | 0 <= q < |g| && 0 <= i < j < |g[q]| ensures Before(stamps[q][i], stamps[q][j]) {
      StampsInOrder(NumberOf(q0, lost, q, i), NumberOf(q0, lost, q, j));
    }
  }

  /** Lossless queues with n packets each go through n rounds in lockstep. */
  lemma {:induction false} LosslessRuns(h: Histories, n: nat)
    requires Lossless(h) && h != [] && forall q :: 0 <= q < |h| ==> n <= |h[q]|
    ensures Rounds(h, n).Some? && Rounds(h, n).value.at == seq(|h|, _ => n)
  {
    hide Rounds;
    if n == 0 {
      RoundsStart(h);
    } else {
      LosslessRuns(h, n - 1);
      RoundExtends(h, n - 1);
      LosslessLockstep(h, n);
    }
  }

  function Prefixes(h: Histories, n: nat): (p: Histories)
    requires forall q :: 0 <= q < |h| ==> n <= |h[q]|
    ensures |p| == |h| && forall q :: 0 <= q < |h| ==> p[q] == h[q][..n]
  {
    seq(|h|, q requires 0 <= q < |h| => h[q][..n])
  }

  /** Up to the loss the queues are in lockstep. */
  lemma RoundsBeforeLoss(h: Histories, q0: nat, lost: nat)
    requires Lossless(h) && q0 < |h| && forall q :: 0 <= q < |h| ==> lost < |h[q]|
    ensures Rounds(Losing(h, q0, lost), lost).Some?
    ensures Rounds(Losing(h, q0, lost), lost).value.at == seq(|h|, _ => lost)
  {
    hide Rounds;
    var before, g := Prefixes(h, lost), Losing(h, q0, lost);
    LosslessRuns(before, lost);
    assert forall q :: 0 <= q < |h| ==> before[q] == g[q][..lost];
    RoundsKeep(before, g, lost);
  }

  lemma {:induction false} OneMatches(fronts: seq<Packet>, frame: int, q0: nat, n: nat)
    requires n <= |fronts| && forall q :: 0 <= q < |fronts| ==> (fronts[q].frame == frame <==> q == q0)
    ensures Matching(fronts, frame, n) == if q0 < n then [Tagged(q0, fronts[q0])] else []
  {
    if n > 0 {
      OneMatches(fronts, frame, q0, n - 1);
    }
  }

  /**
   * One lost frame 254 is enough, in any epoch e and any one of two or more otherwise lossless queues: in
   * the round in which the others deliver that frame, the queue that lost it is alone with frame 0 of
   * epoch e + 1, and every other queue still holds its frame 254 of epoch e.
   */
  lemma LosingLastFrameMisaligns(h: Histories, q0: nat, e: nat)
    requires Lossless(h) && |h| >= 2 && q0 < |h| && forall q :: 0 <= q < |h| ==> 255 * e + 255 < |h[q]|
    ensures var lost := 255 * e + 254;
      var g: Histories := Losing(h, q0, lost);
    var stamps: Stamps := StampsLosing(h, q0, lost);
      && Streamed(g, stamps, 254) && Rounds(g, lost + 1).Some?
      && Rounds(g, lost + 1).value.groups[lost] == Group(0, [Tagged(q0, h[q0][lost + 1])])
      && stamps[q0][lost] == Stamp(e + 1, 0)
      && (forall q :: 0 <= q < |h| && q != q0 ==>
            Rounds(g, lost + 1).value.at[q] == lost && stamps[q][lost] == Stamp(e, 254))
      && !CutsAligned(g, stamps)
  {
    hide Rounds, Lossless;
    var lost := 255 * e + 254;
    var g: Histories := Losing(h, q0, lost);
    var stamps: Stamps := StampsLosing(h, q0, lost);
    LosingIsStreamed(h, q0, lost);
    RoundsBeforeLoss(h, q0, lost);
    var at := seq(|h|, _ => lost);
    RoundAfterLoss(h, q0, e);
    RoundExtends(g, lost);
    CutBeforeLoss(h, q0, e);
  }

  lemma FrameOf(h: Histories, q: nat, n: nat)
    requires Lossless(h) && q < |h| && n < |h[q]|
    ensures h[q][n].frame == StampOf(n).frame
  {
  }

  lemma WrapAround(e: nat)
    ensures StampOf(255 * e + 254) == Stamp(e, 254) && StampOf(255 * e + 255) == Stamp(e + 1, 0)
  {
  }

  lemma RoundAfterLoss(h: Histories, q0: nat, e: nat)
    requires Lossless(h) && |h| >= 2 && q0 < |h| && forall q :: 0 <= q < |h| ==> 255 * e + 255 < |h[q]|
    ensures var lost := 255 * e + 254;
      var g, at := Losing(h, q0, lost), seq(|h|, _ => lost);
      && Ready(g, at) && RoundGroup(Fronts(g, at)) == Group(0, [Tagged(q0, h[q0][lost + 1])])
      && (forall q :: 0 <= q < |h| && q != q0 ==> NextPositions(g, at)[q] == lost)
  {
    hide Matching, LeastFrame, Lossless, StampOf;
    var lost := 255 * e + 254;
    var g, at := Losing(h, q0, lost), seq(|h|, _ => lost);
    var fronts := Fronts(g, at);
    WrapAround(e);
    forall q | 0 <= q < |h| ensures fronts[q].frame == if q == q0 then 0 else 254 {
      assert fronts[q] == h[q][if q == q0 then lost + 1 else lost];
      FrameOf(h, q, lost);
      FrameOf(h, q, lost + 1);
    }
    assert fronts[q0].frame == 0;
    assert LeastFrame(fronts, |h|) == 0;
    OneMatches(fronts, 0, q0, |h|);
  }

  lemma CutBeforeLoss(h: Histories, q0: nat, e: nat)
    requires Lossless(h) && |h| >= 2 && q0 < |h| && forall q :: 0 <= q < |h| ==> 255 * e + 255 < |h[q]|
    ensures var lost := 255 * e + 254;
      var stamps := StampsLosing(h, q0, lost);
      && stamps[q0][lost] == Stamp(e + 1, 0)
      && (forall q :: 0 <= q < |h| && q != q0 ==> stamps[q][lost] == Stamp(e, 254))
      && !CutsAligned(Losing(h, q0, lost), stamps)
  {
    var lost := 255 * e + 254;
    var g: Histories := Losing(h, q0, lost);
    var stamps: Stamps := StampsLosing(h, q0, lost);
    var at, s := seq(|h|, _ => lost), Stamp(e, 254);
    WrapAround(e);
    hide StampOf;
    forall q, i | 0 <= q < |g| && 0 <= i < lost ensures Before(stamps[q][i], s) {
      StampsInOrder(i, lost);
    }
    var other := if q0 == 0 then 1 else 0;
    assert stamps[other][at[other]] == s;
    assert CutAt(g, stamps, at, s);
    assert !LaterAreLarger(stamps, at, s) by {
      assert stamps[q0][at[q0]] == Stamp(e + 1, 0);
    }
  }
}
