/**
 * Alignment: frame numbers repeat, yet the merge keeps the queues together. Every packet has a stamp,
 * the epoch (how often its sender has wrapped) and the frame number; only the latter is on the wire.
 */
module Alignment {
  import opened Packets
  import opened Merge

  datatype Stamp = Stamp(epoch: nat, frame: int)

  predicate Before(a: Stamp, b: Stamp) {
    a.epoch < b.epoch || (a.epoch == b.epoch && a.frame < b.frame)
  }

  type Stamps = seq<seq<Stamp>>

  predicate SameShape(h: Histories, stamps: Stamps) {
    |stamps| == |h| && forall q :: 0 <= q < |h| ==> |stamps[q]| == |h[q]|
  }

  /** The stamp of the n-th packet of a sender. */
  function StampOf(n: nat): Stamp {
    Stamp(n / 255, n % 255)
  }

  lemma StampsInOrder(a: nat, b: nat)
    requires a < b
    ensures Before(StampOf(a), StampOf(b))
  {
  }

  /** Each history is a subsequence of a stream of epochs, each of which ends with frame `last`. */
  ghost predicate Streamed(h: Histories, stamps: Stamps, last: int) {
    && SameShape(h, stamps)
    && (forall q, i :: 0 <= q < |h| && 0 <= i < |h[q]| ==> h[q][i].frame == stamps[q][i].frame <= last)
    && (forall q, i, j :: 0 <= q < |h| && 0 <= i < j < |h[q]| ==> Before(stamps[q][i], stamps[q][j]))
  }

  /** No queue has lost the last frame of an epoch it has moved past. */
  ghost predicate KeepsLastFrames(stamps: Stamps, last: int) {
    forall q, i, e: nat :: 0 <= q < |stamps| && 0 <= i < |stamps[q]| && e < stamps[q][i].epoch ==>
      Stamp(e, last) in stamps[q]
  }

  lemma InOrder(h: Histories, stamps: Stamps, last: int, q: nat, i: nat, j: nat)
    requires Streamed(h, stamps, last) && q < |h| && i < j < |h[q]|
    ensures Before(stamps[q][i], stamps[q][j]) && stamps[q][j].frame <= last
  {
    assert h[q][j].frame == stamps[q][j].frame;
  }

  // ---------------------------------------------------------------- one round

  /** A packet of the merge that carries this stamp. */
  ghost predicate Carried(h: Histories, stamps: Stamps, key: Stamp, t: Tagged)
    requires SameShape(h, stamps)
  {
    t.queue < |h| && exists i :: 0 <= i < |h[t.queue]| && stamps[t.queue][i] == key && h[t.queue][i] == t.packet
  }

  predicate QueueOrder(members: seq<Tagged>) {
    forall i, j :: 0 <= i < j < |members| ==> members[i].queue < members[j].queue
  }

  /** The members are exactly the surviving packets with this stamp, one per queue, in queue order. */
  ghost predicate HoldsExactly(h: Histories, stamps: Stamps, key: Stamp, members: seq<Tagged>)
    requires SameShape(h, stamps)
  {
    QueueOrder(members) && forall t :: t in members <==> Carried(h, stamps, key, t)
  }

  /** Consumed are exactly the packets stamped up to `key`. */
  ghost predicate ConsumedUpTo(h: Histories, stamps: Stamps, at: Positions, key: Stamp)
    requires SameShape(h, stamps)
  {
    |at| == |h| && forall q, i :: 0 <= q < |h| && 0 <= i < |h[q]| ==>
      (i < at[q] <==> !Before(key, stamps[q][i]))
  }

  lemma {:induction false} MatchingInOrder(fronts: seq<Packet>, frame: int, n: nat)
    requires n <= |fronts|
    ensures QueueOrder(Matching(fronts, frame, n))
    ensures forall t :: t in Matching(fronts, frame, n) ==> t.queue < n
  {
    if n > 0 {
      MatchingInOrder(fronts, frame, n - 1);
    }
  }

  /** The stamps consumed so far all come before the key of the next round. */
  ghost predicate AllBefore(h: Histories, stamps: Stamps, at: Positions, key: Stamp)
    requires SameShape(h, stamps)
    requires Within(h, at)
  {
    forall q, i :: 0 <= q < |h| && 0 <= i < at[q] ==> Before(stamps[q][i], key)
  }

  lemma OnlyFrontCarries(h: Histories, stamps: Stamps, last: int, at: Positions, key: Stamp, t: Tagged)
    requires Streamed(h, stamps, last) && Ready(h, at) && AllBefore(h, stamps, at, key)
    requires t.queue < |h| && !Before(stamps[t.queue][at[t.queue]], key)
    ensures Carried(h, stamps, key, t) <==>
            stamps[t.queue][at[t.queue]] == key && h[t.queue][at[t.queue]] == t.packet
  {
    var q := t.queue;
    forall i | 0 <= i < |h[q]| && i != at[q] ensures stamps[q][i] != key {
      if i < at[q] {
        assert Before(stamps[q][i], key);
      } else {
        InOrder(h, stamps, last, q, at[q], i);
      }
    }
  }

  // ---------------------------------------------------------------- whole runs

  /** The outputs so far: strictly increasing stamps, each with exactly its surviving packets. */
  ghost predicate AlignedRun(h: Histories, stamps: Stamps, p: Progress, keys: seq<Stamp>)
    requires SameShape(h, stamps)
  {
    && |keys| == |p.groups|
    && (forall j :: 0 <= j < |keys| ==>
         p.groups[j].frame == keys[j].frame && HoldsExactly(h, stamps, keys[j], p.groups[j].members))
    && (forall i, j :: 0 <= i < j < |keys| ==> Before(keys[i], keys[j]))
    && (if keys == [] then p.at == Zeros(|h|) else ConsumedUpTo(h, stamps, p.at, keys[|keys| - 1]))
  }

  // ---------------------------------------------------------------- lossless runs

  /** Every queue has received the stream from its start without loss. */
  ghost predicate Lossless(h: Histories) {
    forall q, i :: 0 <= q < |h| && 0 <= i < |h[q]| ==> h[q][i].frame == i % 255
  }

  /**
   * Lockstep: without loss all queues have delivered equally many packets at every loop head, and the
   * n-th output has frame n mod 255 and consists of the n-th packet of every queue, across all wraps.
   */
  lemma {:induction false} LosslessLockstep(h: Histories, k: nat)
    requires Lossless(h) && Rounds(h, k).Some?
    ensures Rounds(h, k).value.at == seq(|h|, _ => k)
    ensures forall n :: 0 <= n < k ==> LockstepGroup(h, n, Rounds(h, k).value.groups[n])
  {
    hide Rounds, NextPositions, RoundGroup, LockstepGroup;
    if k == 0 {
      RoundsStart(h);
    } else {
      RoundsUnfold(h, k);
      LosslessLockstep(h, k - 1);
      LockstepRound(h, Rounds(h, k - 1).value.at, k - 1);
    }
  }

  /** The n-th packets of all queues, in queue order, under frame n mod 255. */
  predicate LockstepGroup(h: Histories, n: nat, g: Group) {
    && (forall q :: 0 <= q < |h| ==> n < |h[q]|)
    && g.frame == n % 255 && |g.members| == |h|
    && forall q :: 0 <= q < |h| ==> g.members[q] == Tagged(q, h[q][n])
  }

  lemma LockstepRound(h: Histories, at: Positions, n: nat)
    requires Lossless(h) && Ready(h, at) && at == seq(|h|, _ => n)
    ensures NextPositions(h, at) == seq(|h|, _ => n + 1)
    ensures LockstepGroup(h, n, RoundGroup(Fronts(h, at)))
  {
    var fronts := Fronts(h, at);
    forall q | 0 <= q < |h| ensures fronts[q].frame == n % 255 && n < |h[q]| {
      assert at[q] == n;
    }
    AllMatch(fronts, n % 255, |fronts|);
  }

  lemma {:induction false} AllMatch(fronts: seq<Packet>, frame: int, n: nat)
    requires n <= |fronts| && forall q :: 0 <= q < |fronts| ==> fronts[q].frame == frame
    ensures Matching(fronts, frame, n) == seq(n, q requires 0 <= q < n <= |fronts| => Tagged(q, fronts[q]))
  {
    if n > 0 {
      AllMatch(fronts, frame, n - 1);
    }
  }
}
