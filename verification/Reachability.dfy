/** Every round that the histories allow really takes place in some run of the concatinator. */
module Reachability {
  import opened Packets
  import opened Merge
  import opened Concatinator

  /** All packets are pushed before the thread takes its first step. */
  lemma {:induction false} PushEverything(h: Histories) returns (events: seq<Event>)
    ensures Run(|h|, events)
    ensures After(|h|, events).pushed == h && After(|h|, events).rounds == []
    ensures |After(|h|, events).queues| == |h|
    decreases Total(h)
  {
    hide Run, After;
    if q :| 0 <= q < |h| && h[q] != [] {
      var n := |h[q]| - 1;
      var less := h[q := h[q][..n]];
      TotalDecreases(h, less);
      events := PushEverything(less);
      var e := Push(q, h[q][n]);
      RunSnoc(|h|, events, e);
      events := events + [e];
      assert h[q] == h[q][..n] + [h[q][n]];
      assert After(|h|, events).pushed == h;
    } else {
      RunNothing(|h|);
      events := [];
      assert Initial(|h|).pushed == h;
    }
  }

  lemma {:induction false} EarlierRounds(h: Histories, k: nat, j: nat)
    requires Rounds(h, k).Some? && j < k
    ensures Rounds(h, j).Some? && Ready(h, Rounds(h, j).value.at)
  {
    hide Rounds, Ready;
    RoundsUnfold(h, k);
    if j < k - 1 {
      EarlierRounds(h, k - 1, j);
    }
  }

  /** How many steps are left in the current round. */
  function StepsLeft(s: State): nat {
    var n := |s.queues|;
    match s.phase
    case Scan(i, _) => if i <= n then 3 * n + 3 - i else 0
    case Collect(i, _, _) => if i <= n then 2 * (n - i) + 1 else 0
    case PopFront(i, _, _) => if i < n then 2 * (n - i) else 0
  }

  /** As long as another round is possible the thread is not blocked and gets on with it. */
  lemma ThreadSteps(s: State) returns (e: Event)
    requires Invariant(s) && Ready(s.pushed, s.base)
    ensures !e.Push? && Enabled(s, e) && Apply(s, e).pushed == s.pushed
    ensures |Apply(s, e).rounds| == |s.rounds| + 1 ||
            (Apply(s, e).rounds == s.rounds && StepsLeft(Apply(s, e)) < StepsLeft(s))
  {
    hide Rounds, LeastFrame, Matching;
    match s.phase
    case Scan(i, _) => e := if i == |s.queues| then EndScan else ScanFront;
    case Collect(i, _, _) =>
      if i == |s.queues| {
        e := Send;
        EndedRoundHasPackets(s);
      } else {
        e := CollectFront;
      }
    case PopFront(_, _, _) => e := Pop;
  }

  lemma {:induction false} GoOn(h: Histories, k: nat, before: seq<Event>) returns (events: seq<Event>)
    requires Run(|h|, before) && After(|h|, before).pushed == h && |After(|h|, before).rounds| <= k && Rounds(h, k).Some?
    ensures Run(|h|, events) && After(|h|, events).pushed == h && |After(|h|, events).rounds| == k
    decreases k - |After(|h|, before).rounds|, StepsLeft(After(|h|, before))
  {
    hide Run, After, Rounds, Ready, Apply, Enabled, InPhase;
    var s := After(|h|, before);
    RunInvariant(|h|, before);
    if |s.rounds| == k {
      events := before;
    } else {
      EarlierRounds(h, k, |s.rounds|);
      var e := ThreadSteps(s);
      RunSnoc(|h|, before, e);
      events := GoOn(h, k, before + [e]);
    }
  }

  /** The merge is not an upper bound only: after any number of rounds that it has, some run stands there. */
  lemma RoundsAreReachable(h: Histories, k: nat) returns (events: seq<Event>)
    requires Rounds(h, k).Some?
    ensures Run(|h|, events) && After(|h|, events).pushed == h
    ensures Rounds(h, k) == Some(Progress(After(|h|, events).base, After(|h|, events).rounds))
  {
    hide Run, After, Rounds;
    events := PushEverything(h);
    events := GoOn(h, k, events);
    RunInvariant(|h|, events);
  }
}
