/**
 * The concatinator on top of real shared queues: every access to a queue is a critical section of that
 * queue's monitor, in which the thread may block, and receivers push and notify in separate steps.
 */
module QueueSystem {
  import opened Packets
  import opened Merge
  import opened Message
  import SharedQueue
  import Concatinator

  type Tid = SharedQueue.Tid

  /** The concatinator's thread. */
  const CONSUMER: Tid := 0

  /** Any threads push; one thread consumes, and it uses `front` and `pop_front`. */
  function ConfigOf(producers: set<Tid>): SharedQueue.Config {
    SharedQueue.Config(producers, {CONSUMER}, true)
  }

  /** The monitors of all queues, and the state of the thread between its accesses to them. */
  datatype State = State(
    monitors: seq<SharedQueue.State<Packet>>, phase: Concatinator.Phase, wire: seq<seq<Byte>>, offset: nat,
    base: Positions, rounds: seq<Group>)

  /** A section of some queue, or one of the two steps of the thread that touch no queue. */
  datatype Event = Section(q: nat, e: SharedQueue.Event<Packet>) | EndScan | Send

  function Initial(n: nat): State {
    State(seq(n, _ => SharedQueue.Initial()), Concatinator.Scan(0, 256), [], 0, Zeros(n), [])
  }

  /** The state without the monitors' inner life: contents and histories only. */
  function Core(s: State): Concatinator.State {
    Concatinator.State(
      seq(|s.monitors|, q requires 0 <= q < |s.monitors| => s.monitors[q].queue), s.phase, s.wire, s.offset,
      seq(|s.monitors|, q requires 0 <= q < |s.monitors| => s.monitors[q].pushed), s.base, s.rounds)
  }

  // ---------------------------------------------------------------- steps

  /** The thread calls `front` in both passes and `pop_front` after a match, on the queue it has reached. */
  predicate InPlace(s: State, q: nat, e: SharedQueue.Event<Packet>) {
    match e
    case Front(_, _) => !s.phase.PopFront? && s.phase.i == q
    case Pop(_, _) => s.phase.PopFront? && s.phase.i == q
    case _ => true
  }

  predicate Enabled(producers: set<Tid>, s: State, e: Event) {
    match e
    case Section(q, x) =>
      q < |s.monitors| && SharedQueue.Enabled(ConfigOf(producers), s.monitors[q], x) && InPlace(s, q, x)
    case EndScan => Concatinator.Enabled(Core(s), Concatinator.EndScan)
    case Send => Concatinator.Enabled(Core(s), Concatinator.Send)
  }

  /** What a step is to the concatinator; None for notifications, wake-ups and calls that block. */
  function CoreEvent(s: State, e: Event): Option<Concatinator.Event>
    requires e.Section? ==> e.q < |s.monitors|
  {
    match e
    case EndScan => Some(Concatinator.EndScan)
    case Send => Some(Concatinator.Send)
    case Section(q, Push(_, packet)) => Some(Concatinator.Push(q, packet))
    case Section(q, Front(_, _)) =>
      if s.monitors[q].queue == [] then None
      else Some(if s.phase.Scan? then Concatinator.ScanFront else Concatinator.CollectFront)
    case Section(q, Pop(_, _)) => if s.monitors[q].queue == [] then None else Some(Concatinator.Pop)
    case Section(_, _) => None
  }

  lemma CoreEnabled(producers: set<Tid>, s: State, e: Event)
    requires Enabled(producers, s, e) && CoreEvent(s, e).Some?
    ensures Concatinator.Enabled(Core(s), CoreEvent(s, e).value)
  {
  }

  /** The thread goes on with what it has computed from the value it got. */
  function Apply(producers: set<Tid>, s: State, e: Event): State
    requires Enabled(producers, s, e)
  {
    var monitors :=
      if e.Section? then s.monitors[e.q := SharedQueue.Apply(ConfigOf(producers), s.monitors[e.q], e.e)] else s.monitors;
    match CoreEvent(s, e)
    case None => s.(monitors := monitors)
    case Some(c) =>
      CoreEnabled(producers, s, e);
      var t := Concatinator.Apply(Core(s), c);
      State(monitors, t.phase, t.wire, t.offset, t.base, t.rounds)
  }

  // ---------------------------------------------------------------- runs

  function Replay(producers: set<Tid>, n: nat, events: seq<Event>): Option<State> {
    if events == [] then Some(Initial(n))
    else
      var k := |events| - 1;
      match Replay(producers, n, events[..k])
      case None => None
      case Some(s) => if Enabled(producers, s, events[k]) then Some(Apply(producers, s, events[k])) else None
  }

  predicate Run(producers: set<Tid>, n: nat, events: seq<Event>) {
    Replay(producers, n, events).Some?
  }

  function After(producers: set<Tid>, n: nat, events: seq<Event>): State
    requires Run(producers, n, events)
  {
    Replay(producers, n, events).value
  }

  lemma RunLast(producers: set<Tid>, n: nat, events: seq<Event>)
    requires Run(producers, n, events) && events != []
    ensures var k := |events| - 1;
      && Run(producers, n, events[..k]) && Enabled(producers, After(producers, n, events[..k]), events[k])
      && After(producers, n, events) == Apply(producers, After(producers, n, events[..k]), events[k])
  {
  }

  lemma RunNothing(producers: set<Tid>, n: nat)
    ensures Run(producers, n, []) && After(producers, n, []) == Initial(n)
  {
  }

  // ---------------------------------------------------------------- the two projections

  /** A step with an effect on contents is that step of the concatinator; any other leaves it where it is. */
  lemma StepProjects(producers: set<Tid>, s: State, e: Event)
    requires Enabled(producers, s, e)
    ensures match CoreEvent(s, e)
      case None => Core(Apply(producers, s, e)) == Core(s)
      case Some(c) => Concatinator.Enabled(Core(s), c) && Core(Apply(producers, s, e)) == Concatinator.Apply(Core(s), c)
  {
    if CoreEvent(s, e).Some? {
      CoreEnabled(producers, s, e);
    }
  }

  lemma {:induction false} ProjectsToConcatinator(producers: set<Tid>, n: nat, events: seq<Event>)
    returns (steps: seq<Concatinator.Event>)
    requires Run(producers, n, events)
    ensures Concatinator.Run(n, steps) && Concatinator.After(n, steps) == Core(After(producers, n, events))
  {
    hide Replay, Run, After, Apply, Enabled, Core, CoreEvent, Concatinator.Run, Concatinator.After;
    if events == [] {
      RunNothing(producers, n);
      CoreInitial(n);
      Concatinator.RunNothing(n);
      steps := [];
    } else {
      var k := |events| - 1;
      RunLast(producers, n, events);
      steps := ProjectsToConcatinator(producers, n, events[..k]);
      var s := After(producers, n, events[..k]);
      SectionInRange(producers, s, events[k]);
      StepProjects(producers, s, events[k]);
      if CoreEvent(s, events[k]).Some? {
        Concatinator.RunSnoc(n, steps, CoreEvent(s, events[k]).value);
        steps := steps + [CoreEvent(s, events[k]).value];
      }
    }
  }

  lemma SectionInRange(producers: set<Tid>, s: State, e: Event)
    requires Enabled(producers, s, e)
    ensures e.Section? ==> e.q < |s.monitors|
    ensures |Apply(producers, s, e).monitors| == |s.monitors|
  {
  }

  lemma CoreInitial(n: nat)
    ensures Core(Initial(n)) == Concatinator.Initial(n)
  {
  }

  /** Each queue goes through a run of its own monitor. */
  lemma {:induction false} ProjectsToQueue(producers: set<Tid>, n: nat, events: seq<Event>, q: nat)
    returns (sections: seq<SharedQueue.Event<Packet>>)
    requires Run(producers, n, events) && q < n
    ensures |After(producers, n, events).monitors| == n
    ensures SharedQueue.Run(ConfigOf(producers), sections)
    ensures SharedQueue.After(ConfigOf(producers), sections) == After(producers, n, events).monitors[q]
  {
    hide Replay, Run, After, Apply, Enabled, Core, CoreEvent, SharedQueue.Run, SharedQueue.After;
    if events == [] {
      RunNothing(producers, n);
      SharedQueue.InitialRun<Packet>(ConfigOf(producers));
      sections := [];
    } else {
      var k := |events| - 1;
      RunLast(producers, n, events);
      sections := ProjectsToQueue(producers, n, events[..k], q);
      var s := After(producers, n, events[..k]);
      SectionInRange(producers, s, events[k]);
      MonitorSteps(producers, s, events[k], q);
      if events[k].Section? && events[k].q == q {
        SharedQueue.RunSnoc(ConfigOf(producers), sections, events[k].e);
        sections := sections + [events[k].e];
      }
    }
  }

  lemma MonitorSteps(producers: set<Tid>, s: State, e: Event, q: nat)
    requires Enabled(producers, s, e) && q < |s.monitors|
    ensures |Apply(producers, s, e).monitors| == |s.monitors|
    ensures if e.Section? && e.q == q then
              SharedQueue.Enabled(ConfigOf(producers), s.monitors[q], e.e) &&
              Apply(producers, s, e).monitors[q] == SharedQueue.Apply(ConfigOf(producers), s.monitors[q], e.e)
            else Apply(producers, s, e).monitors[q] == s.monitors[q]
  {
  }

  // ---------------------------------------------------------------- where the thread blocks

  predicate Inside(m: SharedQueue.State<Packet>) {
    CONSUMER in m.waiting || CONSUMER in m.signalled
  }

  /** The thread is only ever inside the monitor it has reached, in the call its phase says. */
  predicate Placed(s: State) {
    forall q :: 0 <= q < |s.monitors| && Inside(s.monitors[q]) ==>
      q == s.phase.i && (CONSUMER in s.monitors[q].fronts <==> !s.phase.PopFront?)
  }

  lemma PlacedStep(producers: set<Tid>, s: State, e: Event)
    requires Enabled(producers, s, e) && Placed(s)
    requires forall q :: 0 <= q < |s.monitors| ==> SharedQueue.Consistent(ConfigOf(producers), s.monitors[q])
    ensures Placed(Apply(producers, s, e))
  {
    var t := Apply(producers, s, e);
    forall q | 0 <= q < |t.monitors| && Inside(t.monitors[q])
      ensures q == t.phase.i && (CONSUMER in t.monitors[q].fronts <==> !t.phase.PopFront?)
    {
      MonitorSteps(producers, s, e, q);
      if e.Section? {
        SectionPlaced(producers, s, e, q);
      }
    }
  }

  lemma SectionPlaced(producers: set<Tid>, s: State, e: Event, q: nat)
    requires Enabled(producers, s, e) && e.Section? && Placed(s) && q < |s.monitors|
    requires SharedQueue.Consistent(ConfigOf(producers), s.monitors[e.q])
    requires Inside(Apply(producers, s, e).monitors[q])
    ensures var t := Apply(producers, s, e);
      q == t.phase.i && (CONSUMER in t.monitors[q].fronts <==> !t.phase.PopFront?)
  {
  }

  lemma {:induction false} RunPlaced(producers: set<Tid>, n: nat, events: seq<Event>)
    requires Run(producers, n, events)
    ensures |After(producers, n, events).monitors| == n && Placed(After(producers, n, events))
    ensures forall q :: 0 <= q < n ==> SharedQueue.Good(ConfigOf(producers), After(producers, n, events).monitors[q])
  {
    hide Replay, Run, After, Apply, Enabled, Placed;
    if events == [] {
      RunNothing(producers, n);
      InitiallyPlaced(n);
    } else {
      var k := |events| - 1;
      RunLast(producers, n, events);
      RunPlaced(producers, n, events[..k]);
      var s := After(producers, n, events[..k]);
      SectionInRange(producers, s, events[k]);
      PlacedStep(producers, s, events[k]);
    }
    forall q | 0 <= q < n ensures SharedQueue.Good(ConfigOf(producers), After(producers, n, events).monitors[q]) {
      var sections := ProjectsToQueue(producers, n, events, q);
      SharedQueue.RunIsGood(ConfigOf(producers), sections);
    }
  }

  lemma InitiallyPlaced(n: nat)
    ensures |Initial(n).monitors| == n && Placed(Initial(n))
  {
  }

  // ---------------------------------------------------------------- the results

  /**
   * Refinement: every run of the concatinator over real monitors, whatever blocks, wakes up late or wakes up
   * for nothing, is a run of the concatinator over plain queues; and no queue ever loses a wake-up.
   */
  lemma MonitorsRefineQueues(producers: set<Tid>, n: nat, events: seq<Event>) returns (steps: seq<Concatinator.Event>)
    requires Run(producers, n, events)
    ensures Concatinator.Run(n, steps) && Concatinator.After(n, steps) == Core(After(producers, n, events))
    ensures forall q :: 0 <= q < |After(producers, n, events).monitors| ==>
      !SharedQueue.LostWakeup(After(producers, n, events).monitors[q])
  {
    hide Run, After, Core, Concatinator.Run, Concatinator.After;
    steps := ProjectsToConcatinator(producers, n, events);
    RunPlaced(producers, n, events);
  }

  /** Nothing can happen but a push or a spurious wake-up. */
  ghost predicate Quiet(producers: set<Tid>, s: State) {
    forall e :: Enabled(producers, s, e) ==> e.Section? && (e.e.Push? || e.e.Spurious?)
  }

  /**
   * Progress: when the thread and all notifications have come to rest, everything that has been pushed is
   * merged and on the wire, as far as it can be merged. No wake-up the thread needs is ever missing.
   */
  lemma QuietIsComplete(producers: set<Tid>, n: nat, events: seq<Event>)
    requires Run(producers, n, events) && Quiet(producers, After(producers, n, events))
    ensures var s := After(producers, n, events);
      && s.rounds == Merged(Core(s).pushed)
      && s.wire == Concatinator.WireOf(Messages(Merged(Core(s).pushed)))
  {
    hide Run, After, Concatinator.Run, Concatinator.After, Merged, Messages, Concatinator.WireOf;
    var s := After(producers, n, events);
    var steps := MonitorsRefineQueues(producers, n, events);
    RunPlaced(producers, n, events);
    InRange(n, steps);
    QuietBlocks(producers, s);
    Concatinator.BlockedIsComplete(n, steps);
    Concatinator.OutputIsPrefixOfMerge(n, steps);
  }

  lemma InRange(n: nat, steps: seq<Concatinator.Event>)
    requires Concatinator.Run(n, steps)
    ensures Concatinator.After(n, steps).phase.i <= |Concatinator.After(n, steps).queues|
    ensures Concatinator.After(n, steps).phase.PopFront? ==>
      Concatinator.After(n, steps).phase.i < |Concatinator.After(n, steps).queues|
  {
    hide Concatinator.Run, Concatinator.After;
    Concatinator.RunInvariant(n, steps);
  }

  /** A quiet thread is asleep in the monitor of an empty queue. */
  lemma QuietBlocks(producers: set<Tid>, s: State)
    requires Quiet(producers, s) && Placed(s) && s.phase.i <= |s.monitors|
    requires s.phase.PopFront? ==> s.phase.i < |s.monitors|
    requires forall q :: 0 <= q < |s.monitors| ==> SharedQueue.Good(ConfigOf(producers), s.monitors[q])
    ensures Concatinator.Blocked(Core(s))
  {
    assert !Enabled(producers, s, EndScan) && !Enabled(producers, s, Send);
    var q := s.phase.i;
    assert q < |s.monitors|;
    var m := s.monitors[q];
    ThreadSleeps(producers, s);
    if t :| t in m.notifying {
      assert Enabled(producers, s, Section(q, SharedQueue.Notify(t, Some(CONSUMER))));
    }
    assert m.notifying == {};
  }

  lemma ThreadSleeps(producers: set<Tid>, s: State)
    requires Quiet(producers, s) && Placed(s) && s.phase.i < |s.monitors|
    ensures CONSUMER in s.monitors[s.phase.i].waiting
  {
    var q := s.phase.i;
    var m, resumed := s.monitors[q], CONSUMER in s.monitors[q].signalled;
    var call := if s.phase.PopFront? then SharedQueue.Pop(CONSUMER, resumed) else SharedQueue.Front(CONSUMER, resumed);
    if CONSUMER !in m.waiting {
      assert Enabled(producers, s, Section(q, call));
    }
  }
}
