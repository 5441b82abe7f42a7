/**
 * The unbounded `SharedQueue`: `front` and `pop_front` wait on a condition variable while the queue is
 * empty, and `push_back` notifies one waiter after it has released the mutex. A run is any sequence of
 * critical sections and late notifications, spurious wake-ups included.
 */
module SharedQueue {
  import opened Packets

  type Tid = nat

  /** Who may push, who may consume, and whether consumers call `front` at all. */
  datatype Config = Config(producers: set<Tid>, consumers: set<Tid>, peeking: bool)

  /**
   * `waiting` and `signalled` are consumers blocked in a call, `fronts` those of them whose call is
   * `front`; `notifying` are producers that have pushed and unlocked but not yet notified.
   */
  datatype State<T> = State(
    queue: seq<T>, waiting: set<Tid>, signalled: set<Tid>, fronts: set<Tid>, notifying: set<Tid>,
    pushed: seq<T>, popped: seq<T>)

  datatype Event<T> =
    | Push(t: Tid, value: T)
    | Notify(t: Tid, wake: Option<Tid>)
    | Pop(t: Tid, resumed: bool)
    | Front(t: Tid, resumed: bool)
    | Spurious(t: Tid)

  function Initial<T>(): State<T> {
    State([], {}, {}, {}, {}, [], [])
  }

  // ---------------------------------------------------------------- the transitions

  predicate Enabled<T>(cfg: Config, s: State<T>, e: Event<T>) {
    match e
    case Push(t, _) => t in cfg.producers && t !in s.notifying
    case Notify(t, None) => t in s.notifying && s.waiting == {}
    case Notify(t, Some(w)) => t in s.notifying && w in s.waiting
    case Pop(t, true) => t in s.signalled && t !in s.fronts
    case Front(t, true) => t in s.signalled && t in s.fronts
    case Pop(t, false) => t in cfg.consumers && t !in s.waiting + s.signalled
    case Front(t, false) => cfg.peeking && t in cfg.consumers && t !in s.waiting + s.signalled
    case Spurious(t) => t in s.waiting
  }

  function Signal<T>(s: State<T>, t: Tid): State<T> {
    s.(waiting := s.waiting - {t}, signalled := s.signalled + {t})
  }

  function Apply<T>(cfg: Config, s: State<T>, e: Event<T>): State<T>
    requires Enabled(cfg, s, e)
  {
    match e
    case Push(t, v) => s.(queue := s.queue + [v], pushed := s.pushed + [v], notifying := s.notifying + {t})
    case Notify(t, wake) =>
      var s1 := s.(notifying := s.notifying - {t});
      if wake.Some? then Signal(s1, wake.value) else s1
    case Pop(t, _) =>
      var s1 := s.(signalled := s.signalled - {t});
      if s.queue == [] then s1.(waiting := s1.waiting + {t}, fronts := s1.fronts - {t})
      else s1.(queue := s.queue[1..], popped := s.popped + [s.queue[0]])
    case Front(t, _) =>
      var s1 := s.(signalled := s.signalled - {t});
      if s.queue == [] then s1.(waiting := s1.waiting + {t}, fronts := s1.fronts + {t}) else s1
    case Spurious(t) => Signal(s, t)
  }

  // ---------------------------------------------------------------- runs

  function Replay<T>(cfg: Config, events: seq<Event<T>>): Option<State<T>> {
    if events == [] then Some(Initial())
    else
      var n := |events| - 1;
      match Replay(cfg, events[..n])
      case None => None
      case Some(s) => if Enabled(cfg, s, events[n]) then Some(Apply(cfg, s, events[n])) else None
  }

  predicate Run<T>(cfg: Config, events: seq<Event<T>>) {
    Replay(cfg, events).Some?
  }

  function After<T>(cfg: Config, events: seq<Event<T>>): State<T>
    requires Run(cfg, events)
  {
    Replay(cfg, events).value
  }

  lemma RunSnoc<T>(cfg: Config, events: seq<Event<T>>, e: Event<T>)
    requires Run(cfg, events) && Enabled(cfg, After(cfg, events), e)
    ensures Run(cfg, events + [e])
    ensures After(cfg, events + [e]) == Apply(cfg, After(cfg, events), e)
  {
    assert (events + [e])[..|events|] == events;
  }

  lemma RunLast<T>(cfg: Config, events: seq<Event<T>>)
    requires Run(cfg, events) && events != []
    ensures var n := |events| - 1;
      && Run(cfg, events[..n]) && Enabled(cfg, After(cfg, events[..n]), events[n])
      && After(cfg, events) == Apply(cfg, After(cfg, events[..n]), events[n])
  {
  }

  // ---------------------------------------------------------------- the invariant

  predicate Consistent<T(==)>(cfg: Config, s: State<T>) {
    && s.pushed == s.popped + s.queue
    && s.waiting !! s.signalled && s.waiting + s.signalled <= cfg.consumers
    && s.notifying <= cfg.producers
    && (!cfg.peeking ==> s.fronts == {})
  }

  /** With `pop_front` alone, every queued value is matched by a notification that is on its way. */
  predicate ValuesNotified<T>(s: State<T>) {
    s.waiting != {} ==> |s.queue| <= |s.notifying| + |s.signalled|
  }

  /** With one consumer, a value it sleeps on has a notification that is on its way. */
  predicate SleeperNotified<T(==)>(s: State<T>) {
    s.waiting != {} && s.queue != [] ==> s.notifying != {}
  }

  predicate Good<T(==)>(cfg: Config, s: State<T>) {
    && Consistent(cfg, s)
    && (!cfg.peeking ==> ValuesNotified(s))
    && (|cfg.consumers| <= 1 ==> SleeperNotified(s))
  }

  lemma ConsistentStep<T>(cfg: Config, s: State<T>, e: Event<T>)
    requires Consistent(cfg, s) && Enabled(cfg, s, e)
    ensures Consistent(cfg, Apply(cfg, s, e))
  {
    match e
    case Push(_, v) => assert s.popped + (s.queue + [v]) == s.popped + s.queue + [v];
    case Pop(_, _) =>
      if s.queue != [] {
        assert s.popped + s.queue == s.popped + [s.queue[0]] + s.queue[1..];
      }
    case _ =>
  }

  lemma ValuesNotifiedStep<T>(cfg: Config, s: State<T>, e: Event<T>)
    requires Consistent(cfg, s) && Enabled(cfg, s, e) && !cfg.peeking && ValuesNotified(s)
    ensures ValuesNotified(Apply(cfg, s, e))
  {
  }

  lemma SleeperNotifiedStep<T>(cfg: Config, s: State<T>, e: Event<T>)
    requires Consistent(cfg, s) && Enabled(cfg, s, e) && |cfg.consumers| <= 1 && SleeperNotified(s)
    ensures SleeperNotified(Apply(cfg, s, e))
  {
    forall a, b | a in cfg.consumers && b in cfg.consumers ensures a == b {
      OneMember(cfg.consumers, a, b);
    }
  }

  /**
   * No lost wake-up, for any number of threads: unless consumers peek, a sleeping consumer implies
   * that the queue is no longer than the notifications still to come; and a single consumer may mix
   * `front` and `pop_front` freely. The popped values are the pushed ones, in order.
   */
  lemma {:induction false} RunIsGood<T>(cfg: Config, events: seq<Event<T>>)
    requires Run(cfg, events)
    ensures Good(cfg, After(cfg, events))
  {
    hide Replay, Run, After, Enabled, Apply, Consistent, ValuesNotified, SleeperNotified;
    if events == [] {
      InitiallyGood<T>(cfg);
    } else {
      var n := |events| - 1;
      RunLast(cfg, events);
      RunIsGood(cfg, events[..n]);
      var s := After(cfg, events[..n]);
      ConsistentStep(cfg, s, events[n]);
      if !cfg.peeking {
        ValuesNotifiedStep(cfg, s, events[n]);
      }
      if |cfg.consumers| <= 1 {
        SleeperNotifiedStep(cfg, s, events[n]);
      }
    }
  }

  lemma InitiallyGood<T>(cfg: Config)
    ensures Run<T>(cfg, []) && Good(cfg, After<T>(cfg, []))
  {
  }

  // ---------------------------------------------------------------- exactly when wake-ups get lost

  /** A consumer sleeps on a non-empty queue and no notification is on its way to anyone. */
  predicate LostWakeup<T(==)>(s: State<T>) {
    s.waiting != {} && s.queue != [] && s.signalled == {} && s.notifying == {}
  }

  /** Two consumers, one of them peeking: `front` swallows the only notification of a value it leaves. */
  lemma PeekLosesWakeup<T>(cfg: Config, p: Tid, c1: Tid, c2: Tid, v: T) returns (events: seq<Event<T>>)
    requires cfg.peeking && p in cfg.producers && c1 in cfg.consumers && c2 in cfg.consumers && c1 != c2
    ensures Run(cfg, events) && LostWakeup(After(cfg, events))
  {
    hide Replay, Run, After;
    InitialRun<T>(cfg);
    events := [];
    RunSnoc(cfg, events, Front(c1, false));
    events := events + [Front(c1, false)];
    RunSnoc(cfg, events, Front(c2, false));
    events := events + [Front(c2, false)];
    RunSnoc(cfg, events, Push(p, v));
    events := events + [Push(p, v)];
    RunSnoc(cfg, events, Notify(p, Some(c1)));
    events := events + [Notify(p, Some(c1))];
    RunSnoc(cfg, events, Front(c1, true));
    events := events + [Front(c1, true)];
    assert c2 in After(cfg, events).waiting;
  }

  lemma InitialRun<T>(cfg: Config)
    ensures Run<T>(cfg, []) && After<T>(cfg, []) == Initial()
  {
  }

  predicate NeverLoses(cfg: Config) {
    cfg.producers == {} || !cfg.peeking || |cfg.consumers| <= 1
  }

  lemma SafeRun<T>(cfg: Config, events: seq<Event<T>>)
    requires NeverLoses(cfg) && Run(cfg, events)
    ensures !LostWakeup(After(cfg, events))
  {
    hide Run, After;
    RunIsGood(cfg, events);
    if cfg.producers == {} {
      NothingPushed(cfg, events);
    }
  }

  /**
   * A wake-up can be lost exactly when somebody pushes, consumers peek and there are two of them. A thread
   * in both roles could not block in one and act in the other, so for such threads only safety is claimed.
   */
  lemma NoLostWakeupExact<T>(cfg: Config, v: T)
    ensures NeverLoses(cfg) ==> forall events: seq<Event<T>> :: Run(cfg, events) ==> !LostWakeup(After(cfg, events))
    ensures cfg.producers !! cfg.consumers ==>
      ((forall events: seq<Event<T>> :: Run(cfg, events) ==> !LostWakeup(After(cfg, events))) <==> NeverLoses(cfg))
  {
    hide Run, After;
    if NeverLoses(cfg) {
      forall events: seq<Event<T>> | Run(cfg, events) ensures !LostWakeup(After(cfg, events)) {
        SafeRun(cfg, events);
      }
    } else {
      var p :| p in cfg.producers;
      var c1 :| c1 in cfg.consumers;
      assert |cfg.consumers - {c1}| >= 1;
      var c2 :| c2 in cfg.consumers - {c1};
      var events := PeekLosesWakeup(cfg, p, c1, c2, v);
      assert Run(cfg, events) && LostWakeup(After(cfg, events));
    }
  }

  lemma {:induction false} NothingPushed<T>(cfg: Config, events: seq<Event<T>>)
    requires Run(cfg, events) && cfg.producers == {}
    ensures After(cfg, events).queue == []
  {
    if events != [] {
      NothingPushed(cfg, events[..|events| - 1]);
    }
  }

  /** Any sleeper may wake up for nothing; if there is nothing it goes back to sleep and nothing has changed. */
  lemma SpuriousIsHarmless<T>(cfg: Config, events: seq<Event<T>>, t: Tid)
    requires Run(cfg, events) && t in After(cfg, events).waiting && After(cfg, events).queue == []
    ensures var call := if t in After(cfg, events).fronts then Front(t, true) else Pop(t, true);
      && Run(cfg, events + [Spurious(t)] + [call])
      && After(cfg, events + [Spurious(t)] + [call]) == After(cfg, events)
  {
    hide Replay, Run, After, ValuesNotified, SleeperNotified;
    RunIsGood(cfg, events);
    var s := After(cfg, events);
    var call: Event<T> := if t in s.fronts then Front(t, true) else Pop(t, true);
    RunSnoc(cfg, events, Spurious(t));
    RunSnoc(cfg, events + [Spurious(t)], call);
    assert s.waiting - {t} + {t} == s.waiting && s.signalled + {t} - {t} == s.signalled;
    assert t in s.fronts ==> s.fronts + {t} == s.fronts;
    assert t !in s.fronts ==> s.fronts - {t} == s.fronts;
  }

  // ---------------------------------------------------------------- what a single consumer relies on

  /**
   * Nothing but a pop changes the front of a non-empty queue, so a consumer that is alone finds at
   * its `pop_front` the value its `front` returned, whatever is pushed in between.
   */
  lemma {:induction false} FrontIsStable<T>(cfg: Config, events: seq<Event<T>>, later: seq<Event<T>>)
    requires Run(cfg, events) && Run(cfg, events + later)
    requires After(cfg, events).queue != []
    requires forall i :: 0 <= i < |later| ==> !later[i].Pop?
    ensures After(cfg, events).queue <= After(cfg, events + later).queue
  {
    hide Replay, Run, After;
    if later == [] {
      assert events + later == events;
    } else {
      var n, all := |later| - 1, events + later;
      assert all[..|all| - 1] == events + later[..n];
      RunLast(cfg, all);
      FrontIsStable(cfg, events, later[..n]);
    }
  }

  /**
   * A single consumer pops exactly what its `front` returned, however many pushes, notifications and
   * spurious wake-ups come between the two calls.
   */
  lemma PopTakesWhatFrontReturned<T>(cfg: Config, events: seq<Event<T>>, t: Tid, r: bool, later: seq<Event<T>>, r': bool)
    requires |cfg.consumers| == 1 && Run(cfg, events) && Run(cfg, events + [Front(t, r)])
    requires After(cfg, events).queue != []
    requires Run(cfg, events + [Front(t, r)] + later) && Run(cfg, events + [Front(t, r)] + later + [Pop(t, r')])
    requires forall i :: 0 <= i < |later| && later[i].Pop? ==> later[i].t != t
    ensures var before, after := After(cfg, events), After(cfg, events + [Front(t, r)] + later + [Pop(t, r')]);
      after.popped == before.popped + [before.queue[0]]
  {
    hide Replay, Run, After, Consistent;
    var start := events + [Front(t, r)];
    var all := start + later + [Pop(t, r')];
    assert start[..|start| - 1] == events && all[..|all| - 1] == start + later;
    RunLast(cfg, start);
    RunLast(cfg, all);
    ConsumerOnly(cfg, events, t, r);
    NoPops(cfg, start, later, t);
    FrontIsStable(cfg, start, later);
  }

  /** A thread that runs a consumer section is a consumer. */
  lemma ConsumerOnly<T>(cfg: Config, events: seq<Event<T>>, t: Tid, r: bool)
    requires Run(cfg, events) && (Enabled(cfg, After(cfg, events), Front(t, r)) || Enabled(cfg, After(cfg, events), Pop(t, r)))
    ensures t in cfg.consumers
  {
    hide Run, After, ValuesNotified, SleeperNotified;
    RunIsGood(cfg, events);
  }

  lemma OneMember(threads: set<Tid>, t: Tid, u: Tid)
    requires |threads| <= 1 && t in threads && u in threads
    ensures t == u
  {
    assert |threads - {t}| == 0;
    assert u !in threads - {t};
  }

  /** Nobody but the single consumer pops, and pushes and wake-ups leave what has been popped alone. */
  lemma {:induction false} NoPops<T>(cfg: Config, events: seq<Event<T>>, later: seq<Event<T>>, t: Tid)
    requires |cfg.consumers| == 1 && t in cfg.consumers && Run(cfg, events) && Run(cfg, events + later)
    requires forall i :: 0 <= i < |later| && later[i].Pop? ==> later[i].t != t
    ensures forall i :: 0 <= i < |later| ==> !later[i].Pop?
    ensures After(cfg, events + later).popped == After(cfg, events).popped
  {
    hide Replay, Run, After;
    if later == [] {
      assert events + later == events;
    } else {
      var n, all := |later| - 1, events + later;
      assert all[..|all| - 1] == events + later[..n];
      RunLast(cfg, all);
      NoPops(cfg, events, later[..n], t);
      if later[n].Pop? {
        ConsumerOnly(cfg, events + later[..n], later[n].t, later[n].resumed);
        OneMember(cfg.consumers, t, later[n].t);
      }
    }
  }

  // ---------------------------------------------------------------- the monitor as an object

  /**
   * The queue with its mutex and condition variable: one method per critical section. A blocked call
   * returns `done == false`; once signalled, the thread calls again with `resumed`. `trace` records the
   * sections so far, so that a valid object is always in a reachable state.
   */
  class Monitor<T> {
    const config: Config
    var queue: seq<T>
    var waiting: set<Tid>
    var signalled: set<Tid>
    var fronts: set<Tid>
    var notifying: set<Tid>
    ghost var pushed: seq<T>
    ghost var popped: seq<T>
    ghost var trace: seq<Event<T>>

    ghost function Snapshot(): State<T>
      reads this
    {
      State(queue, waiting, signalled, fronts, notifying, pushed, popped)
    }

    ghost predicate Valid()
      reads this
    {
      Run(config, trace) && After(config, trace) == Snapshot()
    }

    /** What every section leaves behind: first in, first out, and no wake-up lost. */
    ghost predicate Sound()
      reads this
    {
      Good(config, Snapshot()) && (NeverLoses(config) ==> !LostWakeup(Snapshot()))
    }

    constructor (config: Config)
      ensures this.config == config && trace == [] && Snapshot() == Initial() && Valid() && Sound()
    {
      this.config := config;
      queue, waiting, signalled, fronts, notifying := [], {}, {}, {}, {};
      pushed, popped, trace := [], [], [];
      new;
      InitialRun<T>(config);
      InitiallyGood<T>(config);
    }

    /** Records the section that has just been carried out. */
    ghost method Note(e: Event<T>, before: State<T>)
      requires Run(config, trace) && After(config, trace) == before
      requires Enabled(config, before, e) && Snapshot() == Apply(config, before, e)
      modifies `trace
      ensures Valid() && Sound() && trace == old(trace) + [e]
    {
      hide Run, After;
      RunSnoc(config, trace, e);
      trace := trace + [e];
      IsSound();
    }

    lemma IsSound()
      requires Valid()
      ensures Sound()
    {
      hide Run, After, Good, LostWakeup;
      RunIsGood(config, trace);
      if NeverLoses(config) {
        SafeRun(config, trace);
      }
    }

    /** `push_back` up to the unlock. */
    method PushBack(t: Tid, item: T)
      requires Valid() && Enabled(config, Snapshot(), Push(t, item))
      modifies this
      ensures Valid() && Sound() && trace == old(trace) + [Push(t, item)]
      ensures queue == old(queue) + [item] && pushed == old(pushed) + [item] && popped == old(popped)
      ensures !config.peeking && waiting != {} ==> |queue| <= |notifying| + |signalled|
    {
      hide Run, After;
      ghost var before := Snapshot();
      queue := queue + [item];
      pushed := pushed + [item];
      notifying := notifying + {t};
      Note(Push(t, item), before);
    }

    /** `cond_.notify_one()` after the unlock: any waiter may be chosen. */
    method NotifyOne(t: Tid) returns (wake: Option<Tid>)
      requires Valid() && t in notifying
      modifies this
      ensures Valid() && Sound() && trace == old(trace) + [Notify(t, wake)]
      ensures wake.None? <==> old(waiting) == {}
      ensures wake.Some? ==> wake.value in old(waiting) && wake.value in signalled
      ensures queue == old(queue) && pushed == old(pushed) && popped == old(popped)
    {
      hide Run, After;
      ghost var before := Snapshot();
      notifying := notifying - {t};
      wake := None;
      if waiting != {} {
        var w :| w in waiting;
        waiting, signalled := waiting - {w}, signalled + {w};
        wake := Some(w);
      }
      Note(Notify(t, wake), before);
    }

    /** A section of `pop_front`: it removes the oldest value that has not been popped, or waits. */
    method PopFront(t: Tid, resumed: bool) returns (done: bool)
      requires Valid() && Enabled(config, Snapshot(), Pop(t, resumed))
      modifies this
      ensures Valid() && Sound() && trace == old(trace) + [Pop(t, resumed)] && pushed == old(pushed)
      ensures done <==> |old(popped)| < |pushed|
      ensures done ==> popped == old(popped) + [pushed[|old(popped)|]]
      ensures !done ==> t in waiting && popped == old(popped) == pushed
    {
      hide Run, After;
      IsSound();
      ghost var before := Snapshot();
      signalled := signalled - {t};
      done := queue != [];
      if !done {
        waiting, fronts := waiting + {t}, fronts - {t};
      } else {
        popped := popped + [queue[0]];
        queue := queue[1..];
      }
      Note(Pop(t, resumed), before);
    }

    /** A section of `front`: it returns the oldest value that has not been popped, or waits. */
    method PeekFront(t: Tid, resumed: bool) returns (result: Option<T>)
      requires Valid() && Enabled(config, Snapshot(), Front(t, resumed))
      modifies this
      ensures Valid() && Sound() && trace == old(trace) + [Front(t, resumed)]
      ensures queue == old(queue) && pushed == old(pushed) && popped == old(popped)
      ensures result == if |popped| < |pushed| then Some(pushed[|popped|]) else None
      ensures result.None? ==> t in waiting
    {
      hide Run, After;
      IsSound();
      ghost var before := Snapshot();
      signalled := signalled - {t};
      if queue == [] {
        waiting, fronts := waiting + {t}, fronts + {t};
        result := None;
      } else {
        result := Some(queue[0]);
      }
      Note(Front(t, resumed), before);
    }
  }
}
