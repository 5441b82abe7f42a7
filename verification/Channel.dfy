/**
 * The bounded, closable `Channel`: one condition variable shared by producers and consumers, with
 * `notify_one` on every transfer. A run is any sequence of critical sections, spurious wake-ups
 * included; a notification may wake a waiter of either kind.
 */
module Channel {
  import opened Packets

  type Tid = nat

  datatype Config = Config(capacity: nat, producers: set<Tid>, consumers: set<Tid>)

  /** Who a `notify_one` wakes. */
  datatype Wake = Nobody | Producer(p: Tid) | Consumer(c: Tid)

  /**
   * The fields of the channel, the threads blocked in `put` or `next` (waiting, or signalled and not
   * yet run), the values blocked puts carry, and the history of completed transfers.
   */
  datatype State<T> = State(
    buffer: seq<T>, closed: bool,
    waitingPut: set<Tid>, signalledPut: set<Tid>, waitingNext: set<Tid>, signalledNext: set<Tid>,
    values: map<Tid, T>, puts: seq<T>, taken: seq<T>)

  /** One critical section. `resumed` marks a thread that was signalled and re-checks its predicate. */
  datatype Event<T> =
    | Put(t: Tid, resumed: bool, value: T, wake: Wake)
    | Next(t: Tid, resumed: bool, wake: Wake)
    | SpuriousPut(t: Tid)
    | SpuriousNext(t: Tid)
    | Close

  function Initial<T>(): State<T> {
    State([], false, {}, {}, {}, {}, map[], [], [])
  }

  // ---------------------------------------------------------------- the transitions

  predicate CanNotify<T>(s: State<T>, wake: Wake) {
    match wake
    case Nobody => s.waitingPut == {} && s.waitingNext == {}
    case Producer(p) => p in s.waitingPut
    case Consumer(c) => c in s.waitingNext
  }

  function Notify<T>(s: State<T>, wake: Wake): State<T> {
    match wake
    case Nobody => s
    case Producer(p) => s.(waitingPut := s.waitingPut - {p}, signalledPut := s.signalledPut + {p})
    case Consumer(c) => s.(waitingNext := s.waitingNext - {c}, signalledNext := s.signalledNext + {c})
  }

  function Start<T>(s: State<T>, e: Event<T>): State<T>
    requires e.Put? || e.Next?
  {
    if !e.resumed then s
    else if e.Put? then s.(signalledPut := s.signalledPut - {e.t})
    else s.(signalledNext := s.signalledNext - {e.t})
  }

  function Value<T>(s: State<T>, e: Event<T>): T
    requires e.Put? && (e.resumed ==> e.t in s.values)
  {
    if e.resumed then s.values[e.t] else e.value
  }

  /** The thread of a put or next section is signalled, or not blocked in the channel at all. */
  predicate CanStart<T>(cfg: Config, s: State<T>, e: Event<T>)
    requires e.Put? || e.Next?
  {
    match e
    case Put(t, resumed, _, _) =>
      if resumed then t in s.signalledPut && t in s.values
      else t in cfg.producers && t !in s.waitingPut && t !in s.signalledPut
    case Next(t, resumed, _) =>
      if resumed then t in s.signalledNext
      else t in cfg.consumers && t !in s.waitingNext && t !in s.signalledNext
  }

  predicate Enabled<T>(cfg: Config, s: State<T>, e: Event<T>) {
    match e
    case Put(_, _, _, wake) =>
      CanStart(cfg, s, e) && if |s.buffer| < cfg.capacity then CanNotify(s, wake) else wake == Nobody
    case Next(_, _, wake) =>
      CanStart(cfg, s, e) && if s.buffer != [] then CanNotify(s, wake) else wake == Nobody
    case SpuriousPut(t) => t in s.waitingPut
    case SpuriousNext(t) => t in s.waitingNext
    case Close => true
  }

  function Push<T>(s: State<T>, v: T): State<T> {
    s.(buffer := s.buffer + [v], puts := s.puts + [v])
  }

  function Pop<T>(s: State<T>): State<T>
    requires s.buffer != []
  {
    s.(buffer := s.buffer[1..], taken := s.taken + [s.buffer[0]])
  }

  function BlockPut<T>(s: State<T>, t: Tid, v: T): State<T> {
    s.(waitingPut := s.waitingPut + {t}, values := s.values[t := v])
  }

  function BlockNext<T>(s: State<T>, t: Tid): State<T> {
    s.(waitingNext := s.waitingNext + {t})
  }

  function CloseAll<T>(s: State<T>): State<T> {
    s.(closed := true,
       waitingPut := {}, signalledPut := s.signalledPut + s.waitingPut,
       waitingNext := {}, signalledNext := s.signalledNext + s.waitingNext)
  }

  /** `put` ignores `closed`; `next` leaves a closed empty channel without notifying anyone. */
  function Apply<T>(cfg: Config, s: State<T>, e: Event<T>): State<T>
    requires Enabled(cfg, s, e)
  {
    match e
    case Put(t, _, _, wake) =>
      var v, s1 := Value(s, e), Start(s, e);
      if |s.buffer| < cfg.capacity then Notify(Push(s1, v), wake) else BlockPut(s1, t, v)
    case Next(t, _, wake) =>
      var s1 := Start(s, e);
      if s.buffer != [] then Notify(Pop(s1), wake) else if s.closed then s1 else BlockNext(s1, t)
    case SpuriousPut(t) => Notify(s, Producer(t))
    case SpuriousNext(t) => Notify(s, Consumer(t))
    case Close => CloseAll(s)
  }

  // ---------------------------------------------------------------- runs

  /** The state a sequence of sections leads to, if each is enabled when its turn comes. */
  function Replay<T>(cfg: Config, events: seq<Event<T>>): Option<State<T>> {
    if events == [] then Some(Initial())
    else
      var n := |events| - 1;
      match Replay(cfg, events[..n])
      case None => None
      case Some(s) => if Enabled(cfg, s, events[n]) then Some(Apply(cfg, s, events[n])) else None
  }

  predicate Run<T>(cfg: Config, events: seq<Event<T>>) {
    Replay(cfg, events).Some?
  }

  function After<T>(cfg: Config, events: seq<Event<T>>): State<T>
    requires Run(cfg, events)
  {
    Replay(cfg, events).value
  }

  lemma RunSnoc<T>(cfg: Config, events: seq<Event<T>>, e: Event<T>)
    requires Run(cfg, events) && Enabled(cfg, After(cfg, events), e)
    ensures Run(cfg, events + [e])
    ensures After(cfg, events + [e]) == Apply(cfg, After(cfg, events), e)
  {
    assert (events + [e])[..|events|] == events;
  }

  lemma RunLast<T>(cfg: Config, events: seq<Event<T>>)
    requires Run(cfg, events) && events != []
    ensures var n := |events| - 1;
      && Run(cfg, events[..n]) && Enabled(cfg, After(cfg, events[..n]), events[n])
      && After(cfg, events) == Apply(cfg, After(cfg, events[..n]), events[n])
  {
  }

  // ---------------------------------------------------------------- history

  predicate Ordered<T(==)>(cfg: Config, s: State<T>) {
    && s.puts == s.taken + s.buffer
    && |s.buffer| <= cfg.capacity
    && (s.closed ==> s.waitingNext == {})
    && s.waitingPut + s.signalledPut <= s.values.Keys
  }

  /**
   * For any number of threads: the values taken are the values put, in order, followed by the buffer;
   * the buffer never exceeds the capacity; and nobody waits in `next` on a closed channel.
   */
  lemma {:induction false} HistoryInOrder<T>(cfg: Config, events: seq<Event<T>>)
    requires Run(cfg, events)
    ensures Ordered(cfg, After(cfg, events))
  {
    hide Replay, Enabled, Apply, Run, After, Ordered;
    if events == [] {
      OrderedInitially<T>(cfg);
    } else {
      var n := |events| - 1;
      RunLast(cfg, events);
      HistoryInOrder(cfg, events[..n]);
      OrderedStep(cfg, After(cfg, events[..n]), events[n]);
    }
  }

  lemma OrderedInitially<T>(cfg: Config)
    ensures Run<T>(cfg, []) && Ordered(cfg, After<T>(cfg, []))
  {
  }

  lemma OrderedStep<T>(cfg: Config, s: State<T>, e: Event<T>)
    requires Ordered(cfg, s) && Enabled(cfg, s, e)
    ensures Ordered(cfg, Apply(cfg, s, e))
  {
    match e
    case Put(_, _, _, _) => OrderedPut(cfg, s, e);
    case Next(_, _, _) => OrderedNext(cfg, s, e);
    case _ =>
  }

  lemma OrderedPut<T>(cfg: Config, s: State<T>, e: Event<T>)
    requires Ordered(cfg, s) && Enabled(cfg, s, e) && e.Put?
    ensures Ordered(cfg, Apply(cfg, s, e))
  {
    assert s.taken + (s.buffer + [Value(s, e)]) == s.taken + s.buffer + [Value(s, e)];
  }

  lemma OrderedNext<T>(cfg: Config, s: State<T>, e: Event<T>)
    requires Ordered(cfg, s) && Enabled(cfg, s, e) && e.Next?
    ensures Ordered(cfg, Apply(cfg, s, e))
  {
    if s.buffer != [] {
      assert s.taken + s.buffer == s.taken + [s.buffer[0]] + s.buffer[1..];
    }
  }

  datatype Outcome<T> = Blocked | Returned(result: Option<T>)

  /** What a `next` section does for its caller. */
  function NextOutcome<T>(s: State<T>): Outcome<T> {
    if s.buffer != [] then Returned(Some(s.buffer[0])) else if s.closed then Returned(None) else Blocked
  }

  /**
   * `next` returns the oldest value not yet taken; it returns empty exactly when the channel is closed
   * and every earlier put has been delivered; otherwise it blocks.
   */
  lemma NextDelivers<T(!new)>(cfg: Config, events: seq<Event<T>>)
    requires Run(cfg, events)
    ensures var s := After(cfg, events);
      && |s.taken| <= |s.puts|
      && (forall v :: NextOutcome(s) == Returned(Some(v)) <==> |s.taken| < |s.puts| && v == s.puts[|s.taken|])
      && (NextOutcome(s) == Returned(None) <==> s.closed && s.taken == s.puts)
  {
    HistoryInOrder(cfg, events);
    var s := After(cfg, events);
    if s.taken == s.puts {
      assert |s.buffer| == 0;
    }
  }

  /** Every prefix of a run is a run. */
  lemma {:induction false} RunPrefix<T>(cfg: Config, events: seq<Event<T>>, later: seq<Event<T>>)
    requires Run(cfg, events + later)
    ensures forall i :: 0 <= i <= |later| ==> Run(cfg, events + later[..i])
    ensures Run(cfg, events)
  {
    hide Replay, Enabled, Apply, Run, After;
    assert later[..|later|] == later;
    if later == [] {
      assert events + later == events;
    } else {
      var n, all := |later| - 1, events + later;
      assert all[..|all| - 1] == events + later[..n];
      RunLast(cfg, all);
      RunPrefix(cfg, events, later[..n]);
      forall i | 0 <= i <= n ensures later[..n][..i] == later[..i] {}
    }
  }

  /**
   * Once `next` has returned empty on a closed channel, it keeps returning empty exactly as long as
   * no put completes: `put` does not look at `closed`.
   */
  lemma {:induction false} EmptyIsPermanent<T>(cfg: Config, events: seq<Event<T>>, later: seq<Event<T>>)
    requires Run(cfg, events) && Run(cfg, events + later)
    requires NextOutcome(After(cfg, events)) == Returned(None)
    ensures forall i :: 0 <= i <= |later| ==> Run(cfg, events + later[..i])
    ensures (forall i :: 0 <= i <= |later| ==> NextOutcome(After(cfg, events + later[..i])) == Returned(None))
       <==> After(cfg, events + later).puts == After(cfg, events).puts
  {
    hide Replay, Enabled, Apply, Run, After, NextOutcome;
    RunPrefix(cfg, events, later);
    assert later[..|later|] == later;
    if later == [] {
      assert events + later == events;
    } else {
      var n, all := |later| - 1, events + later;
      var before := later[..n];
      forall i | 0 <= i <= n ensures before[..i] == later[..i] {}
      assert all[..|all| - 1] == events + before;
      EmptyIsPermanent(cfg, events, before);
      PutsGrow(cfg, events, before);
      RunLast(cfg, all);
      EmptyStep(cfg, After(cfg, events + before), all[|all| - 1]);
    }
  }

  lemma EmptyStep<T>(cfg: Config, s: State<T>, e: Event<T>)
    requires Enabled(cfg, s, e)
    ensures s.puts <= Apply(cfg, s, e).puts && s.taken <= Apply(cfg, s, e).taken
    ensures s.closed ==> Apply(cfg, s, e).closed
    ensures NextOutcome(s) == Returned(None) ==>
      (NextOutcome(Apply(cfg, s, e)) == Returned(None) <==> Apply(cfg, s, e).puts == s.puts)
  {
    hide Apply, Enabled;
    if e.Put? {
      EmptyPut(cfg, s, e);
    } else {
      NoPut(cfg, s, e);
    }
  }

  lemma EmptyPut<T>(cfg: Config, s: State<T>, e: Event<T>)
    requires Enabled(cfg, s, e) && e.Put?
    ensures Apply(cfg, s, e).taken == s.taken && Apply(cfg, s, e).closed == s.closed
    ensures if |s.buffer| < cfg.capacity then
              Apply(cfg, s, e).puts == s.puts + [Value(s, e)] && Apply(cfg, s, e).buffer == s.buffer + [Value(s, e)]
            else Apply(cfg, s, e).puts == s.puts && Apply(cfg, s, e).buffer == s.buffer
  {
  }

  lemma NoPut<T>(cfg: Config, s: State<T>, e: Event<T>)
    requires Enabled(cfg, s, e) && !e.Put?
    ensures Apply(cfg, s, e).puts == s.puts && s.taken <= Apply(cfg, s, e).taken
    ensures s.closed ==> Apply(cfg, s, e).closed
    ensures s.buffer == [] ==> Apply(cfg, s, e).buffer == []
  {
  }

  lemma {:induction false} PutsGrow<T>(cfg: Config, events: seq<Event<T>>, later: seq<Event<T>>)
    requires Run(cfg, events) && Run(cfg, events + later)
    ensures After(cfg, events).puts <= After(cfg, events + later).puts
  {
    hide Replay, Enabled, Apply, Run, After;
    if later == [] {
      assert events + later == events;
    } else {
      var n, all := |later| - 1, events + later;
      assert all[..|all| - 1] == events + later[..n];
      RunLast(cfg, all);
      PutsGrow(cfg, events, later[..n]);
      EmptyStep(cfg, After(cfg, events + later[..n]), all[|all| - 1]);
    }
  }
}
