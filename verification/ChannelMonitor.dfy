/** The channel as an object, every state of which is a reachable one. */
module ChannelMonitor {
  import opened Packets
  import opened Channel
  import ChannelWakeup

  /**
   * The channel with its mutex and condition variable: one method per critical section, the
   * notification included, because it happens under the lock. `trace` records the sections so far.
   */
  class Monitor<T(!new)> {
    const config: Config
    var buffer: seq<T>
    var closed: bool
    var waitingPut: set<Tid>
    var signalledPut: set<Tid>
    var waitingNext: set<Tid>
    var signalledNext: set<Tid>
    var values: map<Tid, T>
    ghost var puts: seq<T>
    ghost var taken: seq<T>
    ghost var trace: seq<Event<T>>

    ghost function Snapshot(): State<T>
      reads this
    {
      State(buffer, closed, waitingPut, signalledPut, waitingNext, signalledNext, values, puts, taken)
    }

    ghost predicate Valid()
      reads this
    {
      Run(config, trace) && After(config, trace) == Snapshot()
    }

    /** What every section leaves behind: order, capacity, threads waiting at most once, no wake-up lost. */
    ghost predicate Sound()
      reads this
    {
      && Ordered(config, Snapshot()) && ChannelWakeup.Blocking(config, Snapshot())
      && (ChannelWakeup.Safe(ChannelWakeup.SizeOf(config)) ==> !ChannelWakeup.LostWakeup(config, Snapshot()))
    }

    constructor (config: Config)
      ensures this.config == config && trace == [] && Snapshot() == Initial() && Valid() && Sound()
    {
      this.config := config;
      buffer, closed := [], false;
      waitingPut, signalledPut, waitingNext, signalledNext := {}, {}, {}, {};
      values, puts, taken, trace := map[], [], [], [];
    }

    /** Records the section that has just been carried out. */
    ghost method Note(e: Event<T>, before: State<T>)
      requires Run(config, trace) && After(config, trace) == before
      requires Enabled(config, before, e) && Snapshot() == Apply(config, before, e)
      modifies `trace
      ensures Valid() && Sound() && trace == old(trace) + [e]
    {
      hide Run, After;
      RunSnoc(config, trace, e);
      trace := trace + [e];
      IsSound();
    }

    lemma IsSound()
      requires Valid()
      ensures Sound()
    {
      hide Run, After, Ordered, ChannelWakeup.Safe, ChannelWakeup.LostWakeup, ChannelWakeup.Blocking;
      HistoryInOrder(config, trace);
      ChannelWakeup.RunInvariant(config, trace);
      if ChannelWakeup.Safe(ChannelWakeup.SizeOf(config)) {
        ChannelWakeup.SafeRun(config, trace);
      }
    }

    /** `cond_.notify_one()`: any waiter of either kind may be chosen. */
    method NotifyOne() returns (wake: Wake)
      modifies `waitingPut, `signalledPut, `waitingNext, `signalledNext
      ensures CanNotify(old(Snapshot()), wake) && Snapshot() == Notify(old(Snapshot()), wake)
    {
      wake := Nobody;
      if waitingPut + waitingNext != {} {
        var t :| t in waitingPut + waitingNext;
        if t in waitingPut {
          waitingPut, signalledPut := waitingPut - {t}, signalledPut + {t};
          wake := Producer(t);
        } else {
          waitingNext, signalledNext := waitingNext - {t}, signalledNext + {t};
          wake := Consumer(t);
        }
      }
    }

    /** A section of `put`; false when the buffer is full and the thread has to wait. */
    method PutSection(t: Tid, resumed: bool, val: T) returns (done: bool, wake: Wake)
      requires Valid() && CanStart(config, Snapshot(), Put(t, resumed, val, Nobody))
      modifies this
      ensures Valid() && Sound() && trace == old(trace) + [Put(t, resumed, val, wake)] && taken == old(taken)
      ensures done <==> |old(puts)| < |old(taken)| + config.capacity
      ensures done ==> puts == old(puts) + [if resumed then old(values)[t] else val]
      ensures !done ==> puts == old(puts) && t in waitingPut && values[t] == if resumed then old(values)[t] else val
      ensures done && old(waitingPut + waitingNext) != {} ==> wake != Nobody
    {
      hide Run, After;
      IsSound();
      ghost var before := Snapshot();
      var v := if resumed then values[t] else val;
      if resumed {
        signalledPut := signalledPut - {t};
      }
      done, wake := |buffer| < config.capacity, Nobody;
      if !done {
        waitingPut, values := waitingPut + {t}, values[t := v];
      } else {
        buffer, puts := buffer + [v], puts + [v];
        wake := NotifyOne();
      }
      Note(Put(t, resumed, val, wake), before);
    }

    /** A section of `next`; the assertion of the source, `closed_` on an empty buffer, never fails. */
    method NextSection(t: Tid, resumed: bool) returns (outcome: Outcome<T>, wake: Wake)
      requires Valid() && CanStart(config, Snapshot(), Next(t, resumed, Nobody))
      modifies this
      ensures Valid() && Sound() && trace == old(trace) + [Next(t, resumed, wake)] && puts == old(puts)
      ensures if |old(taken)| < |puts| then
                outcome == Returned(Some(puts[|old(taken)|])) && taken == old(taken) + [puts[|old(taken)|]]
              else
                outcome == (if closed then Returned(None) else Blocked) && taken == old(taken) == puts
      ensures outcome == Blocked <==> t in waitingNext
      ensures |old(taken)| < |puts| && old(waitingPut + waitingNext) != {} ==> wake != Nobody
    {
      hide Run, After;
      IsSound();
      ghost var before := Snapshot();
      if resumed {
        signalledNext := signalledNext - {t};
      }
      wake := Nobody;
      if buffer == [] && !closed {
        waitingNext := waitingNext + {t};
        outcome := Blocked;
      } else if buffer == [] {
        assert closed;
        outcome := Returned(None);
      } else {
        var val := buffer[0];
        buffer, taken := buffer[1..], taken + [val];
        wake := NotifyOne();
        outcome := Returned(Some(val));
      }
      Note(Next(t, resumed, wake), before);
    }

    method CloseChannel()
      requires Valid()
      modifies this
      ensures Valid() && Sound() && trace == old(trace) + [Close] && closed
      ensures puts == old(puts) && taken == old(taken) && waitingPut == {} && waitingNext == {}
      ensures signalledPut == old(signalledPut + waitingPut) && signalledNext == old(signalledNext + waitingNext)
    {
      hide Run, After;
      ghost var before := Snapshot();
      closed := true;
      signalledPut, waitingPut := signalledPut + waitingPut, {};
      signalledNext, waitingNext := signalledNext + waitingNext, {};
      Note(Close, before);
    }
  }
}
