/**
 * Lost wake-ups in `Channel`. Threads of one kind are interchangeable, so a state is abstracted to the
 * number of signalled and waiting threads of each kind; the abstraction is exact in both directions.
 */
module ChannelWakeup {
  import opened Channel

  /** Capacity and the numbers of producer and consumer threads. */
  datatype Size = Size(k: nat, p: nat, c: nat)

  /** Buffered values; signalled and waiting producers; signalled and waiting consumers. */
  datatype Counts = Counts(b: nat, sp: nat, wp: nat, sc: nat, wc: nat, closed: bool)

  const START := Counts(0, 0, 0, 0, 0, false)

  // ---------------------------------------------------------------- the counting system

  predicate Fits(g: Size, x: Counts) {
    x.b <= g.k && x.sp + x.wp <= g.p && x.sc + x.wc <= g.c && (x.closed ==> x.wc == 0)
  }

  /** `notify_one`: some waiter, of either kind, becomes signalled. */
  predicate Notified(x: Counts, y: Counts) {
    || (x.wp == 0 && x.wc == 0 && y == x)
    || (x.wp > 0 && y == x.(wp := x.wp - 1, sp := x.sp + 1))
    || (x.wc > 0 && y == x.(wc := x.wc - 1, sc := x.sc + 1))
  }

  predicate PutFrom(g: Size, x: Counts, y: Counts) {
    if x.b < g.k then Notified(x.(b := x.b + 1), y) else y == x.(wp := x.wp + 1)
  }

  predicate NextFrom(g: Size, x: Counts, y: Counts) {
    if x.b > 0 then Notified(x.(b := x.b - 1), y) else if x.closed then y == x else y == x.(wc := x.wc + 1)
  }

  predicate PutStep(g: Size, x: Counts, y: Counts) {
    (x.sp + x.wp < g.p && PutFrom(g, x, y)) || (x.sp > 0 && PutFrom(g, x.(sp := x.sp - 1), y))
  }

  predicate NextStep(g: Size, x: Counts, y: Counts) {
    (x.sc + x.wc < g.c && NextFrom(g, x, y)) || (x.sc > 0 && NextFrom(g, x.(sc := x.sc - 1), y))
  }

  predicate SpuriousStep(x: Counts, y: Counts) {
    || (x.wp > 0 && y == x.(wp := x.wp - 1, sp := x.sp + 1))
    || (x.wc > 0 && y == x.(wc := x.wc - 1, sc := x.sc + 1))
  }

  predicate CloseStep(x: Counts, y: Counts) {
    y == Counts(x.b, x.sp + x.wp, 0, x.sc + x.wc, 0, true)
  }

  predicate Step(g: Size, x: Counts, y: Counts) {
    PutStep(g, x, y) || NextStep(g, x, y) || SpuriousStep(x, y) || CloseStep(x, y)
  }

  /**
   * A wake-up is lost: a waiter's predicate holds, but no notification is on its way and every other
   * thread is free to stay away, so the waiter may sleep forever.
   */
  predicate Lost(g: Size, x: Counts) {
    x.sp == 0 && x.sc == 0 && ((x.wp > 0 && x.b < g.k) || (x.wc > 0 && (x.b > 0 || x.closed)))
  }

  // ---------------------------------------------------------------- which sizes are safe

  /** The sizes for which no run loses a wake-up. */
  predicate Safe(g: Size) {
    || g.k == 0 || g.p == 0 || g.c == 0
    || (g.p <= g.k && g.c <= g.k)
    || (g.c == 1 && g.p < 2 * g.k)
    || (g.p == 1 && g.c < 2 * g.k)
  }

  /** While producers wait, enough of them are signalled to fill the free room; dually for consumers. */
  predicate ProducersServed(g: Size, x: Counts) {
    x.wp > 0 ==> g.k - x.b <= x.sp
  }

  predicate ConsumersServed(x: Counts) {
    x.wc > 0 ==> x.b <= x.sc
  }

  predicate OpenInvariant(g: Size, x: Counts) {
    if g.k == 0 then true
    else if g.p == 0 then x.b == 0
    else if g.c == 0 then x.wp > 0 ==> x.b == g.k
    else if g.p <= g.k && g.c <= g.k then
      ProducersServed(g, x) && ConsumersServed(x) && (x.wp == 0 || x.wc == 0)
    else if g.c == 1 then
      ProducersServed(g, x) && (x.wc > 0 && x.b > 0 ==> g.k <= x.sp && x.wp + x.b <= g.p - g.k)
    else
      ConsumersServed(x) && (x.wp > 0 && x.b < g.k ==> g.k <= x.sc && x.wc + (g.k - x.b) <= g.c - g.k)
  }

  predicate Invariant(g: Size, x: Counts) {
    Fits(g, x) && if x.closed then ProducersServed(g, x) else OpenInvariant(g, x)
  }

  lemma InvariantPut(g: Size, x: Counts, y: Counts)
    requires Safe(g) && Invariant(g, x) && PutStep(g, x, y)
    ensures Invariant(g, y)
  {
    if x.closed {
      ClosedPut(g, x, y);
    } else {
      OpenPut(g, x, y);
    }
  }

  lemma ClosedPut(g: Size, x: Counts, y: Counts)
    requires Invariant(g, x) && PutStep(g, x, y) && x.closed
    ensures Invariant(g, y)
  {
    hide OpenInvariant;
  }

  lemma OpenPut(g: Size, x: Counts, y: Counts)
    requires Safe(g) && Invariant(g, x) && PutStep(g, x, y) && !x.closed
    ensures Invariant(g, y)
  {
    hide Invariant, PutStep, Safe;
    if x.b < g.k {
      PutPasses(g, x, y);
    } else {
      PutBlocks(g, x, y);
    }
  }

  lemma PutPasses(g: Size, x: Counts, y: Counts)
    requires Safe(g) && Invariant(g, x) && PutStep(g, x, y) && !x.closed && x.b < g.k
    ensures Invariant(g, y)
  {
  }

  lemma PutBlocks(g: Size, x: Counts, y: Counts)
    requires Safe(g) && Invariant(g, x) && PutStep(g, x, y) && !x.closed && !(x.b < g.k)
    ensures Invariant(g, y)
  {
  }

  lemma InvariantNext(g: Size, x: Counts, y: Counts)
    requires Safe(g) && Invariant(g, x) && NextStep(g, x, y)
    ensures Invariant(g, y)
  {
    if x.closed {
      ClosedNext(g, x, y);
    } else {
      OpenNext(g, x, y);
    }
  }

  lemma ClosedNext(g: Size, x: Counts, y: Counts)
    requires Invariant(g, x) && NextStep(g, x, y) && x.closed
    ensures Invariant(g, y)
  {
    hide OpenInvariant;
  }

  lemma OpenNext(g: Size, x: Counts, y: Counts)
    requires Safe(g) && Invariant(g, x) && NextStep(g, x, y) && !x.closed
    ensures Invariant(g, y)
  {
    hide Invariant, NextStep, Safe;
    if x.b > 0 {
      NextPasses(g, x, y);
    } else {
      NextBlocks(g, x, y);
    }
  }

  lemma NextPasses(g: Size, x: Counts, y: Counts)
    requires Safe(g) && Invariant(g, x) && NextStep(g, x, y) && !x.closed && x.b > 0
    ensures Invariant(g, y)
  {
  }

  lemma NextBlocks(g: Size, x: Counts, y: Counts)
    requires Safe(g) && Invariant(g, x) && NextStep(g, x, y) && !x.closed && !(x.b > 0)
    ensures Invariant(g, y)
  {
  }

  lemma InvariantOther(g: Size, x: Counts, y: Counts)
    requires Safe(g) && Invariant(g, x) && (SpuriousStep(x, y) || CloseStep(x, y))
    ensures Invariant(g, y)
  {
  }

  lemma InvariantNotLost(g: Size, x: Counts)
    requires Safe(g) && Invariant(g, x)
    ensures !Lost(g, x)
  {
  }

  // ---------------------------------------------------------------- how unsafe sizes lose a wake-up

  /** A path through open states. */
  ghost predicate Path(g: Size, path: seq<Counts>) {
    && path != []
    && (forall i :: 0 <= i < |path| ==> Fits(g, path[i]) && !path[i].closed)
    && (forall i :: 0 < i < |path| ==> Step(g, path[i - 1], path[i]))
  }

  ghost predicate Leads(g: Size, x: Counts, y: Counts) {
    exists path :: Path(g, path) && path[0] == x && path[|path| - 1] == y
  }

  lemma Extend(g: Size, x: Counts, y: Counts, z: Counts)
    requires Leads(g, x, y) && Step(g, y, z) && Fits(g, z) && !z.closed
    ensures Leads(g, x, z)
  {
    hide Step, Fits;
    var path :| Path(g, path) && path[0] == x && path[|path| - 1] == y;
    assert Path(g, path + [z]);
  }

  lemma Here(g: Size, x: Counts)
    requires Fits(g, x) && !x.closed
    ensures Leads(g, x, x)
  {
    assert Path(g, [x]);
  }

  lemma Join(g: Size, x: Counts, y: Counts, z: Counts)
    requires Leads(g, x, y) && Leads(g, y, z)
    ensures Leads(g, x, z)
  {
    hide Step, Fits;
    var front :| Path(g, front) && front[0] == x && front[|front| - 1] == y;
    var back :| Path(g, back) && back[0] == y && back[|back| - 1] == z;
    var path := front + back[1..];
    forall i | 0 < i < |path| ensures Step(g, path[i - 1], path[i]) {
      if i >= |front| {
        assert path[i - 1] == back[i - |front|] && path[i] == back[i - |front| + 1];
      }
    }
    assert Path(g, path);
  }

  function Full(g: Size): Counts {
    Counts(g.k, 0, 0, 0, 0, false)
  }

  lemma {:induction false} Fill(g: Size, n: nat)
    requires g.p > 0 && n <= g.k
    ensures Leads(g, START, Counts(n, 0, 0, 0, 0, false))
  {
    if n == 0 {
      Here(g, START);
    } else {
      Fill(g, n - 1);
      Extend(g, START, Counts(n - 1, 0, 0, 0, 0, false), Counts(n, 0, 0, 0, 0, false));
    }
  }

  lemma {:induction false} BlockProducers(g: Size, w: nat)
    requires w <= g.p
    ensures Leads(g, Full(g), Counts(g.k, 0, w, 0, 0, false))
  {
    if w == 0 {
      Here(g, Full(g));
    } else {
      BlockProducers(g, w - 1);
      Extend(g, Full(g), Counts(g.k, 0, w - 1, 0, 0, false), Counts(g.k, 0, w, 0, 0, false));
    }
  }

  lemma {:induction false} Drain(g: Size, w: nat, n: nat)
    requires n <= g.k && n <= w <= g.p && g.c > 0
    ensures Leads(g, Full(g), Counts(g.k - n, n, w - n, 0, 0, false))
  {
    if n == 0 {
      BlockProducers(g, w);
    } else {
      Drain(g, w, n - 1);
      Extend(g, Full(g), Counts(g.k - n + 1, n - 1, w - n + 1, 0, 0, false), Counts(g.k - n, n, w - n, 0, 0, false));
    }
  }

  /** One producer waits at an empty buffer; n signalled producers have fed consumers that woke each other. */
  lemma {:induction false} ConsumersWakeEachOther(g: Size, n: nat)
    requires n < g.k < g.p && g.c > 1
    ensures Leads(g, Full(g), Counts(0, g.k - n, 1, 0, 2, false))
  {
    var from := Full(g);
    if n == 0 {
      Drain(g, g.k + 1, g.k);
      Extend(g, from, Counts(0, g.k, 1, 0, 0, false), Counts(0, g.k, 1, 0, 1, false));
      Extend(g, from, Counts(0, g.k, 1, 0, 1, false), Counts(0, g.k, 1, 0, 2, false));
    } else {
      var m := g.k - n;
      ConsumersWakeEachOther(g, n - 1);
      Extend(g, from, Counts(0, m + 1, 1, 0, 2, false), Counts(1, m, 1, 1, 1, false));
      Extend(g, from, Counts(1, m, 1, 1, 1, false), Counts(0, m, 1, 1, 0, false));
      Extend(g, from, Counts(0, m, 1, 1, 0, false), Counts(0, m, 1, 1, 1, false));
      Extend(g, from, Counts(0, m, 1, 1, 1, false), Counts(0, m, 1, 0, 2, false));
    }
  }

  /** The consumer waits; n puts have each woken another producer. */
  lemma {:induction false} ProducersWakeEachOther(g: Size, n: nat)
    requires n <= g.k && 2 * g.k <= g.p && g.c > 0
    ensures Leads(g, Full(g), Counts(n, g.k, g.k - n, 0, 1, false))
  {
    if n == 0 {
      Drain(g, 2 * g.k, g.k);
      Extend(g, Full(g), Counts(0, g.k, g.k, 0, 0, false), Counts(0, g.k, g.k, 0, 1, false));
    } else {
      ProducersWakeEachOther(g, n - 1);
      Extend(g, Full(g), Counts(n - 1, g.k, g.k - n + 1, 0, 1, false), Counts(n, g.k, g.k - n, 0, 1, false));
    }
  }

  lemma {:induction false} ProducersBlockAgain(g: Size, n: nat)
    requires n <= g.k && 2 * g.k <= g.p && g.c > 0
    ensures Leads(g, Full(g), Counts(g.k, g.k - n, n, 0, 1, false))
  {
    if n == 0 {
      ProducersWakeEachOther(g, g.k);
    } else {
      ProducersBlockAgain(g, n - 1);
      Extend(g, Full(g), Counts(g.k, g.k - n + 1, n - 1, 0, 1, false), Counts(g.k, g.k - n, n, 0, 1, false));
    }
  }

  /** Too many producers: from a full buffer some run loses a wake-up. */
  lemma LostFromFull(g: Size) returns (x: Counts)
    requires g.k > 0 && g.k < g.p && (g.c > 1 || (g.c == 1 && 2 * g.k <= g.p))
    ensures Leads(g, Full(g), x) && Lost(g, x)
  {
    if g.c > 1 {
      ConsumersWakeEachOther(g, g.k - 1);
      Extend(g, Full(g), Counts(0, 1, 1, 0, 2, false), Counts(1, 0, 1, 1, 1, false));
      Extend(g, Full(g), Counts(1, 0, 1, 1, 1, false), Counts(0, 0, 1, 1, 0, false));
      x := Counts(0, 0, 1, 0, 1, false);
      Extend(g, Full(g), Counts(0, 0, 1, 1, 0, false), x);
    } else {
      ProducersBlockAgain(g, g.k);
      x := Counts(g.k, 0, g.k, 0, 1, false);
    }
  }

  // While the channel is open, free room is to producers what values are to consumers.

  function MirrorSize(g: Size): Size {
    Size(g.k, g.c, g.p)
  }

  function Mirror(g: Size, x: Counts): Counts
    requires x.b <= g.k
  {
    Counts(g.k - x.b, x.sc, x.wc, x.sp, x.wp, x.closed)
  }

  lemma MirrorStep(g: Size, x: Counts, y: Counts)
    requires Fits(g, x) && Fits(g, y) && !x.closed && !y.closed && Step(g, x, y)
    ensures Step(MirrorSize(g), Mirror(g, x), Mirror(g, y))
  {
  }

  lemma MirrorLeads(g: Size, x: Counts, y: Counts)
    requires Leads(g, x, y)
    ensures Fits(g, x) && Fits(g, y) && Leads(MirrorSize(g), Mirror(g, x), Mirror(g, y))
  {
    hide Step;
    var path :| Path(g, path) && path[0] == x && path[|path| - 1] == y;
    var mirrored := seq(|path|, i requires 0 <= i < |path| && Fits(g, path[i]) => Mirror(g, path[i]));
    forall i | 0 < i < |path| ensures Step(MirrorSize(g), mirrored[i - 1], mirrored[i]) {
      MirrorStep(g, path[i - 1], path[i]);
    }
    assert Path(MirrorSize(g), mirrored);
  }

  lemma UnsafeLoses(g: Size) returns (x: Counts)
    requires !Safe(g)
    ensures Leads(g, START, x) && Lost(g, x)
  {
    hide Leads, Step;
    if g.k < g.p && (g.c > 1 || (g.c == 1 && 2 * g.k <= g.p)) {
      Fill(g, g.k);
      x := LostFromFull(g);
      Join(g, START, Full(g), x);
    } else {
      var m := MirrorSize(g);
      var y := LostFromFull(m);
      MirrorLeads(m, Full(m), y);
      x := Mirror(m, y);
    }
  }

  // ---------------------------------------------------------------- threads and counts

  function SizeOf(cfg: Config): Size {
    Size(cfg.capacity, |cfg.producers|, |cfg.consumers|)
  }

  function CountsOf<T>(s: State<T>): Counts {
    Counts(|s.buffer|, |s.signalledPut|, |s.waitingPut|, |s.signalledNext|, |s.waitingNext|, s.closed)
  }

  predicate Blocking<T>(cfg: Config, s: State<T>) {
    && s.waitingPut !! s.signalledPut && s.waitingPut + s.signalledPut <= cfg.producers
    && s.waitingNext !! s.signalledNext && s.waitingNext + s.signalledNext <= cfg.consumers
    && s.waitingPut + s.signalledPut <= s.values.Keys
  }

  lemma NotifyCounts<T>(cfg: Config, s: State<T>, wake: Wake)
    requires Blocking(cfg, s) && CanNotify(s, wake)
    ensures Blocking(cfg, Notify(s, wake))
    ensures Notified(CountsOf(s), CountsOf(Notify(s, wake)))
  {
    hide Blocking, Notify, CountsOf;
    CountsAre(s);
    match wake
    case Nobody => NotifyNobody(s);
    case Producer(p) => NotifyProducer(cfg, s, p);
    case Consumer(c) => NotifyConsumer(cfg, s, c);
  }

  lemma NotifyNobody<T>(s: State<T>)
    ensures Notify(s, Nobody) == s
  {
  }

  lemma NotifyProducer<T>(cfg: Config, s: State<T>, p: Tid)
    requires Blocking(cfg, s) && p in s.waitingPut
    ensures Blocking(cfg, Notify(s, Producer(p))) && |s.waitingPut| > 0
    ensures CountsOf(Notify(s, Producer(p))) == CountsOf(s).(wp := |s.waitingPut| - 1, sp := |s.signalledPut| + 1)
  {
    Moved(s.waitingPut, s.signalledPut, p);
  }

  lemma NotifyConsumer<T>(cfg: Config, s: State<T>, c: Tid)
    requires Blocking(cfg, s) && c in s.waitingNext
    ensures Blocking(cfg, Notify(s, Consumer(c))) && |s.waitingNext| > 0
    ensures CountsOf(Notify(s, Consumer(c))) == CountsOf(s).(wc := |s.waitingNext| - 1, sc := |s.signalledNext| + 1)
  {
    Moved(s.waitingNext, s.signalledNext, c);
  }

  lemma Moved(waiting: set<Tid>, signalled: set<Tid>, t: Tid)
    requires t in waiting && waiting !! signalled
    ensures |waiting - {t}| == |waiting| - 1 && |signalled + {t}| == |signalled| + 1
    ensures waiting - {t} !! signalled + {t} && (waiting - {t}) + (signalled + {t}) == waiting + signalled
  {
  }

  /** What is left of a thread's section once it is running: its own kind's counts before and after. */
  function StartCounts(x: Counts, put: bool, resumed: bool): Counts
    requires resumed ==> if put then x.sp > 0 else x.sc > 0
  {
    if !resumed then x else if put then x.(sp := x.sp - 1) else x.(sc := x.sc - 1)
  }

  lemma StartIsCounted<T>(cfg: Config, s: State<T>, e: Event<T>)
    requires Blocking(cfg, s) && (e.Put? || e.Next?) && CanStart(cfg, s, e)
    ensures Blocking(cfg, Start(s, e))
    ensures e.resumed ==> if e.Put? then |s.signalledPut| > 0 else |s.signalledNext| > 0
    ensures CountsOf(Start(s, e)) == StartCounts(CountsOf(s), e.Put?, e.resumed)
    ensures e.Put? ==> e.t in cfg.producers && e.t !in Start(s, e).waitingPut + Start(s, e).signalledPut
    ensures e.Next? ==> e.t in cfg.consumers && e.t !in Start(s, e).waitingNext + Start(s, e).signalledNext
    ensures !e.resumed && e.Put? ==> |s.signalledPut| + |s.waitingPut| < |cfg.producers|
    ensures !e.resumed && e.Next? ==> |s.signalledNext| + |s.waitingNext| < |cfg.consumers|
  {
    if e.Put? {
      FreeThread(cfg.producers, s.waitingPut, s.signalledPut, e.t);
    } else {
      FreeThread(cfg.consumers, s.waitingNext, s.signalledNext, e.t);
    }
  }

  lemma StartKeeps<T>(s: State<T>, e: Event<T>)
    requires e.Put? || e.Next?
    ensures Start(s, e) == s.(signalledPut := Start(s, e).signalledPut, signalledNext := Start(s, e).signalledNext)
    ensures CanNotify(Start(s, e), e.wake) == CanNotify(s, e.wake)
  {
  }

  /** Every section of a thread is a step of the counting system. */
  lemma PutIsStep<T>(cfg: Config, s: State<T>, e: Event<T>)
    requires Blocking(cfg, s) && Enabled(cfg, s, e) && e.Put?
    ensures Blocking(cfg, Apply(cfg, s, e))
    ensures PutStep(SizeOf(cfg), CountsOf(s), CountsOf(Apply(cfg, s, e)))
  {
    hide Blocking, Apply, CountsOf, PutFrom, CanStart, CanNotify;
    StartIsCounted(cfg, s, e);
    PutIsPutFrom(cfg, s, e);
    assert CountsOf(s).sp == |s.signalledPut| && CountsOf(s).wp == |s.waitingPut| by {
      CountsAre(s);
    }
  }

  lemma PutIsPutFrom<T>(cfg: Config, s: State<T>, e: Event<T>)
    requires Blocking(cfg, s) && Enabled(cfg, s, e) && e.Put?
    ensures Blocking(cfg, Apply(cfg, s, e))
    ensures PutFrom(SizeOf(cfg), CountsOf(Start(s, e)), CountsOf(Apply(cfg, s, e)))
  {
    hide Notify, Notified, Start, Blocking, CountsOf, Push, BlockPut, CanNotify;
    StartIsCounted(cfg, s, e);
    StartKeeps(s, e);
    var s1 := Start(s, e);
    CountsAre(s1);
    if |s.buffer| < cfg.capacity {
      PushCounts(cfg, s1, Value(s, e), e.wake);
      NotifyCounts(cfg, Push(s1, Value(s, e)), e.wake);
    } else {
      BlockPutCounts(cfg, s1, e.t, Value(s, e));
    }
  }

  lemma PushCounts<T>(cfg: Config, s: State<T>, v: T, wake: Wake)
    requires Blocking(cfg, s)
    ensures Blocking(cfg, Push(s, v)) && CountsOf(Push(s, v)) == CountsOf(s).(b := |s.buffer| + 1)
    ensures CanNotify(Push(s, v), wake) == CanNotify(s, wake)
  {
  }

  lemma PopCounts<T>(cfg: Config, s: State<T>, wake: Wake)
    requires Blocking(cfg, s) && s.buffer != []
    ensures Blocking(cfg, Pop(s)) && CountsOf(Pop(s)) == CountsOf(s).(b := |s.buffer| - 1)
    ensures CanNotify(Pop(s), wake) == CanNotify(s, wake)
  {
  }

  lemma BlockPutCounts<T>(cfg: Config, s: State<T>, t: Tid, v: T)
    requires Blocking(cfg, s) && t in cfg.producers && t !in s.waitingPut + s.signalledPut
    ensures Blocking(cfg, BlockPut(s, t, v))
    ensures CountsOf(BlockPut(s, t, v)) == CountsOf(s).(wp := |s.waitingPut| + 1)
  {
  }

  lemma BlockNextCounts<T>(cfg: Config, s: State<T>, t: Tid)
    requires Blocking(cfg, s) && t in cfg.consumers && t !in s.waitingNext + s.signalledNext
    ensures Blocking(cfg, BlockNext(s, t))
    ensures CountsOf(BlockNext(s, t)) == CountsOf(s).(wc := |s.waitingNext| + 1)
  {
  }

  lemma NextIsStep<T>(cfg: Config, s: State<T>, e: Event<T>)
    requires Blocking(cfg, s) && Enabled(cfg, s, e) && e.Next?
    ensures Blocking(cfg, Apply(cfg, s, e))
    ensures NextStep(SizeOf(cfg), CountsOf(s), CountsOf(Apply(cfg, s, e)))
  {
    hide Blocking, Apply, CountsOf, NextFrom, CanStart, CanNotify;
    StartIsCounted(cfg, s, e);
    NextIsNextFrom(cfg, s, e);
    assert CountsOf(s).sc == |s.signalledNext| && CountsOf(s).wc == |s.waitingNext| by {
      CountsAre(s);
    }
  }

  lemma NextIsNextFrom<T>(cfg: Config, s: State<T>, e: Event<T>)
    requires Blocking(cfg, s) && Enabled(cfg, s, e) && e.Next?
    ensures Blocking(cfg, Apply(cfg, s, e))
    ensures NextFrom(SizeOf(cfg), CountsOf(Start(s, e)), CountsOf(Apply(cfg, s, e)))
  {
    hide Notify, Notified, Start, Blocking, CountsOf, Pop, BlockNext, CanNotify;
    StartIsCounted(cfg, s, e);
    StartKeeps(s, e);
    var s1 := Start(s, e);
    CountsAre(s1);
    if s.buffer != [] {
      PopCounts(cfg, s1, e.wake);
      NotifyCounts(cfg, Pop(s1), e.wake);
    } else if !s.closed {
      BlockNextCounts(cfg, s1, e.t);
    }
  }

  lemma CountsAre<T>(s: State<T>)
    ensures CountsOf(s) == Counts(|s.buffer|, |s.signalledPut|, |s.waitingPut|, |s.signalledNext|, |s.waitingNext|, s.closed)
  {
  }

  lemma SpuriousIsStep<T>(cfg: Config, s: State<T>, e: Event<T>)
    requires Blocking(cfg, s) && Enabled(cfg, s, e) && (e.SpuriousPut? || e.SpuriousNext?)
    ensures Blocking(cfg, Apply(cfg, s, e))
    ensures SpuriousStep(CountsOf(s), CountsOf(Apply(cfg, s, e)))
  {
    hide Blocking, Notify, CountsOf;
    CountsAre(s);
    if e.SpuriousPut? {
      NotifyProducer(cfg, s, e.t);
    } else {
      NotifyConsumer(cfg, s, e.t);
    }
  }

  lemma CloseIsStep<T>(cfg: Config, s: State<T>)
    requires Blocking(cfg, s)
    ensures Blocking(cfg, Apply(cfg, s, Close))
    ensures CloseStep(CountsOf(s), CountsOf(Apply(cfg, s, Close)))
  {
    assert |s.signalledPut + s.waitingPut| == |s.signalledPut| + |s.waitingPut|;
    assert |s.signalledNext + s.waitingNext| == |s.signalledNext| + |s.waitingNext|;
  }

  lemma FreeThread(threads: set<Tid>, waiting: set<Tid>, signalled: set<Tid>, t: Tid)
    requires waiting !! signalled && waiting + signalled <= threads
    ensures |waiting| + |signalled| <= |threads|
    ensures t in threads && t !in waiting && t !in signalled ==> |waiting| + |signalled| < |threads|
  {
    SubsetSize(waiting + signalled, threads);
    if t in threads && t !in waiting && t !in signalled {
      SubsetSize(waiting + signalled + {t}, threads);
    }
  }

  lemma {:induction false} SubsetSize(a: set<Tid>, b: set<Tid>)
    requires a <= b
    ensures |a| <= |b|
  {
    assert b == a + (b - a);
  }

  // ---------------------------------------------------------------- lifting a step to threads

  lemma {:induction false} SomeFree(threads: set<Tid>, waiting: set<Tid>, signalled: set<Tid>) returns (t: Tid)
    requires waiting !! signalled && |waiting| + |signalled| < |threads|
    ensures t in threads && t !in waiting && t !in signalled
  {
    if threads <= waiting + signalled {
      SubsetSize(threads, waiting + signalled);
    }
    t :| t in threads && t !in waiting + signalled;
  }

  /** The wake-up that realises a counted notification. */
  lemma PickWake<T>(cfg: Config, s: State<T>, y: Counts) returns (wake: Wake)
    requires Blocking(cfg, s) && Notified(CountsOf(s), y)
    ensures CanNotify(s, wake) && CountsOf(Notify(s, wake)) == y
  {
    hide Blocking, Notify, CountsOf;
    CountsAre(s);
    var x := CountsOf(s);
    if x.wp == 0 && x.wc == 0 {
      wake := Nobody;
      NotifyNobody(s);
    } else if x.wp > 0 && y == x.(wp := x.wp - 1, sp := x.sp + 1) {
      wake := PickProducer(cfg, s);
    } else {
      wake := PickConsumer(cfg, s);
    }
  }

  lemma PickProducer<T>(cfg: Config, s: State<T>) returns (wake: Wake)
    requires Blocking(cfg, s) && |s.waitingPut| > 0
    ensures CanNotify(s, wake)
    ensures CountsOf(Notify(s, wake)) == CountsOf(s).(wp := |s.waitingPut| - 1, sp := |s.signalledPut| + 1)
  {
    var p :| p in s.waitingPut;
    wake := Producer(p);
    NotifyProducer(cfg, s, p);
  }

  lemma PickConsumer<T>(cfg: Config, s: State<T>) returns (wake: Wake)
    requires Blocking(cfg, s) && |s.waitingNext| > 0
    ensures CanNotify(s, wake)
    ensures CountsOf(Notify(s, wake)) == CountsOf(s).(wc := |s.waitingNext| - 1, sc := |s.signalledNext| + 1)
  {
    var c :| c in s.waitingNext;
    wake := Consumer(c);
    NotifyConsumer(cfg, s, c);
  }

  /** A thread for a counted put: `resumed` picks a signalled producer, otherwise one outside `put`. */
  lemma PutThread<T>(cfg: Config, s: State<T>, value: T, resumed: bool) returns (e: Event<T>)
    requires Blocking(cfg, s)
    requires if resumed then |s.signalledPut| > 0 else |s.signalledPut| + |s.waitingPut| < |cfg.producers|
    ensures e.Put? && e.resumed == resumed && e.wake == Nobody && CanStart(cfg, s, e)
  {
    var t: Tid;
    if resumed {
      t :| t in s.signalledPut;
    } else {
      t := SomeFree(cfg.producers, s.waitingPut, s.signalledPut);
    }
    e := Put(t, resumed, value, Nobody);
  }

  lemma NextThread<T>(cfg: Config, s: State<T>, resumed: bool) returns (e: Event<T>)
    requires Blocking(cfg, s)
    requires if resumed then |s.signalledNext| > 0 else |s.signalledNext| + |s.waitingNext| < |cfg.consumers|
    ensures e.Next? && e.resumed == resumed && e.wake == Nobody && CanStart(cfg, s, e)
  {
    var t: Tid;
    if resumed {
      t :| t in s.signalledNext;
    } else {
      t := SomeFree(cfg.consumers, s.waitingNext, s.signalledNext);
    }
    e := Next(t, resumed, Nobody);
  }

  lemma LiftPut<T>(cfg: Config, s: State<T>, y: Counts, value: T, resumed: bool) returns (e: Event<T>)
    requires Blocking(cfg, s)
    requires if resumed then |s.signalledPut| > 0 else |s.signalledPut| + |s.waitingPut| < |cfg.producers|
    requires PutFrom(SizeOf(cfg), StartCounts(CountsOf(s), true, resumed), y)
    ensures Enabled(cfg, s, e) && e.Put? && CountsOf(Apply(cfg, s, e)) == y
  {
    hide Notify, Notified, Start, Blocking, CountsOf, Push, BlockPut, CanNotify;
    var e0 := PutThread(cfg, s, value, resumed);
    StartIsCounted(cfg, s, e0);
    StartKeeps(s, e0);
    CountsAre(s);
    var s1 := Start(s, e0);
    CountsAre(s1);
    if |s.buffer| < cfg.capacity {
      PushCounts(cfg, s1, Value(s, e0), Nobody);
      var wake := PickWake(cfg, Push(s1, Value(s, e0)), y);
      PushCounts(cfg, s1, Value(s, e0), wake);
      e := Put(e0.t, resumed, e0.value, wake);
      StartKeeps(s, e);
      assert Start(s, e) == s1 by {
        SameStart(s, e0, e);
      }
    } else {
      e := e0;
      BlockPutCounts(cfg, s1, e.t, Value(s, e));
    }
  }

  lemma LiftNext<T>(cfg: Config, s: State<T>, y: Counts, resumed: bool) returns (e: Event<T>)
    requires Blocking(cfg, s)
    requires if resumed then |s.signalledNext| > 0 else |s.signalledNext| + |s.waitingNext| < |cfg.consumers|
    requires NextFrom(SizeOf(cfg), StartCounts(CountsOf(s), false, resumed), y)
    ensures Enabled(cfg, s, e) && e.Next? && CountsOf(Apply(cfg, s, e)) == y
  {
    hide Notify, Notified, Start, Blocking, CountsOf, Pop, BlockNext, CanNotify;
    var e0: Event<T> := NextThread(cfg, s, resumed);
    StartIsCounted(cfg, s, e0);
    StartKeeps(s, e0);
    CountsAre(s);
    var s1 := Start(s, e0);
    CountsAre(s1);
    if s.buffer != [] {
      PopCounts(cfg, s1, Nobody);
      var wake := PickWake(cfg, Pop(s1), y);
      PopCounts(cfg, s1, wake);
      e := Next(e0.t, resumed, wake);
      StartKeeps(s, e);
      assert Start(s, e) == s1 by {
        SameStart(s, e0, e);
      }
    } else {
      e := e0;
      if !s.closed {
        BlockNextCounts(cfg, s1, e.t);
      }
    }
  }

  lemma SameStart<T>(s: State<T>, e: Event<T>, f: Event<T>)
    requires (e.Put? && f.Put?) || (e.Next? && f.Next?)
    requires e.t == f.t && e.resumed == f.resumed
    ensures Start(s, e) == Start(s, f)
  {
  }

  /** Conversely every open step of the counting system is a section of some thread. */
  lemma LiftStep<T>(cfg: Config, s: State<T>, y: Counts, value: T) returns (e: Event<T>)
    requires Blocking(cfg, s) && Step(SizeOf(cfg), CountsOf(s), y) && !y.closed
    ensures Enabled(cfg, s, e) && Blocking(cfg, Apply(cfg, s, e)) && CountsOf(Apply(cfg, s, e)) == y
  {
    hide PutFrom, NextFrom, Notify, Enabled, Apply, Blocking;
    var g, x := SizeOf(cfg), CountsOf(s);
    if PutStep(g, x, y) {
      var resumed := !(x.sp + x.wp < g.p && PutFrom(g, x, y));
      e := LiftPut(cfg, s, y, value, resumed);
      PutIsStep(cfg, s, e);
    } else if NextStep(g, x, y) {
      var resumed := !(x.sc + x.wc < g.c && NextFrom(g, x, y));
      e := LiftNext(cfg, s, y, resumed);
      NextIsStep(cfg, s, e);
    } else {
      e := LiftSpurious(cfg, s, y);
      SpuriousIsStep(cfg, s, e);
    }
  }

  lemma LiftSpurious<T>(cfg: Config, s: State<T>, y: Counts) returns (e: Event<T>)
    requires Blocking(cfg, s) && SpuriousStep(CountsOf(s), y)
    ensures (e.SpuriousPut? || e.SpuriousNext?) && Enabled(cfg, s, e) && CountsOf(Apply(cfg, s, e)) == y
  {
    var wake := PickWake(cfg, s, y);
    e := if wake.Producer? then SpuriousPut(wake.p) else SpuriousNext(wake.c);
  }

  // ---------------------------------------------------------------- the result for threads

  /** Some blocked thread could go on, but nobody is signalled. */
  predicate LostWakeup<T>(cfg: Config, s: State<T>) {
    && s.signalledPut == {} && s.signalledNext == {}
    && ((s.waitingPut != {} && |s.buffer| < cfg.capacity) || (s.waitingNext != {} && (s.buffer != [] || s.closed)))
  }

  lemma {:induction false} RunInvariant<T>(cfg: Config, events: seq<Event<T>>)
    requires Run(cfg, events)
    ensures Blocking(cfg, After(cfg, events))
    ensures Safe(SizeOf(cfg)) ==> Invariant(SizeOf(cfg), CountsOf(After(cfg, events)))
  {
    hide Replay, Run, After, Enabled, Apply, Blocking, Invariant, Safe;
    if events == [] {
      StartInvariant<T>(cfg);
    } else {
      var n := |events| - 1;
      RunLast(cfg, events);
      RunInvariant(cfg, events[..n]);
      StepInvariant(cfg, After(cfg, events[..n]), events[n]);
    }
  }

  lemma StartInvariant<T>(cfg: Config)
    ensures Run<T>(cfg, []) && Blocking(cfg, After<T>(cfg, [])) && CountsOf(After<T>(cfg, [])) == START
    ensures Invariant(SizeOf(cfg), START)
  {
  }

  lemma StepInvariant<T>(cfg: Config, s: State<T>, e: Event<T>)
    requires Blocking(cfg, s) && Enabled(cfg, s, e)
    requires Safe(SizeOf(cfg)) ==> Invariant(SizeOf(cfg), CountsOf(s))
    ensures Blocking(cfg, Apply(cfg, s, e))
    ensures Safe(SizeOf(cfg)) ==> Invariant(SizeOf(cfg), CountsOf(Apply(cfg, s, e)))
  {
    hide Apply, Enabled, Blocking, Invariant, Safe, PutStep, NextStep, SpuriousStep, CloseStep, CountsOf;
    match e {
      case Put(_, _, _, _) => PutIsStep(cfg, s, e);
      case Next(_, _, _) => NextIsStep(cfg, s, e);
      case Close => CloseIsStep(cfg, s);
      case _ => SpuriousIsStep(cfg, s, e);
    }
    var g, x, y := SizeOf(cfg), CountsOf(s), CountsOf(Apply(cfg, s, e));
    if Safe(g) {
      if PutStep(g, x, y) {
        InvariantPut(g, x, y);
      } else if NextStep(g, x, y) {
        InvariantNext(g, x, y);
      } else {
        InvariantOther(g, x, y);
      }
    }
  }

  lemma {:induction false} RunPath<T>(cfg: Config, path: seq<Counts>, value: T) returns (events: seq<Event<T>>)
    requires Path(SizeOf(cfg), path) && path[0] == START
    ensures Run(cfg, events) && CountsOf(After(cfg, events)) == path[|path| - 1]
    decreases |path|
  {
    hide Replay, Run, After, Enabled, Apply, Blocking, Step, Fits, CountsOf;
    StartInvariant<T>(cfg);
    if |path| == 1 {
      events := [];
    } else {
      var n := |path| - 1;
      var before := RunPath(cfg, path[..n], value);
      RunInvariant(cfg, before);
      var e := LiftStep(cfg, After(cfg, before), path[n], value);
      RunSnoc(cfg, before, e);
      events := before + [e];
    }
  }

  lemma SafeRun<T>(cfg: Config, events: seq<Event<T>>)
    requires Safe(SizeOf(cfg)) && Run(cfg, events)
    ensures !LostWakeup(cfg, After(cfg, events))
  {
    hide Run, After, Safe;
    RunInvariant(cfg, events);
    InvariantNotLost(SizeOf(cfg), CountsOf(After(cfg, events)));
  }

  /**
   * Exactly when a `Channel` can lose a wake-up although spurious wake-ups, barging and closing are
   * all allowed: never with at most `capacity` threads of each kind; with a single thread of one kind,
   * never below twice the capacity of the other; in every other size some run does. A thread that is both
   * a producer and a consumer counts as one of each; it cannot block in both calls at once, so for such
   * threads only the safe sizes are claimed.
   */
  lemma NoLostWakeupExact<T>(cfg: Config, value: T)
    ensures Safe(SizeOf(cfg)) ==>
      forall events: seq<Event<T>> :: Run(cfg, events) ==> !LostWakeup(cfg, After(cfg, events))
    ensures cfg.producers !! cfg.consumers ==>
      ((forall events: seq<Event<T>> :: Run(cfg, events) ==> !LostWakeup(cfg, After(cfg, events))) <==> Safe(SizeOf(cfg)))
  {
    hide Run, After, Safe;
    if Safe(SizeOf(cfg)) {
      forall events: seq<Event<T>> | Run(cfg, events) ensures !LostWakeup(cfg, After(cfg, events)) {
        SafeRun(cfg, events);
      }
    } else {
      var x := UnsafeLoses(SizeOf(cfg));
      var path :| Path(SizeOf(cfg), path) && path[0] == START && path[|path| - 1] == x;
      var events := RunPath(cfg, path, value);
      assert Run(cfg, events) && LostWakeup(cfg, After(cfg, events));
    }
  }

  /**
   * One producer and one consumer, any number of closers: a waiting consumer that is not signalled
   * sees an empty open buffer, such a producer sees a full one, and both are never stuck together.
   */
  lemma OneProducerOneConsumer<T>(cfg: Config, events: seq<Event<T>>)
    requires |cfg.producers| == 1 && |cfg.consumers| == 1 && cfg.capacity > 0 && Run(cfg, events)
    ensures var s := After(cfg, events);
      && (s.waitingNext != {} ==> s.buffer == [] && !s.closed)
      && (s.waitingPut != {} ==> |s.buffer| == cfg.capacity)
      && (s.waitingPut == {} || s.waitingNext == {})
  {
    RunInvariant(cfg, events);
  }
}
