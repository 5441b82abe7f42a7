/**
 * The lock and join protocol of the server: the client list and subscriber mutexes, the receive thread
 * of every client, the remover thread, one thread that closes the server and any number of others that
 * call it. A run is any interleaving of their steps.
 */
module Locking {
  import opened Packets

  datatype Thread = Closer | Remover | Caller(id: nat) | Receiver(client: nat)

  datatype Lock = ClientsMtx | SubscribersMtx

  /** `close`: join the remover, then lock the clients and join their receive threads one by one. */
  datatype CloserAt = BeforeClose | JoinRemover | WantClients | Closing(rest: seq<nat>) | JoinClient(c: nat, rest: seq<nat>) | Closed

  /** `removeDeadClients`. */
  datatype RemoverAt = Absent | CheckStop | WantSweep | Sweeping | JoinDead(c: nat) | Sleeping | RemoverDone

  /** Any other call that takes one lock and waits for nothing while it holds it. */
  datatype CallerAt = Outside | Want(lock: Lock) | Holding(lock: Lock)

  /** `receiveTask`; `last` marks the disconnection event, after which the thread ends. */
  datatype ReceiverAt =
    | Receiving
    | WantPublish(last: bool)
    | InCallback(last: bool)
    | CallbackWants(last: bool)
    | CallbackHolds(last: bool)
    | Ended

  datatype State = State(
    clientsHolder: Option<Thread>, subscribersHolder: Option<Thread>,
    closer: CloserAt, remover: RemoverAt, callers: map<nat, CallerAt>, receivers: map<nat, ReceiverAt>,
    listed: seq<nat>, connected: set<nat>, stop: bool)

  datatype Event =
    | StartRemover | RemoverCheck | RemoverLock | RemoverFind(c: nat) | RemoverJoined | RemoverUnlock | RemoverWake
    | BeginClose | CloserJoined | CloserLock | CloserNext | CloserJoinedClient | CloserUnlock
    | CallerWant(id: nat, lock: Lock) | CallerLock(id: nat) | CallerUnlock(id: nat, push: Option<nat>)
    | Spawn(c: nat) | Publish(c: nat, last: bool) | PublishLock(c: nat) | CallbackReturn(c: nat) | ReceiverExit(c: nat)
    | CallbackCall(c: nat) | CallbackLock(c: nat) | CallbackUnlock(c: nat)

  function Initial(): State {
    State(None, None, BeforeClose, Absent, map[], map[], [], {}, false)
  }

  function Holder(s: State, lock: Lock): Option<Thread> {
    if lock == ClientsMtx then s.clientsHolder else s.subscribersHolder
  }

  function At(s: State, id: nat): CallerAt {
    if id in s.callers then s.callers[id] else Outside
  }

  // ---------------------------------------------------------------- steps

  /** `calling` says whether callbacks call server functions, which the documentation forbids. */
  predicate Enabled(calling: bool, s: State, e: Event) {
    match e
    case StartRemover => s.remover == Absent && s.closer == BeforeClose
    case RemoverCheck => s.remover == CheckStop
    case RemoverLock => s.remover == WantSweep && s.clientsHolder == None
    case RemoverFind(c) => s.remover == Sweeping && c in s.listed && c !in s.connected && c in s.receivers
    case RemoverJoined => s.remover.JoinDead? && s.remover.c in s.receivers && s.receivers[s.remover.c] == Ended
    case RemoverUnlock => s.remover == Sweeping
    case RemoverWake => s.remover == Sleeping
    case BeginClose => s.closer == BeforeClose
    case CloserJoined => s.closer == JoinRemover && s.remover == RemoverDone
    case CloserLock => s.closer == WantClients && s.clientsHolder == None
    case CloserNext => s.closer.Closing? && s.closer.rest != [] && s.closer.rest[0] in s.receivers
    case CloserJoinedClient => s.closer.JoinClient? && s.closer.c in s.receivers && s.receivers[s.closer.c] == Ended
    case CloserUnlock => s.closer == Closing([])
    case CallerWant(id, _) => At(s, id) == Outside
    case CallerLock(id) => At(s, id).Want? && Holder(s, At(s, id).lock) == None
    case CallerUnlock(id, push) =>
      At(s, id).Holding? && (push.Some? ==> At(s, id).lock == ClientsMtx && push.value in s.receivers)
    case Spawn(c) => c !in s.receivers
    case Publish(c, _) => c in s.receivers && s.receivers[c] == Receiving
    case PublishLock(c) => c in s.receivers && s.receivers[c].WantPublish? && s.subscribersHolder == None
    case CallbackReturn(c) => c in s.receivers && s.receivers[c].InCallback?
    case ReceiverExit(c) => c in s.receivers && s.receivers[c] == Receiving && c !in s.connected
    case CallbackCall(c) => calling && c in s.receivers && s.receivers[c].InCallback?
    case CallbackLock(c) => c in s.receivers && s.receivers[c].CallbackWants? && s.clientsHolder == None
    case CallbackUnlock(c) => c in s.receivers && s.receivers[c].CallbackHolds?
  }

  function Erase(clients: seq<nat>, c: nat): seq<nat> {
    if clients == [] then [] else (if clients[0] == c then [] else [clients[0]]) + Erase(clients[1..], c)
  }

  function Apply(calling: bool, s: State, e: Event): State
    requires Enabled(calling, s, e)
  {
    match e
    case StartRemover => s.(remover := CheckStop)
    case RemoverCheck => s.(remover := if s.stop then RemoverDone else WantSweep)
    case RemoverLock => s.(remover := Sweeping, clientsHolder := Some(Remover))
    case RemoverFind(c) => s.(remover := JoinDead(c))
    case RemoverJoined => s.(remover := Sweeping, listed := Erase(s.listed, s.remover.c))
    case RemoverUnlock => s.(remover := Sleeping, clientsHolder := None)
    case RemoverWake => s.(remover := CheckStop)
    case BeginClose => if s.remover == Absent then s.(closer := WantClients) else s.(closer := JoinRemover, stop := true)
    case CloserJoined => s.(closer := WantClients)
    case CloserLock => s.(closer := Closing(s.listed), clientsHolder := Some(Closer))
    case CloserNext =>
      s.(closer := JoinClient(s.closer.rest[0], s.closer.rest[1..]), connected := s.connected - {s.closer.rest[0]})
    case CloserJoinedClient => s.(closer := Closing(s.closer.rest))
    case CloserUnlock => s.(closer := Closed, listed := [], clientsHolder := None)
    case CallerWant(id, lock) => s.(callers := s.callers[id := Want(lock)])
    case CallerLock(id) =>
      var lock := At(s, id).lock;
      var s1 := s.(callers := s.callers[id := Holding(lock)]);
      if lock == ClientsMtx then s1.(clientsHolder := Some(Caller(id))) else s1.(subscribersHolder := Some(Caller(id)))
    case CallerUnlock(id, push) =>
      var s1 := s.(callers := s.callers[id := Outside], listed := if push.Some? then s.listed + [push.value] else s.listed);
      if At(s, id).lock == ClientsMtx then s1.(clientsHolder := None) else s1.(subscribersHolder := None)
    case Spawn(c) => s.(receivers := s.receivers[c := Receiving], connected := s.connected + {c})
    case Publish(c, last) =>
      s.(receivers := s.receivers[c := WantPublish(last)], connected := if last then s.connected - {c} else s.connected)
    case PublishLock(c) =>
      s.(receivers := s.receivers[c := InCallback(s.receivers[c].last)], subscribersHolder := Some(Receiver(c)))
    case CallbackReturn(c) =>
      s.(receivers := s.receivers[c := if s.receivers[c].last then Ended else Receiving], subscribersHolder := None)
    case ReceiverExit(c) => s.(receivers := s.receivers[c := Ended])
    case CallbackCall(c) => s.(receivers := s.receivers[c := CallbackWants(s.receivers[c].last)])
    case CallbackLock(c) =>
      s.(receivers := s.receivers[c := CallbackHolds(s.receivers[c].last)], clientsHolder := Some(Receiver(c)))
    case CallbackUnlock(c) =>
      s.(receivers := s.receivers[c := InCallback(s.receivers[c].last)], clientsHolder := None)
  }

  /** The thread that takes an event. */
  function Actor(e: Event): Thread {
    match e
    case StartRemover => Caller(0)
    case RemoverCheck => Remover
    case RemoverLock => Remover
    case RemoverFind(_) => Remover
    case RemoverJoined => Remover
    case RemoverUnlock => Remover
    case RemoverWake => Remover
    case BeginClose => Closer
    case CloserJoined => Closer
    case CloserLock => Closer
    case CloserNext => Closer
    case CloserJoinedClient => Closer
    case CloserUnlock => Closer
    case CallerWant(id, _) => Caller(id)
    case CallerLock(id) => Caller(id)
    case CallerUnlock(id, _) => Caller(id)
    case Spawn(_) => Caller(0)
    case Publish(c, _) => Receiver(c)
    case PublishLock(c) => Receiver(c)
    case CallbackReturn(c) => Receiver(c)
    case ReceiverExit(c) => Receiver(c)
    case CallbackCall(c) => Receiver(c)
    case CallbackLock(c) => Receiver(c)
    case CallbackUnlock(c) => Receiver(c)
  }

  // ---------------------------------------------------------------- who waits for whom

  /** The thread that must move before t can, or None if t is not waiting. */
  function WaitsFor(s: State, t: Thread): Option<Thread> {
    match t
    case Closer =>
      if s.closer == JoinRemover then (if s.remover == RemoverDone then None else Some(Remover))
      else if s.closer == WantClients then s.clientsHolder
      else if s.closer.JoinClient? then Joining(s, s.closer.c)
      else None
    case Remover =>
      if s.remover == WantSweep then s.clientsHolder
      else if s.remover.JoinDead? then Joining(s, s.remover.c)
      else None
    case Caller(id) => if At(s, id).Want? then Holder(s, At(s, id).lock) else None
    case Receiver(c) =>
      if c !in s.receivers then None
      else if s.receivers[c].WantPublish? then s.subscribersHolder
      else if s.receivers[c].CallbackWants? then s.clientsHolder
      else None
  }

  function Joining(s: State, c: nat): Option<Thread> {
    if c in s.receivers && s.receivers[c] == Ended then None else Some(Receiver(c))
  }

  /** Threads that wait are ordered: receivers below the remover, below the closer, below callers. */
  function Rank(s: State, t: Thread): nat {
    if WaitsFor(s, t) == None then 0
    else match t
      case Receiver(_) => 1
      case Remover => 2
      case Closer => 3
      case Caller(_) => 4
  }

  // ---------------------------------------------------------------- the invariant

  predicate HoldsClients(s: State, t: Thread) {
    match t
    case Closer => s.closer.Closing? || s.closer.JoinClient?
    case Remover => s.remover == Sweeping || s.remover.JoinDead?
    case Caller(id) => At(s, id) == Holding(ClientsMtx)
    case Receiver(c) => c in s.receivers && s.receivers[c].CallbackHolds?
  }

  predicate HoldsSubscribers(s: State, t: Thread) {
    match t
    case Closer => false
    case Remover => false
    case Caller(id) => At(s, id) == Holding(SubscribersMtx)
    case Receiver(c) =>
      c in s.receivers && (s.receivers[c].InCallback? || s.receivers[c].CallbackWants? || s.receivers[c].CallbackHolds?)
  }

  ghost predicate Invariant(calling: bool, s: State) {
    && (forall t :: HoldsClients(s, t) <==> s.clientsHolder == Some(t))
    && (forall t :: HoldsSubscribers(s, t) <==> s.subscribersHolder == Some(t))
    && (s.closer.WantClients? || s.closer.Closing? || s.closer.JoinClient? || s.closer.Closed? ==>
          s.remover == Absent || s.remover == RemoverDone)
    && (s.closer.JoinRemover? ==> s.remover != Absent)
    && (!calling ==> forall c :: c in s.receivers ==>
          !s.receivers[c].CallbackWants? && !s.receivers[c].CallbackHolds?)
    && Joinable(s)
  }

  /** Every listed client has a receive thread, and a thread being joined has been told to stop. */
  predicate Joinable(s: State) {
    && (forall c :: c in s.listed ==> c in s.receivers)
    && (s.remover.JoinDead? ==> s.remover.c in s.receivers && s.remover.c !in s.connected)
    && (s.closer.JoinClient? ==> s.closer.c in s.receivers && s.closer.c !in s.connected)
    && (s.closer.JoinClient? || s.closer.Closing? ==> forall c :: c in s.closer.rest ==> c in s.receivers)
  }

  lemma InvariantStep(calling: bool, s: State, e: Event)
    requires Invariant(calling, s) && Enabled(calling, s, e)
    ensures Invariant(calling, Apply(calling, s, e))
  {
    var s' := Apply(calling, s, e);
    forall t ensures HoldsClients(s', t) <==> s'.clientsHolder == Some(t) {
      ClientsHolderStep(calling, s, e, t);
    }
    forall t ensures HoldsSubscribers(s', t) <==> s'.subscribersHolder == Some(t) {
      SubscribersHolderStep(calling, s, e, t);
    }
    JoinableStep(calling, s, e);
  }

  lemma JoinableStep(calling: bool, s: State, e: Event)
    requires Joinable(s) && Enabled(calling, s, e)
    ensures Joinable(Apply(calling, s, e))
  {
    if ServerMoves(e) {
      ServerJoinable(calling, s, e);
    } else {
      ClientJoinable(calling, s, e);
    }
  }

  predicate ServerMoves(e: Event) {
    Actor(e) == Closer || Actor(e) == Remover
  }

  lemma ServerJoinable(calling: bool, s: State, e: Event)
    requires Joinable(s) && Enabled(calling, s, e) && ServerMoves(e)
    ensures Joinable(Apply(calling, s, e))
  {
    if e == RemoverJoined {
      EraseKeeps(s.listed, s.remover.c);
    }
  }

  lemma ClientJoinable(calling: bool, s: State, e: Event)
    requires Joinable(s) && Enabled(calling, s, e) && !ServerMoves(e)
    ensures Joinable(Apply(calling, s, e))
  {
  }

  lemma {:induction false} EraseKeeps(clients: seq<nat>, c: nat)
    ensures forall x :: x in Erase(clients, c) <==> x in clients && x != c
  {
    if clients != [] {
      EraseKeeps(clients[1..], c);
      assert clients == [clients[0]] + clients[1..];
    }
  }

  /** Each mutex has exactly the holder the threads' own positions say. */
  lemma ClientsHolderStep(calling: bool, s: State, e: Event, t: Thread)
    requires (forall u :: HoldsClients(s, u) <==> s.clientsHolder == Some(u)) && Enabled(calling, s, e)
    ensures HoldsClients(Apply(calling, s, e), t) <==> Apply(calling, s, e).clientsHolder == Some(t)
  {
    if ServerMoves(e) {
      ServerHolderStep(calling, s, e, t);
    } else {
      ClientHolderStep(calling, s, e, t);
    }
  }

  lemma ServerHolderStep(calling: bool, s: State, e: Event, t: Thread)
    requires (forall u :: HoldsClients(s, u) <==> s.clientsHolder == Some(u)) && Enabled(calling, s, e) && ServerMoves(e)
    ensures HoldsClients(Apply(calling, s, e), t) <==> Apply(calling, s, e).clientsHolder == Some(t)
  {
    if Actor(e) == Closer {
      CloserHolderStep(calling, s, e, t);
    } else {
      RemoverHolderStep(calling, s, e, t);
    }
  }

  lemma CloserHolderStep(calling: bool, s: State, e: Event, t: Thread)
    requires (forall u :: HoldsClients(s, u) <==> s.clientsHolder == Some(u)) && Enabled(calling, s, e) && Actor(e) == Closer
    ensures HoldsClients(Apply(calling, s, e), t) <==> Apply(calling, s, e).clientsHolder == Some(t)
  {
    assert HoldsClients(s, Closer) <==> s.clientsHolder == Some(Closer);
  }

  lemma RemoverHolderStep(calling: bool, s: State, e: Event, t: Thread)
    requires (forall u :: HoldsClients(s, u) <==> s.clientsHolder == Some(u)) && Enabled(calling, s, e) && Actor(e) == Remover
    ensures HoldsClients(Apply(calling, s, e), t) <==> Apply(calling, s, e).clientsHolder == Some(t)
  {
    assert HoldsClients(s, Remover) <==> s.clientsHolder == Some(Remover);
  }

  lemma ClientHolderStep(calling: bool, s: State, e: Event, t: Thread)
    requires (forall u :: HoldsClients(s, u) <==> s.clientsHolder == Some(u)) && Enabled(calling, s, e) && !ServerMoves(e)
    ensures HoldsClients(Apply(calling, s, e), t) <==> Apply(calling, s, e).clientsHolder == Some(t)
  {
    match e
    case CallerUnlock(id, _) => assert HoldsClients(s, Caller(id)) <==> s.clientsHolder == Some(Caller(id));
    case CallbackUnlock(c) => assert HoldsClients(s, Receiver(c)) <==> s.clientsHolder == Some(Receiver(c));
    case _ =>
  }

  lemma SubscribersHolderStep(calling: bool, s: State, e: Event, t: Thread)
    requires (forall u :: HoldsSubscribers(s, u) <==> s.subscribersHolder == Some(u)) && Enabled(calling, s, e)
    ensures HoldsSubscribers(Apply(calling, s, e), t) <==> Apply(calling, s, e).subscribersHolder == Some(t)
  {
    hide HoldsSubscribers;
    if ServerMoves(e) {
      ServerLeavesSubscribers(calling, s, e, t);
    } else {
      ClientSubscribersStep(calling, s, e, t);
    }
  }

  lemma ServerLeavesSubscribers(calling: bool, s: State, e: Event, t: Thread)
    requires Enabled(calling, s, e) && ServerMoves(e)
    ensures HoldsSubscribers(Apply(calling, s, e), t) == HoldsSubscribers(s, t)
    ensures Apply(calling, s, e).subscribersHolder == s.subscribersHolder
  {
  }

  lemma ClientSubscribersStep(calling: bool, s: State, e: Event, t: Thread)
    requires (forall u :: HoldsSubscribers(s, u) <==> s.subscribersHolder == Some(u))
    requires Enabled(calling, s, e) && !ServerMoves(e)
    ensures HoldsSubscribers(Apply(calling, s, e), t) <==> Apply(calling, s, e).subscribersHolder == Some(t)
  {
    match e
    case CallerUnlock(id, _) => assert HoldsSubscribers(s, Caller(id)) <==> s.subscribersHolder == Some(Caller(id));
    case CallbackReturn(c) => assert HoldsSubscribers(s, Receiver(c)) <==> s.subscribersHolder == Some(Receiver(c));
    case _ =>
  }

  /** Waiting always goes down in rank, so the wait-for relation has no cycle. */
  lemma WaitingDescends(s: State, t: Thread, u: Thread)
    requires Invariant(false, s) && WaitsFor(s, t) == Some(u)
    ensures Rank(s, u) < Rank(s, t)
  {
  }

  // ---------------------------------------------------------------- runs and cycles

  function Replay(calling: bool, events: seq<Event>): Option<State> {
    if events == [] then Some(Initial())
    else
      var n := |events| - 1;
      match Replay(calling, events[..n])
      case None => None
      case Some(s) => if Enabled(calling, s, events[n]) then Some(Apply(calling, s, events[n])) else None
  }

  predicate Run(calling: bool, events: seq<Event>) {
    Replay(calling, events).Some?
  }

  function After(calling: bool, events: seq<Event>): State
    requires Run(calling, events)
  {
    Replay(calling, events).value
  }

  lemma RunSnoc(calling: bool, events: seq<Event>, e: Event)
    requires Run(calling, events) && Enabled(calling, After(calling, events), e)
    ensures Run(calling, events + [e])
    ensures After(calling, events + [e]) == Apply(calling, After(calling, events), e)
  {
    assert (events + [e])[..|events|] == events;
  }

  lemma {:induction false} RunInvariant(calling: bool, events: seq<Event>)
    requires Run(calling, events)
    ensures Invariant(calling, After(calling, events))
  {
    hide Invariant, Apply, Enabled;
    if events == [] {
      InitialInvariant(calling);
    } else {
      var n := |events| - 1;
      RunInvariant(calling, events[..n]);
      InvariantStep(calling, After(calling, events[..n]), events[n]);
    }
  }

  lemma InitialInvariant(calling: bool)
    ensures Invariant(calling, Initial())
  {
  }

  /** Each thread of the chain waits for the next one. */
  predicate WaitChain(s: State, chain: seq<Thread>) {
    |chain| >= 2 && forall i :: 0 < i < |chain| ==> WaitsFor(s, chain[i - 1]) == Some(chain[i])
  }

  /** Some thread waits, directly or through others, for itself. */
  ghost predicate Deadlocked(s: State) {
    exists chain :: WaitChain(s, chain) && chain[0] == chain[|chain| - 1]
  }

  lemma {:induction false} ChainDescends(s: State, chain: seq<Thread>)
    requires Invariant(false, s) && WaitChain(s, chain)
    ensures Rank(s, chain[|chain| - 1]) < Rank(s, chain[0])
  {
    hide Invariant, Rank, WaitsFor;
    var n := |chain| - 1;
    WaitingDescends(s, chain[n - 1], chain[n]);
    if n >= 2 {
      ChainDescends(s, chain[..n]);
    }
  }

  predicate Reaches(calling: bool, events: seq<Event>, s: State) {
    Run(calling, events) && After(calling, events) == s
  }

  /** Client 0 is listed, both locks are free and nobody has called `close`. */
  predicate Ready(s: State, at: ReceiverAt) {
    && s.closer == BeforeClose && s.remover == Absent && s.clientsHolder == None && s.listed == [0]
    && 0 in s.receivers && s.receivers[0] == at
  }

  /** A callback that calls the server while `close` joins its thread: both wait for each other. */
  lemma CallbackDeadlocks() returns (events: seq<Event>)
    ensures Run(true, events) && Deadlocked(After(true, events))
  {
    hide Reaches, Run, After, Apply, Deadlocked;
    var s: State;
    events, s := ClientListed();
    events, s := CallbackStarts(events, s);
    events, s := CloserJoins(events, s);
    EmbraceDeadlocks(events, s);
  }

  lemma EmbraceDeadlocks(events: seq<Event>, s: State)
    requires Reaches(true, events, s) && s.closer == JoinClient(0, []) && s.clientsHolder == Some(Closer)
    requires 0 in s.receivers && s.receivers[0] == CallbackWants(false)
    ensures Run(true, events) && Deadlocked(After(true, events))
  {
    hide Run, After;
    assert WaitChain(s, [Closer, Receiver(0), Closer]);
  }

  lemma ClientListed() returns (events: seq<Event>, s: State)
    ensures Reaches(true, events, s) && Ready(s, Receiving) && s.subscribersHolder == None
  {
    assert Reaches(true, [], Initial());
    hide Reaches;
    events, s := Continue(true, [], Initial(), Spawn(0));
    events, s := Continue(true, events, s, CallerWant(0, ClientsMtx));
    events, s := PushClient(events, s);
  }

  lemma PushClient(before: seq<Event>, s0: State) returns (events: seq<Event>, s: State)
    requires Reaches(true, before, s0) && Ready(s0.(listed := [0]), Receiving) && s0.listed == [] && s0.subscribersHolder == None
    requires At(s0, 0) == Want(ClientsMtx)
    ensures Reaches(true, events, s) && Ready(s, Receiving) && s.subscribersHolder == None
  {
    hide Reaches;
    events, s := Continue(true, before, s0, CallerLock(0));
    events, s := Continue(true, events, s, CallerUnlock(0, Some(0)));
  }

  lemma CallbackStarts(before: seq<Event>, s0: State) returns (events: seq<Event>, s: State)
    requires Reaches(true, before, s0) && Ready(s0, Receiving) && s0.subscribersHolder == None
    ensures Reaches(true, events, s) && Ready(s, CallbackWants(false))
  {
    hide Reaches;
    events, s := Continue(true, before, s0, Publish(0, false));
    events, s := Continue(true, events, s, PublishLock(0));
    events, s := Continue(true, events, s, CallbackCall(0));
  }

  lemma CloserJoins(before: seq<Event>, s0: State) returns (events: seq<Event>, s: State)
    requires Reaches(true, before, s0) && Ready(s0, CallbackWants(false))
    ensures Reaches(true, events, s) && s.closer == JoinClient(0, []) && s.clientsHolder == Some(Closer)
    ensures s.receivers == s0.receivers
  {
    hide Reaches;
    events, s := Continue(true, before, s0, BeginClose);
    events, s := Continue(true, events, s, CloserLock);
    events, s := Continue(true, events, s, CloserNext);
  }

  lemma Continue(calling: bool, events: seq<Event>, s: State, e: Event) returns (longer: seq<Event>, next: State)
    requires Reaches(calling, events, s) && Enabled(calling, s, e)
    ensures next == Apply(calling, s, e) && Reaches(calling, longer, next)
  {
    hide Run, After, Apply, Enabled;
    RunSnoc(calling, events, e);
    longer, next := events + [e], Apply(calling, s, e);
  }

  /**
   * Deadlock freedom: no reachable state has a cycle of threads waiting for each other's locks or ends,
   * exactly when callbacks keep the documented rule and make no server calls.
   */
  lemma DeadlockFreeExact(calling: bool)
    ensures (forall events :: Run(calling, events) ==> !Deadlocked(After(calling, events))) <==> !calling
  {
    hide Run, After, Invariant, WaitChain, Rank;
    if calling {
      var events := CallbackDeadlocks();
      assert Run(calling, events) && Deadlocked(After(calling, events));
    } else {
      forall events | Run(calling, events) ensures !Deadlocked(After(calling, events)) {
        RunInvariant(calling, events);
        var s := After(calling, events);
        forall chain | WaitChain(s, chain) ensures |chain| >= 2 && chain[0] != chain[|chain| - 1] {
          ChainLength(s, chain);
          ChainDescends(s, chain);
        }
      }
    }
  }

  lemma ChainLength(s: State, chain: seq<Thread>)
    requires WaitChain(s, chain)
    ensures |chain| >= 2
  {
  }

  // ---------------------------------------------------------------- progress

  /** The last thread of the chain of waits that starts at t. */
  ghost function Root(s: State, t: Thread): Thread
    requires Invariant(false, s)
    decreases Rank(s, t)
  {
    match WaitsFor(s, t)
    case None => t
    case Some(u) => WaitingDescends(s, t, u); Root(s, u)
  }

  /** A thread that others wait for and that waits for nobody has a step to take. */
  lemma AwaitedMoves(s: State, t: Thread, u: Thread) returns (e: Event)
    requires Invariant(false, s) && WaitsFor(s, t) == Some(u) && WaitsFor(s, u) == None
    ensures Enabled(false, s, e) && Actor(e) == u
  {
    match u
    case Caller(id) => e := CallerUnlock(id, None);
    case Remover =>
      e := match s.remover
        case CheckStop => RemoverCheck
        case WantSweep => RemoverLock
        case JoinDead(_) => RemoverJoined
        case Sleeping => RemoverWake
        case _ => RemoverUnlock;
    case Closer =>
      e := if s.closer.JoinClient? then CloserJoinedClient else if s.closer == Closing([]) then CloserUnlock else CloserNext;
    case Receiver(c) =>
      e := match s.receivers[c]
        case WantPublish(_) => PublishLock(c)
        case InCallback(_) => CallbackReturn(c)
        case _ => ReceiverExit(c);
  }

  /**
   * Whatever the interleaving so far, the chain of waits from any waiting thread ends at a thread that can
   * take a step now, as long as callbacks keep their rule.
   */
  lemma NobodyIsStuck(events: seq<Event>, t: Thread) returns (e: Event)
    requires Run(false, events) && WaitsFor(After(false, events), t).Some?
    ensures Invariant(false, After(false, events)) && Actor(e) == Root(After(false, events), t)
    ensures Enabled(false, After(false, events), e)
  {
    hide Run, After;
    RunInvariant(false, events);
    e := RootMoves(After(false, events), t);
  }

  lemma {:induction false} RootMoves(s: State, t: Thread) returns (e: Event)
    requires Invariant(false, s) && WaitsFor(s, t).Some?
    ensures Enabled(false, s, e) && Actor(e) == Root(s, t)
    decreases Rank(s, t)
  {
    hide Enabled, Invariant, Rank, WaitsFor;
    var u := WaitsFor(s, t).value;
    WaitingDescends(s, t, u);
    if WaitsFor(s, u) == None {
      e := AwaitedMoves(s, t, u);
    } else {
      e := RootMoves(s, u);
    }
  }

  // ---------------------------------------------------------------- what close leaves behind

  /** While `close` holds the lock, every listed client it is done with has ended. */
  predicate EndedSoFar(s: State) {
    match s.closer
    case Closing(rest) => forall c :: c in s.listed && c !in rest ==> HasEnded(s, c)
    case JoinClient(d, rest) => forall c :: c in s.listed && c !in rest && c != d ==> HasEnded(s, c)
    case _ => true
  }

  predicate HasEnded(s: State, c: nat) {
    c in s.receivers && s.receivers[c] == Ended
  }

  lemma EndedStays(calling: bool, s: State, e: Event, c: nat)
    requires Enabled(calling, s, e) && HasEnded(s, c)
    ensures HasEnded(Apply(calling, s, e), c)
  {
  }

  /** Nobody changes the list while `close` holds the lock. */
  lemma ListStays(calling: bool, s: State, e: Event)
    requires Invariant(calling, s) && Enabled(calling, s, e) && HoldsClients(s, Closer) && e != CloserUnlock
    ensures Apply(calling, s, e).listed == s.listed
  {
    match e
    case CallerUnlock(id, _) => assert HoldsClients(s, Caller(id)) <==> s.clientsHolder == Some(Caller(id));
    case _ =>
  }

  lemma EndedSoFarStep(calling: bool, s: State, e: Event)
    requires Invariant(calling, s) && Enabled(calling, s, e) && EndedSoFar(s)
    ensures EndedSoFar(Apply(calling, s, e))
  {
    var t := Apply(calling, s, e);
    if Actor(e) == Closer {
      CloserEnds(calling, s, e);
    } else {
      CloserWaits(calling, s, e);
      if HoldsClients(s, Closer) {
        ListStays(calling, s, e);
        forall c | HasEnded(s, c) ensures HasEnded(t, c) {
          EndedStays(calling, s, e, c);
        }
      }
    }
  }

  lemma CloserWaits(calling: bool, s: State, e: Event)
    requires Enabled(calling, s, e) && Actor(e) != Closer
    ensures Apply(calling, s, e).closer == s.closer
  {
  }

  lemma CloserEnds(calling: bool, s: State, e: Event)
    requires Enabled(calling, s, e) && Actor(e) == Closer && EndedSoFar(s)
    ensures EndedSoFar(Apply(calling, s, e))
  {
  }

  lemma {:induction false} RunEndedSoFar(calling: bool, events: seq<Event>)
    requires Run(calling, events)
    ensures EndedSoFar(After(calling, events))
  {
    hide Invariant, Apply, Enabled;
    if events != [] {
      hide EndedSoFar;
      var n := |events| - 1;
      RunEndedSoFar(calling, events[..n]);
      RunInvariant(calling, events[..n]);
      EndedSoFarStep(calling, After(calling, events[..n]), events[n]);
    }
  }

  /** When `close` empties the list, the receive thread of every client on it has ended. */
  lemma CloseEndsListed(calling: bool, events: seq<Event>)
    requires Run(calling, events) && Enabled(calling, After(calling, events), CloserUnlock)
    ensures forall c :: c in After(calling, events).listed ==> HasEnded(After(calling, events), c)
  {
    hide Run, After;
    RunEndedSoFar(calling, events);
  }

  /**
   * Only the listed ones: a client whose `acceptClient` has started it but gets the lock after `close` is
   * listed afterwards, connected, with its thread still running.
   */
  lemma LateClientStaysOpen() returns (events: seq<Event>)
    ensures Run(false, events)
    ensures var s := After(false, events);
      s.closer == Closed && s.listed == [0] && 0 in s.connected && 0 in s.receivers && s.receivers[0] == Receiving
  {
    hide Reaches, Initial;
    var s: State;
    events, s := ClientPending();
    events, s := CloseNobody(events, s);
    events, s := PushLate(events, s);
    ReachedState(events, s);
  }

  lemma ReachedState(events: seq<Event>, s: State)
    requires Reaches(false, events, s)
    ensures Run(false, events) && After(false, events) == s
  {
  }

  /** Client 0 runs and is about to be listed. */
  predicate Pending(s: State) {
    At(s, 0) == Want(ClientsMtx) && s.listed == [] && 0 in s.connected && 0 in s.receivers && s.receivers[0] == Receiving
  }

  lemma ClientPending() returns (events: seq<Event>, s: State)
    ensures Reaches(false, events, s) && Pending(s) && s.closer == WantClients && s.clientsHolder == None
  {
    assert Reaches(false, [], Initial());
    hide Reaches;
    events, s := Continue(false, [], Initial(), Spawn(0));
    events, s := PendingWhileClosing(events, s);
  }

  lemma PendingWhileClosing(before: seq<Event>, s0: State) returns (events: seq<Event>, s: State)
    requires Reaches(false, before, s0) && At(s0, 0) == Outside && s0.listed == [] && s0.clientsHolder == None
    requires 0 in s0.connected && 0 in s0.receivers && s0.receivers[0] == Receiving
    requires s0.closer == BeforeClose && s0.remover == Absent
    ensures Reaches(false, events, s) && Pending(s) && s.closer == WantClients && s.clientsHolder == None
  {
    hide Reaches;
    events, s := Continue(false, before, s0, CallerWant(0, ClientsMtx));
    events, s := Continue(false, events, s, BeginClose);
  }

  lemma CloseNobody(before: seq<Event>, s0: State) returns (events: seq<Event>, s: State)
    requires Reaches(false, before, s0) && Pending(s0) && s0.closer == WantClients && s0.clientsHolder == None
    ensures Reaches(false, events, s) && Pending(s) && s.closer == Closed && s.clientsHolder == None
  {
    hide Reaches;
    events, s := Continue(false, before, s0, CloserLock);
    events, s := Continue(false, events, s, CloserUnlock);
  }

  lemma PushLate(before: seq<Event>, s0: State) returns (events: seq<Event>, s: State)
    requires Reaches(false, before, s0) && Pending(s0) && s0.closer == Closed && s0.clientsHolder == None
    ensures Reaches(false, events, s) && s.closer == Closed && s.listed == [0]
    ensures 0 in s.connected && 0 in s.receivers && s.receivers[0] == Receiving
  {
    hide Reaches;
    events, s := Continue(false, before, s0, CallerLock(0));
    events, s := Continue(false, events, s, CallerUnlock(0, Some(0)));
  }

  // ---------------------------------------------------------------- close comes to its end

  /** `close` waits for the remover only after it has told it to stop, and only then does the remover end. */
  predicate StopKept(s: State) {
    (s.closer == JoinRemover ==> s.stop) && (s.remover == RemoverDone ==> s.stop)
  }

  lemma StopStep(calling: bool, s: State, e: Event)
    requires Enabled(calling, s, e) && StopKept(s)
    ensures StopKept(Apply(calling, s, e)) && (s.stop ==> Apply(calling, s, e).stop)
  {
  }

  lemma {:induction false} RunStopKept(calling: bool, events: seq<Event>)
    requires Run(calling, events)
    ensures StopKept(After(calling, events))
  {
    hide Apply, Enabled;
    if events != [] {
      hide StopKept;
      var n := |events| - 1;
      RunStopKept(calling, events[..n]);
      StopStep(calling, After(calling, events[..n]), events[n]);
    }
  }

  /** The remover has been told to stop and holds nothing. */
  predicate Stopping(s: State) {
    s.stop && (s.remover == CheckStop || s.remover == Sleeping || s.remover == RemoverDone)
  }

  lemma StoppingStep(calling: bool, s: State, e: Event)
    requires Enabled(calling, s, e) && Stopping(s)
    ensures Stopping(Apply(calling, s, e))
    ensures e == RemoverCheck ==> Apply(calling, s, e).remover == RemoverDone
  {
  }

  /** Once it has been told to stop the remover never starts another sweep, and its next check ends it. */
  lemma {:induction false} NoSweepAfterStop(calling: bool, events: seq<Event>, later: seq<Event>)
    requires Run(calling, events) && Run(calling, events + later) && Stopping(After(calling, events))
    ensures Stopping(After(calling, events + later))
    ensures later != [] && later[|later| - 1] == RemoverCheck ==> After(calling, events + later).remover == RemoverDone
  {
    hide Replay, Run, After, Apply, Enabled, Stopping;
    if later == [] {
      assert events + later == events;
    } else {
      var n, all := |later| - 1, events + later;
      assert all[..|all| - 1] == events + later[..n];
      RunLast(calling, all);
      NoSweepAfterStop(calling, events, later[..n]);
      StoppingStep(calling, After(calling, events + later[..n]), later[n]);
    }
  }

  lemma RunLast(calling: bool, events: seq<Event>)
    requires Run(calling, events) && events != []
    ensures var n := |events| - 1;
      && Run(calling, events[..n]) && Enabled(calling, After(calling, events[..n]), events[n])
      && After(calling, events) == Apply(calling, After(calling, events[..n]), events[n])
  {
  }

  /** How far `close` still has to go: its stage, its clients, the remover, the thread being joined, locks. */
  datatype Distance = Distance(stage: nat, clients: nat, remover: nat, joined: nat, locks: nat)

  function Stage(s: State): nat {
    match s.closer
    case BeforeClose => 4
    case JoinRemover => 3
    case WantClients => 2
    case Closing(_) => 1
    case JoinClient(_, _) => 1
    case Closed => 0
  }

  function ClientsLeft(s: State): nat {
    match s.closer
    case Closing(rest) => 2 * |rest| + 1
    case JoinClient(_, rest) => 2 * |rest| + 2
    case _ => 0
  }

  function RemoverLeft(s: State): nat {
    match s.remover
    case WantSweep => 5
    case JoinDead(_) => 5
    case Sweeping => 4
    case Sleeping => 3
    case CheckStop => 2
    case _ => 0
  }

  function ReceiverLeft(s: State, c: nat): nat {
    if c !in s.receivers then 0
    else match s.receivers[c]
      case Receiving => 1
      case InCallback(_) => 2
      case WantPublish(_) => 3
      case _ => 0
  }

  function JoinedLeft(s: State): nat {
    if s.remover.JoinDead? then ReceiverLeft(s, s.remover.c)
    else if s.closer.JoinClient? then ReceiverLeft(s, s.closer.c)
    else 0
  }

  function LocksHeld(s: State): nat {
    (if s.clientsHolder == None then 0 else 1) + (if s.subscribersHolder == None then 0 else 1)
  }

  function Left(s: State): Distance {
    Distance(Stage(s), ClientsLeft(s), RemoverLeft(s), JoinedLeft(s), LocksHeld(s))
  }

  predicate Less(a: Distance, b: Distance) {
    || a.stage < b.stage
    || (a.stage == b.stage && a.clients < b.clients)
    || (a.stage == b.stage && a.clients == b.clients && a.remover < b.remover)
    || (a.stage == b.stage && a.clients == b.clients && a.remover == b.remover && a.joined < b.joined)
    || (a.stage == b.stage && a.clients == b.clients && a.remover == b.remover && a.joined == b.joined && a.locks < b.locks)
  }

  /** The closer, the remover and the list are as they were, and nobody has come back to life. */
  predicate ServerStays(s: State, t: State) {
    t.closer == s.closer && t.remover == s.remover && t.listed == s.listed && t.connected <= s.connected
  }

  /** A caller that holds a lock can let go of it. */
  lemma CallerLetsGo(s: State, lock: Lock, id: nat) returns (e: Event)
    requires Invariant(false, s) && Holder(s, lock) == Some(Caller(id))
    ensures Enabled(false, s, e) && Less(Left(Apply(false, s, e)), Left(s)) && ServerStays(s, Apply(false, s, e))
  {
    assert if lock == ClientsMtx then HoldsClients(s, Caller(id)) else HoldsSubscribers(s, Caller(id));
    e := CallerUnlock(id, None);
  }

  /** The receive thread that is being joined gets on, or whoever holds the subscribers does. */
  lemma JoinedEnds(s: State, c: nat) returns (e: Event)
    requires Invariant(false, s) && c in s.receivers && c !in s.connected && s.receivers[c] != Ended
    requires if s.remover.JoinDead? then s.remover.c == c else s.closer.JoinClient? && s.closer.c == c
    ensures Enabled(false, s, e) && Less(Left(Apply(false, s, e)), Left(s)) && ServerStays(s, Apply(false, s, e))
  {
    match s.receivers[c]
    case Receiving => e := ReceiverExit(c);
    case InCallback(_) => e := CallbackReturn(c);
    case WantPublish(_) => e := SubscribersMove(s, c);
    case _ =>
  }

  lemma SubscribersMove(s: State, c: nat) returns (e: Event)
    requires Invariant(false, s) && c in s.receivers && s.receivers[c].WantPublish?
    requires if s.remover.JoinDead? then s.remover.c == c else s.closer.JoinClient? && s.closer.c == c
    ensures Enabled(false, s, e) && Less(Left(Apply(false, s, e)), Left(s)) && ServerStays(s, Apply(false, s, e))
  {
    if s.subscribersHolder == None {
      e := PublishLock(c);
    } else {
      var t := s.subscribersHolder.value;
      assert HoldsSubscribers(s, t);
      match t
      case Caller(id) => e := CallerLetsGo(s, SubscribersMtx, id);
      case Receiver(d) => e := CallbackReturn(d);
      case _ =>
    }
  }

  /** The remover gets on towards its end. */
  lemma RemoverEnds(s: State) returns (e: Event)
    requires Invariant(false, s) && StopKept(s) && s.closer == JoinRemover && s.remover != RemoverDone
    ensures Enabled(false, s, e) && Less(Left(Apply(false, s, e)), Left(s))
  {
    match s.remover
    case CheckStop => e := RemoverCheck;
    case WantSweep => if s.clientsHolder == None { e := RemoverLock; } else { e := ClientsFreed(s); }
    case Sweeping => e := RemoverUnlock;
    case JoinDead(c) => if s.receivers[c] == Ended { e := RemoverJoined; } else { e := JoinedEnds(s, c); }
    case Sleeping => e := RemoverWake;
    case _ =>
  }

  /** When neither server thread holds the client list a caller does, and lets go of it. */
  lemma ClientsFreed(s: State) returns (e: Event)
    requires Invariant(false, s) && s.clientsHolder != None
    requires !HoldsClients(s, Closer) && !HoldsClients(s, Remover)
    ensures Enabled(false, s, e) && Less(Left(Apply(false, s, e)), Left(s))
  {
    var t := s.clientsHolder.value;
    assert HoldsClients(s, t);
    e := CallerLetsGo(s, ClientsMtx, t.id);
  }

  /** From every state on the way some thread can take a step that brings `close` nearer to its end. */
  lemma CloseGetsOn(s: State) returns (e: Event)
    requires Invariant(false, s) && StopKept(s) && s.closer != BeforeClose && s.closer != Closed
    ensures Enabled(false, s, e) && Less(Left(Apply(false, s, e)), Left(s))
  {
    match s.closer
    case JoinRemover => if s.remover == RemoverDone { e := CloserJoined; } else { e := RemoverEnds(s); }
    case WantClients => if s.clientsHolder == None { e := CloserLock; } else { e := ClientsFreed(s); }
    case Closing(rest) => e := if rest == [] then CloserUnlock else CloserNext;
    case JoinClient(c, _) => if s.receivers[c] == Ended { e := CloserJoinedClient; } else { e := JoinedEnds(s, c); }
    case _ =>
  }

  lemma CloseStaysBegun(calling: bool, s: State, e: Event)
    requires Enabled(calling, s, e) && s.closer != BeforeClose
    ensures Apply(calling, s, e).closer != BeforeClose
  {
  }

  /**
   * `close` can always come to its end: every run in which it has begun, however far the threads have got
   * and whoever holds what, goes on to a state in which it has returned, if callbacks keep their rule.
   */
  lemma {:induction false} CloseCanFinish(events: seq<Event>) returns (more: seq<Event>)
    requires Run(false, events) && After(false, events).closer != BeforeClose
    ensures Run(false, events + more) && After(false, events + more).closer == Closed
    decreases Left(After(false, events)).stage, Left(After(false, events)).clients, Left(After(false, events)).remover,
      Left(After(false, events)).joined, Left(After(false, events)).locks
  {
    hide Replay, Run, After, Apply, Enabled, Invariant, StopKept, Left;
    var s := After(false, events);
    if s.closer == Closed {
      more := [];
      assert events + more == events;
    } else {
      RunInvariant(false, events);
      RunStopKept(false, events);
      var e := CloseGetsOn(s);
      RunSnoc(false, events, e);
      CloseStaysBegun(false, s, e);
      var rest := CloseCanFinish(events + [e]);
      more := [e] + rest;
      assert events + more == events + [e] + rest;
    }
  }

  // ---------------------------------------------------------------- a dead client can be reaped

  /** A sweep that has found client c can always finish joining and erasing it. */
  lemma {:induction false} FoundIsErased(events: seq<Event>, c: nat) returns (more: seq<Event>)
    requires Run(false, events) && After(false, events).remover == JoinDead(c)
    ensures Run(false, events + more) && c !in After(false, events + more).listed
    ensures After(false, events + more).remover == Sweeping
    decreases Left(After(false, events)).joined, Left(After(false, events)).locks
  {
    hide Replay, Run, After, Apply, Enabled, Invariant, Left, Less, ServerStays;
    var s := After(false, events);
    RunInvariant(false, events);
    IsJoinable(s, c);
    if s.receivers[c] == Ended {
      JoinedIsErased(false, s);
      RunSnoc(false, events, RemoverJoined);
      more := [RemoverJoined];
    } else {
      var e := JoinedEnds(s, c);
      RunSnoc(false, events, e);
      JoinsOn(s, Apply(false, s, e));
      var rest := FoundIsErased(events + [e], c);
      more := [e] + rest;
      assert events + more == events + [e] + rest;
    }
  }

  lemma IsJoinable(s: State, c: nat)
    requires Invariant(false, s) && s.remover == JoinDead(c)
    ensures c in s.receivers && c !in s.connected
    ensures s.receivers[c] == Ended ==> Enabled(false, s, RemoverJoined)
  {
  }

  lemma JoinsOn(s: State, t: State)
    requires ServerStays(s, t) && Less(Left(t), Left(s))
    ensures t.remover == s.remover
    ensures Left(t).joined < Left(s).joined || (Left(t).joined == Left(s).joined && Left(t).locks < Left(s).locks)
  {
  }

  /**
   * In the middle of a sweep every dead client on the list can be reaped: found, joined and erased, whatever
   * its receive thread is doing and whoever holds the subscribers.
   */
  lemma DeadCanBeReaped(events: seq<Event>, c: nat) returns (more: seq<Event>)
    requires Run(false, events)
    requires var s := After(false, events); s.remover == Sweeping && c in s.listed && c !in s.connected
    ensures Run(false, events + more) && c !in After(false, events + more).listed
    ensures After(false, events + more).remover == Sweeping
  {
    RunInvariant(false, events);
    hide Replay, Run, After, Invariant;
    RunSnoc(false, events, RemoverFind(c));
    var rest := FoundIsErased(events + [RemoverFind(c)], c);
    more := [RemoverFind(c)] + rest;
    assert events + more == events + [RemoverFind(c)] + rest;
  }

  /** A callback whose server call got the list returns, and frees both locks. */
  lemma CallReturns(calling: bool, events: seq<Event>, c: nat)
    requires Run(calling, events) && c in After(calling, events).receivers
    requires After(calling, events).receivers[c].CallbackHolds?
    ensures Run(calling, events + [CallbackUnlock(c)] + [CallbackReturn(c)])
    ensures var t := After(calling, events + [CallbackUnlock(c)] + [CallbackReturn(c)]);
      t.clientsHolder == None && t.subscribersHolder == None
  {
    hide Replay, Run, After;
    RunSnoc(calling, events, CallbackUnlock(c));
    RunSnoc(calling, events + [CallbackUnlock(c)], CallbackReturn(c));
  }

  // ---------------------------------------------------------------- what receive threads and sweeps leave

  /** The thread of client c has seen the end of its connection. */
  predicate SeenEnd(s: State, c: nat) {
    c in s.receivers && match s.receivers[c]
      case Receiving => false
      case WantPublish(last) => last
      case InCallback(last) => last
      case CallbackWants(last) => last
      case CallbackHolds(last) => last
      case Ended => true
  }

  lemma SeenEndStep(calling: bool, s: State, e: Event, c: nat)
    requires Enabled(calling, s, e) && SeenEnd(s, c)
    ensures SeenEnd(Apply(calling, s, e), c) && !(e.Publish? && e.c == c)
  {
  }

  /** A client's disconnection is the last thing that is published about it, and published once. */
  lemma {:induction false} DisconnectionIsLast(calling: bool, events: seq<Event>, c: nat, later: seq<Event>)
    requires Run(calling, events + [Publish(c, true)] + later)
    ensures Run(calling, events + [Publish(c, true)])
    ensures SeenEnd(After(calling, events + [Publish(c, true)] + later), c)
    ensures forall i :: 0 <= i < |later| ==> !(later[i].Publish? && later[i].c == c)
  {
    hide Replay, Run, After, SeenEnd;
    var start := events + [Publish(c, true)];
    if later == [] {
      assert start + later == start && start[..|start| - 1] == events;
      RunLast(calling, start);
      Published(calling, After(calling, events), c);
    } else {
      hide Apply, Enabled;
      var n, all := |later| - 1, start + later;
      assert all[..|all| - 1] == start + later[..n];
      RunLast(calling, all);
      DisconnectionIsLast(calling, events, c, later[..n]);
      SeenEndStep(calling, After(calling, start + later[..n]), later[n], c);
    }
  }

  lemma Published(calling: bool, s: State, c: nat)
    requires Enabled(calling, s, Publish(c, true))
    ensures SeenEnd(Apply(calling, s, Publish(c, true)), c)
  {
  }

  /** What the sweep erases is the dead client it has joined, and nothing else. */
  lemma JoinedIsErased(calling: bool, s: State)
    requires Invariant(calling, s) && Enabled(calling, s, RemoverJoined)
    ensures s.remover.c !in s.connected && HasEnded(s, s.remover.c)
    ensures Apply(calling, s, RemoverJoined).remover == Sweeping
    ensures forall x :: x in Apply(calling, s, RemoverJoined).listed <==> x in s.listed && x != s.remover.c
  {
    EraseKeeps(s.listed, s.remover.c);
  }
}
