/**
 * The server's client list and the sweep that removes dead clients, while receive threads clear
 * `connected` flags at any moment. Clients are identified by object.
 */
module Reaper {

  class Client {
    var connected: bool
    var hasThread: bool
    /** How often `close` has run on this client. */
    ghost var closes: nat

    /** A client that `startListen` has been called on; its thread may already have seen the end. */
    constructor (dropped: bool)
      ensures connected == !dropped && hasThread && closes == 0
    {
      connected, hasThread, closes := !dropped, true, 0;
    }

    /** `close`: clears the flag, joins the receive thread and closes the socket. */
    method Close()
      modifies this
      ensures !connected && !hasThread && closes == old(closes) + 1
    {
      connected := false;
      if hasThread {
        hasThread := false;
      }
      closes := closes + 1;
    }
  }

  predicate Distinct(clients: seq<Client>) {
    forall i, j :: 0 <= i < j < |clients| ==> clients[i] != clients[j]
  }

  /** The clients that are not in `removed`, in their order. */
  ghost function Without(clients: seq<Client>, removed: set<Client>): seq<Client> {
    if clients == [] then []
    else
      var n := |clients| - 1;
      Without(clients[..n], removed) + if clients[n] in removed then [] else [clients[n]]
  }

  lemma {:induction false} WithoutIsFilter(clients: seq<Client>, removed: set<Client>)
    ensures forall c :: c in Without(clients, removed) <==> c in clients && c !in removed
    ensures Distinct(clients) ==> Distinct(Without(clients, removed))
  {
    if clients != [] {
      WithoutIsFilter(clients[..|clients| - 1], removed);
    }
  }

  lemma {:induction false} WithoutNothing(clients: seq<Client>)
    ensures Without(clients, {}) == clients
  {
    if clients != [] {
      WithoutNothing(clients[..|clients| - 1]);
    }
  }

  /** Erasing one element of what is left. */
  lemma {:induction false} EraseOne(clients: seq<Client>, removed: set<Client>, i: nat)
    requires Distinct(clients) && i < |Without(clients, removed)|
    ensures var w := Without(clients, removed);
      Without(clients, removed + {w[i]}) == w[..i] + w[i + 1..]
  {
    var n := |clients| - 1;
    var w, front := Without(clients, removed), Without(clients[..n], removed);
    var tail := if clients[n] in removed then [] else [clients[n]];
    assert w == front + tail;
    WithoutIsFilter(clients[..n], removed);
    hide Without;
    if i < |front| {
      EraseOne(clients[..n], removed, i);
      assert front[i] in front && clients[n] != front[i];
      WithoutLast(clients, removed + {front[i]});
      EraseInFront(front, tail, i);
    } else {
      AddAbsent(clients[..n], removed, clients[n]);
      WithoutLast(clients, removed + {clients[n]});
      assert w[..i] + w[i + 1..] == front;
    }
  }

  lemma WithoutLast(clients: seq<Client>, removed: set<Client>)
    requires clients != []
    ensures var n := |clients| - 1;
      Without(clients, removed) == Without(clients[..n], removed) + if clients[n] in removed then [] else [clients[n]]
  {
  }

  lemma EraseInFront(front: seq<Client>, tail: seq<Client>, i: nat)
    requires i < |front|
    ensures var w := front + tail;
      w[..i] + w[i + 1..] == front[..i] + front[i + 1..] + tail
  {
  }

  lemma ErasedMembers(clients: seq<Client>, i: nat)
    requires Distinct(clients) && i < |clients|
    ensures var rest := clients[..i] + clients[i + 1..];
      Distinct(rest) && forall c :: c in rest <==> c in clients && c != clients[i]
  {
    assert clients == clients[..i] + [clients[i]] + clients[i + 1..];
  }

  lemma {:induction false} AddAbsent(clients: seq<Client>, removed: set<Client>, c: Client)
    requires c !in clients
    ensures Without(clients, removed + {c}) == Without(clients, removed)
  {
    if clients != [] {
      AddAbsent(clients[..|clients| - 1], removed, c);
    }
  }

  /** Client c disconnects in one of the batches from a up to b. */
  ghost predicate Dropped(schedule: seq<set<Client>>, a: nat, b: nat, c: Client) {
    exists j :: a <= j < b && j < |schedule| && c in schedule[j]
  }

  class TcpServer {
    var clients: seq<Client>
    /** How many batches of disconnects have happened in this sweep. */
    var clock: nat
    ghost var accepted: set<Client>

    /** Every accepted client is listed and open, or has been closed exactly once. */
    ghost predicate Valid()
      reads this, accepted
    {
      && Distinct(clients)
      && (forall c :: c in clients ==> c in accepted)
      && forall c :: c in accepted ==>
           if c in clients then c.closes == 0 && c.hasThread else c.closes == 1 && !c.hasThread && !c.connected
    }

    constructor ()
      ensures Valid() && clients == [] && accepted == {} && clock == 0
    {
      clients, accepted, clock := [], {}, 0;
    }

    /** The list part of `acceptClient`. */
    method AcceptClient(dropped: bool) returns (client: Client)
      requires Valid()
      modifies this
      ensures Valid() && fresh(client) && client.connected == !dropped
      ensures clients == old(clients) + [client] && accepted == old(accepted) + {client}
    {
      client := new Client(dropped);
      clients, accepted := clients + [client], accepted + {client};
    }

    /** Receive threads of listed clients clear their flags; nobody ever sets one. */
    method Disconnect(schedule: seq<set<Client>>)
      modifies this`clock, set c | c in clients
      ensures clock == old(clock) + 1
      ensures Untouched(schedule, old(clock))
    {
      if clock < |schedule| {
        forall c | c in clients && c in schedule[clock] {
          c.connected := false;
        }
      }
      clock := clock + 1;
    }

    /** Since `start`, listed clients have at most lost their flag to a disconnect. */
    twostate predicate Untouched(schedule: seq<set<Client>>, start: nat)
      reads this, clients
    {
      clients == old(clients) && forall c :: c in old(clients) ==>
        && c.connected == (old(c.connected) && !Dropped(schedule, start, clock, c))
        && c.closes == old(c.closes) && c.hasThread == old(c.hasThread)
    }

    /** `find_if` with `!isConnected()`: other threads run before every check. */
    method FindDead(schedule: seq<set<Client>>) returns (i: nat)
      modifies this`clock, set c | c in clients
      ensures clock >= old(clock) && Untouched(schedule, old(clock))
      ensures i <= |clients|
      ensures i < |clients| ==> !clients[i].connected
      ensures forall k :: 0 <= k < i ==> old(clients[k].connected)
    {
      i := 0;
      while i < |clients|
        invariant i <= |clients| && clock >= old(clock) && Untouched(schedule, old(clock))
        invariant forall k :: 0 <= k < i ==> old(clients[k].connected)
      {
        Disconnect(schedule);
        if !clients[i].connected {
          return;
        }
        i := i + 1;
      }
    }

    /**
     * In the middle of a sweep that started with the list `all`, of which `alive` were connected: the list
     * is what is left after the removals, and only disconnected clients have been removed.
     */
    ghost predicate Sweeping(all: seq<Client>, alive: set<Client>, removed: set<Client>, schedule: seq<set<Client>>)
      reads this, set c | c in clients
    {
      && Distinct(all) && clients == Without(all, removed)
      && (forall c :: c in removed ==> c in all && (c !in alive || Dropped(schedule, 0, clock, c)))
      && (forall c :: c in clients ==> c in all)
      && (forall c :: c in clients ==> c.connected == (c in alive && !Dropped(schedule, 0, clock, c)))
    }

    /**
     * The body of the sweep's loop: find a dead client, close it and erase it. The loop goes on unless the
     * position is now the end of the list, which it also is after the last element has been erased.
     */
    method RemoveDead(schedule: seq<set<Client>>, ghost all: seq<Client>, ghost alive: set<Client>, ghost removed: set<Client>)
      returns (more: bool, ghost removed': set<Client>)
      requires Valid() && Sweeping(all, alive, removed, schedule)
      modifies this, set c | c in clients
      ensures Valid() && accepted == old(accepted) && Sweeping(all, alive, removed', schedule)
      ensures forall c :: c in clients ==> c in old(clients)
      ensures |clients| <= old(|clients|) <= |clients| + 1
      ensures more <==> |clients| < old(|clients|) && clients != old(clients[..|clients| - 1])
      ensures !more ==> forall c :: c in clients ==> c in alive
    {
      removed' := removed;
      var i := FindDead(schedule);
      assert forall k :: 0 <= k < i ==> clients[k] in alive;
      if i != |clients| {
        removed' := CloseAndErase(i, schedule, all, alive, removed);
        assert i < |clients| ==> clients[i] == old(clients[i + 1]) != old(clients[i]);
      }
      more := i != |clients|;
    }

    method CloseAndErase(i: nat, ghost schedule: seq<set<Client>>, ghost all: seq<Client>, ghost alive: set<Client>,
                         ghost removed: set<Client>)
      returns (ghost removed': set<Client>)
      requires Valid() && Sweeping(all, alive, removed, schedule)
      requires i < |clients| && !clients[i].connected
      modifies this`clients, clients[i]
      ensures Valid() && Sweeping(all, alive, removed', schedule)
      ensures clients == old(clients[..i] + clients[i + 1..]) && removed' == removed + {old(clients[i])}
    {
      var dead := clients[i];
      EraseOne(all, removed, i);
      ErasedMembers(clients, i);
      hide Without, Distinct;
      dead.Close();
      clients := clients[..i] + clients[i + 1..];
      removed' := removed + {dead};
    }

    /**
     * One sweep of `removeDeadClients`, under any schedule of disconnects. It ends; every client that is
     * dead when it starts is removed; only clients that have disconnected are removed, and `Valid` says
     * that each of them has been closed exactly once; the rest keeps its order and stays open.
     */
    method Sweep(schedule: seq<set<Client>>) returns (ghost removed: set<Client>)
      requires Valid()
      modifies this, set c | c in clients
      ensures Valid() && accepted == old(accepted)
      ensures clients == Without(old(clients), removed)
      ensures forall c :: c in old(clients) && !old(c.connected) ==> c in removed
      ensures forall c :: c in removed ==> c in old(clients) && (!old(c.connected) || Dropped(schedule, 0, clock, c))
      ensures forall c :: c in clients ==> c.connected == !Dropped(schedule, 0, clock, c)
      ensures forall c, j :: c in clients && 0 <= j < clock && j < |schedule| && c in schedule[j] ==> !c.connected
    {
      clock := 0;
      assert Valid() && Distinct(clients);
      hide Valid;
      ghost var all, alive := clients, set c | c in clients && c.connected;
      WithoutNothing(all);
      removed := RemoveAllDead(schedule, all, alive);
      WithoutIsFilter(all, removed);
    }

    method RemoveAllDead(schedule: seq<set<Client>>, ghost all: seq<Client>, ghost alive: set<Client>)
      returns (ghost removed: set<Client>)
      requires Valid() && Sweeping(all, alive, {}, schedule)
      modifies this, set c | c in clients
      ensures Valid() && accepted == old(accepted) && Sweeping(all, alive, removed, schedule)
      ensures forall c :: c in clients ==> c in alive
    {
      hide Valid, Sweeping, Dropped;
      removed := {};
      var more := true;
      while more
        invariant Valid() && accepted == old(accepted) && Sweeping(all, alive, removed, schedule)
        invariant forall c :: c in clients ==> c in old(clients)
        invariant !more ==> forall c :: c in clients ==> c in alive
        decreases |clients|, more
      {
        more, removed := RemoveDead(schedule, all, alive, removed);
      }
    }

    /** The client part of `close`: everybody still listed is closed, and the list is emptied. */
    method CloseClients()
      requires Valid()
      modifies this, set c | c in clients
      ensures Valid() && clients == [] && accepted == old(accepted)
    {
      ghost var all := clients;
      for i := 0 to |clients|
        invariant clients == all && accepted == old(accepted)
        invariant Distinct(all) && forall c :: c in all ==> c in accepted
        invariant forall c :: c in accepted && c !in all ==> c.closes == 1 && !c.hasThread && !c.connected
        invariant forall k :: 0 <= k < i ==> all[k].closes == 1 && !all[k].hasThread && !all[k].connected
        invariant forall k :: i <= k < |all| ==> all[k].closes == 0 && all[k].hasThread
      {
        clients[i].Close();
      }
      clients := [];
    }
  }
}
