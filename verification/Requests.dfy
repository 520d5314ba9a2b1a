/** Requests that wait for a reply.  Each is entered in a table, by connection and request
    id, and in a heap ordered by the time it was sent; its sender sleeps until it is woken by
    the reply, a timeout, or the end of the connection. */
module Requests {

  type Thread = nat

  /** A request on a connection. */
  datatype Key = Key(fd: nat, id: nat)

  datatype Outcome = Answered | TimedOut | Closed | Exiting

  /** How often a semaphore that is missing from the map was raised: not at all. */
  function Ups(semaphores: map<Thread, nat>, t: Thread): nat {
    if t in semaphores then semaphores[t] else 0
  }

  /** Every request in the table has its own sender, and `waits` tells which request a sender
      waits for. */
  ghost predicate OneEach(table: map<Key, Thread>, waits: map<Thread, Key>) {
    && (forall k :: k in table ==> table[k] in waits && waits[table[k]] == k)
    && (forall t :: t in waits ==> waits[t] in table && table[waits[t]] == t)
  }

  /** A sender that waits was not woken; one that was woken is in flight and does not wait;
      nobody else was woken. */
  ghost predicate WokenOnce(waits: map<Thread, Key>, semaphores: map<Thread, nat>, outcomes: map<Thread, Outcome>,
                            inFlight: set<Thread>) {
    && waits.Keys <= inFlight
    && (forall t :: t in inFlight && t !in waits ==> t in outcomes)
    && (forall t :: Ups(semaphores, t) == if t in inFlight && t !in waits then 1 else 0)
  }

  class Network {
    /** The reply tables and the heaps of all connections. */
    var table: map<Key, Thread>
    var heap: map<Key, nat>
    var semaphores: map<Thread, nat>
    var outcomes: map<Thread, Outcome>
    var pendingSlow: nat
    var exiting: bool
    /** The senders that noted that their connection is slow. */
    var slowOnes: set<Thread>
    /** What each sleeping sender waits for, and the senders between sending and going on. */
    ghost var waits: map<Thread, Key>
    ghost var inFlight: set<Thread>

    /** Table and heap hold the same requests, every sender in flight waits for one of them or
        was woken exactly once, and the slow ones are counted. */
    ghost predicate Valid()
      reads this
    {
      && table.Keys == heap.Keys
      && OneEach(table, waits)
      && WokenOnce(waits, semaphores, outcomes, inFlight)
      && slowOnes <= inFlight && pendingSlow == |slowOnes|
    }

    constructor ()
      ensures Valid() && inFlight == {} && !exiting
    {
      table, heap, semaphores, outcomes := map[], map[], map[], map[];
      pendingSlow, exiting, slowOnes := 0, false, {};
      waits, inFlight := map[], {};
    }

    /** Send a request.  The sender sleeps exactly when the request was written; otherwise it
        goes on at once, with no trace of the request left. */
    method Send(t: Thread, key: Key, slow: bool, now: nat, written: bool) returns (sleeps: bool)
      requires Valid() && t !in inFlight && key !in table
      modifies this
      ensures Valid() && exiting == old(exiting)
      ensures sleeps <==> written && !exiting
      ensures sleeps ==> table == old(table)[key := t] && heap == old(heap)[key := now]
      ensures sleeps ==> inFlight == old(inFlight) + {t} && waits == old(waits)[t := key]
      ensures sleeps ==> slowOnes == old(slowOnes) + (if slow then {t} else {}) && outcomes == old(outcomes)
      ensures pendingSlow == old(pendingSlow) + if sleeps && slow then 1 else 0
      ensures !sleeps ==> table == old(table) && heap == old(heap) && inFlight == old(inFlight)
      ensures !sleeps ==> outcomes == old(outcomes)[t := if exiting then Exiting else Closed] && slowOnes == old(slowOnes)
    {
      if exiting {
        outcomes := outcomes[t := Exiting];
        return false;
      }
      sleeps := written;
      Prepare(key, t, slow, now);
      if written {
        FallAsleep(t, key, slow);
      } else {
        GiveUp(t, key, slow);
      }
    }

    /** Count a slow request, and enter it. */
    method Prepare(key: Key, t: Thread, slow: bool, now: nat)
      requires Valid() && t !in inFlight && key !in table
      modifies this`table, this`heap, this`pendingSlow
      ensures Sending(key, t, slow) && pendingSlow == old(pendingSlow) + if slow then 1 else 0
      ensures table == old(table)[key := t] && heap == old(heap)[key := now]
      ensures table - {key} == old(table) && heap - {key} == old(heap)
    {
      if slow {
        pendingSlow := pendingSlow + 1;
      }
      Enter(key, t, now);
    }

    /** All is well but for a request just entered, whose sender is not asleep yet. */
    ghost predicate Sending(key: Key, t: Thread, slow: bool)
      reads this
    {
      && table.Keys == heap.Keys && key in table && table[key] == t
      && OneEach(table - {key}, waits)
      && t !in inFlight && WokenOnce(waits, semaphores, outcomes, inFlight)
      && slowOnes <= inFlight && pendingSlow == |slowOnes| + if slow then 1 else 0
    }

    method FallAsleep(t: Thread, key: Key, slow: bool)
      requires Sending(key, t, slow)
      modifies this`inFlight, this`waits, this`slowOnes
      ensures Valid() && slowOnes == old(slowOnes) + if slow then {t} else {}
      ensures inFlight == old(inFlight) + {t} && waits == old(waits)[t := key]
    {
      Sleeping(table, waits, semaphores, outcomes, inFlight, key, t);
      inFlight, waits := inFlight + {t}, waits[t := key];
      slowOnes := if slow then slowOnes + {t} else slowOnes;
    }

    method GiveUp(t: Thread, key: Key, slow: bool)
      requires Sending(key, t, slow)
      modifies this`table, this`heap, this`outcomes, this`pendingSlow
      ensures Valid()
      ensures table == old(table) - {key} && heap == old(heap) - {key} && outcomes == old(outcomes)[t := Closed]
      ensures pendingSlow == old(pendingSlow) - if slow then 1 else 0
    {
      outcomes := outcomes[t := Closed];
      table, heap := table - {key}, heap - {key};
      if slow {
        pendingSlow := pendingSlow - 1;
      }
    }

    method Enter(key: Key, t: Thread, now: nat)
      requires key !in table && key !in heap
      modifies this`table, this`heap
      ensures table == old(table)[key := t] && heap == old(heap)[key := now]
      ensures table - {key} == old(table) && heap - {key} == old(heap)
    {
      table, heap := table[key := t], heap[key := now];
    }

    /** Take a request out of table and heap, and wake its sender. */
    method Wake(key: Key, outcome: Outcome)
      requires Valid() && key in table
      modifies this`table, this`heap, this`semaphores, this`outcomes, this`waits
      ensures Valid()
      ensures table == old(table) - {key} && heap == old(heap) - {key}
      ensures waits == old(waits) - {old(table)[key]}
      ensures outcomes == old(outcomes)[old(table)[key] := outcome]
      ensures semaphores == old(semaphores)[old(table)[key] := 1]
    {
      var t := table[key];
      outcomes := outcomes[t := outcome];
      table, heap, waits := table - {key}, heap - {key}, waits - {t};
      semaphores := semaphores[t := Ups(semaphores, t) + 1];
    }

    /** A reply.  It wakes the sender of its request, if that still waits; a late one changes
        nothing. */
    method Reply(key: Key) returns (found: bool)
      requires Valid()
      modifies this`table, this`heap, this`semaphores, this`outcomes, this`waits
      ensures Valid() && (found <==> key in old(table))
      ensures !found ==> table == old(table) && heap == old(heap) && semaphores == old(semaphores) && outcomes == old(outcomes)
      ensures found ==> table == old(table) - {key} && semaphores == old(semaphores)[old(table)[key] := 1]
      ensures found ==> outcomes == old(outcomes)[old(table)[key] := Answered]
    {
      found := key in table;
      if found {
        Wake(key, Answered);
      }
    }

    /** Requests `dropped` are gone from table and heap, the others are still there, and the
        senders of the former were told why. */
    ghost predicate Dropped(table0: map<Key, Thread>, heap0: map<Key, nat>, dropped: set<Key>, why: Outcome)
      reads this
    {
      && dropped <= table0.Keys && table == table0 - dropped && heap == heap0 - dropped
      && forall k :: k in dropped ==> table0[k] in outcomes && outcomes[table0[k]] == why && table0[k] in inFlight
                                      && table0[k] !in waits && Ups(semaphores, table0[k]) == 1
    }

    /** One more request dropped. */
    method DropNext(key: Key, why: Outcome, ghost table0: map<Key, Thread>, ghost heap0: map<Key, nat>,
                    ghost waits0: map<Thread, Key>, ghost dropped: set<Key>)
      requires Valid() && key in table && OneEach(table0, waits0) && Dropped(table0, heap0, dropped, why)
      modifies this`table, this`heap, this`semaphores, this`outcomes, this`waits
      ensures Valid() && Dropped(table0, heap0, dropped + {key}, why)
    {
      Wake(key, why);
      assert table0 - (dropped + {key}) == table0 - dropped - {key};
      assert heap0 - (dropped + {key}) == heap0 - dropped - {key};
    }

    /** Exactly the requests of connection `fd` sent before `threshold` time out. */
    method Timeout(fd: nat, threshold: nat) returns (ghost dropped: set<Key>)
      requires Valid()
      modifies this`table, this`heap, this`semaphores, this`outcomes, this`waits
      ensures Valid() && Dropped(old(table), old(heap), dropped, TimedOut)
      ensures forall k :: k in dropped <==> k in old(table) && k.fd == fd && old(heap)[k] < threshold
    {
      dropped := {};
      while exists k :: k in heap && k.fd == fd && heap[k] < threshold
        invariant Valid() && Dropped(old(table), old(heap), dropped, TimedOut)
        invariant forall k :: k in dropped ==> k.fd == fd && old(heap)[k] < threshold
        decreases table.Keys
      {
        var key :| key in heap && key.fd == fd && heap[key] < threshold;
        DropNext(key, TimedOut, old(table), old(heap), old(waits), dropped);
        dropped := dropped + {key};
      }
    }

    /** Exactly the requests of connection `fd` end, and the waking order does not matter. */
    method WakeAll(fd: nat, why: Outcome) returns (ghost dropped: set<Key>)
      requires Valid()
      modifies this`table, this`heap, this`semaphores, this`outcomes, this`waits
      ensures Valid() && Dropped(old(table), old(heap), dropped, why)
      ensures forall k :: k in dropped <==> k in old(table) && k.fd == fd
    {
      dropped := WakeMore(fd, why, table, heap, waits, {});
    }

    /** The requests of connection `fd` end after others. */
    method WakeMore(fd: nat, why: Outcome, ghost table0: map<Key, Thread>, ghost heap0: map<Key, nat>,
                    ghost waits0: map<Thread, Key>, ghost before: set<Key>) returns (ghost dropped: set<Key>)
      requires Valid() && OneEach(table0, waits0) && Dropped(table0, heap0, before, why)
      modifies this`table, this`heap, this`semaphores, this`outcomes, this`waits
      ensures Valid() && Dropped(table0, heap0, dropped, why)
      ensures forall k :: k in dropped <==> k in before || (k in table0 && k.fd == fd)
    {
      dropped := before;
      while exists k :: k in table && k.fd == fd
        invariant Valid() && Dropped(table0, heap0, dropped, why) && before <= dropped
        invariant forall k :: k in dropped && k !in before ==> k.fd == fd
        decreases table.Keys
      {
        var key :| key in table && key.fd == fd;
        DropNext(key, why, table0, heap0, waits0, dropped);
        dropped := dropped + {key};
      }
    }

    /** The daemon ends: nothing is sent any more, and the requests of every connection in
        `active`, from the last to the first, end.  When these are all there are, nobody waits. */
    method Shutdown(active: seq<nat>) returns (ghost dropped: set<Key>)
      requires Valid()
      modifies this`table, this`heap, this`semaphores, this`outcomes, this`waits, this`exiting
      ensures Valid() && exiting && Dropped(old(table), old(heap), dropped, Exiting)
      ensures forall k :: k in dropped <==> k in old(table) && k.fd in active
      ensures (forall k :: k in old(table) ==> k.fd in active) ==> waits.Keys == {}
    {
      exiting, dropped := true, {};
      var i := |active|;
      while i > 0
        invariant 0 <= i <= |active| && Valid() && exiting && Dropped(old(table), old(heap), dropped, Exiting)
        invariant forall k :: k in dropped <==> k in old(table) && k.fd in active[i..]
      {
        i := i - 1;
        assert active[i..] == [active[i]] + active[i + 1..];
        dropped := WakeMore(active[i], Exiting, old(table), old(heap), old(waits), dropped);
      }
    }

    /** A woken sender goes on.  It was woken once, so its semaphore is down again. */
    method Resume(t: Thread) returns (outcome: Outcome)
      requires Valid() && t in inFlight && t !in waits
      modifies this`semaphores, this`pendingSlow, this`inFlight, this`slowOnes
      ensures Valid() && inFlight == old(inFlight) - {t} && Ups(semaphores, t) == 0
      ensures outcome == outcomes[t]
      ensures pendingSlow == old(pendingSlow) - if t in old(slowOnes) then 1 else 0
    {
      outcome := outcomes[t];
      semaphores := semaphores[t := Ups(semaphores, t) - 1];
      if t in slowOnes {
        pendingSlow := pendingSlow - 1;
        slowOnes := slowOnes - {t};
      }
      inFlight := inFlight - {t};
    }
  }

  lemma {:induction false} Sleeping(table: map<Key, Thread>, waits: map<Thread, Key>, semaphores: map<Thread, nat>,
                                    outcomes: map<Thread, Outcome>, inFlight: set<Thread>, key: Key, t: Thread)
    requires key in table && table[key] == t && OneEach(table - {key}, waits)
    requires t !in inFlight && WokenOnce(waits, semaphores, outcomes, inFlight)
    ensures OneEach(table, waits[t := key])
    ensures WokenOnce(waits[t := key], semaphores, outcomes, inFlight + {t})
  {
    var rest, more := table - {key}, waits[t := key];
    forall k | k in table ensures table[k] in more && more[table[k]] == k {
      if k != key {
        assert k in rest && rest[k] == table[k];
      }
    }
    forall u | u in more ensures more[u] in table && table[more[u]] == u {
      if u != t {
        assert more[u] in rest && rest[more[u]] == u;
      }
    }
  }

  /** No two requests share a sender, and no sender sleeps without a request: as many sleep as
      requests are in the table. */
  lemma {:induction false} AsManySleepAsWait(table: map<Key, Thread>, waits: map<Thread, Key>)
    requires OneEach(table, waits)
    ensures |table| == |waits|
    decreases |table|
  {
    if table == map[] {
      assert waits.Keys == {};
    } else {
      var k :| k in table;
      var t := table[k];
      AsManySleepAsWait(table - {k}, waits - {t});
      assert |(table - {k}).Keys| == |table.Keys - {k}| && (table - {k}).Keys == table.Keys - {k};
      assert (waits - {t}).Keys == waits.Keys - {t};
    }
  }
}
