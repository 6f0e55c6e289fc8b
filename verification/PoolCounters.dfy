/** What the atomic counters of the pool count, in every reachable state. */
module PoolCounters {
  import opened PoolMachine
  import opened PoolOwnership

  /** running and exited split the drivers ever registered; running misses one per repeated kill. */
  ghost predicate Balanced(s: State)
  {
    && s.running + s.exited == |s.registered|
    && s.running == |s.all| - s.repeats
  }

  /** spawning is 1 exactly while the spawner is inside spawnOne. */
  ghost predicate SpawnCounted(s: State)
  {
    s.spawning == if s.spawner.Ready? || s.spawner.Begin? || s.spawner.Exited? then 0 else 1
  }

  predicate InRequest(pc: ClientState)
  {
    pc.Send? || pc.Wait? || pc.Cancel? || pc.Uncount?
  }

  ghost function Requesting(s: State): set<Client>
  {
    set c | c in s.clients && InRequest(s.clients[c])
  }

  /** requests is the number of clients on the slow path. */
  ghost predicate RequestsCounted(s: State)
  {
    s.requests == |Requesting(s)|
  }

  /** Clients that have timed out and have not yet run their deferred putDriver. */
  ghost function Pending(s: State): set<Client>
  {
    set c | c in s.clients && s.clients[c].CheckPut? && s.clients[c].d in s.killed
  }

  /** Every timeout leads to exactly one repeated kill, at the latest when its putDriver runs. */
  ghost predicate TimeoutsCounted(s: State)
  {
    s.timeouts == s.repeats + |Pending(s)|
  }

  ghost predicate Counted(s: State)
  {
    Balanced(s) && SpawnCounted(s) && RequestsCounted(s) && TimeoutsCounted(s)
  }

  lemma CountedInit(config: Policy.Config)
    ensures Counted(Init(config))
  {
    assert Requesting(Init(config)) == {} && Pending(Init(config)) == {};
  }

  // ----- Killing -----

  lemma KillBalanced(s: State, d: Driver)
    requires Balanced(s) && d in s.registered && s.killed == s.registered - s.all && s.all <= s.registered
    ensures Balanced(KillDriver(s, d))
    ensures KillDriver(s, d).repeats == if d in s.all then s.repeats else s.repeats + 1
  {
  }

  /** Nothing that is counted changes. */
  ghost predicate SameCounts(s: State, t: State)
  {
    && t.all == s.all && t.registered == s.registered && t.killed == s.killed
    && t.running == s.running && t.exited == s.exited && t.repeats == s.repeats
  }

  lemma BalancedSame(s: State, t: State)
    requires SameCounts(s, t) && Balanced(s)
    ensures Balanced(t)
  {
  }

  /** A client that is not a pending timeout moves to where it is not one either. */
  lemma PendingSame(s: State, t: State, c: Client)
    requires t.killed == s.killed && c in t.clients && t.clients == s.clients[c := t.clients[c]]
    requires c in s.clients && s.clients[c].CheckPut? ==> s.clients[c].d !in s.killed
    requires t.clients[c].CheckPut? ==> t.clients[c].d !in t.killed
    ensures Pending(t) == Pending(s)
  {
  }

  /** The manager or the spawner kills the driver in its hand. */
  lemma CountedKill(s: State, t: State, d: Driver, l: Place)
    requires Owned(s) && Balanced(s) && TimeoutsCounted(s) && At(s, d, l) && !l.WithClient?
    requires SameCounts(KillDriver(s, d), t) && t.clients == s.clients && t.timeouts == s.timeouts
    ensures Balanced(t) && TimeoutsCounted(t)
  {
    KillBalanced(s, d);
    BalancedSame(KillDriver(s, d), t);
    forall c | c in Pending(t)
      ensures c in Pending(s)
    {
      assert At(s, s.clients[c].d, WithClient(c));
    }
    assert Pending(t) == Pending(s);
  }

  /** A client kills the driver in its hand, and either drops it or, on a timeout, keeps it. */
  lemma CountedClientKill(s: State, t: State, c: Client, d: Driver, keeps: bool)
    requires Owned(s) && Balanced(s) && TimeoutsCounted(s) && At(s, d, WithClient(c))
    requires SameCounts(KillDriver(s, d), t)
    requires t.timeouts == if keeps then s.timeouts + 1 else s.timeouts
    requires c in t.clients && t.clients == s.clients[c := t.clients[c]]
    requires if keeps then t.clients[c] == CheckPut(d) && !s.clients[c].CheckPut? else !t.clients[c].CheckPut?
    ensures Balanced(t) && TimeoutsCounted(t)
  {
    hide Owned, Balanced, KillDriver, Pending;
    HandIsRegistered(s, d, c);
    KillBalanced(s, d);
    BalancedSame(KillDriver(s, d), t);
    PendingAfterKill(s, t, c, d, keeps) by {
      assert t.killed == s.killed + {d} by { KilledAfterKill(s, d); }
    }
  }

  lemma KilledAfterKill(s: State, d: Driver)
    ensures KillDriver(s, d).killed == s.killed + {d}
    ensures KillDriver(s, d).timeouts == s.timeouts
  {
  }

  lemma HandIsRegistered(s: State, d: Driver, c: Client)
    requires Owned(s) && At(s, d, WithClient(c))
    ensures d in s.registered && s.killed == s.registered - s.all && s.all <= s.registered
    ensures d in s.all || s.clients[c] == CheckPut(d)
  {
  }

  lemma PendingAfterKill(s: State, t: State, c: Client, d: Driver, keeps: bool)
    requires Owned(s) && At(s, d, WithClient(c)) && t.killed == s.killed + {d}
    requires c in t.clients && t.clients == s.clients[c := t.clients[c]]
    requires if keeps then t.clients[c] == CheckPut(d) else !t.clients[c].CheckPut?
    ensures Pending(t) == if keeps then Pending(s) + {c} else Pending(s) - {c}
    ensures c in Pending(s) <==> s.clients[c].CheckPut? && d !in s.all
  {
    forall e | e != c
      ensures e in Pending(t) <==> e in Pending(s)
    {
      if e in s.clients && s.clients[e].CheckPut? {
        assert At(s, s.clients[e].d, WithClient(e));
      }
    }
  }

  /** A client enters, leaves or stays on the slow path. */
  lemma RequestsMove(s: State, t: State, c: Client)
    requires RequestsCounted(s) && c in s.clients && c in t.clients && t.clients == s.clients[c := t.clients[c]]
    requires t.requests == s.requests + (if InRequest(t.clients[c]) then 1 else 0) - (if InRequest(s.clients[c]) then 1 else 0)
    ensures RequestsCounted(t)
  {
    if InRequest(t.clients[c]) {
      assert Requesting(t) == Requesting(s) + {c};
    } else {
      assert Requesting(t) == Requesting(s) - {c};
    }
  }

  lemma CountedSame(s: State, t: State)
    requires Counted(s) && SameCounts(s, t) && t.clients == s.clients && t.requests == s.requests
    requires SpawnCounted(t) && t.timeouts == s.timeouts
    ensures Counted(t)
  {
    assert Requesting(t) == Requesting(s);
    assert Pending(t) == Pending(s);
  }

  // ----- Steps -----

  lemma CountedEnv(s: State, a: EnvStep)
    requires Counted(s) && Env(s, a).Next?
    ensures Counted(Env(s, a).s)
  {
    var t := Env(s, a).s;
    assert Requesting(t) == Requesting(s);
    assert Pending(t) == Pending(s);
  }

  lemma CountedPolicy(s: State, a: PolicyStep)
    requires Counted(s) && RunPolicy(s, a).Next?
    ensures Counted(RunPolicy(s, a).s)
  {
    hide Policy.Scale, Counted;
    assert SpawnCounted(s) by { CountedParts(s); }
    CountedSame(s, RunPolicy(s, a).s);
  }

  lemma CountedParts(s: State)
    requires Counted(s)
    ensures Balanced(s) && SpawnCounted(s) && RequestsCounted(s) && TimeoutsCounted(s)
  {
  }

  lemma SpawnerCounts(s: State, a: SpawnStep)
    requires SpawnCounted(s) && Spawn(s, a).Next?
    ensures var t := Spawn(s, a).s;
            && t.clients == s.clients && t.requests == s.requests && t.timeouts == s.timeouts && SpawnCounted(t)
            && (a.StatusBad? || a.PutAborted? ==>
                  At(s, s.spawner.d, WithSpawner) && SameCounts(KillDriver(s, s.spawner.d), t))
            && (!a.StatusBad? && !a.PutAborted? && !a.FactoryStarts? ==> SameCounts(s, t))
  {
  }

  lemma FactoryBalanced(s: State, d: Driver)
    requires Owned(s) && Balanced(s) && Spawn(s, FactoryStarts(d)).Next?
    ensures Balanced(Spawn(s, FactoryStarts(d)).s)
    ensures Spawn(s, FactoryStarts(d)).s.killed == s.killed && Spawn(s, FactoryStarts(d)).s.repeats == s.repeats
  {
  }

  lemma CountedSpawner(s: State, a: SpawnStep)
    requires Owned(s) && Counted(s) && Spawn(s, a).Next?
    ensures Counted(Spawn(s, a).s)
  {
    hide Spawn, Owned, KillDriver, Balanced;
    var t := Spawn(s, a).s;
    SpawnerCounts(s, a);
    assert Requesting(t) == Requesting(s);
    if a.StatusBad? || a.PutAborted? {
      CountedKill(s, t, s.spawner.d, WithSpawner);
    } else if a.FactoryStarts? {
      FactoryBalanced(s, a.d);
      assert Pending(t) == Pending(s);
    } else {
      CountedSame(s, t);
    }
  }

  lemma ManagerCounts(s: State, a: ManagerStep)
    requires Manage(s, a).Next?
    ensures var t := Manage(s, a).s;
            && t.clients == s.clients && t.requests == s.requests && t.timeouts == s.timeouts
            && t.spawner == s.spawner && t.spawning == s.spawning
            && if a.DoKill? then s.manager.Kill? && SameCounts(KillDriver(s, s.manager.d), t) else SameCounts(s, t)
  {
  }

  lemma CountedManager(s: State, a: ManagerStep)
    requires Owned(s) && Counted(s) && Manage(s, a).Next?
    ensures Counted(Manage(s, a).s)
  {
    hide Manage, Owned, KillDriver;
    var t := Manage(s, a).s;
    ManagerCounts(s, a);
    if a.DoKill? {
      CountedKill(s, t, s.manager.d, WithManager);
      assert Requesting(t) == Requesting(s);
    } else {
      CountedSame(s, t);
    }
  }

  lemma CountedMeeting(s: State, a: Meeting)
    requires Owned(s) && Counted(s) && Meet(s, a).Next?
    ensures Counted(Meet(s, a).s)
  {
    hide Meet, Owned;
    var t := Meet(s, a).s;
    MeetingCounts(s, a);
    assert Requesting(t) == Requesting(s);
    assert Pending(t) == Pending(s);
  }

  /** Meetings register and kill nothing; the clients stay where they are counted. */
  lemma MeetingCounts(s: State, a: Meeting)
    requires Meet(s, a).Next? && SpawnCounted(s)
    ensures var t := Meet(s, a).s;
            && SameCounts(s, t) && t.requests == s.requests && t.timeouts == s.timeouts && SpawnCounted(t)
            && t.clients.Keys == s.clients.Keys
            && forall c | c in s.clients ::
                 InRequest(t.clients[c]) == InRequest(s.clients[c])
                 && (t.clients[c] == s.clients[c] || !(t.clients[c].CheckPut? || s.clients[c].CheckPut?))
  {
  }

  predicate Kills(a: ClientStep)
  {
    a.Timeout? || a.GotBad? || a.PutBad? || a.PutStopped?
  }

  lemma ClientCounts(s: State, c: Client, a: ClientStep)
    requires ClientMove(s, c, a).Next?
    ensures var t := ClientMove(s, c, a).s;
            && c in s.clients && c in t.clients && t.clients == s.clients[c := t.clients[c]]
            && t.spawner == s.spawner && t.spawning == s.spawning
            && t.requests == s.requests + (if InRequest(t.clients[c]) then 1 else 0) - (if InRequest(s.clients[c]) then 1 else 0)
            && (!Kills(a) ==> SameCounts(s, t) && t.timeouts == s.timeouts)
  {
    if ClientThinks(a) && c in s.clients {
      ClientThinkOnly(s, c, a);
      ThinkingInRequest(s, s.clients[c], a);
      hide ClientMove, ClientThink;
    } else {
      hide ClientThink;
    }
  }

  lemma ThinkingInRequest(s: State, pc: ClientState, a: ClientStep)
    ensures InRequest(ClientThink(s, pc, a)) == InRequest(pc)
  {
  }

  lemma ClientKills(s: State, c: Client, a: ClientStep)
    requires Owned(s) && Balanced(s) && TimeoutsCounted(s) && ClientMove(s, c, a).Next? && Kills(a)
    ensures Balanced(ClientMove(s, c, a).s) && TimeoutsCounted(ClientMove(s, c, a).s)
  {
    hide Owned, Balanced, TimeoutsCounted;
    CountedClientKill(s, ClientMove(s, c, a).s, c, s.clients[c].d, a.Timeout?);
  }

  /** Finish reaches putDriver with a live driver, so it is no pending timeout. */
  lemma ClientPending(s: State, c: Client, a: ClientStep)
    requires Owned(s) && ClientMove(s, c, a).Next? && !Kills(a)
    ensures Pending(ClientMove(s, c, a).s) == Pending(s)
  {
    hide Owned, Pending;
    if a.Finish? {
      UsingIsLive(s, c);
    }
    PendingSame(s, ClientMove(s, c, a).s, c);
  }

  lemma UsingIsLive(s: State, c: Client)
    requires Owned(s) && c in s.clients && s.clients[c].Using?
    ensures s.clients[c].d in s.all && s.clients[c].d !in s.killed
  {
    assert At(s, s.clients[c].d, WithClient(c));
  }

  lemma CountedClient(s: State, c: Client, a: ClientStep)
    requires Owned(s) && Counted(s) && ClientMove(s, c, a).Next?
    ensures Counted(ClientMove(s, c, a).s)
  {
    hide ClientMove, Owned;
    var t := ClientMove(s, c, a).s;
    ClientCounts(s, c, a);
    RequestsMove(s, t, c);
    if Kills(a) {
      ClientKills(s, c, a);
    } else {
      ClientPending(s, c, a);
    }
  }
}
