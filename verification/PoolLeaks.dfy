/**
 The timeout path kills a driver twice: parseV1/parseV2 kill it, and the deferred putDriver
 of ExecuteCtx then finds it stopped and kills it again. The runs built here show that the
 bounds in PoolTheorems are reached: one more instance lives beyond the target for every
 timeout, and that many outlive Stop.
 */
module PoolLeaks {
  import opened PoolMachine
  import opened PoolTheorems

  // ----- Building runs -----

  lemma {:induction false} RunAppend(s: State, steps: seq<Step>, a: Step)
    requires Run(s, steps).Next?
    ensures Run(s, steps + [a]) == Do(Run(s, steps).s, a)
    decreases |steps|
  {
    hide Do;
    if steps == [] {
      assert ([] + [a])[1..] == [];
    } else {
      assert (steps + [a])[1..] == steps[1..] + [a];
      RunAppend(Do(s, steps[0]).s, steps[1..], a);
    }
  }

  lemma ReachableStep(s: State, a: Step, t: State)
    requires Reachable(s) && Do(s, a) == Next(t)
    ensures Reachable(t)
  {
    hide Do, Run, Init;
    var config, steps :| Run(Init(config), steps) == Next(s);
    RunAppend(Init(config), steps, a);
    assert Run(Init(config), steps + [a]) == Next(t);
  }

  lemma FreshId(used: set<nat>) returns (n: nat)
    ensures n !in used
  {
    if used == {} {
      n := 0;
    } else {
      n := UpperBound(used);
      n := n + 1;
    }
  }

  lemma {:induction false} UpperBound(used: set<nat>) returns (n: nat)
    requires used != {}
    ensures forall x | x in used :: x <= n
  {
    var y :| y in used;
    if used == {y} {
      n := y;
      assert forall x | x in used :: x in {y};
    } else {
      var m := UpperBound(used - {y});
      n := if m > y then m else y;
      assert used == used - {y} + {y};
    }
  }

  /** Nothing is in flight. */
  ghost predicate Quiet(s: State)
  {
    Reachable(s) && s.manager.Loop? && s.spawner.Ready? && s.idle == {} && !s.stopped && s.spawning == 0
  }

  /** A new call finds no idle driver and its request is accepted, with room to scale up. */
  lemma Ask(s: State, c: Client, q: Request) returns (t: State)
    requires Quiet(s) && c !in s.clients && q !in s.owner && s.target > s.running
    ensures Reachable(t)
    ensures t == s.(clients := s.clients[c := Wait(q)], requests := s.requests + 1, owner := s.owner[q := c],
                    accepted := s.accepted + {q}, seen := s.target, counted := s.running, manager := ScaleUp(q))
  {
    hide Reachable;
    var s1 := Call(s, c, q);
    var s2 := Submit(s1, c, q);
    assert s2.clients == s.clients[c := Wait(q)];
    t := Decide(s2, q);
  }

  lemma Call(s: State, c: Client, q: Request) returns (t: State)
    requires Reachable(s) && s.idle == {} && c !in s.clients && q !in s.owner
    ensures Reachable(t)
    ensures t == s.(clients := s.clients[c := Send(q)], requests := s.requests + 1, owner := s.owner[q := c])
  {
    hide Reachable;
    var s1 := s.(clients := s.clients[c := New]);
    ReachableStep(s, ByEnv(Arrive(c)), s1);
    var s2 := s.(clients := s.clients[c := Slow]);
    assert s1.clients[c := Slow] == s2.clients;
    ReachableStep(s1, ByClient(c, PeekMiss), s2);
    t := s.(clients := s.clients[c := Send(q)], requests := s.requests + 1, owner := s.owner[q := c]);
    assert s2.clients[c := Send(q)] == t.clients;
    ReachableStep(s2, ByClient(c, CountRequest(q)), t);
  }

  lemma Submit(s: State, c: Client, q: Request) returns (t: State)
    requires Reachable(s) && s.manager.Loop? && c in s.clients && s.clients[c] == Send(q)
    ensures Reachable(t)
    ensures t == s.(clients := s.clients[c := Wait(q)], accepted := s.accepted + {q}, manager := WaitRead(q))
  {
    hide Reachable;
    t := s.(clients := s.clients[c := Wait(q)], accepted := s.accepted + {q}, manager := WaitRead(q));
    ReachableStep(s, ByTwo(Get(c)), t);
  }

  /** waitOrScale reads its counters and decides to scale up. */
  lemma Decide(s: State, q: Request) returns (t: State)
    requires Reachable(s) && s.manager == WaitRead(q) && s.idle == {} && s.target > s.running
    ensures Reachable(t) && t == s.(seen := s.target, counted := s.running, manager := ScaleUp(q))
  {
    hide Reachable;
    var dn := s.target - s.running;
    var s1 := s.(manager := WaitTarget(q, s.running));
    ReachableStep(s, ByManager(ReadRunning), s1);
    var s2 := s.(seen := s.target, counted := s.running, manager := WaitRunning(q, dn));
    ReachableStep(s1, ByManager(ReadTarget), s2);
    var s3 := s2.(manager := WaitSpawning(q, dn, s.running));
    ReachableStep(s2, ByManager(ReadRunning), s3);
    var s4 := s2.(manager := WaitPeek(q, dn));
    ReachableStep(s3, ByManager(ReadSpawning), s4);
    t := s2.(manager := ScaleUp(q));
    ReachableStep(s4, ByManager(PeekNone), t);
  }

  /** The spawner starts a driver and the manager takes it for the request. */
  lemma SpawnFor(s: State, q: Request, d: Driver) returns (t: State)
    requires Reachable(s) && s.manager == ScaleUp(q) && s.spawner.Ready? && d !in s.registered && d !in s.killed
    ensures Reachable(t)
    ensures t == s.(all := s.all + {d}, registered := s.registered + {d}, running := s.running + 1,
                    manager := Return(q, d))
  {
    hide Reachable;
    var s1 := s.(spawner := Begin, manager := ScaleUpWait(q));
    ReachableStep(s, ByTwo(RequestSpawn), s1);
    var s2 := s1.(spawner := Factory, spawning := s.spawning + 1);
    ReachableStep(s1, BySpawner(CountSpawn), s2);
    var s3 := s2.(all := s.all + {d}, registered := s.registered + {d}, running := s.running + 1, spawner := Check(d));
    ReachableStep(s2, BySpawner(FactoryStarts(d)), s3);
    t := Deliver(s3, q, d);
  }

  lemma Deliver(s: State, q: Request, d: Driver) returns (t: State)
    requires Reachable(s) && s.manager == ScaleUpWait(q) && s.spawner == Check(d) && d !in s.killed
    ensures Reachable(t)
    ensures t == s.(spawner := Ready, spawning := s.spawning - 1, manager := Return(q, d))
  {
    hide Reachable;
    var s1 := s.(spawner := Put(d));
    ReachableStep(s, BySpawner(StatusGood), s1);
    var s2 := s1.(spawner := End, manager := Return(q, d));
    ReachableStep(s1, ByTwo(PutBySpawner), s2);
    t := s2.(spawner := Ready, spawning := s.spawning - 1);
    ReachableStep(s2, BySpawner(SpawnEnds), t);
  }

  /** The client takes the driver and starts using it. */
  lemma TakeDriver(s: State, c: Client, q: Request, d: Driver) returns (t: State)
    requires Reachable(s) && s.manager == Return(q, d) && c in s.clients && s.clients[c] == Wait(q) && d !in s.killed
    ensures Reachable(t)
    ensures t == s.(clients := s.clients[c := Using(d)], manager := Loop, answered := s.answered + multiset{q},
                    cancelled := s.cancelled + {q}, requests := s.requests - 1)
  {
    hide Reachable;
    var s1 := s.(clients := s.clients[c := Cancel(q, Just(d))], manager := Loop, answered := s.answered + multiset{q});
    ReachableStep(s, ByTwo(Hand(c)), s1);
    var s2 := s1.(clients := s.clients[c := Uncount(Just(d))], cancelled := s.cancelled + {q});
    assert s1.clients[c := Uncount(Just(d))] == s2.clients;
    ReachableStep(s1, ByClient(c, CloseCancel), s2);
    t := Accept(s2, c, d);
    assert t.clients == s.clients[c := Using(d)];
  }

  lemma Accept(s: State, c: Client, d: Driver) returns (t: State)
    requires Reachable(s) && c in s.clients && s.clients[c] == Uncount(Just(d)) && d !in s.killed
    ensures Reachable(t) && t == s.(clients := s.clients[c := Using(d)], requests := s.requests - 1)
  {
    hide Reachable;
    var s1 := s.(clients := s.clients[c := CheckGot(d)], requests := s.requests - 1);
    ReachableStep(s, ByClient(c, UncountRequest), s1);
    t := s1.(clients := s.clients[c := Using(d)]);
    assert s1.clients[c := Using(d)] == t.clients;
    ReachableStep(s1, ByClient(c, GotGood), t);
  }

  /** Whenever nothing idles and there is room, a new call can be served by a new instance. */
  lemma ServeNewCall(s: State) returns (t: State, c: Client, d: Driver)
    requires Quiet(s) && s.target > s.running
    ensures Quiet(t) && t.target == s.target && t.peak == s.peak && t.config == s.config
    ensures t.repeats == s.repeats && t.timeouts == s.timeouts
    ensures t.running == s.running + 1
    ensures d !in s.all && t.all == s.all + {d}
    ensures c !in s.clients && t.clients == s.clients[c := Using(d)]
    ensures t.policy == s.policy && t.rescale == s.rescale && t.requests == s.requests && t.killed == s.killed
  {
    hide Reachable;
    KilledIsRegistered(s);
    c := FreshId(s.clients.Keys);
    var q := FreshId(s.owner.Keys);
    d := FreshId(s.registered);
    var s1 := Ask(s, c, q);
    var s2 := SpawnFor(s1, q, d);
    t := TakeDriver(s2, c, q, d);
  }

  lemma KilledIsRegistered(s: State)
    requires Reachable(s)
    ensures s.killed <= s.registered && s.all <= s.registered
    ensures forall d | d in s.all :: d !in s.killed
  {
    hide Reachable;
    ReachableInvariant(s);
  }

  /** A parse times out and its deferred putDriver runs: one live driver less, running two less. */
  lemma TimeOut(s: State, c: Client, d: Driver) returns (t: State)
    requires Quiet(s) && c in s.clients && s.clients[c] == Using(d) && d in s.all
    ensures Quiet(t) && t.target == s.target && t.peak == s.peak && t.config == s.config
    ensures t.all == s.all - {d} && t.running == s.running - 2 && t.repeats == s.repeats + 1
    ensures t.timeouts == s.timeouts + 1
  {
    hide Reachable;
    KilledIsRegistered(s);
    var s1 := Become(KillDriver(s, d), c, CheckPut(d)).(timeouts := s.timeouts + 1);
    ReachableStep(s, ByClient(c, Timeout), s1);
    t := Become(KillDriver(s1, d), c, Gone);
    ReachableStep(s1, ByClient(c, PutBad), t);
  }

  // ----- The leaks -----

  /**
   Although the target never was more than 1, any number of instances can be alive at once:
   every timeout makes room for one more.
   */
  lemma {:induction false} TimeoutsLeakInstances(config: Policy.Config, n: nat)
      returns (s: State, c: Client, d: Driver)
    requires n >= 1
    ensures Quiet(s) && s.config == config && s.peak == s.target == 1
    ensures |s.all| == n && s.running == 1 && s.repeats == s.timeouts == n - 1
    ensures c in s.clients && s.clients[c] == Using(d) && d in s.all
  {
    hide Reachable;
    if n == 1 {
      StartIsReachable(config);
      s, c, d := ServeNewCall(Init(config));
    } else {
      var s0, c0, d0 := TimeoutsLeakInstances(config, n - 1);
      var s1 := TimeOut(s0, c0, d0);
      var s2, c2, d2 := ServeNewCall(s1);
      s, c, d := ServeNewCall(s2);
    }
  }

  lemma StartIsReachable(config: Policy.Config)
    ensures Reachable(Init(config))
  {
    hide Init;
    assert Run(Init(config), []) == Next(Init(config));
  }

  /** Stop is called while nothing idles: the manager goes to wait for a driver to be put back. */
  lemma StartDraining(s: State) returns (t: State)
    requires Quiet(s) && s.running == 1
    ensures Reachable(t) && t == s.(stopped := true, spawner := Exited, manager := DrainPut)
  {
    hide Reachable;
    var s1 := s.(stopped := true);
    ReachableStep(s, ByEnv(StopPool), s1);
    var s2 := s1.(spawner := Exited);
    ReachableStep(s1, BySpawner(SpawnerExit), s2);
    var s3 := s2.(manager := DrainPeek);
    ReachableStep(s2, ByManager(GoDrain), s3);
    var s4 := s2.(manager := DrainRead);
    ReachableStep(s3, ByManager(PeekNone), s4);
    t := s2.(manager := DrainPut);
    ReachableStep(s4, ByManager(ReadRunning), t);
  }

  /** A client has finished and finds its driver running. */
  lemma BringBack(s: State, c: Client, d: Driver) returns (t: State)
    requires Reachable(s) && c in s.clients && s.clients[c] == Using(d) && d in s.all
    ensures Reachable(t) && t == Become(s, c, Putting(d))
  {
    hide Reachable;
    KilledIsRegistered(s);
    var s1 := Become(s, c, CheckPut(d));
    ReachableStep(s, ByClient(c, Finish), s1);
    t := Become(s, c, Putting(d));
    assert s1.clients[c := Putting(d)] == t.clients;
    ReachableStep(s1, ByClient(c, PutGood), t);
  }

  lemma PutBack(s: State, c: Client, d: Driver) returns (t: State)
    requires Reachable(s) && s.manager == DrainPut && c in s.clients && s.clients[c] == Using(d) && d in s.all
    ensures Reachable(t) && t == s.(clients := s.clients[c := Gone], manager := Kill(d, ToDrainRead))
  {
    hide Reachable;
    var s2 := BringBack(s, c, d);
    t := PutToDrain(s2, c, d);
    assert s2.clients[c := Gone] == s.clients[c := Gone];
  }

  lemma PutToDrain(s: State, c: Client, d: Driver) returns (t: State)
    requires Reachable(s) && s.manager == DrainPut && c in s.clients && s.clients[c] == Putting(d)
    ensures Reachable(t) && t == s.(clients := s.clients[c := Gone], manager := Kill(d, ToDrainRead))
  {
    hide Reachable;
    t := Become(s, c, Gone).(manager := Kill(d, ToDrainRead));
    ReachableStep(s, ByTwo(PutByClient(c)), t);
  }

  /** The manager kills the driver that was put back and believes that nothing runs. */
  lemma FinishDraining(s: State, d: Driver) returns (t: State)
    requires Reachable(s) && s.manager == Kill(d, ToDrainRead) && d in s.all && s.running == 1
    ensures Reachable(t) && t.manager.Done? && t.spawner == s.spawner
    ensures t.all == s.all - {d} && t.repeats == s.repeats && t.timeouts == s.timeouts && t.config == s.config
  {
    hide Reachable;
    KilledIsRegistered(s);
    var s1 := KillDriver(s, d).(manager := DrainRead);
    ReachableStep(s, ByManager(DoKill), s1);
    var s2 := s1.(manager := DrainReset);
    ReachableStep(s1, ByManager(ReadRunning), s2);
    t := s2.(target := 0, manager := Done);
    ReachableStep(s2, ByManager(ResetTarget), t);
  }

  /** After n timeouts, Stop can return nil and leave n live instances behind. */
  lemma StopLeavesLeaks(config: Policy.Config, n: nat) returns (t: State)
    ensures Reachable(t) && t.config == config && t.manager.Done? && t.spawner.Exited?
    ensures |t.all| == n == t.repeats == t.timeouts
  {
    hide Reachable;
    var s, c, d := TimeoutsLeakInstances(config, n + 1);
    var s1 := StartDraining(s);
    var s2 := PutBack(s1, c, d);
    t := FinishDraining(s2, d);
  }
}
