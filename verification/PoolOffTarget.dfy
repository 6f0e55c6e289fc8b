/**
 Three runs after which the manager is at rest, no signal is under way, and the pool does not have
 the number of instances that the manager has read. In the first it has one too many: the manager
 takes the signal while it serves a request, finds that it has to scale down, and returns to its
 loop when the request is cancelled. In the other two it has one too few: because an instance was
 put back, and because the manager took the signal while it served a request.
 */
module PoolOffTarget {
  import opened PoolMachine
  import opened PoolTheorems
  import opened PoolCourse
  import opened PoolSupply
  import opened PoolLeaks

  const SMALL := Policy.Config(1, 2, 1, 1.0, 1, 1)

  // ----- Pieces of runs -----

  lemma WindowOne(c: Policy.Config, p: Policy.State, total: int, idle: int, load: int)
    requires c.loadWindow == c.targetWindow == 1
    ensures Policy.Scale(c, p, total, idle, load).1 == Policy.Unsmoothed(c, total, idle, load)
  {
    hide Policy.Mean, Policy.Unsmoothed;
    LastSample(p.loads, load);
    LastSample(p.targets, Policy.Unsmoothed(c, total, idle, load));
  }

  lemma LastSample(h: seq<int>, v: int)
    ensures Policy.Mean(h + [v], 1) == v
  {
    Policy.LastAppend(h, v, 1);
    Policy.MeanBetween(h + [v], 1, v, v);
  }

  /** The policy goroutine wakes up and computes its next target. */
  lemma Compute(s: State, v: int) returns (t: State)
    requires Reachable(s) && s.policy.Asleep? && s.config.loadWindow == s.config.targetWindow == 1
    requires v == Policy.Unsmoothed(s.config, s.running, |s.idle|, s.requests) >= 1
    ensures Reachable(t) && t == s.(scaling := t.scaling, policy := Set(v))
  {
    hide Reachable, Policy.Unsmoothed, Policy.Scale;
    WindowOne(s.config, s.scaling, s.running, |s.idle|, s.requests);
    t := s.(scaling := Policy.Scale(s.config, s.scaling, s.running, |s.idle|, s.requests).0, policy := Set(v));
    ReachableStep(s, ByPolicy(Tick), t);
  }

  /** It sets the target and sends the signal. */
  lemma Announce(s: State) returns (t: State)
    requires Reachable(s) && s.policy.Set? && s.policy.t != s.target
    ensures Reachable(t)
    ensures t == s.(target := s.policy.t, peak := t.peak, rescale := true, policy := Asleep)
  {
    hide Reachable;
    var v := s.policy.t;
    var s1 := s.(target := v, peak := if v > s.peak then v else s.peak, policy := Signal);
    ReachableStep(s, ByPolicy(SetTarget), s1);
    t := s1.(rescale := true, policy := Asleep);
    ReachableStep(s1, ByPolicy(SendSignal), t);
  }

  /** A client puts its driver back and the manager makes it idle. */
  lemma GiveBack(s: State, c: Client, d: Driver) returns (t: State)
    requires Reachable(s) && s.manager.Loop? && c in s.clients && s.clients[c] == Using(d) && d in s.all
    ensures Reachable(t) && t == s.(clients := s.clients[c := Gone], idle := s.idle + {d})
  {
    hide Reachable;
    var s2 := BringBack(s, c, d);
    var s3 := Become(s, c, Gone).(manager := SetIdle(d, ToLoop));
    assert s2.clients[c := Gone] == s3.clients;
    Received(s2, c, d, s3);
    t := s.(clients := s.clients[c := Gone], idle := s.idle + {d});
    ReachableStep(s3, ByManager(DoSetIdle), t);
  }

  lemma Received(s: State, c: Client, d: Driver, t: State)
    requires Reachable(s) && s.manager.Loop? && c in s.clients && s.clients[c] == Putting(d)
    requires t == Become(s, c, Gone).(manager := SetIdle(d, ToLoop))
    ensures Reachable(t)
  {
    hide Reachable;
    ReachableStep(s, ByTwo(PutByClient(c)), t);
  }

  /** A new client takes an idle driver, past the manager. */
  lemma Grab(s: State, c: Client, d: Driver) returns (t: State)
    requires Reachable(s) && c !in s.clients && d in s.idle && d !in s.killed
    ensures Reachable(t) && t == s.(clients := s.clients[c := Using(d)], idle := s.idle - {d})
  {
    hide Reachable;
    var s1 := Become(s, c, New);
    ReachableStep(s, ByEnv(Arrive(c)), s1);
    var s2 := Become(s, c, CheckGot(d)).(idle := s.idle - {d});
    assert s1.clients[c := CheckGot(d)] == s2.clients;
    ReachableStep(s1, ByClient(c, PeekHit(d)), s2);
    t := s2.(clients := s.clients[c := Using(d)]);
    assert s2.clients[c := Using(d)] == t.clients;
    ReachableStep(s2, ByClient(c, GotGood), t);
  }

  /** waitOrScale reads its counters and finds no room to scale up. */
  lemma NoRoom(s: State, q: Request) returns (t: State)
    requires Reachable(s) && s.manager == WaitRead(q) && s.idle == {} && 1 <= s.target <= s.running && s.spawning == 0
    ensures Reachable(t) && t == s.(seen := s.target, counted := s.running, manager := ScaleDown(q, s.target == s.running))
  {
    hide Reachable;
    var dn := s.target - s.running;
    var s1 := s.(manager := WaitTarget(q, s.running));
    ReachableStep(s, ByManager(ReadRunning), s1);
    var s2 := s.(seen := s.target, counted := s.running, manager := WaitRunning(q, dn));
    ReachableStep(s1, ByManager(ReadTarget), s2);
    t := NoRoomAgain(s2, q, dn);
  }

  lemma NoRoomAgain(s: State, q: Request, dn: int) returns (t: State)
    requires Reachable(s) && s.manager == WaitRunning(q, dn) && s.idle == {} && dn <= 0 && s.running >= 1 && s.spawning == 0
    ensures Reachable(t) && t == s.(manager := ScaleDown(q, dn == 0))
  {
    hide Reachable;
    var s1 := s.(manager := WaitSpawning(q, dn, s.running));
    ReachableStep(s, ByManager(ReadRunning), s1);
    var s2 := s.(manager := WaitPeek(q, dn));
    ReachableStep(s1, ByManager(ReadSpawning), s2);
    t := s.(manager := ScaleDown(q, dn == 0));
    ReachableStep(s2, ByManager(PeekNone), t);
  }

  /** The manager re-reads the target for a request that is then cancelled. */
  lemma Forget(s: State, q: Request) returns (t: State)
    requires Reachable(s) && s.manager == ScaleDown(q, true) && s.rescale && !s.stopped && s.policy.Asleep? && q in s.owner
    requires s.idle == {} && s.spawner.Ready? && s.spawning == 0 && 1 <= s.target < s.running
    ensures Reachable(t) && t.manager.Loop? && !Reminded(t) && t.seen == t.target == s.target < t.running == s.running
    ensures t.spawner.Ready?
  {
    hide Reachable;
    var s1 := s.(rescale := false, manager := WaitRead(q));
    ReachableStep(s, ByManager(TakeSignal), s1);
    var s2 := NoRoom(s1, q);
    var s3 := s2.(cancelled := s2.cancelled + {q});
    ReachableStep(s2, ByEnv(ContextDone(q)), s3);
    t := s3.(manager := Loop);
    ReachableStep(s3, ByManager(SeeCancel), t);
  }

  // ----- The run -----

  /** Two clients use the two instances that the target allows. */
  lemma TwoInUse() returns (s: State, c1: Client, c2: Client, d1: Driver, d2: Driver)
    ensures Quiet(s) && s.config == SMALL && s.policy.Asleep? && s.target == s.running == 2 && s.requests == 0
    ensures c1 != c2 && c1 in s.clients && s.clients[c1] == Using(d1) && c2 in s.clients && s.clients[c2] == Using(d2)
    ensures d1 in s.all
  {
    hide Reachable;
    StartIsReachable(SMALL);
    var s1: State;
    s1, c1, d1 := ServeNewCall(Init(SMALL));
    c2 := FreshId(s1.clients.Keys);
    var q := FreshId(s1.owner.Keys);
    var s2 := Call(s1, c2, q);
    assert Policy.Unsmoothed(SMALL, 1, 0, 1) == 2;
    var s3 := Compute(s2, 2);
    var s4 := Announce(s3);
    d2 := FreshId(s4.registered);
    s := ServeCaller(s4, c2, q, d2);
  }

  lemma ServeCaller(s: State, c: Client, q: Request, d: Driver) returns (t: State)
    requires Quiet(s) && c in s.clients && s.clients[c] == Send(q) && s.target > s.running && d !in s.registered
    ensures Quiet(t) && t.config == s.config && t.policy == s.policy && t.target == s.target
    ensures t.running == s.running + 1 && t.requests == s.requests - 1
    ensures t.clients == s.clients[c := Using(d)] && t.all == s.all + {d}
  {
    hide Reachable;
    var s1 := Submit(s, c, q);
    t := ServeWaiting(s1, c, q, d);
    assert t.clients == s.clients[c := Using(d)];
  }

  /** The manager reads the target for a request and serves it with a new instance. */
  lemma ServeWaiting(s: State, c: Client, q: Request, d: Driver) returns (t: State)
    requires Reachable(s) && s.manager == WaitRead(q) && s.idle == {} && s.target > s.running && s.spawner.Ready?
    requires c in s.clients && s.clients[c] == Wait(q) && d !in s.registered
    ensures Reachable(t)
    ensures t == s.(manager := Loop, seen := s.target, counted := s.running, running := s.running + 1, requests := s.requests - 1,
                    all := s.all + {d}, registered := s.registered + {d}, clients := s.clients[c := Using(d)],
                    cancelled := s.cancelled + {q}, answered := s.answered + multiset{q})
  {
    hide Reachable;
    KilledIsRegistered(s);
    var s1 := Decide(s, q);
    var s2 := SpawnFor(s1, q, d);
    t := TakeDriver(s2, c, q, d);
  }

  /** A third client waits for a driver when the policy decides, on older numbers, for a target of 1. */
  lemma TargetFalls(s: State, c1: Client, d1: Driver) returns (t: State, q: Request)
    requires Quiet(s) && s.config == SMALL && s.policy.Asleep? && s.target == s.running == 2 && s.requests == 0
    requires c1 in s.clients && s.clients[c1] == Using(d1) && d1 in s.all
    ensures Reachable(t) && t.manager == ScaleDown(q, true) && t.rescale && !t.stopped && t.policy.Asleep? && q in t.owner
    ensures t.idle == {} && t.spawner.Ready? && t.spawning == 0 && t.target == 1 && t.running == 2
  {
    hide Reachable;
    var s1 := GiveBack(s, c1, d1);
    assert s1.idle == {d1};
    FallsToOne();
    var s2 := Compute(s1, 1);
    KilledIsRegistered(s2);
    var c3 := FreshId(s2.clients.Keys);
    var s3 := Grab(s2, c3, d1);
    var c4 := FreshId(s3.clients.Keys);
    q := FreshId(s3.owner.Keys);
    var s4 := Call(s3, c4, q);
    var s5 := Submit(s4, c4, q);
    var s6 := NoRoom(s5, q);
    t := Announce(s6);
  }

  lemma FallsToOne()
    ensures Policy.Unsmoothed(SMALL, 2, 1, 0) == 1
  {
    assert Policy.Times(1, 1.0) == 1.0;
  }

  /** No more signal is under way, the manager has read the target, and one instance too many runs on. */
  lemma CancelledRequestForgetsTarget() returns (s: State)
    ensures Reachable(s) && s.manager.Loop? && !Reminded(s) && s.seen == s.target == 1 && s.running == 2
    ensures !OnCourse(s)
  {
    hide Reachable;
    var s1, c1, c2, d1, d2 := TwoInUse();
    var s2, q := TargetFalls(s1, c1, d1);
    s := Forget(s2, q);
  }

  // ----- Too few instances -----

  const WIDE := Policy.Config(1, 3, 2, 1.0, 1, 1)

  /** One instance in use, and the target goes from 1 to 3 because two clients call. */
  lemma TargetRises() returns (s: State, c: Client, d: Driver)
    ensures Quiet(s) && s.config == WIDE && s.policy.Asleep? && s.rescale && s.target == 3 && s.running == 1 && s.killed == {}
    ensures c in s.clients && s.clients[c] == Using(d) && d in s.all
  {
    hide Reachable;
    StartIsReachable(WIDE);
    var s1: State;
    s1, c, d := ServeNewCall(Init(WIDE));
    var c2 := FreshId(s1.clients.Keys);
    var q2 := FreshId(s1.owner.Keys);
    var s2 := Call(s1, c2, q2);
    var c3 := FreshId(s2.clients.Keys);
    var q3 := FreshId(s2.owner.Keys);
    var s3 := Call(s2, c3, q3);
    assert Policy.Unsmoothed(WIDE, 1, 0, 2) == 3;
    var s4 := Compute(s3, 3);
    s := Announce(s4);
  }

  /** The manager takes the signal and starts to scale up. */
  lemma StartScaling(s: State) returns (t: State)
    requires Reachable(s) && s.manager.Loop? && s.rescale && s.running < s.target
    ensures Reachable(t) && t == s.(rescale := false, seen := s.target, counted := s.running, manager := Up(0, s.target - s.running))
  {
    hide Reachable;
    var s1 := s.(rescale := false, manager := ScaleRead);
    ReachableStep(s, ByManager(TakeSignal), s1);
    var s2 := s1.(manager := ScaleTarget(s.running));
    ReachableStep(s1, ByManager(ReadRunning), s2);
    t := s1.(seen := s.target, counted := s.running, manager := Up(0, s.target - s.running));
    ReachableStep(s2, ByManager(ReadTarget), t);
  }

  /** One round of the loop that starts an instance. */
  lemma StartOne(s: State, i: nat, n: int, d: Driver) returns (t: State)
    requires Reachable(s) && s.manager == Up(i, n) && i < n && s.spawner.Ready? && d !in s.registered && d !in s.killed
    ensures Reachable(t)
    ensures t == s.(all := s.all + {d}, registered := s.registered + {d}, running := s.running + 1, idle := s.idle + {d},
                    manager := Up(i + 1, n))
  {
    hide Reachable;
    var s1 := s.(spawner := Begin, manager := UpWait(i, n));
    ReachableStep(s, ByTwo(RequestSpawn), s1);
    var s2 := s1.(spawner := Factory, spawning := s.spawning + 1);
    ReachableStep(s1, BySpawner(CountSpawn), s2);
    var s3 := s2.(all := s.all + {d}, registered := s.registered + {d}, running := s.running + 1, spawner := Check(d));
    ReachableStep(s2, BySpawner(FactoryStarts(d)), s3);
    t := DeliverIdle(s3, i, n, d);
  }

  lemma DeliverIdle(s: State, i: nat, n: int, d: Driver) returns (t: State)
    requires Reachable(s) && s.manager == UpWait(i, n) && s.spawner == Check(d) && d !in s.killed
    ensures Reachable(t)
    ensures t == s.(spawner := Ready, spawning := s.spawning - 1, idle := s.idle + {d}, manager := Up(i + 1, n))
  {
    hide Reachable;
    var s1 := s.(spawner := Put(d));
    ReachableStep(s, BySpawner(StatusGood), s1);
    var s2 := s1.(spawner := End, manager := SetIdle(d, ToUp(i + 1, n)));
    ReachableStep(s1, ByTwo(PutBySpawner), s2);
    var s3 := s2.(spawner := Ready, spawning := s.spawning - 1);
    ReachableStep(s2, BySpawner(SpawnEnds), s3);
    t := s3.(idle := s.idle + {d}, manager := Up(i + 1, n));
    ReachableStep(s3, ByManager(DoSetIdle), t);
  }

  /** A client puts its driver back while the manager scales up. */
  lemma PutWhileScaling(s: State, c: Client, d: Driver, i: nat, n: int, t: State)
    requires Reachable(s) && s.manager == Up(i, n) && i < n && c in s.clients && s.clients[c] == Using(d) && d in s.all
    requires t == s.(clients := s.clients[c := Gone], idle := s.idle + {d}, manager := UpRead(i))
    ensures Reachable(t)
  {
    hide Reachable;
    var s2 := BringBack(s, c, d);
    var s3 := Become(s, c, Gone).(manager := SetIdle(d, ToUpRead(i)));
    assert s2.clients[c := Gone] == s3.clients;
    ReceivedScaling(s2, c, d, i, n, s3);
    ReachableStep(s3, ByManager(DoSetIdle), t);
  }

  lemma ReceivedScaling(s: State, c: Client, d: Driver, i: nat, n: int, t: State)
    requires Reachable(s) && s.manager == Up(i, n) && i < n && c in s.clients && s.clients[c] == Putting(d)
    requires t == Become(s, c, Gone).(manager := SetIdle(d, ToUpRead(i)))
    ensures Reachable(t)
  {
    hide Reachable;
    ReachableStep(s, ByTwo(PutByClient(c)), t);
  }

  /** No failure and no kill has happened, no signal is under way, and the pool is one instance short. */
  lemma ReturnedDriverStopsScaleUp() returns (s: State)
    ensures Reachable(s) && s.manager.Loop? && !Reminded(s) && s.spawner.Ready? && s.killed == {}
    ensures s.seen == s.target == 3 && s.running == 2 && !Supplied(s)
  {
    hide Reachable;
    var s1, c, d := TargetRises();
    KilledIsRegistered(s1);
    var s2 := StartScaling(s1);
    var d2 := FreshId(s2.registered);
    var s3 := StartOne(s2, 0, 2, d2);
    var s4 := s3.(clients := s3.clients[c := Gone], idle := s3.idle + {d}, manager := UpRead(1));
    PutWhileScaling(s3, c, d, 1, 2, s4);
    var s5 := s4.(manager := UpTarget(1, 2));
    ReachableStep(s4, ByManager(ReadRunning), s5);
    var s6 := s4.(counted := 2, manager := Up(1, 1));
    ReachableStep(s5, ByManager(ReadTarget), s6);
    s := s6.(manager := Loop);
    LoopMayEnd(s6);
    ReachableStep(s6, ByManager(LoopEnds), s);
  }

  /** The manager serves a request, with no room for a new instance, while the target goes from 1 to 3. */
  lemma TargetRisesWhileServing() returns (s: State, c: Client, q: Request)
    ensures Reachable(s) && s.manager == ScaleDown(q, true) && s.rescale && !s.stopped && s.policy.Asleep? && s.killed == {}
    ensures s.spawner.Ready? && s.spawning == 0 && s.idle == {} && s.target == 3 && s.running == 1
    ensures c in s.clients && s.clients[c] == Wait(q)
  {
    hide Reachable;
    StartIsReachable(WIDE);
    var s1, c1, d1 := ServeNewCall(Init(WIDE));
    c := FreshId(s1.clients.Keys);
    q := FreshId(s1.owner.Keys);
    var s2 := Call(s1, c, q);
    var s3 := Submit(s2, c, q);
    var s4 := NoRoom(s3, q);
    var c3 := FreshId(s4.clients.Keys);
    var q3 := FreshId(s4.owner.Keys);
    var s5 := Call(s4, c3, q3);
    assert Policy.Unsmoothed(WIDE, 1, 0, 2) == 3;
    var s6 := Compute(s5, 3);
    s := Announce(s6);
  }

  /**
   It takes the signal, starts the one instance that the request needs, and returns to its loop:
   nothing was killed, cancelled or put back, no signal is under way, and one instance is missing.
   */
  lemma ServedRequestForgetsTarget() returns (s: State)
    ensures Reachable(s) && s.manager.Loop? && !Reminded(s) && s.spawner.Ready? && s.killed == {}
    ensures s.seen == s.target == 3 && s.running == 2 && !Supplied(s)
  {
    hide Reachable;
    var s1, c, q := TargetRisesWhileServing();
    var s2 := s1.(rescale := false, manager := WaitRead(q));
    ReachableStep(s1, ByManager(TakeSignal), s2);
    var d := FreshId(s2.registered);
    s := ServeWaiting(s2, c, q, d);
  }

  // ----- Above the maximum -----

  /** The first tick of a pool with a minimum above its maximum. */
  lemma FirstTargetIsMinimum(config: Policy.Config) returns (s: State)
    requires config.loadWindow >= 1 && config.targetWindow >= 1 && 1 <= config.max < config.Low()
    ensures Quiet(s) && s.config == config && s.running == 0 && s.target == config.Low()
  {
    hide Reachable, Policy.Scale, Policy.Unsmoothed;
    StartIsReachable(config);
    var s0 := Init(config);
    FirstScale(config);
    var r := Policy.Scale(config, Policy.FRESH, 0, 0, 0);
    var s1 := s0.(scaling := r.0, policy := Set(config.Low()));
    ReachableStep(s0, ByPolicy(Tick), s1);
    s := Announce(s1);
  }

  lemma FirstScale(config: Policy.Config)
    requires config.loadWindow >= 1 && config.targetWindow >= 1 && 1 <= config.max < config.Low()
    ensures Policy.Scale(config, Policy.FRESH, 0, 0, 0).1 == config.Low()
  {
    hide Policy.Unsmoothed, Policy.Mean;
    var x := Policy.Input(0, 0, 0);
    Policy.FirstAnswer(config, x);
    assert Policy.Answers(config, Policy.FRESH, [x])[0] == Policy.Scale(config, Policy.FRESH, 0, 0, 0).1;
    Policy.CrossedLimits(config, 0, 0, 0);
    AimdAtStart(config);
  }

  lemma AimdAtStart(config: Policy.Config)
    ensures Policy.Aimd(config.add, config.mul, 0, 0, 0) == 1
  {
  }

  /** As many calls as the target allows, each served by a new instance. */
  lemma {:induction false} FillUp(s: State, n: nat) returns (t: State)
    requires Quiet(s) && s.running + n <= s.target
    ensures Quiet(t) && t.config == s.config && t.target == s.target && t.running == s.running + n
  {
    hide Reachable;
    if n == 0 {
      t := s;
    } else {
      var s1 := FillUp(s, n - 1);
      var c, d;
      t, c, d := ServeNewCall(s1);
    }
  }

  /** A reachable pool above its maximum, for every configuration that is not in order. */
  lemma ExceedsMaximum(config: Policy.Config) returns (s: State)
    requires config.loadWindow >= 1 && config.targetWindow >= 1 && !(1 <= config.Low() <= config.max)
    ensures Reachable(s) && s.config == config && s.target > config.max && s.running > config.max
  {
    hide Reachable;
    if config.max < 1 {
      StartIsReachable(config);
      var c, d;
      s, c, d := ServeNewCall(Init(config));
    } else {
      var s1 := FirstTargetIsMinimum(config);
      s := FillUp(s1, config.Low());
    }
  }

  /**
   Over all runs of a pool, neither its target nor its instances exceed the configured maximum if
   and only if the maximum is positive and the minimum not above it.
   */
  lemma WithinMaximumIff(config: Policy.Config)
    requires config.loadWindow >= 1 && config.targetWindow >= 1
    ensures (forall s | Reachable(s) && s.config == config :: s.target <= config.max) <==> 1 <= config.Low() <= config.max
    ensures (forall s | Reachable(s) && s.config == config :: s.running <= config.max) <==> 1 <= config.Low() <= config.max
  {
    hide Reachable;
    if 1 <= config.Low() <= config.max {
      forall s | Reachable(s) && s.config == config
        ensures s.target <= config.max && s.running <= config.max
      {
        InstancesWithinMaximum(s);
        TargetWithinMaximum(s);
      }
    } else {
      var s := ExceedsMaximum(config);
    }
  }
}
