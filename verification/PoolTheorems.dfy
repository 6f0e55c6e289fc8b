/** What holds in every state that any interleaving of a pool can reach. */
module PoolTheorems {
  import opened PoolMachine
  import opened PoolOwnership
  import opened PoolCounters
  import opened PoolBound
  import opened PoolRequests
  import opened PoolSignals

  ghost predicate Invariant(s: State)
  {
    Owned(s) && Counted(s) && Bounded(s) && WithinMax(s) && Served(DeskOf(s)) && Announced(s) && Drained(s)
  }

  lemma InvariantInit(config: Policy.Config)
    ensures Invariant(Init(config))
  {
    OwnedInit(config);
    CountedInit(config);
    BoundedInit(config);
    WithinMaxInit(config);
    ServedInit(config);
    SignalsInit(config);
  }

  lemma InvariantClient(s: State, c: Client, a: ClientStep)
    requires Invariant(s) && ClientMove(s, c, a).Next?
    ensures Invariant(ClientMove(s, c, a).s)
  {
    hide ClientMove, Owned, Counted, Bounded, WithinMax, Served, Announced, Drained, DeskOf;
    OwnedClient(s, c, a);
    CountedClient(s, c, a);
    BoundedClient(s, c, a);
    WithinMaxOthers(s, ByClient(c, a));
    ServedClient(s, c, a);
    AnnouncedClient(s, c, a);
    DrainedClient(s, c, a);
  }

  lemma InvariantSpawner(s: State, a: SpawnStep)
    requires Invariant(s) && Spawn(s, a).Next?
    ensures Invariant(Spawn(s, a).s)
  {
    hide Spawn, Owned, Counted, Bounded, WithinMax, Served, Announced, Drained, DeskOf;
    OwnedSpawner(s, a);
    CountedSpawner(s, a);
    BoundedSpawner(s, a);
    WithinMaxOthers(s, BySpawner(a));
    ServedSpawner(s, a);
    AnnouncedSpawner(s, a);
    DrainedSpawner(s, a);
  }

  lemma InvariantMeeting(s: State, a: Meeting)
    requires Invariant(s) && Meet(s, a).Next?
    ensures Invariant(Meet(s, a).s)
  {
    hide Meet, Owned, Counted, Bounded, WithinMax, Served, Announced, Drained, DeskOf;
    OwnedMeeting(s, a);
    CountedMeeting(s, a);
    BoundedMeeting(s, a);
    WithinMaxOthers(s, ByTwo(a));
    ServedMeeting(s, a);
    AnnouncedMeeting(s, a);
    DrainedMeeting(s, a);
  }

  lemma InvariantManager(s: State, a: ManagerStep)
    requires Invariant(s) && Manage(s, a).Next?
    ensures Invariant(Manage(s, a).s)
  {
    hide Manage, Owned, Counted, Bounded, WithinMax, Served, Announced, Drained, DeskOf;
    CountedParts(s);
    OwnedManager(s, a);
    CountedManager(s, a);
    BoundedManager(s, a);
    WithinMaxOthers(s, ByManager(a));
    ServedManager(s, a);
    AnnouncedManager(s, a);
    DrainedManager(s, a);
  }

  lemma InvariantEnv(s: State, a: EnvStep)
    requires Invariant(s) && Env(s, a).Next?
    ensures Invariant(Env(s, a).s)
  {
    hide Env, Owned, Counted, Bounded, WithinMax, Served, Announced, Drained, DeskOf;
    OwnedEnv(s, a);
    CountedEnv(s, a);
    BoundedEnv(s, a);
    WithinMaxOthers(s, ByEnv(a));
    ServedEnv(s, a);
    AnnouncedEnv(s, a);
  }

  lemma InvariantPolicy(s: State, a: PolicyStep)
    requires Invariant(s) && RunPolicy(s, a).Next?
    ensures Invariant(RunPolicy(s, a).s)
  {
    hide RunPolicy, Owned, Counted, Bounded, WithinMax, Served, Announced, Drained, DeskOf;
    OwnedPolicy(s, a);
    CountedPolicy(s, a);
    BoundedPolicy(s, a);
    WithinMaxPolicy(s, a);
    ServedPolicy(s, a);
    AnnouncedPolicy(s, a);
  }

  /** Every step of every goroutine keeps the invariant. */
  lemma InvariantStep(s: State, a: Step)
    requires Invariant(s) && Do(s, a).Next?
    ensures Invariant(Do(s, a).s)
  {
    hide Invariant, Env, RunPolicy, Spawn, ClientMove, Meet, Manage;
    match a
    case ByEnv(e) => InvariantEnv(s, e);
    case ByPolicy(p) => InvariantPolicy(s, p);
    case BySpawner(w) => InvariantSpawner(s, w);
    case ByClient(c, x) => InvariantClient(s, c, x);
    case ByTwo(t) => InvariantMeeting(s, t);
    case ByManager(m) => InvariantManager(s, m);
  }

  lemma {:induction false} InvariantRun(s: State, steps: seq<Step>)
    requires Invariant(s) && Run(s, steps).Next?
    ensures Invariant(Run(s, steps).s)
    decreases |steps|
  {
    hide Invariant, Do;
    if steps == [] {
    } else {
      InvariantStep(s, steps[0]);
      InvariantRun(Do(s, steps[0]).s, steps[1..]);
    }
  }

  lemma ReachableInvariant(s: State)
    requires Reachable(s)
    ensures Invariant(s)
  {
    hide Invariant, Run, Init;
    var config, steps :| Run(Init(config), steps) == Next(s);
    InvariantInit(config);
    InvariantRun(Init(config), steps);
  }

  // ----- The properties -----

  /**
   In every interleaving, a live driver is in exactly one place, an idle driver is live, and
   no two clients hold the same driver.
   */
  lemma DriversHaveOneOwner(s: State)
    requires Reachable(s)
    ensures forall d | d in s.all :: exists l :: At(s, d, l)
    ensures forall d, l, k :: At(s, d, l) && At(s, d, k) ==> l == k
    ensures forall d, c, e | c in s.clients && e in s.clients && ClientHolds(s.clients[c], d) && ClientHolds(s.clients[e], d) :: c == e
    ensures forall d | d in s.idle :: d in s.all
    ensures forall c | c in s.clients && s.clients[c].Using? :: s.clients[c].d in s.all
  {
    hide Reachable;
    ReachableInvariant(s);
    forall d, c, e | c in s.clients && e in s.clients && ClientHolds(s.clients[c], d) && ClientHolds(s.clients[e], d)
      ensures c == e
    {
      assert At(s, d, WithClient(c)) && At(s, d, WithClient(e));
    }
    forall d | d in s.idle
      ensures d in s.all
    {
      assert At(s, d, InIdle);
    }
    forall c | c in s.clients && s.clients[c].Using?
      ensures s.clients[c].d in s.all
    {
      UsingIsLive(s, c);
    }
  }

  /**
   The counters: running + exited is the number of drivers ever registered; running is the
   number of live drivers exactly when no driver has been killed twice; and the repeated
   kills are the timeouts whose deferred putDriver has run.
   */
  lemma CountersAgree(s: State)
    requires Reachable(s)
    ensures s.running + s.exited == |s.registered|
    ensures s.running == |s.all| - s.repeats
    ensures s.running == |s.all| <==> s.repeats == 0
    ensures s.timeouts == s.repeats + |Pending(s)|
    ensures s.requests == |Requesting(s)|
  {
    hide Reachable, Owned, Bounded, Served, WithinMax;
    ReachableInvariant(s);
  }

  /**
   The counted instances, with the one being started, never exceed the largest target ever
   set; the live ones exceed it by at most the number of repeated kills.
   */
  lemma InstancesWithinTarget(s: State)
    requires Reachable(s)
    ensures s.running + Starting(s.spawner) <= s.peak
    ensures |s.all| + Starting(s.spawner) <= s.peak + s.repeats
  {
    hide Reachable, Owned, Served, WithinMax;
    ReachableInvariant(s);
  }

  /** With the default policy, the configured per-language maximum bounds the instances. */
  lemma InstancesWithinMaximum(s: State)
    requires Reachable(s) && s.config.Valid()
    ensures s.running + Starting(s.spawner) <= s.config.max
    ensures |s.all| + Starting(s.spawner) <= s.config.max + s.repeats
    ensures s.repeats == 0 ==> |s.all| + Starting(s.spawner) <= s.config.max
  {
    hide Reachable, Owned, Served, Policy.InLimits;
    ReachableInvariant(s);
    InstancesWithinTarget(s);
  }

  lemma TargetWithinMaximum(s: State)
    requires Reachable(s) && s.config.Valid()
    ensures s.target <= s.peak <= s.config.max
  {
    hide Reachable, Owned, Served, Policy.InLimits;
    ReachableInvariant(s);
  }

  /**
   When the manager has drained and the spawner has returned, which is what a Stop that
   returns nil waits for, at most as many drivers live on as there were repeated kills; with
   none, no driver is registered or idle, and only clients that have timed out and not yet run
   their putDriver still hold one, a dead one; without any timeout no client holds any.
   */
  lemma StopLeavesNothing(s: State)
    requires Reachable(s) && s.manager.Done? && s.spawner.Exited?
    ensures |s.all| <= s.repeats
    ensures s.repeats == 0 ==> s.all == {} && s.idle == {}
    ensures s.repeats == 0 ==> forall c, d | c in s.clients && ClientHolds(s.clients[c], d) :: d in s.killed && c in Pending(s)
    ensures s.timeouts == 0 ==> !exists c, d :: c in s.clients && ClientHolds(s.clients[c], d)
  {
    hide Reachable, Served, Bounded, WithinMax, ClientHolds;
    ReachableInvariant(s);
    DriversHaveOneOwner(s);
    CountersAgree(s);
    if s.repeats == 0 {
      forall c, d | c in s.clients && ClientHolds(s.clients[c], d)
        ensures d in s.killed && c in Pending(s)
      {
        DeadHandIsPending(s, c, d);
      }
    }
    if s.timeouts == 0 {
      assert Pending(s) == {};
      forall c, d | c in s.clients && ClientHolds(s.clients[c], d)
        ensures c in Pending(s)
      {
        DeadHandIsPending(s, c, d);
      }
    }
  }

  /** Only a client that has timed out holds a dead driver. */
  lemma DeadHandIsPending(s: State, c: Client, d: Driver)
    requires Owned(s) && c in s.clients && ClientHolds(s.clients[c], d) && d !in s.all
    ensures d in s.killed && c in Pending(s)
  {
    assert At(s, d, WithClient(c));
  }

  /** Each request is answered at most once, only after it was accepted, and the answer never blocks. */
  lemma OneAnswerPerRequest(s: State)
    requires Reachable(s)
    ensures forall q :: s.answered[q] <= 1
    ensures forall q | q in s.answered :: q in s.accepted
    ensures s.manager.Fail? ==> Manage(s, SendError).Next?
  {
    hide Reachable, Owned, Bounded, WithinMax, Counted, Manage;
    ReachableInvariant(s);
    if s.manager.Fail? {
      ErrorNeverBlocks(s);
    }
  }

  /** A client waiting for its answer is being served, or has its answer, or has been cancelled. */
  lemma WaitingIsServed(s: State, c: Client, q: Request)
    requires Reachable(s) && c in s.clients && s.clients[c] == Wait(q)
    ensures q in s.accepted && q in s.owner && s.owner[q] == c
    ensures q in s.cancelled || q in s.errors || JobOf(s.manager) == Serving(q)
  {
    hide Reachable, Owned, Bounded, WithinMax, Counted, Announced, Drained;
    ReachableInvariant(s);
    assert ClientServed(DeskOf(s), c, s.clients[c]);
  }

  /** The manager cannot be stuck returning a driver, and does not lose it. */
  lemma ReturnProgresses(s: State)
    requires Reachable(s) && s.manager.Return?
    ensures s.manager.q in s.owner
    ensures var c := s.owner[s.manager.q];
            || Meet(s, Hand(c)).Next?
            || (Manage(s, SeeCancel).Next? && Manage(s, SeeCancel).s.manager == SetIdle(s.manager.d, ToLoop))
            || (ClientMove(s, c, CloseCancel).Next? && Manage(ClientMove(s, c, CloseCancel).s, SeeCancel).Next?)
  {
    hide Reachable, Owned, Bounded, WithinMax, Counted, Manage, Meet, ClientMove;
    ReachableInvariant(s);
    ReturnNeverStuck(s);
  }

  /** Until the pool drains, a target the manager has not read is announced or about to be read. */
  lemma NoTargetMissed(s: State)
    requires Reachable(s) && !Draining(s.manager) && s.target != s.seen
    ensures s.rescale || s.policy.Signal? || AboutToRead(s.manager)
  {
    hide Reachable, Owned, Bounded, WithinMax, Counted, Served;
    ReachableInvariant(s);
  }
}
