/** Signals and shutdown: no target change is missed, and what is left when the pool has drained. */
module PoolSignals {
  import opened PoolMachine
  import opened PoolOwnership
  import opened PoolCounters

  predicate Draining(m: Manager)
  {
    m.DrainPeek? || m.DrainRead? || m.DrainPut? || m.DrainReset? || m.Done?
    || (m.Kill? && (m.k.ToDrainPeek? || m.k.ToDrainRead?))
  }

  /** The manager is on its way to read the target. */
  predicate AboutToRead(m: Manager)
  {
    m.ScaleRead? || m.ScaleTarget? || m.WaitRead? || m.WaitTarget?
  }

  /** A target that differs from the one the manager last read is announced. */
  ghost predicate Announced(s: State)
  {
    s.target != s.seen ==> s.rescale || s.policy.Signal? || AboutToRead(s.manager) || Draining(s.manager)
  }

  /** Draining starts only after the stop, and once the pool counts no instance, at most `repeats` live on. */
  ghost predicate Drained(s: State)
  {
    && (Draining(s.manager) ==> s.stopped)
    && (s.manager.SetIdle? ==> !s.manager.k.ToDrainPeek? && !s.manager.k.ToDrainRead?)
    && (s.manager.DrainReset? || s.manager.Done? ==>
          |s.all| <= s.repeats + InHand(s.spawner))
  }

  lemma SignalsInit(config: Policy.Config)
    ensures Announced(Init(config)) && Drained(Init(config))
  {
  }

  lemma AnnouncedEnv(s: State, a: EnvStep)
    requires Announced(s) && Drained(s) && Env(s, a).Next?
    ensures Announced(Env(s, a).s) && Drained(Env(s, a).s)
  {
  }

  lemma AnnouncedPolicy(s: State, a: PolicyStep)
    requires Announced(s) && Drained(s) && RunPolicy(s, a).Next?
    ensures Announced(RunPolicy(s, a).s) && Drained(RunPolicy(s, a).s)
  {
    hide Policy.Scale;
  }

  lemma AnnouncedSpawner(s: State, a: SpawnStep)
    requires Announced(s) && Spawn(s, a).Next?
    ensures Announced(Spawn(s, a).s)
  {
  }

  lemma AnnouncedClient(s: State, c: Client, a: ClientStep)
    requires Announced(s) && ClientMove(s, c, a).Next?
    ensures Announced(ClientMove(s, c, a).s)
  {
  }

  lemma AnnouncedMeeting(s: State, a: Meeting)
    requires Announced(s) && Meet(s, a).Next?
    ensures Announced(Meet(s, a).s)
  {
  }

  lemma AnnouncedManager(s: State, a: ManagerStep)
    requires Announced(s) && Drained(s) && Manage(s, a).Next?
    ensures Announced(Manage(s, a).s)
  {
  }

  lemma DrainedSpawner(s: State, a: SpawnStep)
    requires Owned(s) && Drained(s) && Spawn(s, a).Next?
    ensures Drained(Spawn(s, a).s)
  {
    hide Owned;
    if s.spawner.Check? || s.spawner.Put? {
      HeldIsLive(s);
    }
  }

  lemma HeldIsLive(s: State)
    requires Owned(s) && (s.spawner.Check? || s.spawner.Put?)
    ensures s.spawner.d in s.all
  {
    assert At(s, s.spawner.d, WithSpawner);
  }

  lemma DrainedClient(s: State, c: Client, a: ClientStep)
    requires Drained(s) && ClientMove(s, c, a).Next?
    ensures Drained(ClientMove(s, c, a).s)
  {
  }

  lemma DrainedMeeting(s: State, a: Meeting)
    requires Drained(s) && Meet(s, a).Next?
    ensures Drained(Meet(s, a).s)
  {
  }

  lemma DrainedThink(s: State, a: ManagerStep)
    requires Drained(s) && Balanced(s)
    ensures Drained(s.(manager := Think(s, a)))
  {
  }

  lemma DrainedAct(s: State, a: ManagerStep)
    requires Drained(s) && Manage(s, a).Next? && !Thinks(a)
    ensures Drained(Manage(s, a).s)
  {
    hide Manage, InHand;
    ActDrains(s, a);
  }

  /** Only thinking starts or ends the draining, but for the last reset, which kills nothing. */
  lemma ActDrains(s: State, a: ManagerStep)
    requires Manage(s, a).Next? && !Thinks(a) && (s.manager.SetIdle? ==> !s.manager.k.ToDrainPeek? && !s.manager.k.ToDrainRead?)
    ensures var t := Manage(s, a).s;
            && t.stopped == s.stopped
            && (Draining(t.manager) ==> Draining(s.manager))
            && (t.manager.SetIdle? ==> !t.manager.k.ToDrainPeek? && !t.manager.k.ToDrainRead?)
            && !t.manager.DrainReset?
            && (t.manager.Done? ==> s.manager.DrainReset? && t.all == s.all && t.repeats == s.repeats && t.spawner == s.spawner)
  {
    hide Think;
  }

  lemma DrainedManager(s: State, a: ManagerStep)
    requires Drained(s) && Balanced(s) && Manage(s, a).Next?
    ensures Drained(Manage(s, a).s)
  {
    hide Think, Manage, Drained;
    if Thinks(a) {
      DrainedThink(s, a);
      ThinkOnly(s, a);
    } else {
      DrainedAct(s, a);
    }
  }
}
