/** How many instances the pool may have: never more than the largest target, and so the maximum. */
module PoolBound {
  import opened PoolMachine
  import opened PoolCounters

  /** The spawner is inside spawnOne and has not yet handed its driver over. */
  function Busy(w: Spawner): int
  {
    if w.Ready? || w.End? || w.Exited? then 0 else 1
  }

  /** An instance is being started and is not registered yet. */
  function Starting(w: Spawner): int
  {
    if w.Begin? || w.Factory? || w.Backoff? then 1 else 0
  }

  /** The running instances that the spawner has let go of. Only the manager can increase it. */
  function Settled(s: State): int
  {
    s.running - InHand(s.spawner)
  }

  /**
   What the manager's stale reads still guarantee. `r` was read before the target, and `n - i`
   is what is left of a difference computed some time ago; in between, `settled` can only shrink.
   */
  ghost predicate Permits(m: Manager, settled: int, peak: int)
  {
    match m
    case ScaleTarget(r) => settled <= r
    case UpTarget(_, r) => settled <= r
    case WaitTarget(_, r) => settled <= r
    case WaitRunning(_, dn) => settled + dn <= peak
    case WaitSpawning(_, dn, r) => settled + dn <= peak && settled <= r
    case WaitPeek(_, dn) => dn > 0 ==> settled + 1 <= peak
    case ScaleUp(_) => settled + 1 <= peak
    case Up(i, n) => settled + n - i <= peak
    case UpWait(i, n) => settled + n - i <= peak
    case SetIdle(_, k) => k.ToUp? ==> settled + k.n - k.i <= peak
    case Kill(_, k) => !k.ToUp?
    case _ => true
  }

  ghost predicate Bounded(s: State)
  {
    && 1 <= s.peak && s.target <= s.peak
    && Settled(s) + Busy(s.spawner) <= s.peak
    && Permits(s.manager, Settled(s), s.peak)
  }

  lemma BoundedInit(config: Policy.Config)
    ensures Bounded(Init(config))
  {
  }

  lemma BoundedEnv(s: State, a: EnvStep)
    requires Bounded(s) && Env(s, a).Next?
    ensures Bounded(Env(s, a).s)
  {
  }

  lemma BoundedPolicy(s: State, a: PolicyStep)
    requires Bounded(s) && RunPolicy(s, a).Next?
    ensures Bounded(RunPolicy(s, a).s)
  {
    hide Policy.Scale;
  }

  lemma BoundedSpawner(s: State, a: SpawnStep)
    requires Bounded(s) && Spawn(s, a).Next?
    ensures Bounded(Spawn(s, a).s)
  {
  }

  /** Clients can only lower the number of instances. */
  lemma ClientShrinks(s: State, c: Client, a: ClientStep)
    requires ClientMove(s, c, a).Next?
    ensures var t := ClientMove(s, c, a).s;
            && t.running <= s.running && t.peak == s.peak && t.target == s.target
            && t.spawner == s.spawner && t.manager == s.manager
  {
  }

  lemma PermitsLess(m: Manager, more: int, less: int, peak: int)
    requires Permits(m, more, peak) && less <= more
    ensures Permits(m, less, peak)
  {
  }

  lemma BoundedClient(s: State, c: Client, a: ClientStep)
    requires Bounded(s) && ClientMove(s, c, a).Next?
    ensures Bounded(ClientMove(s, c, a).s)
  {
    hide ClientMove, Permits;
    ClientShrinks(s, c, a);
    PermitsLess(s.manager, Settled(s), Settled(ClientMove(s, c, a).s), s.peak);
  }

  lemma BoundedMeeting(s: State, a: Meeting)
    requires Bounded(s) && Meet(s, a).Next?
    ensures Bounded(Meet(s, a).s)
  {
  }

  lemma BoundedThink(s: State, a: ManagerStep)
    requires Bounded(s) && SpawnCounted(s)
    ensures Permits(Think(s, a), Settled(s), s.peak)
  {
  }

  lemma BoundedAct(s: State, a: ManagerStep)
    requires Bounded(s) && Manage(s, a).Next? && !Thinks(a)
    ensures Bounded(Manage(s, a).s)
  {
    hide Think;
  }

  lemma BoundedManager(s: State, a: ManagerStep)
    requires Bounded(s) && SpawnCounted(s) && Manage(s, a).Next?
    ensures Bounded(Manage(s, a).s)
  {
    hide Think, Manage, Permits;
    if Thinks(a) {
      BoundedThink(s, a);
      ThinkOnly(s, a);
    } else {
      BoundedAct(s, a);
    }
  }

  // ----- The policy's own limits -----

  /** Every target, past or about to be set, is within the configured maximum. */
  ghost predicate WithinMax(s: State)
  {
    s.config.Valid() ==>
      && Policy.InLimits(s.config, s.scaling)
      && s.peak <= s.config.max
      && (s.policy.Set? ==> s.config.Low() <= s.policy.t <= s.config.max)
  }

  lemma WithinMaxInit(config: Policy.Config)
    ensures WithinMax(Init(config))
  {
  }

  lemma WithinMaxPolicy(s: State, a: PolicyStep)
    requires WithinMax(s) && RunPolicy(s, a).Next?
    ensures WithinMax(RunPolicy(s, a).s)
  {
    hide Policy.Scale, Policy.InLimits;
    if a.Tick? && s.config.Valid() {
      Policy.ScaleInLimits(s.config, s.scaling, s.running, |s.idle|, s.requests);
    }
  }

  /** Nobody else sets targets. */
  ghost predicate SameTargets(s: State, t: State)
  {
    t.config == s.config && t.scaling == s.scaling && t.peak == s.peak && t.policy == s.policy
  }

  lemma SameTargetsClient(s: State, c: Client, a: ClientStep)
    requires ClientMove(s, c, a).Next?
    ensures SameTargets(s, ClientMove(s, c, a).s)
  {
  }

  lemma SameTargetsManager(s: State, a: ManagerStep)
    requires Manage(s, a).Next?
    ensures SameTargets(s, Manage(s, a).s)
  {
  }

  lemma SameTargetsMeeting(s: State, a: Meeting)
    requires Meet(s, a).Next?
    ensures SameTargets(s, Meet(s, a).s)
  {
  }

  lemma WithinMaxOthers(s: State, a: Step)
    requires WithinMax(s) && !a.ByPolicy? && Do(s, a).Next?
    ensures WithinMax(Do(s, a).s)
  {
    hide Policy.InLimits, ClientMove, Manage, Meet;
    match a
    case ByClient(c, x) => SameTargetsClient(s, c, x);
    case ByManager(x) => SameTargetsManager(s, x);
    case ByTwo(x) => SameTargetsMeeting(s, x);
    case _ =>
  }
}
