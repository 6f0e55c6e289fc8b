/**
 When scaling is finished. A target that the manager has read (PoolSignals) is not yet one it has
 acted on: here it is shown exactly which steps make the pool forget that it has too many instances.
 */
module PoolCourse {
  import opened PoolMachine
  import opened PoolOwnership
  import opened PoolCounters
  import opened PoolBound
  import opened PoolRequests
  import opened PoolSignals
  import opened PoolTheorems

  /** The manager will look at the target again, or the pool is stopping. */
  predicate Reminded(s: State)
  {
    s.stopped || s.rescale || s.policy.Signal?
  }

  /**
   What the manager is doing accounts for all but `target` of the `settled` instances: it will
   compare the two, or kill that many. `none` says that nothing idles.
   */
  ghost predicate Accounts(m: Manager, none: bool, settled: int, target: int)
  {
    match m
    case ScaleRead => true
    case ScaleTarget(_) => true
    case RescaleLater(_) => true
    case Down(i, n) => settled <= target + n - i
    case DownPeek(i, n) => settled <= target + n - i
    case DownWait(i, n) => settled <= target + n - i
    case Kill(_, ToDown(i, n)) => settled - 1 <= target + n - i
    case Kill(_, ToWait(_)) => none || settled - 1 <= target
    case Up(i, n) => settled <= target && settled + n - i <= target
    case UpWait(i, n) => i < n && settled + n - i <= target
    case SetIdle(_, ToUp(i, n)) => settled <= target && settled + n - i <= target
    case WaitRead(_) => none || settled <= target
    case WaitTarget(_, _) => none || settled <= target
    case WaitRunning(_, dn) => settled + dn <= target && (none || settled <= target)
    case WaitSpawning(_, dn, _) => settled + dn <= target && (none || settled <= target)
    case WaitPeek(_, dn) => settled + dn <= target && (none || settled <= target)
    case ScaleUp(_) => settled + 1 <= target
    case ScaleUpWait(_) => settled + 1 <= target
    case ScaleDown(_, exact) => exact ==> settled <= target
    case _ => settled <= target
  }

  ghost predicate OnCourse(s: State)
  {
    Reminded(s) || Accounts(s.manager, s.idle == {}, Settled(s), s.target)
  }

  /** Facts about single program counters. */
  ghost predicate Attentive(s: State)
  {
    && (s.stopped || s.target >= 1)
    && (s.policy.Set? ==> s.policy.t >= 1)
    && (s.manager.ScaleDown? || (s.manager.Kill? && s.manager.k.ToWait?) ==> s.idle == {})
    && (s.manager.SetIdle? ==> !s.manager.k.ToDown?)
  }

  /** The instances that the manager still has to kill when it receives one more driver from the spawner. */
  function Unfinished(m: Manager): int
  {
    if m.Down? || m.DownWait? then m.n - m.i else 0
  }

  /**
   The steps that leave the pool with more instances than its target and nobody to notice: a
   request that is cancelled, or is told of a failed spawn, while the manager serves it and
   scales down; and the late delivery of an instance that nobody waits for any more.
   */
  ghost predicate Loses(s: State, a: Step)
  {
    && !Reminded(s)
    && match a
       case ByManager(x) => x.SeeCancel? && s.manager.ScaleDown? && !s.manager.exact && Settled(s) > s.target
       case ByTwo(x) =>
         if x.SpawnError? then s.manager.ScaleDown? && !s.manager.exact && Settled(s) > s.target
         else
           && x.PutBySpawner?
           && (s.manager.Loop? || s.manager.Down? || s.manager.DownWait? || (s.manager.ScaleDown? && s.manager.exact))
           && Settled(s) + 1 > s.target + Unfinished(s.manager)
       case _ => false
  }

  // ----- Every step -----

  lemma AccountsLess(m: Manager, none: bool, none': bool, more: int, less: int, target: int)
    requires Accounts(m, none, more, target) && less <= more && (none ==> none')
    ensures Accounts(m, none', less, target)
  {
  }

  /** Clients touch neither signals nor targets, and do not make drivers idle. */
  lemma ClientLeaves(s: State, c: Client, a: ClientStep)
    requires ClientMove(s, c, a).Next?
    ensures var t := ClientMove(s, c, a).s;
            t.stopped == s.stopped && t.rescale == s.rescale && t.policy == s.policy && t.idle <= s.idle
  {
  }

  lemma ClientOnCourse(s: State, c: Client, a: ClientStep)
    requires Attentive(s) && OnCourse(s) && ClientMove(s, c, a).Next?
    ensures Attentive(ClientMove(s, c, a).s) && OnCourse(ClientMove(s, c, a).s)
  {
    hide ClientMove, Accounts;
    ClientLeaves(s, c, a);
    ClientShrinks(s, c, a);
    var t := ClientMove(s, c, a).s;
    if !Reminded(s) {
      AccountsLess(s.manager, s.idle == {}, t.idle == {}, Settled(s), Settled(t), s.target);
    }
  }

  lemma EnvOnCourse(s: State, a: EnvStep)
    requires Attentive(s) && OnCourse(s) && Env(s, a).Next?
    ensures Attentive(Env(s, a).s) && OnCourse(Env(s, a).s)
  {
    hide Accounts;
  }

  lemma SpawnerLeaves(s: State, a: SpawnStep)
    requires Spawn(s, a).Next?
    ensures var t := Spawn(s, a).s;
            && t.stopped == s.stopped && t.rescale == s.rescale && t.policy == s.policy && t.idle <= s.idle
            && t.manager == s.manager && t.target == s.target && Settled(t) == Settled(s)
  {
  }

  lemma SpawnerOnCourse(s: State, a: SpawnStep)
    requires Attentive(s) && OnCourse(s) && Spawn(s, a).Next?
    ensures Attentive(Spawn(s, a).s) && OnCourse(Spawn(s, a).s)
  {
    hide Spawn, Accounts;
    SpawnerLeaves(s, a);
    var t := Spawn(s, a).s;
    if !Reminded(s) {
      AccountsLess(s.manager, s.idle == {}, t.idle == {}, Settled(s), Settled(t), s.target);
    }
  }

  lemma PolicyOnCourse(s: State, a: PolicyStep)
    requires Attentive(s) && OnCourse(s) && RunPolicy(s, a).Next?
    ensures Attentive(RunPolicy(s, a).s) && OnCourse(RunPolicy(s, a).s)
  {
    hide Accounts, Policy.Scale;
  }

  /** What a meeting leaves alone; only the spawner's delivery adds to the settled instances. */
  lemma MeetingLeaves(s: State, a: Meeting)
    requires Meet(s, a).Next?
    ensures var t := Meet(s, a).s;
            && t.stopped == s.stopped && t.rescale == s.rescale && t.policy == s.policy && t.idle == s.idle
            && t.target == s.target && Settled(t) == Settled(s) + (if a.PutBySpawner? then 1 else 0)
            && t.manager == MetBy(s, a)
  {
  }

  function MetBy(s: State, a: Meeting): Manager
    requires Meet(s, a).Next?
  {
    match a
    case PutByClient(c) => OnPut(s.manager, s.clients[c].d)
    case PutBySpawner => OnPut(s.manager, s.spawner.d)
    case Get(c) => OnGet(s.manager, s.clients[c].q)
    case RequestSpawn => OnSpawn(s.manager)
    case SpawnError => OnSpawnError(s.manager)
    case Hand(_) => Loop
  }

  lemma MeetingOnCourse(s: State, a: Meeting)
    requires Attentive(s) && OnCourse(s) && Drained(s) && Meet(s, a).Next?
    ensures Attentive(Meet(s, a).s) && (OnCourse(Meet(s, a).s) <==> !Loses(s, ByTwo(a)))
  {
    MeetingLeaves(s, a);
    assert s.manager.Return? || !a.Hand?;
    hide Meet;
  }

  lemma ThinkOnCourse(s: State, a: ManagerStep)
    requires Attentive(s) && OnCourse(s) && Drained(s) && Bounded(s) && SpawnCounted(s) && Thinks(a) && Think(s, a) != s.manager
    ensures var t := s.(manager := Think(s, a));
            Attentive(t) && (OnCourse(t) <==> !Loses(s, ByManager(a)))
  {
  }

  lemma ActOnCourse(s: State, a: ManagerStep)
    requires Attentive(s) && OnCourse(s) && Drained(s) && Bounded(s) && Manage(s, a).Next? && !Thinks(a)
    ensures Attentive(Manage(s, a).s) && OnCourse(Manage(s, a).s)
  {
    hide Think;
  }

  /** A step from a pool on course leaves it on course exactly if it is not one of the losing steps. */
  lemma StepKeepsCourse(s: State, a: Step)
    requires Invariant(s) && Attentive(s) && OnCourse(s) && Do(s, a).Next?
    ensures Attentive(Do(s, a).s)
    ensures OnCourse(Do(s, a).s) <==> !Loses(s, a)
  {
    hide Accounts, Env, RunPolicy, Spawn, ClientMove, Meet, Manage, Think, Attentive, OnCourse;
    hide Owned, Bounded, WithinMax, Served, Announced, Drained, DeskOf, SpawnCounted;
    match a
    case ByEnv(e) => EnvOnCourse(s, e);
    case BySpawner(w) => SpawnerOnCourse(s, w);
    case ByPolicy(p) => PolicyOnCourse(s, p);
    case ByClient(c, x) => ClientOnCourse(s, c, x);
    case ByTwo(t) => MeetingOnCourse(s, t);
    case ByManager(m) =>
      if Thinks(m) {
        ThinkOnly(s, m);
        ThinkOnCourse(s, m);
      } else {
        ActOnCourse(s, m);
      }
  }

  // ----- Every run -----

  ghost predicate AlwaysOnCourse(s: State, steps: seq<Step>)
    requires Run(s, steps).Next?
    decreases |steps|
  {
    OnCourse(s) && (steps == [] || AlwaysOnCourse(Do(s, steps[0]).s, steps[1..]))
  }

  ghost predicate NeverLoses(s: State, steps: seq<Step>)
    requires Run(s, steps).Next?
    decreases |steps|
  {
    steps == [] || (!Loses(s, steps[0]) && NeverLoses(Do(s, steps[0]).s, steps[1..]))
  }

  lemma {:induction false} RunKeepsCourse(s: State, steps: seq<Step>)
    requires Invariant(s) && Attentive(s) && OnCourse(s) && Run(s, steps).Next?
    ensures AlwaysOnCourse(s, steps) <==> NeverLoses(s, steps)
    ensures NeverLoses(s, steps) ==> OnCourse(Run(s, steps).s) && Attentive(Run(s, steps).s)
    decreases |steps|
  {
    hide Invariant, Attentive, OnCourse, Loses, Do;
    if steps == [] {
    } else {
      InvariantStep(s, steps[0]);
      StepKeepsCourse(s, steps[0]);
      var t := Do(s, steps[0]).s;
      if OnCourse(t) {
        RunKeepsCourse(t, steps[1..]);
      } else {
        assert !AlwaysOnCourse(t, steps[1..]);
      }
    }
  }

  lemma StartOnCourse(config: Policy.Config)
    ensures Attentive(Init(config)) && OnCourse(Init(config))
  {
  }

  /**
   A pool stays on course through a whole run exactly if no step of it loses; and whenever the
   manager of such a pool is back in its loop with no signal under way, no more instances are left
   than the target allows, but for one that the spawner still has in its hand.
   */
  lemma ScalingFinishes(config: Policy.Config, steps: seq<Step>)
    requires Run(Init(config), steps).Next?
    ensures AlwaysOnCourse(Init(config), steps) <==> NeverLoses(Init(config), steps)
    ensures var s := Run(Init(config), steps).s;
            NeverLoses(Init(config), steps) && s.manager.Loop? && !Reminded(s) ==>
              s.running - InHand(s.spawner) <= s.target
  {
    hide Invariant, Attentive, Run, NeverLoses, AlwaysOnCourse;
    InvariantInit(config);
    StartOnCourse(config);
    RunKeepsCourse(Init(config), steps);
  }
}
