/**
 The other side of PoolCourse: when scaling up is finished. It is shown exactly which steps leave
 the pool with fewer instances than its target and nobody to notice.
 */
module PoolSupply {
  import opened PoolMachine
  import opened PoolCounters
  import opened PoolBound
  import opened PoolSignals
  import opened PoolTheorems
  import opened PoolCourse

  /** The running instances and the one that the spawner is about to start or to start again. */
  function Total(s: State): int
  {
    s.running + Starting(s.spawner)
  }

  /** The manager is going to read the target. */
  predicate Looks(m: Manager)
  {
    || m.ScaleRead? || m.ScaleTarget? || m.RescaleLater? || m.UpRead? || m.UpTarget? || m.WaitRead? || m.WaitTarget?
    || ((m.SetIdle? || m.Kill?) && (m.k.ToUpRead? || m.k.ToWait?))
  }

  function Rest(i: nat, n: int): int
  {
    if i < n then n - i else 0
  }

  function PlanAfter(k: Cont): int
  {
    match k
    case ToUp(i, n) => Rest(i, n)
    case ToDown(i, n) => -Rest(i, n)
    case _ => 0
  }

  /** How many instances the manager will still ask for, or, if negative, kill, unless something comes in between. */
  function Plan(m: Manager): int
  {
    match m
    case Up(i, n) => Rest(i, n)
    case SetIdle(_, k) => PlanAfter(k)
    case Kill(_, k) => PlanAfter(k) - 1
    // the one that was asked for is in the total
    case UpWait(i, n) => Rest(i + 1, n)
    case Down(i, n) => -Rest(i, n)
    case DownPeek(i, n) => -1 - Rest(i + 1, n)
    case DownWait(i, n) => -1 - Rest(i + 1, n)
    case WaitRunning(_, dn) => if dn > 0 then 1 else 0
    case WaitSpawning(_, dn, _) => if dn > 0 then 1 else 0
    case WaitPeek(_, dn) => if dn > 0 then 1 else 0
    case ScaleUp(_) => 1
    case _ => 0
  }

  /** The target is reached when the manager has done what it is about to do, or somebody will look again. */
  predicate Supplied(s: State)
  {
    Reminded(s) || Looks(s.manager) || Total(s) + Plan(s.manager) >= s.target
  }

  /**
   The steps that leave the pool below its target and nobody to notice:
   - a kill by a client, or the spawner giving up, that nobody makes up for;
   - a target read too late after the counter (`Total(s) < r`), for one request although more than
     one instance is missing, or for a loop that has started some instances already;
   - a request for which one more instance was to be started, that goes away or is served otherwise.
   */
  predicate Starves(s: State, a: Step)
  {
    && !Reminded(s)
    && match a
       case ByClient(_, x) => Kills(x) && !Looks(s.manager) && Total(s) - 1 + Plan(s.manager) < s.target
       case BySpawner(x) => x.BackoffStop? && !Looks(s.manager) && Total(s) - 1 + Plan(s.manager) < s.target
       case ByManager(x) =>
         (match s.manager
          case ScaleTarget(r) => x.ReadTarget? && Total(s) < r
          case WaitTarget(_, r) => x.ReadTarget? && Total(s) + (if r < s.target then 1 else 0) < s.target
          case UpTarget(i, r) => x.ReadTarget? && Total(s) + Rest(i, s.target - r) < s.target
          case WaitPeek(_, _) => x.Peek? && Total(s) < s.target
          case ScaleUp(_) => x.SeeCancel? && Total(s) < s.target
          case _ => false)
       case ByTwo(x) =>
         (x.PutByClient? || x.PutBySpawner? || x.SpawnError?) && s.manager.ScaleUp? && Total(s) < s.target
       case _ => false
  }

  // ----- Every step -----

  lemma ClientSupplied(s: State, c: Client, a: ClientStep)
    requires Supplied(s) && ClientMove(s, c, a).Next?
    ensures Supplied(ClientMove(s, c, a).s) <==> !Starves(s, ByClient(c, a))
  {
    hide Plan, Looks;
    ClientLeaves(s, c, a);
    ClientLowers(s, c, a);
  }

  lemma ClientLowers(s: State, c: Client, a: ClientStep)
    requires ClientMove(s, c, a).Next?
    ensures var t := ClientMove(s, c, a).s;
            && t.running == s.running - (if Kills(a) then 1 else 0)
            && t.spawner == s.spawner && t.manager == s.manager && t.target == s.target
  {
    hide ClientThink;
  }

  lemma EnvSupplied(s: State, a: EnvStep)
    requires Supplied(s) && Env(s, a).Next?
    ensures Supplied(Env(s, a).s) && !Starves(s, ByEnv(a))
  {
    hide Plan, Looks;
  }

  lemma SpawnerSupplied(s: State, a: SpawnStep)
    requires Supplied(s) && Spawn(s, a).Next?
    ensures Supplied(Spawn(s, a).s) <==> !Starves(s, BySpawner(a))
  {
    hide Plan, Looks;
  }

  lemma PolicySupplied(s: State, a: PolicyStep)
    requires Supplied(s) && RunPolicy(s, a).Next?
    ensures Supplied(RunPolicy(s, a).s) && !Starves(s, ByPolicy(a))
  {
    hide Plan, Looks, Policy.Scale;
  }

  lemma MeetingTotal(s: State, a: Meeting)
    requires Meet(s, a).Next?
    ensures Total(Meet(s, a).s) == Total(s) + (if a.RequestSpawn? then 1 else 0)
  {
  }

  /** The manager looks at the target next, or its plans change by `delta`. */
  predicate Replans(m: Manager, n: Manager, delta: int)
  {
    !Looks(m) && (Looks(n) || Plan(n) == Plan(m) + delta) && (m.ScaleUp? ==> !Looks(n))
  }

  lemma PutReplans(m: Manager, d: Driver)
    requires OnPut(m, d) != m && !m.DrainPut?
    ensures Replans(m, OnPut(m, d), if m.ScaleUp? then -1 else 0)
  {
  }

  lemma GetReplans(m: Manager, q: Request)
    requires OnGet(m, q) != m
    ensures Replans(m, OnGet(m, q), 0) && !m.ScaleUp?
  {
  }

  lemma SpawnReplans(m: Manager)
    ensures OnSpawn(m) != m ==> Replans(m, OnSpawn(m), -1)
    ensures OnSpawnError(m) != m ==> Replans(m, OnSpawnError(m), if m.ScaleUp? then -1 else 0)
  {
  }

  /** How a meeting changes the plans of the manager. */
  lemma MeetingPlan(s: State, a: Meeting)
    requires Meet(s, a).Next? && !s.manager.DrainPut?
    ensures Replans(s.manager, MetBy(s, a), if s.manager.ScaleUp? || a.RequestSpawn? then -1 else 0)
    ensures s.manager.ScaleUp? ==> !a.Get? && !a.Hand?
  {
    hide OnPut, OnGet, OnSpawn, OnSpawnError;
    match a
    case PutByClient(c) => PutReplans(s.manager, s.clients[c].d);
    case PutBySpawner => PutReplans(s.manager, s.spawner.d);
    case Get(c) => GetReplans(s.manager, s.clients[c].q);
    case RequestSpawn => SpawnReplans(s.manager);
    case SpawnError => SpawnReplans(s.manager);
    case Hand(_) =>
  }

  lemma MeetingSupplied(s: State, a: Meeting)
    requires Supplied(s) && Drained(s) && Meet(s, a).Next?
    ensures Supplied(Meet(s, a).s) <==> !Starves(s, ByTwo(a))
  {
    MeetingLeaves(s, a);
    MeetingTotal(s, a);
    if s.manager.DrainPut? {
      assert Reminded(s);
    } else {
      MeetingPlan(s, a);
      assert s.manager.ScaleUp? ==> Plan(s.manager) == 1;
    }
    hide Meet, Total, Plan, Looks;
  }

  lemma ThinkSupplied(s: State, a: ManagerStep)
    requires Supplied(s) && Drained(s) && Thinks(a) && Think(s, a) != s.manager
    ensures Supplied(s.(manager := Think(s, a))) <==> !Starves(s, ByManager(a))
  {
  }

  lemma ReadSupplied(s: State)
    requires Supplied(s) && Manage(s, ReadTarget).Next?
    ensures Supplied(Manage(s, ReadTarget).s) <==> !Starves(s, ByManager(ReadTarget))
  {
    hide Think;
  }

  lemma ActSupplied(s: State, a: ManagerStep)
    requires Supplied(s) && Drained(s) && Manage(s, a).Next? && !Thinks(a) && !a.ReadTarget?
    ensures Supplied(Manage(s, a).s) <==> !Starves(s, ByManager(a))
  {
    hide Think, AfterTarget;
  }

  /** A step from a supplied pool leaves it supplied exactly if it is not one of the starving steps. */
  lemma StepKeepsSupply(s: State, a: Step)
    requires Invariant(s) && Supplied(s) && Do(s, a).Next?
    ensures Supplied(Do(s, a).s) <==> !Starves(s, a)
  {
    hide Env, RunPolicy, Spawn, ClientMove, Meet, Manage, Think, Supplied, Starves, Drained;
    match a
    case ByEnv(e) => EnvSupplied(s, e);
    case BySpawner(w) => SpawnerSupplied(s, w);
    case ByPolicy(p) => PolicySupplied(s, p);
    case ByClient(c, x) => ClientSupplied(s, c, x);
    case ByTwo(t) => MeetingSupplied(s, t);
    case ByManager(m) =>
      if Thinks(m) {
        ThinkOnly(s, m);
        ThinkSupplied(s, m);
      } else if m.ReadTarget? {
        ReadSupplied(s);
      } else {
        ActSupplied(s, m);
      }
  }

  // ----- Every run -----

  predicate AlwaysSupplied(s: State, steps: seq<Step>)
    requires Run(s, steps).Next?
    decreases |steps|
  {
    Supplied(s) && (steps == [] || AlwaysSupplied(Do(s, steps[0]).s, steps[1..]))
  }

  predicate NeverStarves(s: State, steps: seq<Step>)
    requires Run(s, steps).Next?
    decreases |steps|
  {
    steps == [] || (!Starves(s, steps[0]) && NeverStarves(Do(s, steps[0]).s, steps[1..]))
  }

  lemma {:induction false} RunKeepsSupply(s: State, steps: seq<Step>)
    requires Invariant(s) && Supplied(s) && Run(s, steps).Next?
    ensures AlwaysSupplied(s, steps) <==> NeverStarves(s, steps)
    ensures NeverStarves(s, steps) ==> Supplied(Run(s, steps).s)
    decreases |steps|
  {
    hide Invariant, Supplied, Starves, Do;
    if steps == [] {
    } else {
      InvariantStep(s, steps[0]);
      StepKeepsSupply(s, steps[0]);
      var t := Do(s, steps[0]).s;
      if Supplied(t) {
        RunKeepsSupply(t, steps[1..]);
      } else {
        assert !AlwaysSupplied(t, steps[1..]);
      }
    }
  }

  /**
   From a pool that has what its target asks for, after a run without losing and without
   starving steps, the manager is back in its loop with no signal under way, and nothing being
   started, only with exactly as many instances as the target says.
   */
  lemma TargetReached(config: Policy.Config, before: seq<Step>, after: seq<Step>)
    requires Run(Init(config), before).Next? && NeverLoses(Init(config), before)
    requires var s := Run(Init(config), before).s;
             Supplied(s) && Run(s, after).Next? && NeverLoses(s, after) && NeverStarves(s, after)
    ensures var t := Run(Run(Init(config), before).s, after).s;
            t.manager.Loop? && !Reminded(t) && (t.spawner.Ready? || t.spawner.End?) ==> t.running == t.target
  {
    hide Invariant, Attentive, Run, NeverLoses, NeverStarves, AlwaysOnCourse, AlwaysSupplied;
    InvariantInit(config);
    StartOnCourse(config);
    RunKeepsCourse(Init(config), before);
    InvariantRun(Init(config), before);
    var s := Run(Init(config), before).s;
    RunKeepsCourse(s, after);
    RunKeepsSupply(s, after);
  }

  /** Start sets the target to 1 and sends no signal: the first instance is started for its own request. */
  lemma StartsUnsupplied(config: Policy.Config)
    ensures !Supplied(Init(config))
  {
  }

  // ----- How short a loop that scales up ends -----

  /** The manager is in its loop that scales up, and is not about to read the target again. */
  predicate Climbing(m: Manager)
  {
    m.Up? || m.UpWait? || (m.SetIdle? && m.k.ToUp?)
  }

  /** Nobody kills, the spawner does not give up and the target stays. */
  predicate Steady(a: Step)
  {
    match a
    case ByClient(_, x) => !Kills(x)
    case BySpawner(x) => !x.BackoffStop?
    case ByPolicy(x) => !x.SetTarget?
    case _ => true
  }

  /** What will be missing when the loop ends. */
  function Short(s: State): int
  {
    s.target - Total(s) - Plan(s.manager)
  }

  lemma ShortKeptAlone(s: State, a: ManagerStep)
    requires Climbing(s.manager) && Manage(s, a).Next? && Climbing(Manage(s, a).s.manager)
    ensures Short(Manage(s, a).s) == Short(s)
  {
    if Thinks(a) {
      ThinkOnly(s, a);
    }
  }

  lemma ShortKeptSpawner(s: State, a: SpawnStep)
    requires Spawn(s, a).Next? && !a.BackoffStop?
    ensures Short(Spawn(s, a).s) == Short(s)
  {
    hide Plan;
  }

  lemma ShortKeptMeeting(s: State, a: Meeting)
    requires Climbing(s.manager) && Meet(s, a).Next? && Climbing(Meet(s, a).s.manager)
    ensures Short(Meet(s, a).s) == Short(s)
  {
    MeetingLeaves(s, a);
    MeetingTotal(s, a);
    MeetingPlan(s, a);
    hide Meet, Total, Plan;
  }

  /** Client puts, late deliveries, failed spawns and retries do not change it. */
  lemma ShortKept(s: State, a: Step)
    requires Climbing(s.manager) && Steady(a) && Do(s, a).Next? && Climbing(Do(s, a).s.manager)
    ensures Short(Do(s, a).s) == Short(s)
  {
    hide Plan, Spawn, ClientMove, Meet, Manage, Policy.Scale;
    match a
    case ByClient(c, x) => ClientLowers(s, c, x);
    case ByTwo(x) => ShortKeptMeeting(s, x);
    case BySpawner(x) => ShortKeptSpawner(s, x);
    case ByManager(x) => ShortKeptAlone(s, x);
    case _ =>
  }

  /** A run that stays in the loop. */
  predicate Climbs(s: State, steps: seq<Step>)
    decreases |steps|
  {
    && Climbing(s.manager)
    && (steps == [] || (Steady(steps[0]) && Do(s, steps[0]).Next? && Climbs(Do(s, steps[0]).s, steps[1..])))
  }

  lemma {:induction false} ShortThroughout(s: State, steps: seq<Step>)
    requires Climbs(s, steps)
    ensures Run(s, steps).Next? && Short(Run(s, steps).s) == Short(s)
    decreases |steps|
  {
    hide Do, Short, Climbing, Steady;
    if steps == [] {
    } else {
      ShortKept(s, steps[0]);
      ShortThroughout(Do(s, steps[0]).s, steps[1..]);
    }
  }

  /**
   A manager that has started `i` instances reads the target again because one was put back, and
   goes on to the end of its loop. Then min(target - running, i) instances are missing: the loop
   ends short exactly if it had started any, and any was missing, when it read again.
   */
  lemma ScaleUpEndsShortIff(s: State, steps: seq<Step>, t: State)
    requires s.manager.UpTarget?
    requires Climbs(ReadAgain(s), steps) && Run(ReadAgain(s), steps) == Next(t)
    requires t.manager.Up? && t.manager.i >= t.manager.n
    ensures Manage(s, ReadTarget) == Next(ReadAgain(s)) && Manage(t, LoopEnds) == Next(t.(manager := Loop))
    ensures t.target - Total(t) == s.target - Total(s) - Rest(s.manager.i, s.target - s.manager.r)
    ensures s.manager.r == Total(s) ==>
              && t.target - Total(t) == (if s.target - Total(s) < s.manager.i then s.target - Total(s) else s.manager.i)
              && (Total(t) < t.target <==> s.manager.i >= 1 && Total(s) < s.target)
  {
    hide Climbs, Run, Total;
    ShortThroughout(ReadAgain(s), steps);
    LoopMayEnd(t);
    TotalAlone(s, ReadAgain(s));
  }

  /** The state after the target was read for a loop that scales up. */
  function ReadAgain(s: State): State
    requires s.manager.UpTarget?
  {
    s.(seen := s.target, counted := s.manager.r, manager := Up(s.manager.i, s.target - s.manager.r))
  }

  lemma TotalAlone(s: State, t: State)
    requires t.running == s.running && t.spawner == s.spawner
    ensures Total(t) == Total(s)
  {
  }

  lemma LoopMayEnd(s: State)
    requires s.manager.Up?
    ensures Manage(s, LoopEnds) == if s.manager.i >= s.manager.n then Next(s.(manager := Loop)) else Stuck
  {
  }
}
