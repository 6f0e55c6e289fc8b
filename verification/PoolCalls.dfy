/**
 What a caller, an interrupted scaling and a stopped pool can rely on: how a call ends, that every
 decision of the manager follows from what it read, and that draining can always be reached.
 */
module PoolCalls {
  import opened PoolMachine
  import opened PoolRequests
  import opened PoolSignals
  import opened PoolCourse
  import opened PoolLeaks

  // ----- What the steps of the others leave alone -----

  /** The manager and what it has read, answered and announced; a signal may be added. */
  predicate ManagerUndisturbed(s: State, t: State)
  {
    && t.manager == s.manager && t.seen == s.seen && t.counted == s.counted && t.answered == s.answered
    && (s.rescale ==> t.rescale)
  }

  lemma EnvUndisturbed(s: State, a: EnvStep)
    requires Env(s, a).Next?
    ensures ManagerUndisturbed(s, Env(s, a).s)
    ensures forall c | c in s.clients :: c in Env(s, a).s.clients && Env(s, a).s.clients[c] == s.clients[c]
  {
  }

  lemma PolicyUndisturbed(s: State, a: PolicyStep)
    requires RunPolicy(s, a).Next?
    ensures ManagerUndisturbed(s, RunPolicy(s, a).s) && RunPolicy(s, a).s.clients == s.clients
  {
    hide Policy.Scale;
  }

  lemma SpawnerUndisturbed(s: State, a: SpawnStep)
    requires Spawn(s, a).Next?
    ensures ManagerUndisturbed(s, Spawn(s, a).s) && Spawn(s, a).s.clients == s.clients
  {
  }

  lemma ClientUndisturbed(s: State, c: Client, a: ClientStep)
    requires ClientMove(s, c, a).Next?
    ensures ManagerUndisturbed(s, ClientMove(s, c, a).s)
    ensures forall e | e in s.clients && e != c :: e in ClientMove(s, c, a).s.clients && ClientMove(s, c, a).s.clients[e] == s.clients[e]
  {
    hide ClientThink;
  }

  /** All steps but those of the manager, alone or with a partner. */
  lemma Undisturbed(s: State, a: Step)
    requires Do(s, a).Next? && !a.ByManager? && !a.ByTwo?
    ensures ManagerUndisturbed(s, Do(s, a).s)
    ensures forall c | c in s.clients && !(a.ByClient? && a.c == c) :: c in Do(s, a).s.clients && Do(s, a).s.clients[c] == s.clients[c]
  {
    hide Env, RunPolicy, Spawn, ClientMove, ManagerUndisturbed;
    match a
    case ByEnv(x) => EnvUndisturbed(s, x);
    case ByPolicy(x) => PolicyUndisturbed(s, x);
    case BySpawner(x) => SpawnerUndisturbed(s, x);
    case ByClient(c, x) => ClientUndisturbed(s, c, x);
  }

  // ----- How a call ends -----

  /** The call has neither got a driver to use nor given up. */
  predicate Pursuing(pc: ClientState)
  {
    match pc
    case Cancel(_, got) => got.Just?
    case Uncount(got) => got.Just?
    case _ => pc.New? || pc.Slow? || pc.Send? || pc.Wait? || pc.CheckGot?
  }

  /** The call has used its driver, or is over. */
  predicate Finishing(pc: ClientState)
  {
    pc.Using? || pc.CheckPut? || pc.Putting? || pc.Gone?
  }

  /** The call has given up and only tidies up behind itself. */
  predicate Leaving(pc: ClientState)
  {
    match pc
    case Cancel(_, got) => got.Nothing?
    case Uncount(got) => got.Nothing?
    case _ => pc.Gone?
  }

  /** A context that is done, a stopped pool, or an error that was sent. */
  predicate Excuse(a: ClientStep)
  {
    a.AlreadyDone? || a.GiveUp? || a.SeeStop? || a.TakeError?
  }

  lemma ExcuseHolds(s: State, c: Client, a: ClientStep)
    requires ClientMove(s, c, a).Next?
    ensures a.GiveUp? ==> (s.clients[c].Send? || s.clients[c].Wait?) && s.clients[c].q in s.cancelled
    ensures a.SeeStop? ==> s.stopped
    ensures a.TakeError? ==> (s.clients[c].Send? || s.clients[c].Wait?) && s.clients[c].q in s.errors
  {
  }

  /** The steps of others do not end a call. */
  lemma OtherStep(s: State, a: Step, c: Client)
    requires c in s.clients && Do(s, a).Next? && !(a.ByClient? && a.c == c)
    ensures c in Do(s, a).s.clients
    ensures Pursuing(s.clients[c]) ==> Pursuing(Do(s, a).s.clients[c])
    ensures Finishing(s.clients[c]) ==> Finishing(Do(s, a).s.clients[c])
    ensures Leaving(s.clients[c]) ==> Leaving(Do(s, a).s.clients[c])
  {
    hide Env, RunPolicy, Spawn, ClientMove, Meet, Manage, Pursuing, Finishing, Leaving;
    match a
    case ByManager(x) => ManagerLeavesPartners(s, x);
    case ByTwo(x) => MeetingPursues(s, x, c);
    case _ => Undisturbed(s, a);
  }

  lemma MeetingPursues(s: State, a: Meeting, c: Client)
    requires c in s.clients && Meet(s, a).Next?
    ensures c in Meet(s, a).s.clients
    ensures Pursuing(s.clients[c]) ==> Pursuing(Meet(s, a).s.clients[c])
    ensures Finishing(s.clients[c]) ==> Finishing(Meet(s, a).s.clients[c])
    ensures Leaving(s.clients[c]) ==> Leaving(Meet(s, a).s.clients[c])
  {
  }

  /** What the client's own step `a` may do to its program counter. */
  predicate Orderly(was: ClientState, a: ClientStep, now: ClientState)
  {
    && (Pursuing(was) && !Excuse(a) && !a.GotGood? ==> Pursuing(now))
    && (Finishing(was) ==> !a.GotGood? && Finishing(now))
    && (Leaving(was) ==> !a.GotGood? && Leaving(now))
    && (a.GotGood? ==> now.Using?)
    && (Excuse(a) ==> Leaving(now))
  }

  lemma OrderlyThink(s: State, pc: ClientState, a: ClientStep)
    requires ClientThinks(a) && ClientThink(s, pc, a) != pc
    ensures Orderly(pc, a, ClientThink(s, pc, a))
  {
  }

  lemma OrderlyMove(s: State, c: Client, a: ClientStep)
    requires ClientMove(s, c, a).Next? && !ClientThinks(a)
    ensures c in s.clients && c in ClientMove(s, c, a).s.clients && Orderly(s.clients[c], a, ClientMove(s, c, a).s.clients[c])
  {
    hide ClientThink;
  }

  lemma OwnStep(s: State, c: Client, a: ClientStep)
    requires ClientMove(s, c, a).Next?
    ensures c in s.clients && c in ClientMove(s, c, a).s.clients && Orderly(s.clients[c], a, ClientMove(s, c, a).s.clients[c])
  {
    hide ClientThink, Orderly;
    if ClientThinks(a) {
      assert c in s.clients;
      hide ClientMove;
      ClientThinkOnly(s, c, a);
      OrderlyThink(s, s.clients[c], a);
    } else {
      hide ClientMove;
      OrderlyMove(s, c, a);
    }
  }

  predicate Ends(c: Client, a: Step)
  {
    a.ByClient? && a.c == c && (Excuse(a.x) || a.x.GotGood?)
  }

  lemma {:induction false} StillPursuing(s: State, steps: seq<Step>, c: Client)
    requires c in s.clients && Pursuing(s.clients[c]) && Run(s, steps).Next?
    requires forall a | a in steps :: !Ends(c, a)
    ensures c in Run(s, steps).s.clients && Pursuing(Run(s, steps).s.clients[c])
    decreases |steps|
  {
    hide Do, Pursuing, Finishing;
    if steps == [] {
    } else {
      var a := steps[0];
      assert a in steps;
      if a.ByClient? && a.c == c {
        ByClientDo(s, a);
        OwnStep(s, c, a.x);
      } else {
        OtherStep(s, a, c);
      }
      StillPursuing(Do(s, a).s, steps[1..], c);
    }
  }

  lemma ByClientDo(s: State, a: Step)
    requires a.ByClient?
    ensures Do(s, a) == ClientMove(s, a.c, a.x)
  {
  }

  /**
   A call that is over without having used a driver had its context done, saw the pool stopped, or
   was sent an error; a stopped driver that it was given only makes it try again.
   */
  lemma CallEndsForAReason(s: State, steps: seq<Step>, c: Client)
    requires c in s.clients && s.clients[c].New? && Run(s, steps).Next?
    requires c in Run(s, steps).s.clients && Run(s, steps).s.clients[c].Gone?
    ensures exists a | a in steps :: Ends(c, a)
  {
    if forall a | a in steps :: !Ends(c, a) {
      StillPursuing(s, steps, c);
      assert false;
    }
  }

  /** A call uses one driver: after that it only puts it back. */
  lemma {:induction false} UsesOnce(s: State, steps: seq<Step>, c: Client)
    requires c in s.clients && Finishing(s.clients[c]) && Run(s, steps).Next?
    ensures c in Run(s, steps).s.clients && Finishing(Run(s, steps).s.clients[c])
    ensures forall a | a in steps :: !(a.ByClient? && a.c == c && a.x.GotGood?)
    decreases |steps|
  {
    hide Do, Pursuing, Finishing;
    if steps == [] {
    } else {
      var a := steps[0];
      if a.ByClient? && a.c == c {
        ByClientDo(s, a);
        OwnStep(s, c, a.x);
      } else {
        OtherStep(s, a, c);
      }
      UsesOnce(Do(s, a).s, steps[1..], c);
      assert steps == [a] + steps[1..];
    }
  }

  /** A call that has given up never gets a driver after all. */
  lemma {:induction false} GivingUpIsFinal(s: State, steps: seq<Step>, c: Client)
    requires c in s.clients && Leaving(s.clients[c]) && Run(s, steps).Next?
    ensures c in Run(s, steps).s.clients && Leaving(Run(s, steps).s.clients[c])
    ensures forall a | a in steps :: !(a.ByClient? && a.c == c && a.x.GotGood?)
    decreases |steps|
  {
    hide Do, Pursuing, Finishing, Leaving;
    if steps == [] {
    } else {
      var a := steps[0];
      if a.ByClient? && a.c == c {
        ByClientDo(s, a);
        OwnStep(s, c, a.x);
      } else {
        OtherStep(s, a, c);
      }
      GivingUpIsFinal(Do(s, a).s, steps[1..], c);
      assert steps == [a] + steps[1..];
    }
  }

  // ----- An interrupted scaling is resumed -----

  /** The manager is at a select of scale that listens to requests. */
  predicate Scaling(m: Manager)
  {
    (m.Up? && m.i < m.n) || (m.Down? && m.i < m.n) || m.DownWait?
  }

  predicate Owes(s: State)
  {
    s.manager.RescaleLater? || s.rescale
  }

  lemma OwesStep(s: State, a: Step)
    requires Owes(s) && Do(s, a).Next? && a != ByManager(TakeSignal)
    ensures Owes(Do(s, a).s)
  {
    hide Env, RunPolicy, Spawn, ClientMove, Meet, Manage;
    match a
    case ByManager(x) => OwesAlone(s, x);
    case ByTwo(x) => OwesMeeting(s, x);
    case _ => Undisturbed(s, a);
  }

  lemma OwesMeeting(s: State, a: Meeting)
    requires Owes(s) && Meet(s, a).Next?
    ensures Owes(Meet(s, a).s)
  {
  }

  lemma OwesAlone(s: State, a: ManagerStep)
    requires Owes(s) && Manage(s, a).Next? && !a.TakeSignal?
    ensures Owes(Manage(s, a).s)
  {
  }

  lemma {:induction false} OwesThroughout(s: State, steps: seq<Step>)
    requires Owes(s) && Run(s, steps).Next? && ByManager(TakeSignal) !in steps
    ensures Owes(Run(s, steps).s)
    decreases |steps|
  {
    hide Do, Owes;
    if steps == [] {
    } else {
      assert steps[0] in steps;
      OwesStep(s, steps[0]);
      OwesThroughout(Do(s, steps[0]).s, steps[1..]);
    }
  }

  /**
   A request that comes while the manager scales up or down interrupts it; until the manager takes
   the signal again it is pending, so it will look at the target once more.
   */
  lemma InterruptedScaleResumes(s: State, c: Client, steps: seq<Step>)
    requires Scaling(s.manager) && Meet(s, Get(c)).Next?
    requires Run(Meet(s, Get(c)).s, steps).Next? && ByManager(TakeSignal) !in steps
    ensures var t := Run(Meet(s, Get(c)).s, steps).s;
            (t.rescale || t.manager.RescaleLater?) && (t.manager.Loop? ==> Reminded(t) && Manage(t, TakeSignal).Next?)
  {
    hide Run;
    OwesThroughout(Meet(s, Get(c)).s, steps);
  }

  // ----- A failed spawn is reported -----

  lemma FailStays(s: State, a: Step, q: Request)
    requires s.manager == Fail(q) && Do(s, a).Next?
    ensures Do(s, a).s.manager == Fail(q) || (q in Do(s, a).s.answered && q in Do(s, a).s.errors)
  {
    hide Env, RunPolicy, Spawn, ClientMove, Meet;
    match a
    case ByManager(x) =>
    case ByTwo(x) => FailMeetsNobody(s, x, q);
    case _ => Undisturbed(s, a);
  }

  lemma FailMeetsNobody(s: State, a: Meeting, q: Request)
    requires s.manager == Fail(q)
    ensures Meet(s, a).Stuck?
  {
  }

  /** While it waits for an instance for a request, the manager passes a failed spawn on to that request. */
  lemma SpawnErrorIsPassedOn(s: State)
    requires Meet(s, SpawnError).Next? && JobOf(s.manager).Serving?
    ensures Meet(s, SpawnError).s.manager == Fail(JobOf(s.manager).q)
    ensures forall a | Do(Meet(s, SpawnError).s, a).Next? ::
              var t := Do(Meet(s, SpawnError).s, a).s;
              t.manager == Fail(JobOf(s.manager).q) || (JobOf(s.manager).q in t.answered && JobOf(s.manager).q in t.errors)
  {
    forall a | Do(Meet(s, SpawnError).s, a).Next?
      ensures var t := Do(Meet(s, SpawnError).s, a).s;
              t.manager == Fail(JobOf(s.manager).q) || (JobOf(s.manager).q in t.answered && JobOf(s.manager).q in t.errors)
    {
      FailStays(Meet(s, SpawnError).s, a, JobOf(s.manager).q);
    }
  }

  // ----- Decisions -----

  /** The manager only does what the difference of the target and of `running`, as it read them, tells it to. */
  ghost predicate Justified(s: State)
  {
    match s.manager
    case Down(i, n) => i <= n == s.counted - s.seen && n > 0
    case DownPeek(i, n) => i < n == s.counted - s.seen
    case DownWait(i, n) => i < n == s.counted - s.seen
    case Kill(_, ToDown(i, n)) => i <= n == s.counted - s.seen && n > 0
    case Kill(_, ToWait(_)) => s.counted > s.seen
    case Kill(_, k) => k.ToDrainPeek? || k.ToDrainRead?
    case Up(i, n) => n == s.seen - s.counted
    case UpWait(i, n) => i < n == s.seen - s.counted
    case SetIdle(_, ToUp(i, n)) => n == s.seen - s.counted
    case SetIdle(_, k) => k.ToLoop? || k.ToUpRead?
    case WaitRunning(_, dn) => dn == s.seen - s.counted
    case WaitSpawning(_, dn, _) => dn == s.seen - s.counted
    case WaitPeek(_, dn) => dn == s.seen - s.counted || (dn == 1 && s.seen == s.counted)
    case ScaleUp(_) => s.counted <= s.seen
    case ScaleUpWait(_) => s.counted <= s.seen
    case ScaleDown(_, exact) => if exact then s.counted == s.seen else s.counted > s.seen
    case _ => true
  }

  lemma JustifiedThink(s: State, a: ManagerStep)
    requires Justified(s) && Thinks(a)
    ensures Justified(s.(manager := Think(s, a)))
  {
  }

  lemma JustifiedAct(s: State, a: ManagerStep)
    requires Justified(s) && Manage(s, a).Next? && !Thinks(a)
    ensures Justified(Manage(s, a).s)
  {
    hide Think;
  }

  lemma JustifiedMeeting(s: State, a: Meeting)
    requires Justified(s) && Meet(s, a).Next?
    ensures Justified(Meet(s, a).s)
  {
  }

  lemma JustifiedStep(s: State, a: Step)
    requires Justified(s) && Do(s, a).Next?
    ensures Justified(Do(s, a).s)
  {
    hide Env, RunPolicy, Spawn, ClientMove, Meet, Manage, Think;
    match a
    case ByTwo(t) => JustifiedMeeting(s, t);
    case ByManager(m) =>
      if Thinks(m) {
        ThinkOnly(s, m);
        JustifiedThink(s, m);
      } else {
        JustifiedAct(s, m);
      }
    case _ => Undisturbed(s, a);
  }

  lemma {:induction false} JustifiedRun(s: State, steps: seq<Step>)
    requires Justified(s) && Run(s, steps).Next?
    ensures Justified(Run(s, steps).s)
    decreases |steps|
  {
    hide Justified, Do;
    if steps == [] {
    } else {
      JustifiedStep(s, steps[0]);
      JustifiedRun(Do(s, steps[0]).s, steps[1..]);
    }
  }

  lemma ReachableJustified(s: State)
    requires Reachable(s)
    ensures Justified(s)
  {
    hide Run;
    var config, steps :| Run(Init(config), steps) == Next(s);
    JustifiedRun(Init(config), steps);
  }

  /**
   Before the pool drains, the manager kills a driver only if it has counted more instances than
   the target, and asks for one only if it has not; a driver that is put while the count is exactly
   right is never killed.
   */
  lemma ScalingIsJustified(s: State)
    requires Reachable(s)
    ensures s.manager.Kill? && !Draining(s.manager) ==> s.counted > s.seen
    ensures Meet(s, RequestSpawn).Next? ==> s.counted <= s.seen
    ensures forall c | Meet(s, PutByClient(c)).Next? && Meet(s, PutByClient(c)).s.manager.Kill? && !Draining(s.manager) ::
              s.counted > s.seen
  {
    hide Reachable;
    ReachableJustified(s);
  }

  /** With nothing running and nothing being started, a request gets a new instance or an error, and does not wait. */
  lemma NobodyWaitsForNothing(s: State)
    requires s.manager.WaitSpawning? && s.manager.r + s.spawning == 0 && s.idle == {}
    ensures var q := s.manager.q;
            if s.manager.dn < 0 then Manage(s, ReadSpawning) == Next(s.(manager := Fail(q)))
            else exists dn :: Manage(s, ReadSpawning) == Next(s.(manager := WaitPeek(q, dn)))
                              && Manage(s.(manager := WaitPeek(q, dn)), PeekNone) == Next(s.(manager := ScaleUp(q)))
  {
    if s.manager.dn >= 0 {
      var dn := if s.manager.dn == 0 then 1 else s.manager.dn;
      assert Manage(s, ReadSpawning) == Next(s.(manager := WaitPeek(s.manager.q, dn)));
    }
  }

  // ----- Statuses are looked at before drivers change hands -----

  /**
   A client uses a driver only after it has found it running, puts it back only after it has
   found it running once more, and takes the slow path only when nothing idles; and the spawner
   hands over only what it has found running.
   */
  lemma ChecksComeFirst(s: State, a: Step, c: Client)
    requires Do(s, a).Next? && c in s.clients && c in Do(s, a).s.clients
    ensures var was, now := s.clients[c], Do(s, a).s.clients[c];
            && (now.Using? && !was.Using? ==> a == ByClient(c, GotGood) && was == CheckGot(now.d) && now.d !in s.killed)
            && (now.Putting? && !was.Putting? ==> a == ByClient(c, PutGood) && was == CheckPut(now.d) && now.d !in s.killed)
            && (now.Slow? && !was.Slow? ==> a == ByClient(c, PeekMiss) && s.idle == {})
    ensures Do(s, a).s.spawner.Put? && !s.spawner.Put? ==>
              a == BySpawner(StatusGood) && s.spawner == Check(Do(s, a).s.spawner.d) && s.spawner.d !in s.killed
  {
    hide Env, RunPolicy, Spawn, ClientMove, Meet, Manage, Think;
    match a
    case ByManager(x) => ManagerLeavesPartners(s, x);
    case ByTwo(x) => MeetingChecks(s, x, c);
    case ByClient(e, x) =>
      ClientChecks(s, e, x);
      Undisturbed(s, a);
    case ByEnv(x) =>
      Undisturbed(s, a);
      EnvLeavesSpawner(s, x);
    case ByPolicy(x) => PolicyLeavesSpawner(s, x);
    case BySpawner(x) => SpawnerChecks(s, x);
  }

  lemma ManagerLeavesPartners(s: State, a: ManagerStep)
    requires Manage(s, a).Next?
    ensures Manage(s, a).s.clients == s.clients && Manage(s, a).s.spawner == s.spawner
  {
    hide Think;
  }

  lemma EnvLeavesSpawner(s: State, a: EnvStep)
    requires Env(s, a).Next?
    ensures Env(s, a).s.spawner == s.spawner
  {
  }

  lemma PolicyLeavesSpawner(s: State, a: PolicyStep)
    requires RunPolicy(s, a).Next?
    ensures RunPolicy(s, a).s.spawner == s.spawner && RunPolicy(s, a).s.clients == s.clients
  {
    hide Policy.Scale;
  }

  lemma MeetingChecks(s: State, a: Meeting, c: Client)
    requires Meet(s, a).Next? && c in s.clients
    ensures var now := Meet(s, a).s.clients[c]; now == s.clients[c] || !(now.Using? || now.Putting? || now.Slow?)
    ensures Meet(s, a).s.spawner == s.spawner || !Meet(s, a).s.spawner.Put?
  {
  }

  lemma ClientChecks(s: State, c: Client, a: ClientStep)
    requires ClientMove(s, c, a).Next?
    ensures c in s.clients && c in ClientMove(s, c, a).s.clients && ClientMove(s, c, a).s.spawner == s.spawner
    ensures var was, now := s.clients[c], ClientMove(s, c, a).s.clients[c];
            && (now.Using? && !was.Using? ==> a.GotGood? && was == CheckGot(now.d) && now.d !in s.killed)
            && (now.Putting? && !was.Putting? ==> a.PutGood? && was == CheckPut(now.d) && now.d !in s.killed)
            && (now.Slow? && !was.Slow? ==> a.PeekMiss? && s.idle == {})
  {
  }

  lemma SpawnerChecks(s: State, a: SpawnStep)
    requires Spawn(s, a).Next?
    ensures Spawn(s, a).s.clients == s.clients
    ensures Spawn(s, a).s.spawner.Put? && !s.spawner.Put? ==>
              a.StatusGood? && s.spawner == Check(Spawn(s, a).s.spawner.d) && s.spawner.d !in s.killed
  {
  }

  // ----- Nobody is stuck on its own -----

  /** A client waits for others only in a select, and leaves it when it is cancelled, sent an error, or the pool stops. */
  lemma ClientGoesOn(s: State, c: Client) returns (a: ClientStep)
    requires c in s.clients && !s.clients[c].Gone?
    requires var pc := s.clients[c];
             pc.Send? || pc.Wait? || pc.Putting? ==> s.stopped || (!pc.Putting? && (pc.q in s.cancelled || pc.q in s.errors))
    ensures a.CountRequest? ==> a.q !in s.owner
    ensures ClientMove(s, c, a).Next?
  {
    var pc := s.clients[c];
    match pc
    case New =>
      if s.idle == {} {
        a := PeekMiss;
      } else {
        var d :| d in s.idle;
        a := PeekHit(d);
      }
    case Slow =>
      var q := FreshId(s.owner.Keys);
      a := CountRequest(q);
    case Send(q) => a := if s.stopped then SeeStop else if q in s.errors then TakeError else GiveUp;
    case Wait(q) => a := if s.stopped then SeeStop else if q in s.errors then TakeError else GiveUp;
    case Cancel(_, _) => a := CloseCancel;
    case Uncount(_) => a := UncountRequest;
    case CheckGot(_) => a := GotBad;
    case Using(_) => a := Finish;
    case CheckPut(_) => a := PutBad;
    case Putting(_) => a := PutStopped;
  }

  /** Each of the three ways out of the selects of getIdle is there. */
  lemma SelectsListen(s: State, c: Client)
    requires c in s.clients && (s.clients[c].Send? || s.clients[c].Wait?)
    ensures s.stopped ==> ClientMove(s, c, SeeStop).Next?
    ensures s.clients[c].q in s.cancelled ==> ClientMove(s, c, GiveUp).Next?
    ensures s.clients[c].q in s.errors ==> ClientMove(s, c, TakeError).Next?
  {
  }

  /** The spawner waits only for a request and for somebody to take its driver, and for neither once the pool stops. */
  lemma SpawnerGoesOn(s: State, d: Driver)
    requires d !in s.registered
    ensures s.spawner.Begin? ==> Spawn(s, CountSpawn).Next?
    ensures s.spawner.Factory? ==> Spawn(s, FactoryFails).Next? && Spawn(s, FactoryStarts(d)).Next?
    ensures s.spawner.Check? ==> Spawn(s, StatusBad).Next?
    ensures s.spawner.Backoff? ==> Spawn(s, BackoffRetry).Next? && Spawn(s, BackoffRetry).s.spawner.Factory?
    ensures s.spawner.End? ==> Spawn(s, SpawnEnds).Next? && Spawn(s, SpawnEnds).s.spawner.Ready?
    ensures s.stopped && s.spawner.Put? ==> Spawn(s, PutAborted).Next? && s.spawner.d !in Spawn(s, PutAborted).s.all
    ensures s.stopped && s.spawner.Ready? ==> Spawn(s, SpawnerExit).Next?
  {
  }

  /** The policy signals exactly the changes of the target. */
  lemma SignalMeansChange(s: State, a: PolicyStep)
    requires RunPolicy(s, a).Next?
    ensures RunPolicy(s, a).s.policy.Signal? && !s.policy.Signal? <==> RunPolicy(s, a).s.target != s.target
    ensures s.policy.Signal? ==> RunPolicy(s, a).s.rescale
  {
    hide Policy.Scale;
  }
}
