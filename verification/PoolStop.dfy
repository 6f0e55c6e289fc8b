/**
 A stopped pool can always get to draining: from every reachable state there is a run in which the
 manager, helped at most by the client that it serves, leaves whatever it is doing.
 */
module PoolStop {
  import opened PoolMachine
  import opened PoolRequests
  import opened PoolSignals
  import opened PoolTheorems

  function Back(k: Cont): nat
  {
    match k
    case ToLoop => 1
    case ToDown(_, _) => 2
    case ToUp(_, _) => 2
    case ToUpRead(_) => 4
    case ToWait(_) => 8
    case ToDrainPeek => 0
    case ToDrainRead => 0
  }

  /** A bound for the steps of the manager until it drains. */
  function Distance(m: Manager): nat
  {
    match m
    case Loop => 1
    case SetIdle(_, k) => 1 + Back(k)
    case Kill(_, k) => 1 + Back(k)
    case ScaleRead => 4
    case ScaleTarget(_) => 3
    case DownPeek(_, _) => 4
    case UpRead(_) => 4
    case UpTarget(_, _) => 3
    case RescaleLater(_) => 9
    case WaitRead(_) => 8
    case WaitTarget(_, _) => 7
    case WaitRunning(_, _) => 6
    case WaitSpawning(_, _, _) => 5
    case WaitPeek(_, _) => 4
    case Return(_, _) => 3
    case _ => if Draining(m) then 0 else 2
  }

  /** The selects of waitOrScale, which do not listen to the stop. */
  predicate Serves(m: Manager)
  {
    m.ScaleUp? || m.ScaleUpWait? || m.ScaleDown? || m.Return?
  }

  /** The manager reads a counter, or sees that it is to stop. */
  lemma GoesOnThinking(s: State) returns (a: ManagerStep)
    requires s.stopped
    requires s.manager.Loop? || s.manager.ScaleRead? || s.manager.UpRead? || s.manager.WaitRead? || s.manager.WaitRunning?
             || s.manager.WaitSpawning? || s.manager.Down? || s.manager.Up? || s.manager.DownWait? || s.manager.UpWait?
    ensures Thinks(a) && Think(s, a) != s.manager && Distance(Think(s, a)) < Distance(s.manager)
  {
    match s.manager
    case Loop => a := GoDrain;
    case ScaleRead => a := ReadRunning;
    case UpRead(_) => a := ReadRunning;
    case WaitRead(_) => a := ReadRunning;
    case WaitRunning(_, _) => a := ReadRunning;
    case WaitSpawning(_, _, _) => a := ReadSpawning;
    case Down(i, n) => a := if i < n then SelectStop else LoopEnds;
    case Up(i, n) => a := if i < n then SelectStop else LoopEnds;
    case DownWait(_, _) => a := SelectStop;
    case UpWait(_, _) => a := SelectStop;
  }

  /** The manager does what it has decided. */
  lemma GoesOnActing(s: State) returns (a: ManagerStep)
    requires s.manager.SetIdle? || s.manager.Kill? || s.manager.ScaleTarget? || s.manager.UpTarget? || s.manager.WaitTarget?
             || s.manager.RescaleLater? || (s.manager.Fail? && s.manager.q !in s.errors)
    ensures Manage(s, a).Next? && (Draining(s.manager) || Distance(Manage(s, a).s.manager) < Distance(s.manager))
    ensures Manage(s, a).s.stopped == s.stopped
  {
    hide Think;
    match s.manager
    case SetIdle(_, _) => a := DoSetIdle;
    case Kill(_, _) => a := DoKill;
    case ScaleTarget(_) => a := ReadTarget;
    case UpTarget(_, _) => a := ReadTarget;
    case WaitTarget(_, _) => a := ReadTarget;
    case RescaleLater(_) => a := Requeue;
    case Fail(_) => a := SendError;
  }

  /** Everywhere but in the selects of waitOrScale the manager can go on alone. */
  lemma GoesOn(s: State) returns (a: ManagerStep)
    requires s.stopped && !Draining(s.manager) && !Serves(s.manager)
    requires s.manager.Fail? ==> s.manager.q !in s.errors
    ensures Manage(s, a).Next? && Distance(Manage(s, a).s.manager) < Distance(s.manager)
    ensures Manage(s, a).s.stopped
  {
    hide Think, Manage, Distance;
    if s.manager.DownPeek? || s.manager.WaitPeek? {
      a := Look(s);
    } else if s.manager.SetIdle? || s.manager.Kill? || s.manager.ScaleTarget? || s.manager.UpTarget? || s.manager.WaitTarget?
              || s.manager.RescaleLater? || s.manager.Fail? {
      a := GoesOnActing(s);
    } else {
      a := GoesOnThinking(s);
      ThinkOnly(s, a);
    }
  }

  lemma Look(s: State) returns (a: ManagerStep)
    requires s.manager.DownPeek? || s.manager.WaitPeek?
    ensures Manage(s, a).Next? && Distance(Manage(s, a).s.manager) < Distance(s.manager)
    ensures Manage(s, a).s.stopped == s.stopped
  {
    if s.idle == {} {
      a := PeekNone;
    } else {
      var d :| d in s.idle;
      a := Peek(d);
    }
  }

  /** The client of the request that is served sees the stop and closes its cancel channel. */
  lemma ClientCancels(s: State, q: Request) returns (steps: seq<Step>)
    requires Reachable(s) && s.stopped && JobOf(s.manager) == Serving(q)
    ensures Run(s, steps).Next?
    ensures var t := Run(s, steps).s; q in t.cancelled && t.manager == s.manager && t.stopped
  {
    hide Reachable;
    ReachableServed(s);
    assert Cancellable(DeskOf(s), q);
    if q in s.cancelled {
      steps := [];
    } else {
      var c := s.owner[q];
      if s.clients[c] == Wait(q) {
        var s1 := Become(s, c, Cancel(q, Nothing));
        assert Do(s, ByClient(c, SeeStop)) == Next(s1);
        steps := [ByClient(c, SeeStop), ByClient(c, CloseCancel)];
        Closes(s1, c, q);
        TwoSteps(s, ByClient(c, SeeStop), ByClient(c, CloseCancel));
      } else {
        steps := [ByClient(c, CloseCancel)];
        Closes(s, c, q);
        OneStep(s, ByClient(c, CloseCancel));
      }
    }
  }

  lemma ReachableServed(s: State)
    requires Reachable(s)
    ensures Served(DeskOf(s))
  {
    hide Reachable;
    ReachableInvariant(s);
  }

  lemma Closes(s: State, c: Client, q: Request)
    requires c in s.clients && s.clients[c] == Cancel(q, Nothing)
    ensures Do(s, ByClient(c, CloseCancel)) == Next(Become(s, c, Uncount(Nothing)).(cancelled := s.cancelled + {q}))
  {
  }

  lemma OneStep(s: State, a: Step)
    ensures Run(s, [a]) == Do(s, a)
  {
    hide Do;
    assert [a][1..] == [];
  }

  lemma TwoSteps(s: State, a: Step, b: Step)
    requires Do(s, a).Next?
    ensures Run(s, [a, b]) == Do(Do(s, a).s, b)
  {
    hide Do;
    assert [a, b][1..] == [b];
    OneStep(Do(s, a).s, b);
  }

  lemma {:induction false} RunsInTurn(s: State, first: seq<Step>, second: seq<Step>)
    requires Run(s, first).Next?
    ensures Run(s, first + second) == Run(Run(s, first).s, second)
    decreases |first|
  {
    hide Do;
    if first == [] {
      assert first + second == second;
    } else {
      assert (first + second)[1..] == first[1..] + second;
      RunsInTurn(Do(s, first[0]).s, first[1..], second);
    }
  }

  lemma ReachableRun(s: State, steps: seq<Step>)
    requires Reachable(s) && Run(s, steps).Next?
    ensures Reachable(Run(s, steps).s)
  {
    hide Run, Init;
    var config, before :| Run(Init(config), before) == Next(s);
    RunsInTurn(Init(config), before, steps);
    assert Run(Init(config), before + steps) == Next(Run(s, steps).s);
  }

  lemma LeavesCancelled(s: State)
    requires Serves(s.manager) && s.manager.q in s.cancelled
    ensures Manage(s, SeeCancel).Next? && Distance(Manage(s, SeeCancel).s.manager) < Distance(s.manager)
    ensures Manage(s, SeeCancel).s.stopped == s.stopped
  {
  }

  /** One move towards draining. */
  lemma Advance(s: State) returns (steps: seq<Step>)
    requires Reachable(s) && s.stopped && !Draining(s.manager)
    ensures Run(s, steps).Next?
    ensures var t := Run(s, steps).s; t.stopped && Distance(t.manager) < Distance(s.manager)
  {
    hide Reachable, Manage, Distance, Run;
    if Serves(s.manager) {
      var first := ClientCancels(s, s.manager.q);
      var s1 := Run(s, first).s;
      LeavesCancelled(s1);
      OneStep(s1, ByManager(SeeCancel));
      RunsInTurn(s, first, [ByManager(SeeCancel)]);
      steps := first + [ByManager(SeeCancel)];
    } else {
      if s.manager.Fail? {
        ReachableServed(s);
      }
      var a := GoesOn(s);
      OneStep(s, ByManager(a));
      steps := [ByManager(a)];
    }
  }

  /** From every reachable state of a stopped pool there is a run to draining. */
  lemma {:induction false} DrainIsInReach(s: State) returns (steps: seq<Step>)
    requires Reachable(s) && s.stopped
    ensures Run(s, steps).Next? && Draining(Run(s, steps).s.manager)
    decreases Distance(s.manager)
  {
    hide Reachable, Run, Distance;
    if Draining(s.manager) {
      steps := [];
      NoSteps(s);
    } else {
      var first := Advance(s);
      ReachableRun(s, first);
      var second := DrainIsInReach(Run(s, first).s);
      RunsInTurn(s, first, second);
      steps := first + second;
    }
  }

  lemma NoSteps(s: State)
    ensures Run(s, []) == Next(s)
  {
  }
}
