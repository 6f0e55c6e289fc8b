/** The request protocol between clients and the manager: one answer at most, nobody stuck. */
module PoolRequests {
  import opened PoolMachine

  datatype Job = Free | Serving(q: Request)

  /** The request the manager is serving, if any. */
  function JobOf(m: Manager): Job
  {
    match m
    case RescaleLater(q) => Serving(q)
    case WaitRead(q) => Serving(q)
    case WaitTarget(q, _) => Serving(q)
    case WaitRunning(q, _) => Serving(q)
    case WaitSpawning(q, _, _) => Serving(q)
    case WaitPeek(q, _) => Serving(q)
    case ScaleUp(q) => Serving(q)
    case ScaleUpWait(q) => Serving(q)
    case ScaleDown(q, _) => Serving(q)
    case Return(q, _) => Serving(q)
    case Fail(q) => Serving(q)
    case Kill(_, k) => if k.ToWait? then Serving(k.q) else Free
    case SetIdle(_, k) => if k.ToWait? then Serving(k.q) else Free
    case _ => Free
  }

  /** The part of the state that the request protocol is about. */
  datatype Desk = Desk(
    clients: map<Client, ClientState>, cancelled: set<Request>, errors: set<Request>,
    owner: map<Request, Client>, accepted: set<Request>, answered: multiset<Request>, job: Job)

  function DeskOf(s: State): Desk
  {
    Desk(s.clients, s.cancelled, s.errors, s.owner, s.accepted, s.answered, JobOf(s.manager))
  }

  predicate Asks(pc: ClientState)
  {
    pc.Send? || pc.Wait? || pc.Cancel?
  }

  /** The client of `q` still listens, or is about to close its cancel channel, or has closed it. */
  predicate Cancellable(s: Desk, q: Request)
  {
    || q in s.cancelled
    || (q in s.owner && s.owner[q] in s.clients
        && (s.clients[s.owner[q]] == Wait(q) || s.clients[s.owner[q]] == Cancel(q, Nothing)))
  }

  /** What a client in the middle of a request can rely on. */
  predicate ClientServed(s: Desk, c: Client, pc: ClientState)
  {
    Asks(pc) ==>
      && pc.q in s.owner && s.owner[pc.q] == c
      && (pc.Send? ==> pc.q !in s.accepted)
      && (pc.Wait? ==> pc.q in s.accepted && (pc.q in s.cancelled || pc.q in s.errors || s.job == Serving(pc.q)))
  }

  ghost predicate Served(s: Desk)
  {
    && (forall c | c in s.clients :: ClientServed(s, c, s.clients[c]))
    && (forall q | q in s.accepted :: q in s.owner)
    // at most one answer, and only to an accepted request
    && (forall q :: s.answered[q] <= 1)
    && (forall q | q in s.answered :: q in s.accepted)
    && (forall q | q in s.errors :: q in s.answered)
    // the request being served is unanswered, and its client cannot be lost
    && (s.job.Serving? ==> s.job.q in s.accepted && s.job.q !in s.answered && Cancellable(s, s.job.q))
  }

  // ----- The moves of the protocol -----

  lemma ServedCancelled(s: Desk, q: Request)
    requires Served(s)
    ensures Served(s.(cancelled := s.cancelled + {q}))
  {
    var t := s.(cancelled := s.cancelled + {q});
    forall c | c in t.clients
      ensures ClientServed(t, c, t.clients[c])
    {
      assert ClientServed(s, c, s.clients[c]);
    }
  }

  /** A client outside of any request moves to another state outside of any request. */
  lemma ServedOutside(s: Desk, c: Client, pc: ClientState)
    requires Served(s) && !Asks(pc) && (c in s.clients ==> !Asks(s.clients[c]))
    ensures Served(s.(clients := s.clients[c := pc]))
  {
    var t := s.(clients := s.clients[c := pc]);
    forall e | e in t.clients
      ensures ClientServed(t, e, t.clients[e])
    {
      assert e != c ==> ClientServed(s, e, s.clients[e]);
    }
  }

  lemma ServedNewRequest(s: Desk, c: Client, q: Request)
    requires Served(s) && c in s.clients && !Asks(s.clients[c]) && q !in s.owner
    ensures Served(s.(clients := s.clients[c := Send(q)], owner := s.owner[q := c]))
  {
    var t := s.(clients := s.clients[c := Send(q)], owner := s.owner[q := c]);
    forall e | e in t.clients
      ensures ClientServed(t, e, t.clients[e])
    {
      assert e != c ==> ClientServed(s, e, s.clients[e]);
    }
  }

  /** A client leaves its select without a driver. */
  lemma ServedLeave(s: Desk, c: Client, q: Request)
    requires Served(s) && c in s.clients && (s.clients[c] == Send(q) || s.clients[c] == Wait(q))
    ensures Served(s.(clients := s.clients[c := Cancel(q, Nothing)]))
    ensures Served(s.(clients := s.clients[c := Cancel(q, Nothing)], errors := s.errors - {q}))
  {
    var t := s.(clients := s.clients[c := Cancel(q, Nothing)]);
    var u := t.(errors := s.errors - {q});
    assert ClientServed(s, c, s.clients[c]);
    forall e | e in t.clients
      ensures ClientServed(t, e, t.clients[e]) && ClientServed(u, e, u.clients[e])
    {
      assert e != c ==> ClientServed(s, e, s.clients[e]);
    }
  }

  lemma ServedClose(s: Desk, c: Client, q: Request, got: Maybe)
    requires Served(s) && c in s.clients && s.clients[c] == Cancel(q, got)
    ensures Served(s.(clients := s.clients[c := Uncount(got)], cancelled := s.cancelled + {q}))
  {
    var t := s.(clients := s.clients[c := Uncount(got)], cancelled := s.cancelled + {q});
    assert ClientServed(s, c, s.clients[c]);
    forall e | e in t.clients
      ensures ClientServed(t, e, t.clients[e])
    {
      assert e != c ==> ClientServed(s, e, s.clients[e]);
    }
  }

  lemma ServedAccept(s: Desk, c: Client, q: Request)
    requires Served(s) && c in s.clients && s.clients[c] == Send(q) && s.job.Free?
    ensures Served(s.(clients := s.clients[c := Wait(q)], accepted := s.accepted + {q}, job := Serving(q)))
  {
    var t := s.(clients := s.clients[c := Wait(q)], accepted := s.accepted + {q}, job := Serving(q));
    assert ClientServed(s, c, s.clients[c]);
    forall e | e in t.clients
      ensures ClientServed(t, e, t.clients[e])
    {
      assert e != c ==> ClientServed(s, e, s.clients[e]);
    }
  }

  /** The manager drops a cancelled request. */
  lemma ServedDrop(s: Desk)
    requires Served(s) && s.job.Serving? && s.job.q in s.cancelled
    ensures Served(s.(job := Free))
  {
    var t := s.(job := Free);
    forall e | e in t.clients
      ensures ClientServed(t, e, t.clients[e])
    {
      assert ClientServed(s, e, s.clients[e]);
    }
  }

  lemma ServedError(s: Desk, q: Request)
    requires Served(s) && s.job == Serving(q)
    ensures Served(s.(job := Free, errors := s.errors + {q}, answered := s.answered + multiset{q}))
  {
    var t := s.(job := Free, errors := s.errors + {q}, answered := s.answered + multiset{q});
    forall e | e in t.clients
      ensures ClientServed(t, e, t.clients[e])
    {
      assert ClientServed(s, e, s.clients[e]);
    }
  }

  lemma ServedHand(s: Desk, c: Client, q: Request, d: Driver)
    requires Served(s) && s.job == Serving(q) && c in s.clients && s.clients[c] == Wait(q)
    ensures Served(s.(clients := s.clients[c := Cancel(q, Just(d))], job := Free, answered := s.answered + multiset{q}))
  {
    var t := s.(clients := s.clients[c := Cancel(q, Just(d))], job := Free, answered := s.answered + multiset{q});
    assert ClientServed(s, c, s.clients[c]);
    forall e | e in t.clients
      ensures ClientServed(t, e, t.clients[e])
    {
      assert ClientServed(s, e, s.clients[e]);
    }
  }

  // ----- Steps -----

  lemma ServedInit(config: Policy.Config)
    ensures Served(DeskOf(Init(config)))
  {
  }

  lemma ServedEnv(s: State, a: EnvStep)
    requires Served(DeskOf(s)) && Env(s, a).Next?
    ensures Served(DeskOf(Env(s, a).s))
  {
    hide Served, JobOf;
    match a
    case Arrive(c) => ServedOutside(DeskOf(s), c, New);
    case StopPool =>
    case ContextDone(q) => ServedCancelled(DeskOf(s), q);
  }

  lemma ServedPolicy(s: State, a: PolicyStep)
    requires Served(DeskOf(s)) && RunPolicy(s, a).Next?
    ensures Served(DeskOf(RunPolicy(s, a).s))
  {
    hide Served, JobOf, Policy.Scale;
  }

  lemma ServedSpawner(s: State, a: SpawnStep)
    requires Served(DeskOf(s)) && Spawn(s, a).Next?
    ensures Served(DeskOf(Spawn(s, a).s))
  {
    hide Served, JobOf;
  }

  lemma ServedClient(s: State, c: Client, a: ClientStep)
    requires Served(DeskOf(s)) && ClientMove(s, c, a).Next?
    ensures Served(DeskOf(ClientMove(s, c, a).s))
  {
    hide Served, JobOf;
    var desk := DeskOf(s);
    var pc := s.clients[c];
    match a
    case CountRequest(q) => ServedNewRequest(desk, c, q);
    case GiveUp => ServedLeave(desk, c, pc.q);
    case SeeStop => ServedLeave(desk, c, pc.q);
    case TakeError => ServedLeave(desk, c, pc.q);
    case CloseCancel => ServedClose(desk, c, pc.q, pc.got);
    case _ => ServedOutside(desk, c, ClientMove(s, c, a).s.clients[c]);
  }

  lemma ServedMeeting(s: State, a: Meeting)
    requires Served(DeskOf(s)) && Meet(s, a).Next?
    ensures Served(DeskOf(Meet(s, a).s))
  {
    hide Served;
    var desk := DeskOf(s);
    match a
    case PutByClient(c) => ServedOutside(desk, c, Gone);
    case Get(c) => ServedAccept(desk, c, s.clients[c].q);
    case Hand(c) => ServedHand(desk, c, s.manager.q, s.manager.d);
    case _ =>
  }

  /** The manager's own steps change its request only by dropping or failing it. */
  lemma ThinkJob(s: State, a: ManagerStep)
    ensures var job := JobOf(Think(s, a));
            job == JobOf(s.manager) || (job == Free && JobOf(s.manager).Serving? && JobOf(s.manager).q in s.cancelled)
  {
  }

  lemma ActDesk(s: State, a: ManagerStep)
    requires Manage(s, a).Next? && !Thinks(a)
    ensures a.SendError? ==> s.manager.Fail?
    ensures DeskOf(Manage(s, a).s) ==
              if a.SendError? then DeskOf(s).(job := Free, errors := s.errors + {s.manager.q},
                                              answered := s.answered + multiset{s.manager.q})
              else DeskOf(s)
  {
    hide Think;
  }

  lemma ServedManager(s: State, a: ManagerStep)
    requires Served(DeskOf(s)) && Manage(s, a).Next?
    ensures Served(DeskOf(Manage(s, a).s))
  {
    hide Served, Manage, Think;
    if Thinks(a) {
      ThinkOnly(s, a);
      ThinkJob(s, a);
      if JobOf(Think(s, a)) != JobOf(s.manager) {
        ServedDrop(DeskOf(s));
      }
    } else {
      ActDesk(s, a);
      if a.SendError? {
        ServedError(DeskOf(s), s.manager.q);
      }
    }
  }

  // ----- What follows for the manager -----

  /** Sending an error never blocks: the one-slot channel of the request is empty. */
  lemma ErrorNeverBlocks(s: State)
    requires Served(DeskOf(s)) && s.manager.Fail?
    ensures Manage(s, SendError).Next?
  {
  }

  /**
   The manager is never stuck in returnDriver: the client takes the driver, or the request is
   cancelled and the driver goes back to the idle ones, or the client's own next step closes
   the cancel channel and the manager can then go on.
   */
  lemma ReturnNeverStuck(s: State)
    requires Served(DeskOf(s)) && s.manager.Return?
    ensures s.manager.q in s.owner
    ensures var c := s.owner[s.manager.q];
            || Meet(s, Hand(c)).Next?
            || (Manage(s, SeeCancel).Next? && Manage(s, SeeCancel).s.manager == SetIdle(s.manager.d, ToLoop))
            || (ClientMove(s, c, CloseCancel).Next? && Manage(ClientMove(s, c, CloseCancel).s, SeeCancel).Next?)
  {
  }
}
