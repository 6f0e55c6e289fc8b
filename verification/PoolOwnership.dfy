/** Who holds a driver: every live driver is in exactly one place, in every interleaving. */
module PoolOwnership {
  import opened PoolMachine

  datatype Place = InIdle | WithManager | WithSpawner | WithClient(c: Client)

  predicate ManagerHolds(m: Manager, d: Driver)
  {
    (m.SetIdle? || m.Kill? || m.Return?) && m.d == d
  }

  predicate SpawnerHolds(w: Spawner, d: Driver)
  {
    (w.Check? || w.Put?) && w.d == d
  }

  predicate ClientHolds(pc: ClientState, d: Driver)
  {
    match pc
    case Cancel(_, got) => got == Just(d)
    case Uncount(got) => got == Just(d)
    case CheckGot(e) => e == d
    case Using(e) => e == d
    case CheckPut(e) => e == d
    case Putting(e) => e == d
    case _ => false
  }

  predicate At(s: State, d: Driver, l: Place)
  {
    match l
    case InIdle => d in s.idle
    case WithManager => ManagerHolds(s.manager, d)
    case WithSpawner => SpawnerHolds(s.spawner, d)
    case WithClient(c) => c in s.clients && ClientHolds(s.clients[c], d)
  }

  /** Only a client that has timed out, and is about to run its deferred putDriver, holds a dead driver. */
  predicate MayBeDead(s: State, l: Place)
  {
    l.WithClient? && l.c in s.clients && s.clients[l.c].CheckPut?
  }

  ghost predicate Owned(s: State)
  {
    && s.killed == s.registered - s.all
    && s.all <= s.registered
    && (forall d | d in s.all :: exists l :: At(s, d, l))
    && (forall d, l, k :: At(s, d, l) && At(s, d, k) ==> l == k)
    && (forall d, l :: At(s, d, l) ==> d in s.registered && (d in s.all || MayBeDead(s, l)))
  }

  /** A dead driver in somebody's hand stays in a hand that may hold it, unless `d` is meant. */
  ghost predicate DeadStay(s: State, t: State, d: Driver)
  {
    forall e, l :: e != d && At(s, e, l) && MayBeDead(s, l) ==> MayBeDead(t, l)
  }

  /** `d` moves from one place to another; nothing else moves. */
  ghost predicate Moved(s: State, t: State, d: Driver, from: Place, to: Place)
  {
    forall e, l :: At(t, e, l) <==> (e == d && l == to) || (At(s, e, l) && !(e == d && l == from))
  }

  lemma OwnedByMove(s: State, t: State, d: Driver, from: Place, to: Place)
    requires Owned(s) && At(s, d, from) && Moved(s, t, d, from, to) && DeadStay(s, t, d)
    requires t.all == s.all && t.registered == s.registered && t.killed == s.killed
    requires MayBeDead(s, from) ==> d !in s.killed || MayBeDead(t, to)
    ensures Owned(t)
  {
    forall e | e in t.all
      ensures exists l :: At(t, e, l)
    {
      var l :| At(s, e, l);
      assert At(t, e, if e == d then to else l);
    }
  }

  /** The spawner registers a driver that nobody had. */
  lemma OwnedByBirth(s: State, t: State, d: Driver)
    requires Owned(s) && d !in s.registered
    requires forall e, l :: At(t, e, l) <==> (e == d && l == WithSpawner) || At(s, e, l)
    requires t.all == s.all + {d} && t.registered == s.registered + {d} && t.killed == s.killed
    requires forall l :: MayBeDead(s, l) ==> MayBeDead(t, l)
    ensures Owned(t)
  {
    forall e | e in t.all
      ensures exists l :: At(t, e, l)
    {
      if e == d {
        assert At(t, d, WithSpawner);
      } else {
        var l :| At(s, e, l);
        assert At(t, e, l);
      }
    }
  }

  /** The holder kills the driver and drops it. */
  lemma OwnedByKill(s: State, t: State, d: Driver, from: Place)
    requires Owned(s) && At(s, d, from) && DeadStay(s, t, d)
    requires t.all == s.all - {d} && t.killed == s.killed + {d} && t.registered == s.registered
    requires forall e, l :: At(t, e, l) ==> At(s, e, l) && !(e == d && l == from)
    requires forall e, l :: e != d && At(s, e, l) ==> At(t, e, l)
    ensures Owned(t)
  {
    forall e | e in t.all
      ensures exists l :: At(t, e, l)
    {
      var l :| At(s, e, l);
      assert At(t, e, l);
    }
  }

  /** parseV1/parseV2 kill the driver and keep it in hand for the deferred putDriver. */
  lemma OwnedByTimeout(s: State, t: State, d: Driver, from: Place)
    requires Owned(s) && At(s, d, from) && DeadStay(s, t, d) && MayBeDead(t, from)
    requires t.all == s.all - {d} && t.killed == s.killed + {d} && t.registered == s.registered
    requires forall e, l :: At(t, e, l) ==> At(s, e, l)
    requires forall e, l :: e != d && At(s, e, l) ==> At(t, e, l)
    ensures Owned(t)
  {
    forall e | e in t.all
      ensures exists l :: At(t, e, l)
    {
      var l :| At(s, e, l);
      assert At(t, e, l);
    }
  }

  /** A step that moves no driver. */
  lemma OwnedByRest(s: State, t: State)
    requires Owned(s)
    requires t.all == s.all && t.registered == s.registered && t.killed == s.killed
    requires forall e, l :: At(s, e, l) <==> At(t, e, l)
    requires forall e, l :: At(s, e, l) && MayBeDead(s, l) ==> MayBeDead(t, l)
    ensures Owned(t)
  {
    forall e | e in t.all
      ensures exists l :: At(t, e, l)
    {
      var l :| At(s, e, l);
      assert At(t, e, l);
    }
  }

  lemma OwnedInit(config: Policy.Config)
    ensures Owned(Init(config))
  {
  }

  lemma OwnedEnv(s: State, a: EnvStep)
    requires Owned(s) && Env(s, a).Next?
    ensures Owned(Env(s, a).s)
  {
    OwnedByRest(s, Env(s, a).s);
  }

  lemma OwnedPolicy(s: State, a: PolicyStep)
    requires Owned(s) && RunPolicy(s, a).Next?
    ensures Owned(RunPolicy(s, a).s)
  {
    hide Policy.Scale;
    OwnedByRest(s, RunPolicy(s, a).s);
  }

  lemma OwnedSpawner(s: State, a: SpawnStep)
    requires Owned(s) && Spawn(s, a).Next?
    ensures Owned(Spawn(s, a).s)
  {
    hide Owned;
    var t := Spawn(s, a).s;
    match a
    case FactoryStarts(d) => OwnedByBirth(s, t, d);
    case StatusBad => OwnedByKill(s, t, s.spawner.d, WithSpawner);
    case PutAborted => OwnedByKill(s, t, s.spawner.d, WithSpawner);
    case _ => OwnedByRest(s, t);
  }

  ghost predicate MovesDriver(a: ClientStep)
  {
    a.PeekHit? || a.GotBad? || a.PutBad? || a.PutStopped? || a.Timeout? || a.PutGood?
  }

  lemma OwnedClientMoves(s: State, c: Client, a: ClientStep)
    requires Owned(s) && ClientMove(s, c, a).Next? && MovesDriver(a)
    ensures Owned(ClientMove(s, c, a).s)
  {
    hide Owned;
    var t := ClientMove(s, c, a).s;
    if a.PeekHit? {
      OwnedByMove(s, t, a.d, InIdle, WithClient(c));
    } else if a.Timeout? {
      OwnedByTimeout(s, t, s.clients[c].d, WithClient(c));
    } else if a.PutGood? {
      OwnedByMove(s, t, s.clients[c].d, WithClient(c), WithClient(c));
    } else {
      OwnedByKill(s, t, s.clients[c].d, WithClient(c));
    }
  }

  /** The other steps of a client leave every driver where it is. */
  lemma ClientRests(s: State, c: Client, a: ClientStep)
    requires ClientMove(s, c, a).Next? && !MovesDriver(a)
    ensures var t := ClientMove(s, c, a).s;
            && t.all == s.all && t.idle == s.idle && t.registered == s.registered && t.killed == s.killed
            && t.spawner == s.spawner && t.manager == s.manager
            && c in s.clients && c in t.clients && t.clients == s.clients[c := t.clients[c]]
            && (forall d :: ClientHolds(s.clients[c], d) <==> ClientHolds(t.clients[c], d))
            && !s.clients[c].CheckPut?
  {
  }

  lemma OwnedClient(s: State, c: Client, a: ClientStep)
    requires Owned(s) && ClientMove(s, c, a).Next?
    ensures Owned(ClientMove(s, c, a).s)
  {
    hide Owned, ClientMove;
    if MovesDriver(a) {
      OwnedClientMoves(s, c, a);
    } else {
      ClientRests(s, c, a);
      OwnedByRest(s, ClientMove(s, c, a).s);
    }
  }

  lemma OwnedPutByClient(s: State, c: Client)
    requires Owned(s) && Meet(s, PutByClient(c)).Next?
    ensures Owned(Meet(s, PutByClient(c)).s)
  {
    hide Owned;
    OwnedByMove(s, Meet(s, PutByClient(c)).s, s.clients[c].d, WithClient(c), WithManager);
  }

  lemma OwnedPutBySpawner(s: State)
    requires Owned(s) && Meet(s, PutBySpawner).Next?
    ensures Owned(Meet(s, PutBySpawner).s)
  {
    hide Owned;
    OwnedByMove(s, Meet(s, PutBySpawner).s, s.spawner.d, WithSpawner, WithManager);
  }

  lemma OwnedMeeting(s: State, a: Meeting)
    requires Owned(s) && Meet(s, a).Next?
    ensures Owned(Meet(s, a).s)
  {
    hide Owned;
    var t := Meet(s, a).s;
    match a
    case PutByClient(c) => OwnedPutByClient(s, c);
    case PutBySpawner => OwnedPutBySpawner(s);
    case Hand(c) => OwnedByMove(s, t, s.manager.d, WithManager, WithClient(c));
    case _ => OwnedByRest(s, t);
  }

  /** The manager steps that leave every driver where it is. */
  lemma ManagerRests(s: State, a: ManagerStep)
    requires Manage(s, a).Next? && !a.DoSetIdle? && !a.DoKill? && !a.Peek?
    ensures var t := Manage(s, a).s;
            && t.all == s.all && t.idle == s.idle && t.registered == s.registered && t.killed == s.killed
            && t.spawner == s.spawner && t.clients == s.clients
            && (t.manager.SetIdle? || t.manager.Return? || t.manager.Kill? ==>
                  ManagerHolds(s.manager, t.manager.d))
            && (s.manager.SetIdle? || s.manager.Return? || s.manager.Kill? ==>
                  ManagerHolds(t.manager, s.manager.d))
  {
  }

  lemma OwnedManagerMoves(s: State, a: ManagerStep)
    requires Owned(s) && Manage(s, a).Next? && (a.DoSetIdle? || a.DoKill? || a.Peek?)
    ensures Owned(Manage(s, a).s)
  {
    hide Owned;
    var t := Manage(s, a).s;
    match a
    case DoSetIdle => OwnedByMove(s, t, s.manager.d, WithManager, InIdle);
    case DoKill => OwnedByKill(s, t, s.manager.d, WithManager);
    case Peek(d) => OwnedByMove(s, t, d, InIdle, WithManager);
  }

  lemma OwnedManager(s: State, a: ManagerStep)
    requires Owned(s) && Manage(s, a).Next?
    ensures Owned(Manage(s, a).s)
  {
    hide Owned, Manage;
    if a.DoSetIdle? || a.DoKill? || a.Peek? {
      OwnedManagerMoves(s, a);
    } else {
      ManagerRests(s, a);
      OwnedByRest(s, Manage(s, a).s);
    }
  }
}
