/**
 The driver pool (daemon/pool.go) as a state machine.

 The manager, the spawner, the policy goroutine and an unbounded set of clients each have
 a program counter. A step is one atomic action of one goroutine (an atomic load or store,
 one critical section of the drivers lock, one branch of a select) or one rendezvous on an
 unbuffered channel, which moves two goroutines at once. A run is any interleaving.

 A driver is an opaque identity. Its Status may be anything at any time, except that a
 driver on which killDriver has been called never reports Running again.
 */
module PoolMachine {
  import Policy

  type Driver = nat
  type Client = nat
  type Request = nat

  /** Where the manager goes after it has dealt with the driver in its hand. */
  datatype Cont =
    | ToLoop
    | ToDown(i: nat, n: int)
    | ToUp(i: nat, n: int)
    | ToUpRead(i: nat)
    | ToWait(q: Request)
    | ToDrainPeek
    | ToDrainRead

  datatype Manager =
    | Loop                                            // select of manageDrivers
    | SetIdle(d: Driver, k: Cont)
    | Kill(d: Driver, k: Cont)
    // scale
    | ScaleRead | ScaleTarget(r: int)                 // scaleDiff reads running, then targetSize
    | Down(i: nat, n: int) | DownPeek(i: nat, n: int) | DownWait(i: nat, n: int)
    | Up(i: nat, n: int) | UpWait(i: nat, n: int) | UpRead(i: nat) | UpTarget(i: nat, r: int)
    | RescaleLater(q: Request)
    // waitOrScale
    | WaitRead(q: Request) | WaitTarget(q: Request, r: int)
    | WaitRunning(q: Request, dn: int) | WaitSpawning(q: Request, dn: int, r: int)
    | WaitPeek(q: Request, dn: int)
    | ScaleUp(q: Request) | ScaleUpWait(q: Request)
    | ScaleDown(q: Request, exact: bool)
    | Return(q: Request, d: Driver)                   // returnDriver
    | Fail(q: Request)                                // req.err <- err
    // drain
    | DrainPeek | DrainRead | DrainPut | DrainReset | Done

  datatype Spawner =
    | Ready                                           // select of runSpawn
    | Begin | Factory | Check(d: Driver) | Put(d: Driver) | Backoff
    | End                                             // deferred spawning.Add(-1)
    | Exited

  /** The registered instance that the spawner has not yet handed over. */
  function InHand(w: Spawner): int
  {
    if w.Check? || w.Put? then 1 else 0
  }

  datatype PolicyLoop = Asleep | Set(t: int) | Signal | Finished

  datatype Maybe = Nothing | Just(d: Driver)

  datatype ClientState =
    | New                                             // getIdle: first select and peekIdle
    | Slow                                            // requests.Add(1)
    | Send(q: Request) | Wait(q: Request)             // the two selects of getIdle
    | Cancel(q: Request, got: Maybe)                  // deferred cancel()
    | Uncount(got: Maybe)                             // deferred requests.Add(-1)
    | CheckGot(d: Driver)                             // checkStatus in getDriver
    | Using(d: Driver)                                // the function passed to ExecuteCtx
    | CheckPut(d: Driver)                             // checkStatus in putDriver
    | Putting(d: Driver)                              // select of putDriver
    | Gone

  datatype State = State(
    config: Policy.Config,
    all: set<Driver>, idle: set<Driver>,
    running: int, spawning: int, exited: int, requests: int, target: int,
    stopped: bool,                                    // poolCtx is cancelled
    rescale: bool,                                    // the one-slot signal channel is full
    manager: Manager, spawner: Spawner, policy: PolicyLoop, clients: map<Client, ClientState>,
    cancelled: set<Request>,                          // closed cancel channels
    errors: set<Request>,                             // one-slot err channels that are full
    scaling: Policy.State,
    // history, never read by the pool
    registered: set<Driver>,                          // drivers ever put into `all`
    killed: set<Driver>,                              // drivers ever passed to killDriver
    repeats: nat,                                     // calls of killDriver on an already killed driver
    timeouts: nat,                                    // kills by parseV1/parseV2
    peak: int,                                        // largest target ever set
    seen: int,                                        // target last read by the manager
    counted: int,                                     // running as it read it just before
    owner: map<Request, Client>, accepted: set<Request>, answered: multiset<Request>)

  /** The pool just after Start has launched its goroutines. */
  function Init(config: Policy.Config): State
  {
    State(config, {}, {}, 0, 0, 0, 0, 1, false, false, Loop, Ready, Asleep, map[], {}, {}, Policy.FRESH,
          {}, {}, 0, 0, 1, 1, 0, map[], {}, multiset{})
  }

  datatype Result = Stuck | Next(s: State)

  // ----- Operations on the shared state -----

  /** killDriver */
  function KillDriver(s: State, d: Driver): State
  {
    s.(all := s.all - {d}, idle := s.idle - {d}, running := s.running - 1, exited := s.exited + 1,
       killed := s.killed + {d}, repeats := if d in s.killed then s.repeats + 1 else s.repeats)
  }

  function Become(s: State, c: Client, pc: ClientState): State
  {
    s.(clients := s.clients[c := pc])
  }

  // ----- Environment: new calls, Stop, cancelled contexts -----

  datatype EnvStep = Arrive(c: Client) | StopPool | ContextDone(q: Request)

  function Env(s: State, a: EnvStep): Result
  {
    match a
    case Arrive(c) => if c in s.clients then Stuck else Next(Become(s, c, New))
    case StopPool => Next(s.(stopped := true))
    case ContextDone(q) => if q !in s.owner then Stuck else Next(s.(cancelled := s.cancelled + {q}))
  }

  // ----- The policy goroutine -----

  datatype PolicyStep = Tick | SetTarget | SendSignal | PolicyStop

  /** The counters are read under the read lock, so one step reads a consistent triple. */
  function RunPolicy(s: State, a: PolicyStep): Result
  {
    match a
    case Tick =>
      if s.policy.Asleep? && s.config.loadWindow >= 1 && s.config.targetWindow >= 1 then
        var r := Policy.Scale(s.config, s.scaling, s.running, |s.idle|, s.requests);
        Next(s.(scaling := r.0, policy := Set(if r.1 < 1 then 1 else r.1)))
      else Stuck
    case SetTarget =>
      if s.policy.Set? then
        var t := s.policy.t;
        Next(s.(target := t, peak := if t > s.peak then t else s.peak,
                policy := if s.target != t then Signal else Asleep))
      else Stuck
    case SendSignal => if s.policy.Signal? then Next(s.(rescale := true, policy := Asleep)) else Stuck
    case PolicyStop => if s.policy.Asleep? && s.stopped then Next(s.(policy := Finished)) else Stuck
  }

  // ----- The spawner -----

  datatype SpawnStep =
    | SpawnerExit | CountSpawn | FactoryFails | FactoryStarts(d: Driver)
    | StatusGood | StatusBad | PutAborted | BackoffStop | BackoffRetry | SpawnEnds

  function Spawn(s: State, a: SpawnStep): Result
  {
    match a
    case SpawnerExit => if s.spawner.Ready? && s.stopped then Next(s.(spawner := Exited)) else Stuck
    case CountSpawn =>
      if s.spawner.Begin? then Next(s.(spawning := s.spawning + 1, spawner := Factory)) else Stuck
    case FactoryFails => if s.spawner.Factory? then Next(s.(spawner := Backoff)) else Stuck
    case FactoryStarts(d) =>
      if s.spawner.Factory? && d !in s.registered then
        Next(s.(all := s.all + {d}, registered := s.registered + {d}, running := s.running + 1,
                spawner := Check(d)))
      else Stuck
    case StatusGood =>
      if s.spawner.Check? && s.spawner.d !in s.killed then Next(s.(spawner := Put(s.spawner.d))) else Stuck
    case StatusBad =>
      if s.spawner.Check? then Next(KillDriver(s, s.spawner.d).(spawner := Backoff)) else Stuck
    case PutAborted =>
      if s.spawner.Put? && s.stopped then Next(KillDriver(s, s.spawner.d).(spawner := Backoff)) else Stuck
    // the pool is stopping, or the backoff gave up (it then calls Stop from another goroutine)
    case BackoffStop => if s.spawner.Backoff? then Next(s.(spawner := End)) else Stuck
    case BackoffRetry => if s.spawner.Backoff? then Next(s.(spawner := Factory)) else Stuck
    case SpawnEnds =>
      if s.spawner.End? then Next(s.(spawning := s.spawning - 1, spawner := Ready)) else Stuck
  }

  // ----- Clients -----

  datatype ClientStep =
    | AlreadyDone | PeekHit(d: Driver) | PeekMiss | CountRequest(q: Request)
    | GiveUp | SeeStop | TakeError | CloseCancel | UncountRequest
    | GotGood | GotBad | Finish | Timeout | PutGood | PutBad | PutStopped

  /** The steps of a client that change nothing but its program counter; itself when not possible. */
  function ClientThink(s: State, pc: ClientState, a: ClientStep): ClientState
  {
    match a
    case AlreadyDone => if pc.New? then Gone else pc
    case PeekMiss => if pc.New? && s.idle == {} then Slow else pc
    case GiveUp => if (pc.Send? || pc.Wait?) && pc.q in s.cancelled then Cancel(pc.q, Nothing) else pc
    case SeeStop => if (pc.Send? || pc.Wait?) && s.stopped then Cancel(pc.q, Nothing) else pc
    case GotGood => if pc.CheckGot? && pc.d !in s.killed then Using(pc.d) else pc
    case Finish => if pc.Using? then CheckPut(pc.d) else pc
    case PutGood => if pc.CheckPut? && pc.d !in s.killed then Putting(pc.d) else pc
    case _ => pc
  }

  function ClientMove(s: State, c: Client, a: ClientStep): Result
  {
    if c !in s.clients then Stuck else
    var pc := s.clients[c];
    match a
    case PeekHit(d) =>
      if pc.New? && d in s.idle then Next(Become(s, c, CheckGot(d)).(idle := s.idle - {d})) else Stuck
    case CountRequest(q) =>
      if pc.Slow? && q !in s.owner then
        Next(Become(s, c, Send(q)).(requests := s.requests + 1, owner := s.owner[q := c]))
      else Stuck
    case TakeError =>
      if (pc.Send? || pc.Wait?) && pc.q in s.errors then
        Next(Become(s, c, Cancel(pc.q, Nothing)).(errors := s.errors - {pc.q}))
      else Stuck
    case CloseCancel =>
      if pc.Cancel? then Next(Become(s, c, Uncount(pc.got)).(cancelled := s.cancelled + {pc.q})) else Stuck
    case UncountRequest =>
      if pc.Uncount? then
        Next(Become(s, c, if pc.got.Just? then CheckGot(pc.got.d) else Gone).(requests := s.requests - 1))
      else Stuck
    case GotBad => if pc.CheckGot? then Next(Become(KillDriver(s, pc.d), c, New)) else Stuck
    // parseV1/parseV2 kill the driver; the deferred putDriver still runs
    case Timeout =>
      if pc.Using? then Next(Become(KillDriver(s, pc.d), c, CheckPut(pc.d)).(timeouts := s.timeouts + 1)) else Stuck
    case PutBad => if pc.CheckPut? then Next(Become(KillDriver(s, pc.d), c, Gone)) else Stuck
    case PutStopped =>
      if pc.Putting? && s.stopped then Next(Become(KillDriver(s, pc.d), c, Gone)) else Stuck
    case _ =>
      if ClientThink(s, pc, a) != pc then Next(Become(s, c, ClientThink(s, pc, a))) else Stuck
  }

  /** The steps of a client that change nothing else. */
  predicate ClientThinks(a: ClientStep)
  {
    a.AlreadyDone? || a.PeekMiss? || a.GiveUp? || a.SeeStop? || a.GotGood? || a.Finish? || a.PutGood?
  }

  lemma ClientThinkOnly(s: State, c: Client, a: ClientStep)
    requires c in s.clients && ClientThinks(a)
    ensures var pc := s.clients[c];
            ClientMove(s, c, a) ==
              if ClientThink(s, pc, a) != pc then Next(Become(s, c, ClientThink(s, pc, a))) else Stuck
  {
    hide ClientThink;
  }

  // ----- Rendezvous -----

  /** The manager after a receive from `put`; itself when it is not receiving. */
  function OnPut(m: Manager, d: Driver): Manager
  {
    match m
    case Loop => SetIdle(d, ToLoop)
    case Down(i, n) => if i < n then Kill(d, ToDown(i + 1, n)) else m
    case DownWait(i, n) => Kill(d, ToDown(i + 1, n))
    case Up(i, n) => if i < n then SetIdle(d, ToUpRead(i)) else m
    case UpWait(i, n) => SetIdle(d, ToUp(i + 1, n))
    case ScaleUp(q) => Return(q, d)
    case ScaleUpWait(q) => Return(q, d)
    case ScaleDown(q, exact) => if exact then Return(q, d) else Kill(d, ToWait(q))
    case DrainPut => Kill(d, ToDrainRead)
    case _ => m
  }

  function OnGet(m: Manager, q: Request): Manager
  {
    match m
    case Loop => WaitRead(q)
    case Down(i, n) => if i < n then RescaleLater(q) else m
    case DownWait(i, n) => RescaleLater(q)
    case Up(i, n) => if i < n then RescaleLater(q) else m
    case _ => m
  }

  function OnSpawn(m: Manager): Manager
  {
    match m
    case Up(i, n) => if i < n then UpWait(i, n) else m
    case ScaleUp(q) => ScaleUpWait(q)
    case _ => m
  }

  function OnSpawnError(m: Manager): Manager
  {
    match m
    case UpWait(i, n) => Up(i + 1, n)
    case ScaleUp(q) => Fail(q)
    case ScaleUpWait(q) => Fail(q)
    case ScaleDown(q, _) => Fail(q)
    case _ => m
  }

  datatype Meeting = PutByClient(c: Client) | PutBySpawner | Get(c: Client) | RequestSpawn | SpawnError | Hand(c: Client)

  function Meet(s: State, a: Meeting): Result
  {
    match a
    case PutByClient(c) =>
      if c in s.clients && s.clients[c].Putting? && OnPut(s.manager, s.clients[c].d) != s.manager then
        Next(Become(s, c, Gone).(manager := OnPut(s.manager, s.clients[c].d)))
      else Stuck
    case PutBySpawner =>
      if s.spawner.Put? && OnPut(s.manager, s.spawner.d) != s.manager then
        Next(s.(spawner := End, manager := OnPut(s.manager, s.spawner.d)))
      else Stuck
    case Get(c) =>
      if c in s.clients && s.clients[c].Send? && OnGet(s.manager, s.clients[c].q) != s.manager then
        var q := s.clients[c].q;
        Next(Become(s, c, Wait(q)).(manager := OnGet(s.manager, q), accepted := s.accepted + {q}))
      else Stuck
    case RequestSpawn =>
      if s.spawner.Ready? && OnSpawn(s.manager) != s.manager then
        Next(s.(spawner := Begin, manager := OnSpawn(s.manager)))
      else Stuck
    case SpawnError =>
      if s.spawner.Backoff? && OnSpawnError(s.manager) != s.manager then
        Next(s.(spawner := Factory, manager := OnSpawnError(s.manager)))
      else Stuck
    case Hand(c) =>
      if s.manager.Return? && c in s.clients && s.clients[c] == Wait(s.manager.q) then
        Next(Become(s, c, Cancel(s.manager.q, Just(s.manager.d)))
             .(manager := Loop, answered := s.answered + multiset{s.manager.q}))
      else Stuck
  }

  // ----- The manager on its own -----

  function Resume(k: Cont): Manager
  {
    match k
    case ToLoop => Loop
    case ToDown(i, n) => Down(i, n)
    case ToUp(i, n) => Up(i, n)
    case ToUpRead(i) => UpRead(i)
    case ToWait(q) => WaitRead(q)
    case ToDrainPeek => DrainPeek
    case ToDrainRead => DrainRead
  }

  datatype ManagerStep =
    | TakeSignal | GoDrain
    | DoSetIdle | DoKill
    | ReadRunning | ReadTarget | ReadSpawning
    | LoopEnds | SelectStop | SelectDefault
    | Peek(d: Driver) | PeekNone
    | Requeue | SeeCancel | SendError | ResetTarget

  function AfterTarget(m: Manager, target: int): Manager
    requires m.ScaleTarget? || m.UpTarget? || m.WaitTarget?
  {
    var dn := target - m.r;
    match m
    case ScaleTarget(_) => if dn == 0 then Loop else if dn < 0 then Down(0, -dn) else Up(0, dn)
    case UpTarget(i, _) => Up(i, dn)
    case WaitTarget(q, _) => WaitRunning(q, dn)
  }

  /** The steps of the manager that change nothing but its program counter; itself when not possible. */
  function Think(s: State, a: ManagerStep): Manager
  {
    var m := s.manager;
    match a
    case GoDrain => if s.stopped && m.Loop? then DrainPeek else m
    case ReadRunning =>
      (match m
       case ScaleRead => ScaleTarget(s.running)
       case UpRead(i) => UpTarget(i, s.running)
       case WaitRead(q) => WaitTarget(q, s.running)
       case WaitRunning(q, dn) => WaitSpawning(q, dn, s.running)
       case DrainRead => if s.running > 0 then DrainPut else DrainReset
       case _ => m)
    case ReadSpawning =>
      if !m.WaitSpawning? then m
      else if m.r + s.spawning == 0 && m.dn < 0 then Fail(m.q)
      else if m.r + s.spawning == 0 && m.dn == 0 then WaitPeek(m.q, 1)
      else WaitPeek(m.q, m.dn)
    case LoopEnds => if (m.Down? || m.Up?) && m.i >= m.n then Loop else m
    case SelectStop =>
      if s.stopped && ((m.Down? && m.i < m.n) || m.DownWait? || (m.Up? && m.i < m.n) || m.UpWait?) then Loop else m
    // taken only when no other branch is ready; allowing it always adds runs and loses none
    case SelectDefault => if m.Down? && m.i < m.n then DownPeek(m.i, m.n) else m
    case PeekNone =>
      if s.idle != {} then m else
      (match m
       case DownPeek(i, n) => DownWait(i, n)
       case WaitPeek(q, dn) => if dn > 0 then ScaleUp(q) else ScaleDown(q, dn == 0)
       case DrainPeek => DrainRead
       case _ => m)
    case SeeCancel =>
      if (m.ScaleUp? || m.ScaleUpWait? || m.ScaleDown?) && m.q in s.cancelled then Loop
      else if m.Return? && m.q in s.cancelled then SetIdle(m.d, ToLoop)
      else m
    case _ => m
  }

  /** The manager after peekIdle gave it `d`; itself when it is not peeking. */
  function OnPeek(m: Manager, d: Driver): Manager
  {
    match m
    case DownPeek(i, n) => Kill(d, ToDown(i + 1, n))
    case WaitPeek(q, _) => Return(q, d)
    case DrainPeek => Kill(d, ToDrainPeek)
    case _ => m
  }

  /** The manager after it took the rescale signal; itself when it is not listening. */
  function OnSignal(m: Manager): Manager
  {
    match m
    case Loop => ScaleRead
    case ScaleDown(q, _) => WaitRead(q)
    case _ => m
  }

  function Manage(s: State, a: ManagerStep): Result
  {
    var m := s.manager;
    match a
    case TakeSignal =>
      if s.rescale && OnSignal(m) != m then Next(s.(rescale := false, manager := OnSignal(m))) else Stuck
    case DoSetIdle =>
      if m.SetIdle? then Next(s.(idle := s.idle + {m.d}, manager := Resume(m.k))) else Stuck
    case DoKill => if m.Kill? then Next(KillDriver(s, m.d).(manager := Resume(m.k))) else Stuck
    case ReadTarget =>
      if m.ScaleTarget? || m.UpTarget? || m.WaitTarget? then
        Next(s.(seen := s.target, counted := m.r, manager := AfterTarget(m, s.target)))
      else Stuck
    case Peek(d) =>
      if d in s.idle && OnPeek(m, d) != m then Next(s.(idle := s.idle - {d}, manager := OnPeek(m, d))) else Stuck
    case Requeue => if m.RescaleLater? then Next(s.(rescale := true, manager := WaitRead(m.q))) else Stuck
    // the channel has one slot: the send blocks while it is full
    case SendError =>
      if m.Fail? && m.q !in s.errors then
        Next(s.(manager := Loop, errors := s.errors + {m.q}, answered := s.answered + multiset{m.q}))
      else Stuck
    case ResetTarget => if m.DrainReset? then Next(s.(target := 0, manager := Done)) else Stuck
    case _ => if Think(s, a) != m then Next(s.(manager := Think(s, a))) else Stuck
  }

  predicate Thinks(a: ManagerStep)
  {
    || a.GoDrain? || a.ReadRunning? || a.ReadSpawning? || a.LoopEnds? || a.SelectStop? || a.SelectDefault?
    || a.PeekNone? || a.SeeCancel?
  }

  lemma ThinkOnly(s: State, a: ManagerStep)
    requires Thinks(a)
    ensures Manage(s, a) == if Think(s, a) != s.manager then Next(s.(manager := Think(s, a))) else Stuck
  {
    hide Think;
  }

  // ----- Runs -----

  datatype Step =
    | ByEnv(e: EnvStep) | ByPolicy(p: PolicyStep) | BySpawner(w: SpawnStep)
    | ByClient(c: Client, x: ClientStep) | ByTwo(t: Meeting) | ByManager(m: ManagerStep)

  function Do(s: State, a: Step): Result
  {
    match a
    case ByEnv(e) => Env(s, e)
    case ByPolicy(p) => RunPolicy(s, p)
    case BySpawner(w) => Spawn(s, w)
    case ByClient(c, x) => ClientMove(s, c, x)
    case ByTwo(t) => Meet(s, t)
    case ByManager(m) => Manage(s, m)
  }

  /** The state after a run, if every step of it was possible. */
  function Run(s: State, steps: seq<Step>): Result
    decreases |steps|
  {
    if steps == [] then Next(s)
    else match Do(s, steps[0])
      case Stuck => Stuck
      case Next(t) => Run(t, steps[1..])
  }

  ghost predicate Reachable(s: State)
  {
    exists config, steps :: Run(Init(config), steps) == Next(s)
  }
}
