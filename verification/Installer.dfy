/**
 bblfshctl's installation of many drivers (cmd/bblfshctl/cmd/driver_install.go): one loop
 hands references to workers over the unbuffered channel `jobs` and collects answers from
 the channel `out`, which has one slot per reference.

 References are numbered and taken to be different from one another.
 */
module Installer {

  datatype Worker = Idle | Busy(job: nat) | Exited

  /** How the installation of one driver ended. */
  datatype Outcome = Installed | AlreadyInstalled | Failed

  datatype Answer = Answer(job: nat, outcome: Outcome)

  /** What the table on the screen shows beside a reference. */
  datatype Mark = Running | Good | Bad

  datatype State = State(
    force: bool,                    // --force
    n: nat,                         // references, and capacity of `out`
    next: nat,                      // references handed out so far
    workers: seq<Worker>,
    out: seq<Answer>,
    todo: int, done: nat,
    errs: seq<nat>,                 // references whose error is kept, in order
    status: map<nat, Mark>,
    closed: bool,                   // `jobs` is closed, and the loop is draining
    left: bool,                     // the loop has ended
    accepted: seq<Answer>)          // history

  function Init(force: bool, n: nat, workers: nat): State
  {
    State(force, n, 0, seq(workers, _ => Idle), [], n, 0, [], map[], false, false, [])
  }

  /** accept */
  function Accepted(s: State, r: Answer): State
  {
    var t := s.(todo := s.todo - 1, accepted := s.accepted + [r]);
    if r.outcome.Installed? || (r.outcome.AlreadyInstalled? && s.force) then
      t.(done := s.done + 1, status := s.status[r.job := Good])
    else
      t.(errs := s.errs + [r.job], status := s.status[r.job := Bad])
  }

  datatype Step = Dispatch(w: nat) | Accept | Close | Leave | Finish(w: nat, outcome: Outcome) | Exit(w: nat)

  /** At the head of the loop with something left to do. */
  predicate Working(s: State)
  {
    !s.left && s.todo != 0
  }

  predicate Enabled(s: State, a: Step)
  {
    match a
    case Dispatch(w) => Working(s) && !s.closed && s.next < s.n && w < |s.workers| && s.workers[w].Idle?
    case Accept => Working(s) && (s.closed || s.next < s.n) && s.out != []
    case Close => Working(s) && !s.closed && s.next == s.n
    case Leave => !s.left && s.todo == 0
    case Finish(w, _) => w < |s.workers| && s.workers[w].Busy? && |s.out| < s.n
    case Exit(w) => w < |s.workers| && s.workers[w].Idle? && s.closed
  }

  function Do(s: State, a: Step): State
    requires Enabled(s, a)
  {
    match a
    case Dispatch(w) =>
      s.(workers := s.workers[w := Busy(s.next)], next := s.next + 1, status := s.status[s.next := Running])
    case Accept => Accepted(s.(out := s.out[1..]), s.out[0])
    case Close => s.(closed := true)
    case Leave => s.(left := true)
    case Finish(w, outcome) =>
      s.(workers := s.workers[w := Idle], out := s.out + [Answer(s.workers[w].job, outcome)])
    case Exit(w) => s.(workers := s.workers[w := Exited])
  }

  // ----- Where each reference is -----

  function BusyJobs(ws: seq<Worker>): multiset<nat>
  {
    if ws == [] then multiset{}
    else JobOf(ws[0]) + BusyJobs(ws[1..])
  }

  function JobOf(w: Worker): multiset<nat>
  {
    if w.Busy? then multiset{w.job} else multiset{}
  }

  function Jobs(out: seq<Answer>): seq<nat>
  {
    seq(|out|, i requires 0 <= i < |out| => out[i].job)
  }

  ghost function Everywhere(s: State): multiset<nat>
  {
    BusyJobs(s.workers) + multiset(Jobs(s.out)) + multiset(Jobs(s.accepted))
  }

  /** Every reference handed out is with one worker, in one answer, or accepted, exactly once. */
  ghost predicate Conserved(s: State)
  {
    forall j :: Everywhere(s)[j] == if 0 <= j < s.next then 1 else 0
  }

  ghost predicate Invariant(s: State)
  {
    && Conserved(s)
    && |Everywhere(s)| == s.next <= s.n
    && s.todo == s.n - |s.accepted|
    && s.done + |s.errs| == |s.accepted|
    && (s.closed ==> s.next == s.n)
    && (!s.closed ==> |s.accepted| < s.n)
    && (s.left ==> s.todo == 0)
    && (!s.closed ==> Exited !in s.workers)
  }

  lemma {:induction false} BusyJobsUpdate(ws: seq<Worker>, i: nat, w: Worker)
    requires i < |ws|
    ensures JobOf(ws[i]) <= BusyJobs(ws)
    ensures BusyJobs(ws[i := w]) == BusyJobs(ws) - JobOf(ws[i]) + JobOf(w)
  {
    hide JobOf;
    if i == 0 {
      assert ws[0 := w][1..] == ws[1..];
    } else {
      assert ws[i := w][1..] == ws[1..][i - 1 := w];
      BusyJobsUpdate(ws[1..], i - 1, w);
    }
  }

  lemma {:induction false} NobodyBusy(ws: seq<Worker>)
    requires forall i | 0 <= i < |ws| :: !ws[i].Busy?
    ensures BusyJobs(ws) == multiset{}
  {
    if ws == [] {
    } else {
      NobodyBusy(ws[1..]);
    }
  }

  lemma JobsSplit(out: seq<Answer>)
    requires out != []
    ensures multiset(Jobs(out)) == multiset{out[0].job} + multiset(Jobs(out[1..]))
  {
    assert Jobs(out) == [out[0].job] + Jobs(out[1..]);
  }

  lemma JobsAppend(out: seq<Answer>, a: Answer)
    ensures multiset(Jobs(out + [a])) == multiset(Jobs(out)) + multiset{a.job}
  {
    assert Jobs(out + [a]) == Jobs(out) + [a.job];
  }

  lemma InvariantInit(force: bool, n: nat, workers: nat)
    requires n >= 1
    ensures Invariant(Init(force, n, workers))
  {
    var s := Init(force, n, workers);
    NobodyBusy(s.workers);
    assert Jobs([]) == [];
    assert Everywhere(s) == multiset{};
  }

  lemma EverywhereDispatch(s: State, w: nat)
    requires Enabled(s, Dispatch(w))
    ensures Everywhere(Do(s, Dispatch(w))) == Everywhere(s) + multiset{s.next}
  {
    hide BusyJobs;
    BusyJobsUpdate(s.workers, w, Busy(s.next));
  }

  lemma EverywhereFinish(s: State, w: nat, outcome: Outcome)
    requires Enabled(s, Finish(w, outcome))
    ensures Everywhere(Do(s, Finish(w, outcome))) == Everywhere(s)
  {
    hide BusyJobs, Jobs;
    BusyJobsUpdate(s.workers, w, Idle);
    JobsAppend(s.out, Answer(s.workers[w].job, outcome));
  }

  lemma EverywhereAccept(s: State)
    requires Enabled(s, Accept)
    ensures Everywhere(Do(s, Accept)) == Everywhere(s)
  {
    hide BusyJobs, Jobs;
    JobsSplit(s.out);
    JobsAppend(s.accepted, s.out[0]);
  }

  /** What a step does to the whereabouts of the references. */
  lemma EverywhereStep(s: State, a: Step)
    requires Enabled(s, a)
    ensures Everywhere(Do(s, a)) == if a.Dispatch? then Everywhere(s) + multiset{s.next} else Everywhere(s)
  {
    hide BusyJobs;
    match a
    case Dispatch(w) => EverywhereDispatch(s, w);
    case Accept => EverywhereAccept(s);
    case Close =>
    case Leave =>
    case Finish(w, outcome) => EverywhereFinish(s, w, outcome);
    case Exit(w) => BusyJobsUpdate(s.workers, w, Exited);
  }

  lemma ConservedStep(s: State, a: Step)
    requires Conserved(s) && |Everywhere(s)| == s.next && Enabled(s, a)
    ensures Conserved(Do(s, a)) && |Everywhere(Do(s, a))| == Do(s, a).next
  {
    hide Everywhere, Enabled;
    EverywhereStep(s, a);
  }

  /** Every step of the loop and of the workers keeps the invariant. */
  lemma InvariantStep(s: State, a: Step)
    requires Invariant(s) && Enabled(s, a)
    ensures Invariant(Do(s, a))
  {
    hide Everywhere, Conserved, BusyJobs;
    ConservedStep(s, a);
    EverywhereSize(s);
  }

  lemma EverywhereSize(s: State)
    ensures |Everywhere(s)| == |BusyJobs(s.workers)| + |s.out| + |s.accepted|
  {
  }

  // ----- Runs -----

  /** The states that some interleaving reaches from the start. */
  ghost predicate Reaches(s: State, steps: seq<Step>, t: State)
    decreases |steps|
  {
    if steps == [] then s == t
    else Enabled(s, steps[0]) && Reaches(Do(s, steps[0]), steps[1..], t)
  }

  /** What is left to happen: hand out, install, accept, close, leave, exit. */
  function Measure(s: State): int
  {
    4 * (s.n - s.next) + 3 * |BusyJobs(s.workers)| + 2 * |s.out|
    + (if s.closed then 0 else 1) + (if s.left then 0 else 1) + Alive(s.workers)
  }

  function Alive(ws: seq<Worker>): nat
  {
    if ws == [] then 0 else (if ws[0].Exited? then 0 else 1) + Alive(ws[1..])
  }

  lemma {:induction false} AliveUpdate(ws: seq<Worker>, i: nat, w: Worker)
    requires i < |ws| && !ws[i].Exited?
    ensures Alive(ws[i := w]) == if w.Exited? then Alive(ws) - 1 else Alive(ws)
  {
    if i == 0 {
      assert ws[0 := w][1..] == ws[1..];
    } else {
      assert ws[i := w][1..] == ws[1..][i - 1 := w];
      AliveUpdate(ws[1..], i - 1, w);
    }
  }

  lemma BusyCountUpdate(ws: seq<Worker>, i: nat, w: Worker)
    requires i < |ws|
    ensures |BusyJobs(ws[i := w])| == |BusyJobs(ws)| + (if w.Busy? then 1 else 0) - (if ws[i].Busy? then 1 else 0)
  {
    BusyJobsUpdate(ws, i, w);
  }

  /** Every step brings the end closer. */
  lemma MeasureDecreases(s: State, a: Step)
    requires Invariant(s) && Enabled(s, a)
    ensures 0 <= Measure(Do(s, a)) < Measure(s)
  {
    hide Everywhere, Conserved, BusyJobs;
    InvariantStep(s, a);
    if a.Dispatch? {
      BusyCountUpdate(s.workers, a.w, Busy(s.next));
      AliveUpdate(s.workers, a.w, Busy(s.next));
    } else if a.Finish? {
      BusyCountUpdate(s.workers, a.w, Idle);
      AliveUpdate(s.workers, a.w, Idle);
    } else if a.Exit? {
      BusyCountUpdate(s.workers, a.w, Exited);
      AliveUpdate(s.workers, a.w, Exited);
    }
  }

  lemma {:induction false} RunInvariant(s: State, steps: seq<Step>, t: State)
    requires Invariant(s) && Reaches(s, steps, t)
    ensures Invariant(t) && |steps| + Measure(t) <= Measure(s)
    decreases |steps|
  {
    hide Invariant, Measure, Do;
    if steps == [] {
    } else {
      InvariantStep(s, steps[0]);
      MeasureDecreases(s, steps[0]);
      RunInvariant(Do(s, steps[0]), steps[1..], t);
    }
  }

  // ----- No deadlock -----

  lemma {:induction false} SomebodyBusy(ws: seq<Worker>) returns (w: nat)
    requires BusyJobs(ws) != multiset{}
    ensures w < |ws| && ws[w].Busy?
  {
    if ws[0].Busy? {
      w := 0;
    } else {
      w := SomebodyBusy(ws[1..]);
      w := w + 1;
    }
  }

  /** The state in which nothing is left to happen. */
  predicate Finished(s: State)
  {
    s.left && s.closed && forall i | 0 <= i < |s.workers| :: s.workers[i].Exited?
  }

  /** In every reachable state that is not finished, somebody can move. */
  lemma NeverStuck(s: State) returns (a: Step)
    requires Invariant(s) && s.workers != [] && !Finished(s)
    ensures Enabled(s, a)
  {
    EverywhereSize(s);
    if BusyJobs(s.workers) != multiset{} {
      var w := SomebodyBusy(s.workers);
      assert |BusyJobs(s.workers)| >= 1;
      a := Finish(w, Installed);
    } else {
      a := IdleMove(s);
    }
  }

  lemma IdleMove(s: State) returns (a: Step)
    requires Invariant(s) && s.workers != [] && !Finished(s) && BusyJobs(s.workers) == multiset{}
    ensures Enabled(s, a)
  {
    EverywhereSize(s);
    if s.left {
      var i :| 0 <= i < |s.workers| && !s.workers[i].Exited?;
      NotBusy(s.workers, i);
      a := Exit(i);
    } else if s.todo == 0 {
      a := Leave;
    } else if s.closed {
      a := Accept;
    } else if s.next == s.n {
      a := Close;
    } else {
      NotBusy(s.workers, 0);
      assert s.workers[0] in s.workers;
      a := Dispatch(0);
    }
  }

  lemma NotBusy(ws: seq<Worker>, i: nat)
    requires BusyJobs(ws) == multiset{} && i < |ws|
    ensures !ws[i].Busy?
  {
    BusyJobsUpdate(ws, i, Idle);
    assert JobOf(ws[i]) == multiset{};
  }

  // ----- What is counted and shown -----

  /** The errors that are kept: an "already installed" is none under --force. */
  predicate IsError(force: bool, o: Outcome)
  {
    match o
    case Installed => false
    case AlreadyInstalled => !force
    case Failed => true
  }

  /** What the workers have answered so far in a run, reference by reference. */
  function Given(s: State, steps: seq<Step>, before: map<nat, Outcome>): map<nat, Outcome>
    requires Possible(s, steps)
    decreases |steps|
  {
    if steps == [] then before
    else
      var a := steps[0];
      Given(Do(s, a), steps[1..], if a.Finish? then before[s.workers[a.w].job := a.outcome] else before)
  }

  predicate Possible(s: State, steps: seq<Step>)
    decreases |steps|
  {
    steps == [] || (Enabled(s, steps[0]) && Possible(Do(s, steps[0]), steps[1..]))
  }

  /** Every answer, on its way or accepted, is what the worker said. */
  ghost predicate Told(s: State, given: map<nat, Outcome>)
  {
    && (forall r | r in s.out || r in s.accepted :: r.job in given && given[r.job] == r.outcome)
    && (forall j | j in given :: j < s.next && Busy(j) !in s.workers)
  }

  lemma {:induction false} BusyCounts(ws: seq<Worker>, j: nat)
    ensures Busy(j) in ws <==> BusyJobs(ws)[j] > 0
  {
    if ws == [] {
    } else {
      BusyCounts(ws[1..], j);
    }
  }

  lemma BusyOnce(s: State, w: nat, v: nat)
    requires Conserved(s) && w < |s.workers| && v < |s.workers| && w != v && s.workers[w].Busy?
    ensures s.workers[v] != s.workers[w]
  {
    hide BusyJobs, Jobs;
    var j := s.workers[w].job;
    BusyJobsUpdate(s.workers, w, Idle);
    BusyCounts(s.workers[w := Idle], j);
    assert Everywhere(s)[j] <= 1;
    assert s.workers[w := Idle][v] == s.workers[v];
  }

  lemma ToldStep(s: State, a: Step, given: map<nat, Outcome>)
    requires Invariant(s) && Enabled(s, a) && Told(s, given)
    ensures Told(Do(s, a), if a.Finish? then given[s.workers[a.w].job := a.outcome] else given)
  {
    hide Conserved, Everywhere;
    match a
    case Finish(w, outcome) =>
      var j := s.workers[w].job;
      BusyBelow(s, w);
      forall v | 0 <= v < |s.workers| && v != w
        ensures s.workers[v] != s.workers[w]
      {
        BusyOnce(s, w, v);
      }
      assert s.workers[w] == Busy(j) && j !in given;
    case _ =>
  }

  lemma BusyBelow(s: State, w: nat)
    requires Conserved(s) && w < |s.workers| && s.workers[w].Busy?
    ensures s.workers[w].job < s.next
  {
    hide BusyJobs, Jobs;
    var j := s.workers[w].job;
    BusyCounts(s.workers, j);
    assert s.workers[w] in s.workers;
    assert Everywhere(s)[j] >= 1;
  }

  /** The count, the errors and the table are those of the accepted answers. */
  ghost predicate Recorded(s: State)
  {
    && s.errs == Jobs(Errors(s.force, s.accepted))
    && (forall j: nat :: j in s.status <==> j < s.next)
    && (forall j: nat | j < s.next && j !in Jobs(s.accepted) :: s.status[j] == Running)
    && (forall r | r in s.accepted :: r.job < s.next && s.status[r.job] == if IsError(s.force, r.outcome) then Bad else Good)
  }

  function Errors(force: bool, rs: seq<Answer>): seq<Answer>
  {
    if rs == [] then []
    else Errors(force, rs[..|rs| - 1]) + (if IsError(force, rs[|rs| - 1].outcome) then [rs[|rs| - 1]] else [])
  }

  lemma AcceptedOnce(s: State)
    requires Conserved(s) && s.out != []
    ensures s.out[0].job !in Jobs(s.accepted) && s.out[0].job < s.next
  {
    hide BusyJobs, Jobs;
    JobsSplit(s.out);
    var j := s.out[0].job;
    assert Everywhere(s)[j] >= 1 + multiset(Jobs(s.accepted))[j];
  }

  lemma JobsIn(rs: seq<Answer>)
    ensures forall r | r in rs :: r.job in Jobs(rs)
    ensures forall j | j in Jobs(rs) :: exists r :: r in rs && r.job == j
  {
    forall r | r in rs
      ensures r.job in Jobs(rs)
    {
      var i :| 0 <= i < |rs| && rs[i] == r;
      assert Jobs(rs)[i] == r.job;
    }
  }

  lemma AcceptedRecorded(s: State, r: Answer)
    requires Recorded(s) && r.job !in Jobs(s.accepted) && r.job < s.next
    ensures Recorded(Accepted(s, r))
  {
    hide Errors, Jobs;
    ErrorsAppend(s.force, s.accepted, r);
    JobsEnd(s.accepted, r);
    JobsIn(s.accepted);
  }

  lemma JobsEnd(rs: seq<Answer>, r: Answer)
    ensures Jobs(rs + [r]) == Jobs(rs) + [r.job]
  {
  }

  lemma ErrorsAppend(force: bool, rs: seq<Answer>, r: Answer)
    ensures Jobs(Errors(force, rs + [r])) == Jobs(Errors(force, rs)) + (if IsError(force, r.outcome) then [r.job] else [])
  {
    hide Jobs, IsError;
    assert (rs + [r])[..|rs|] == rs;
    JobsEnd(Errors(force, rs), r);
    assert Errors(force, rs) + [] == Errors(force, rs);
  }

  lemma RecordedStep(s: State, a: Step)
    requires Invariant(s) && Recorded(s) && Enabled(s, a)
    ensures Recorded(Do(s, a))
  {
    hide Conserved, Everywhere, Errors, Accepted;
    match a
    case Accept =>
      AcceptedOnce(s);
      AcceptedRecorded(s.(out := s.out[1..]), s.out[0]);
    case Dispatch(w) =>
      NotYetAccepted(s);
    case _ =>
  }

  lemma NotYetAccepted(s: State)
    requires Conserved(s)
    ensures s.next !in Jobs(s.accepted)
  {
    hide BusyJobs, Jobs;
    assert Everywhere(s)[s.next] == 0;
  }

  lemma {:induction false} RunRecords(s: State, steps: seq<Step>, t: State, given: map<nat, Outcome>)
    requires Invariant(s) && Recorded(s) && Told(s, given) && Reaches(s, steps, t)
    ensures Possible(s, steps) && Recorded(t) && Told(t, Given(s, steps, given)) && t.force == s.force
    decreases |steps|
  {
    hide Invariant, Recorded, Told, Enabled, Do;
    if steps == [] {
    } else {
      var a := steps[0];
      InvariantStep(s, a);
      RecordedStep(s, a);
      ToldStep(s, a, given);
      SameForce(s, a);
      RunRecords(Do(s, a), steps[1..], t, if a.Finish? then given[s.workers[a.w].job := a.outcome] else given) by {
        FinishesJob(s, a);
      }
    }
  }

  lemma SameForce(s: State, a: Step)
    requires Enabled(s, a)
    ensures Do(s, a).force == s.force
  {
  }

  lemma FinishesJob(s: State, a: Step)
    requires Enabled(s, a)
    ensures a.Finish? ==> a.w < |s.workers| && s.workers[a.w].Busy?
  {
  }

  // ----- The result -----

  /** Every interleaving can be extended until it is finished, within a bound known from the start. */
  lemma RunsAreBounded(force: bool, n: nat, workers: nat, steps: seq<Step>, t: State)
    requires n >= 1 && Reaches(Init(force, n, workers), steps, t)
    ensures |steps| <= 4 * n + 2 + workers
  {
    InvariantInit(force, n, workers);
    RunInvariant(Init(force, n, workers), steps, t);
    NobodyBusy(Init(force, n, workers).workers);
    AliveAll(workers);
    MeasureIsNat(t);
  }

  lemma {:induction false} AliveAll(workers: nat)
    ensures Alive(seq(workers, _ => Idle)) == workers
  {
    if workers == 0 {
    } else {
      assert seq(workers, _ => Idle)[1..] == seq(workers - 1, _ => Idle);
      AliveAll(workers - 1);
    }
  }

  lemma MeasureIsNat(s: State)
    requires Invariant(s)
    ensures Measure(s) >= 0
  {
  }

  /** The loop never leaves before it has closed `jobs`, and never with answers outstanding. */
  lemma LeavesOnlyWhenDone(force: bool, n: nat, workers: nat, steps: seq<Step>, t: State)
    requires n >= 1 && Reaches(Init(force, n, workers), steps, t) && t.left
    ensures t.closed && t.next == n && t.done + |t.errs| == n && t.out == []
    ensures forall j :: multiset(Jobs(t.accepted))[j] == if 0 <= j < n then 1 else 0
  {
    hide Do;
    InvariantInit(force, n, workers);
    RunInvariant(Init(force, n, workers), steps, t);
    SameShape(Init(force, n, workers), steps, t);
    EverywhereSize(t);
    assert multiset(Jobs(t.accepted)) == Everywhere(t) by {
      assert |BusyJobs(t.workers)| == 0;
      assert Jobs(t.out) == [];
    }
  }

  /**
   A run that cannot go on has handed out every reference and accepted its answer exactly
   once, has closed the channel, has left no worker behind, and has counted every reference
   as done or as an error.
   */
  lemma FinalState(force: bool, n: nat, workers: nat, steps: seq<Step>, t: State)
    requires n >= 1 && workers >= 1 && Reaches(Init(force, n, workers), steps, t)
    requires forall a :: !Enabled(t, a)
    ensures t.left && t.closed && t.todo == 0 && t.next == n && t.done + |t.errs| == n
    ensures forall j :: multiset(Jobs(t.accepted))[j] == if 0 <= j < n then 1 else 0
    ensures forall i | 0 <= i < |t.workers| :: t.workers[i].Exited?
  {
    hide Do;
    InvariantInit(force, n, workers);
    RunInvariant(Init(force, n, workers), steps, t);
    SameShape(Init(force, n, workers), steps, t);
    if !Finished(t) {
      var a := NeverStuck(t);
      assert false;
    }
    LeavesOnlyWhenDone(force, n, workers, steps, t);
  }

  /**
   What a run that has ended reports is what its workers answered: the table shows each reference
   as the outcome of its installation says, the errors are those of the installations that failed,
   each once, and there is none exactly if no installation failed.
   */
  lemma ReportIsTrue(force: bool, n: nat, workers: nat, steps: seq<Step>, t: State)
    requires n >= 1 && Reaches(Init(force, n, workers), steps, t) && t.left
    ensures Possible(Init(force, n, workers), steps)
    ensures var given := Given(Init(force, n, workers), steps, map[]);
            && (forall j: nat | j < n ::
                  && j in given
                  && j in t.status && t.status[j] == (if IsError(force, given[j]) then Bad else Good)
                  && multiset(t.errs)[j] == (if IsError(force, given[j]) then 1 else 0))
            && (forall j | j in t.errs :: j < n)
            && (t.errs == [] <==> forall j: nat | j < n :: !IsError(force, given[j]))
            && t.done == n - |t.errs|
  {
    hide Invariant, Reaches, Do, Given, Possible;
    var s := Init(force, n, workers);
    InvariantInit(force, n, workers);
    assert Recorded(s) && Told(s, map[]);
    RunRecords(s, steps, t, map[]);
    LeavesOnlyWhenDone(force, n, workers, steps, t);
    var given := Given(s, steps, map[]);
    forall j: nat | j < n
      ensures j in given && t.status[j] == (if IsError(force, given[j]) then Bad else Good)
      ensures multiset(t.errs)[j] == (if IsError(force, given[j]) then 1 else 0)
    {
      assert multiset(Jobs(t.accepted))[j] == 1;
      JobsIn(t.accepted);
      var r :| r in t.accepted && r.job == j;
      ErrorCount(force, t.accepted, given, j);
    }
    forall j | j in t.errs
      ensures j < n
    {
      ErrorsAreAccepted(force, t.accepted, j);
      JobsIn(t.accepted);
    }
    NoErrorIff(t.errs, force, n, given);
  }

  lemma NoErrorIff(errs: seq<nat>, force: bool, n: nat, given: map<nat, Outcome>)
    requires forall j: nat | j < n :: j in given && multiset(errs)[j] == (if IsError(force, given[j]) then 1 else 0)
    requires forall j | j in errs :: j < n
    ensures errs == [] <==> forall j: nat | j < n :: !IsError(force, given[j])
  {
    if errs == [] {
      forall j: nat | j < n
        ensures !IsError(force, given[j])
      {
        assert multiset(errs)[j] == 0;
      }
    } else {
      var j := errs[0];
      assert j in errs && j < n && j in given;
      assert multiset(errs)[j] > 0;
      assert IsError(force, given[j]);
    }
  }

  /** Of the accepted answers for a reference, the errors are kept. */
  lemma {:induction false} ErrorCount(force: bool, rs: seq<Answer>, given: map<nat, Outcome>, j: nat)
    requires forall r | r in rs :: r.job in given && given[r.job] == r.outcome
    requires j in given
    ensures multiset(Jobs(Errors(force, rs)))[j] == if IsError(force, given[j]) then multiset(Jobs(rs))[j] else 0
  {
    hide IsError;
    if rs == [] {
    } else {
      var front, r := rs[..|rs| - 1], rs[|rs| - 1];
      assert rs == front + [r] && r in rs;
      ErrorCount(force, front, given, j);
      JobsAppend(front, r);
      JobsAppend(Errors(force, front), r);
      assert Errors(force, front) + [] == Errors(force, front);
    }
  }

  lemma {:induction false} ErrorsAreAccepted(force: bool, rs: seq<Answer>, j: nat)
    ensures j in Jobs(Errors(force, rs)) ==> j in Jobs(rs)
  {
    if rs == [] {
    } else {
      var front, r := rs[..|rs| - 1], rs[|rs| - 1];
      assert rs == front + [r];
      ErrorsAreAccepted(force, front, j);
      assert Jobs(rs) == Jobs(front) + [r.job];
      assert Jobs(Errors(force, front) + [r]) == Jobs(Errors(force, front)) + [r.job];
      assert Errors(force, front) + [] == Errors(force, front);
    }
  }

  lemma {:induction false} SameShape(s: State, steps: seq<Step>, t: State)
    requires Reaches(s, steps, t)
    ensures t.n == s.n && |t.workers| == |s.workers|
    decreases |steps|
  {
    if steps == [] {
    } else {
      SameShape(Do(s, steps[0]), steps[1..], t);
    }
  }
}
