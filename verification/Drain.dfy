/** The drain protocol as interleaved atomic steps: `track` admits requests under a mutex and counts them in a
    wait group, `Shutdown` sets a flag under the same mutex and waits for the count (gateway/gateway.go). */
module Drain {

  /** Where a request is in `track`. */
  datatype Handler =
    | Arrived    // about to take the mutex
    | Locked     // holds it, has not read the flag
    | Admitted   // holds it, read the flag as false, has not called Add
    | Counted    // holds it, has called Add
    | Serving    // released it, the wrapped handler is running
    | Refusing   // holds it, read the flag as true
    | Finished   // has called Done
    | Rejected   // answered 503

  /** Where a caller is in `Shutdown`. */
  datatype Closer =
    | Called     // about to take the mutex
    | Holding    // holds it, flag not set yet
    | Flagged    // holds it, flag set
    | Waiting    // released it, its waiter goroutine is in Wait
    | Complete   // returned because the waiter signalled
    | TimedOut   // returned at the deadline; its waiter goes on waiting

  datatype Owner = Nobody | ByHandler(h: nat) | ByCloser(c: nat)

  /** `signalled` holds the closers whose waiter has seen Wait return. */
  datatype State = State(
    mutex: Owner, draining: bool, active: int,
    handlers: map<nat, Handler>, closers: map<nat, Closer>, signalled: set<nat>)

  const START := State(Nobody, false, 0, map[], map[], {})

  datatype Step =
    | Arrive(h: nat) | Lock(h: nat) | ReadFlag(h: nat) | Add(h: nat) | Unlock(h: nat) | Done(h: nat)
    | Call(c: nat) | LockClose(c: nat) | SetFlag(c: nat) | UnlockClose(c: nat)
    | Signal(c: nat) | Return(c: nat) | Timeout(c: nat)

  predicate HandlerAt(s: State, h: nat, pc: Handler) {
    h in s.handlers && s.handlers[h] == pc
  }

  predicate CloserAt(s: State, c: nat, pc: Closer) {
    c in s.closers && s.closers[c] == pc
  }

  predicate Enabled(s: State, step: Step) {
    match step
    case Arrive(h) => h !in s.handlers
    case Lock(h) => HandlerAt(s, h, Arrived) && s.mutex == Nobody
    case ReadFlag(h) => HandlerAt(s, h, Locked)
    case Add(h) => HandlerAt(s, h, Admitted)
    case Unlock(h) => HandlerAt(s, h, Counted) || HandlerAt(s, h, Refusing)
    case Done(h) => HandlerAt(s, h, Serving)
    case Call(c) => c !in s.closers
    case LockClose(c) => CloserAt(s, c, Called) && s.mutex == Nobody
    case SetFlag(c) => CloserAt(s, c, Holding)
    case UnlockClose(c) => CloserAt(s, c, Flagged)
    case Signal(c) => (CloserAt(s, c, Waiting) || CloserAt(s, c, TimedOut)) && c !in s.signalled && s.active == 0
    case Return(c) => CloserAt(s, c, Waiting) && c in s.signalled
    case Timeout(c) => CloserAt(s, c, Waiting)
  }

  function Move(s: State, h: nat, pc: Handler): State {
    s.(handlers := s.handlers[h := pc])
  }

  function MoveCloser(s: State, c: nat, pc: Closer): State {
    s.(closers := s.closers[c := pc])
  }

  function Next(s: State, step: Step): State
    requires Enabled(s, step)
  {
    match step
    case Arrive(h) => Move(s, h, Arrived)
    case Lock(h) => Move(s, h, Locked).(mutex := ByHandler(h))
    case ReadFlag(h) => Move(s, h, if s.draining then Refusing else Admitted)
    case Add(h) => Move(s, h, Counted).(active := s.active + 1)
    case Unlock(h) => Move(s, h, if s.handlers[h] == Counted then Serving else Rejected).(mutex := Nobody)
    case Done(h) => Move(s, h, Finished).(active := s.active - 1)
    case Call(c) => MoveCloser(s, c, Called)
    case LockClose(c) => MoveCloser(s, c, Holding).(mutex := ByCloser(c))
    case SetFlag(c) => MoveCloser(s, c, Flagged).(draining := true)
    case UnlockClose(c) => MoveCloser(s, c, Waiting).(mutex := Nobody)
    case Signal(c) => s.(signalled := s.signalled + {c})
    case Return(c) => MoveCloser(s, c, Complete)
    case Timeout(c) => MoveCloser(s, c, TimedOut)
  }

  /** Every step of the run is enabled when it comes. */
  predicate Possible(s: State, run: seq<Step>)
    decreases run
  {
    run == [] || (Enabled(s, run[0]) && Possible(Next(s, run[0]), run[1..]))
  }

  function After(s: State, run: seq<Step>): State
    requires Possible(s, run)
    decreases run
  {
    if run == [] then s else After(Next(s, run[0]), run[1..])
  }

  // ---------- the invariant ----------

  /** A request the wait group counts: between its Add and its Done. */
  predicate Tracked(pc: Handler) {
    pc == Counted || pc == Serving
  }

  function InFlight(s: State): set<nat> {
    set h | h in s.handlers && Tracked(s.handlers[h])
  }

  predicate HoldsMutex(pc: Handler) {
    pc == Locked || pc == Admitted || pc == Counted || pc == Refusing
  }

  ghost predicate MutexInv(s: State) {
    && (forall h | h in s.handlers :: HoldsMutex(s.handlers[h]) <==> s.mutex == ByHandler(h))
    && (forall c | c in s.closers :: (s.closers[c] == Holding || s.closers[c] == Flagged) <==> s.mutex == ByCloser(c))
    && (s.mutex.ByHandler? ==> s.mutex.h in s.handlers)
    && (s.mutex.ByCloser? ==> s.mutex.c in s.closers)
  }

  ghost predicate FlagInv(s: State) {
    && (s.draining ==> forall h | h in s.handlers :: s.handlers[h] != Admitted && s.handlers[h] != Counted)
    && (forall c | c in s.closers && s.closers[c] != Called && s.closers[c] != Holding :: s.draining)
    && (forall c | c in s.signalled :: CloserAt(s, c, Waiting) || CloserAt(s, c, TimedOut) || CloserAt(s, c, Complete))
    && (forall c | c in s.closers && s.closers[c] == Complete :: c in s.signalled)
  }

  ghost predicate CountInv(s: State) {
    && s.active == |InFlight(s)|
    && (s.signalled != {} ==> s.active == 0)
  }

  ghost predicate Inv(s: State) {
    MutexInv(s) && FlagInv(s) && CountInv(s)
  }

  lemma MutexKept(s: State, step: Step)
    requires MutexInv(s) && Enabled(s, step)
    ensures MutexInv(Next(s, step))
  {
  }

  predicate IsHandlerStep(step: Step) {
    step.Arrive? || step.Lock? || step.ReadFlag? || step.Add? || step.Unlock? || step.Done?
  }

  lemma FlagKeptByHandler(s: State, step: Step)
    requires MutexInv(s) && FlagInv(s) && Enabled(s, step) && IsHandlerStep(step)
    ensures FlagInv(Next(s, step))
  {
    assert Next(s, step).closers == s.closers && Next(s, step).draining == s.draining;
  }

  lemma FlagKeptByCloser(s: State, step: Step)
    requires MutexInv(s) && FlagInv(s) && Enabled(s, step) && !IsHandlerStep(step)
    ensures FlagInv(Next(s, step))
  {
    assert Next(s, step).handlers == s.handlers;
  }

  lemma FlagKept(s: State, step: Step)
    requires MutexInv(s) && FlagInv(s) && Enabled(s, step)
    ensures FlagInv(Next(s, step))
  {
    hide MutexInv, FlagInv, Enabled, Next;
    if IsHandlerStep(step) {
      FlagKeptByHandler(s, step);
    } else {
      FlagKeptByCloser(s, step);
    }
  }

  /** How a step changes the set of tracked requests. */
  lemma InFlightStep(s: State, step: Step)
    requires Enabled(s, step)
    ensures InFlight(Next(s, step)) ==
            match step
            case Add(h) => InFlight(s) + {h}
            case Done(h) => InFlight(s) - {h}
            case _ => InFlight(s)
  {
    var t := Next(s, step);
    match step
    case Arrive(h) => assert forall g | g != h :: g in t.handlers <==> g in s.handlers;
    case _ =>
  }

  lemma CountKept(s: State, step: Step)
    requires FlagInv(s) && CountInv(s) && Enabled(s, step)
    ensures CountInv(Next(s, step))
  {
    hide InFlight, MutexInv;
    InFlightStep(s, step);
    match step
    case Add(h) => NotTracked(s, h);
    case Done(h) => IsTracked(s, h);
    case _ =>
  }

  lemma NotTracked(s: State, h: nat)
    requires HandlerAt(s, h, Admitted)
    ensures h !in InFlight(s)
  {
  }

  lemma IsTracked(s: State, h: nat)
    requires HandlerAt(s, h, Serving)
    ensures h in InFlight(s)
  {
  }

  lemma InvKept(s: State, step: Step)
    requires Inv(s) && Enabled(s, step)
    ensures Inv(Next(s, step))
  {
    hide MutexInv, FlagInv, CountInv, Enabled, Next;
    MutexKept(s, step);
    FlagKept(s, step);
    CountKept(s, step);
  }

  /** In every state any interleaving of requests and shutdowns can reach, the mutex has one holder, the wait
      group counts exactly the tracked requests, and a signalled waiter means there are none. */
  lemma {:induction false} ReachableInv(s: State, run: seq<Step>)
    requires Inv(s) && Possible(s, run)
    ensures Inv(After(s, run))
    decreases run
  {
    hide Inv, Enabled, Next;
    if run != [] {
      InvKept(s, run[0]);
      ReachableInv(Next(s, run[0]), run[1..]);
    }
  }

  lemma StartInv()
    ensures Inv(START)
  {
  }

  /** The state after a run from the start. */
  function Reached(run: seq<Step>): State
    requires Possible(START, run)
  {
    After(START, run)
  }

  // ---------- safety ----------

  lemma DrainingStep(s: State, step: Step)
    requires Inv(s) && s.draining && Enabled(s, step)
    ensures var t := Next(s, step);
            t.draining && InFlight(t) <= InFlight(s) && t.active == s.active - (if step.Done? then 1 else 0)
    ensures s.signalled <= Next(s, step).signalled
  {
    hide InFlight, MutexInv;
    InFlightStep(s, step);
  }

  function Finishes(run: seq<Step>): nat {
    if run == [] then 0 else (if run[0].Done? then 1 else 0) + Finishes(run[1..])
  }

  /** From the moment the flag is set, no request is ever admitted again and every finished one counts down:
      the count is what it was less the requests that finished since. */
  lemma {:induction false} DrainCountsDown(s: State, run: seq<Step>)
    requires Inv(s) && s.draining && Possible(s, run)
    ensures var t := After(s, run);
            && t.draining && InFlight(t) <= InFlight(s) && s.signalled <= t.signalled
            && s.active == t.active + Finishes(run) && t.active >= 0
    decreases run
  {
    hide InFlight, MutexInv, FlagInv, Enabled, Next;
    if run != [] {
      DrainingStep(s, run[0]);
      InvKept(s, run[0]);
      DrainCountsDown(Next(s, run[0]), run[1..]);
    }
  }

  lemma {:induction false} AfterSplit(s: State, first: seq<Step>, rest: seq<Step>)
    requires Possible(s, first + rest)
    ensures Possible(s, first) && Possible(After(s, first), rest)
    ensures After(s, first + rest) == After(After(s, first), rest)
    decreases first
  {
    if first == [] {
      assert first + rest == rest;
    } else {
      assert (first + rest)[1..] == first[1..] + rest;
      AfterSplit(Next(s, first[0]), first[1..], rest);
    }
  }

  /** Over every run from the start: once a waiter has signalled, in that state and in every later one nothing is
      in flight, and `Shutdown` reported a complete drain only after such a signal. */
  lemma SignalIsFinal(first: seq<Step>, rest: seq<Step>)
    requires Possible(START, first + rest)
    ensures Possible(START, first)
    ensures Reached(first).signalled != {} ==>
              InFlight(Reached(first)) == {} && InFlight(Reached(first + rest)) == {}
    ensures forall c | CloserAt(Reached(first), c, Complete) :: InFlight(Reached(first + rest)) == {}
  {
    hide Enabled, Next, InFlight;
    StartInv();
    AfterSplit(START, first, rest);
    ReachableInv(START, first);
    var s := Reached(first);
    if s.signalled != {} {
      var c :| c in s.signalled;
      assert s.draining;
      DrainCountsDown(s, rest);
    }
  }

  /** The wait group is used as its documentation demands: Add is called only while no waiter has started. */
  lemma AddBeforeWait(run: seq<Step>, h: nat)
    requires Possible(START, run) && Enabled(Reached(run), Add(h))
    ensures !Reached(run).draining
    ensures forall c | c in Reached(run).closers :: Reached(run).closers[c] == Called
  {
    StartInv();
    ReachableInv(START, run);
  }

  // ---------- progress ----------

  /** A step of a thread that is already there: no arrival, no deadline. */
  predicate Proper(step: Step) {
    !step.Arrive? && !step.Call? && !step.Timeout?
  }

  predicate HandlerOver(pc: Handler) {
    pc == Finished || pc == Rejected
  }

  /** Its caller has returned, and its waiter goroutine has ended. */
  predicate CloserOver(s: State, c: nat)
    requires c in s.closers
  {
    s.closers[c] == Complete || (s.closers[c] == TimedOut && c in s.signalled)
  }

  /** The step that the holder of the mutex can always take. */
  lemma HolderMoves(s: State) returns (step: Step)
    requires Inv(s) && s.mutex != Nobody
    ensures Enabled(s, step) && Proper(step)
  {
    match s.mutex
    case ByHandler(h) =>
      step := if s.handlers[h] == Locked then ReadFlag(h) else if s.handlers[h] == Admitted then Add(h) else Unlock(h);
    case ByCloser(c) =>
      step := if s.closers[c] == Holding then SetFlag(c) else UnlockClose(c);
  }

  /** No interleaving deadlocks: while a request or a shutdown is unfinished, some thread already there can step. */
  lemma NeverStuck(run: seq<Step>) returns (step: Step)
    requires Possible(START, run)
    requires (exists h | h in Reached(run).handlers :: !HandlerOver(Reached(run).handlers[h])) ||
             (exists c | c in Reached(run).closers :: !CloserOver(Reached(run), c))
    ensures Enabled(Reached(run), step) && Proper(step)
  {
    StartInv();
    ReachableInv(START, run);
    var s := Reached(run);
    if s.mutex != Nobody {
      step := HolderMoves(s);
    } else if h :| h in s.handlers && !HandlerOver(s.handlers[h]) {
      step := if s.handlers[h] == Arrived then Lock(h) else Done(h);
    } else {
      var c :| c in s.closers && !CloserOver(s, c);
      assert InFlight(s) == {};
      step := if s.closers[c] == Called then LockClose(c) else if c in s.signalled then Return(c) else Signal(c);
    }
  }

  /** Steps a request has left at most. */
  function HandlerWork(pc: Handler): nat {
    match pc
    case Arrived => 5
    case Locked => 4
    case Admitted => 3
    case Counted => 2
    case Serving => 1
    case Refusing => 1
    case _ => 0
  }

  /** Steps a shutdown and its waiter have left at most. */
  function CloserWork(pc: Closer, signalled: bool): nat {
    match pc
    case Called => 5
    case Holding => 4
    case Flagged => 3
    case Waiting => if signalled then 1 else 2
    case TimedOut => if signalled then 0 else 1
    case Complete => 0
  }

  function HandlersLeft(s: State): set<(nat, nat)> {
    set h, k: nat | h in s.handlers && k < HandlerWork(s.handlers[h]) :: (h, k)
  }

  function ClosersLeft(s: State): set<(nat, nat)> {
    set c, k: nat | c in s.closers && k < CloserWork(s.closers[c], c in s.signalled) :: (c, k)
  }

  /** The work of all threads together. */
  function Work(s: State): nat {
    |HandlersLeft(s)| + |ClosersLeft(s)|
  }

  lemma {:induction false} SmallerSet<T>(a: set<T>, b: set<T>)
    requires a <= b
    ensures |a| <= |b| && (a != b ==> |a| < |b|)
  {
    if a != b {
      var x :| x in b && x !in a;
      SmallerSet(a, b - {x});
    }
  }

  lemma HandlerWorks(s: State, step: Step)
    requires MutexInv(s) && Enabled(s, step) && Proper(step) && IsHandlerStep(step)
    ensures Work(Next(s, step)) < Work(s)
  {
    var t := Next(s, step);
    var h := match step case Lock(h) => h case ReadFlag(h) => h case Add(h) => h case Unlock(h) => h case Done(h) => h;
    var n := HandlerWork(t.handlers[h]);
    assert n < HandlerWork(s.handlers[h]);
    assert forall g | g in t.handlers :: g in s.handlers && HandlerWork(t.handlers[g]) <= HandlerWork(s.handlers[g]);
    assert HandlersLeft(t) <= HandlersLeft(s);
    assert (h, n) in HandlersLeft(s) && (h, n) !in HandlersLeft(t);
    SmallerSet(HandlersLeft(t), HandlersLeft(s));
    assert ClosersLeft(t) == ClosersLeft(s);
  }

  lemma CloserWorks(s: State, step: Step)
    requires FlagInv(s) && Enabled(s, step) && Proper(step) && !IsHandlerStep(step)
    ensures Work(Next(s, step)) < Work(s)
  {
    hide Work, HandlersLeft, ClosersLeft;
    var t := Next(s, step);
    var c := match step
             case LockClose(c) => c case SetFlag(c) => c case UnlockClose(c) => c case Signal(c) => c case Return(c) => c;
    forall g | g in t.closers && g != c
      ensures g in s.closers && CloserWork(t.closers[g], g in t.signalled) == CloserWork(s.closers[g], g in s.signalled)
    {}
    LessForOne(s, t, c);
  }

  lemma LessForOne(s: State, t: State, c: nat)
    requires t.handlers == s.handlers && c in s.closers && c in t.closers
    requires CloserWork(t.closers[c], c in t.signalled) < CloserWork(s.closers[c], c in s.signalled)
    requires forall g | g in t.closers && g != c ::
               g in s.closers && CloserWork(t.closers[g], g in t.signalled) == CloserWork(s.closers[g], g in s.signalled)
    ensures Work(t) < Work(s)
  {
    hide CloserWork;
    var n := CloserWork(t.closers[c], c in t.signalled);
    assert ClosersLeft(t) <= ClosersLeft(s);
    assert (c, n) in ClosersLeft(s) && (c, n) !in ClosersLeft(t);
    SmallerSet(ClosersLeft(t), ClosersLeft(s));
    assert HandlersLeft(t) == HandlersLeft(s);
  }

  /** Without new arrivals and deadlines, every run comes to an end: each step uses up some of the work there is. */
  lemma {:induction false} RunsEnd(s: State, run: seq<Step>)
    requires Inv(s) && Possible(s, run) && forall step | step in run :: Proper(step)
    ensures |run| + Work(After(s, run)) <= Work(s)
    decreases run
  {
    hide MutexInv, FlagInv, CountInv, Enabled, Next, Work, Proper, IsHandlerStep;
    if run != [] {
      var step := run[0];
      assert step in run;
      if IsHandlerStep(step) {
        HandlerWorks(s, step);
      } else {
        CloserWorks(s, step);
      }
      InvKept(s, step);
      RunsEnd(Next(s, step), run[1..]);
    }
  }

  /** And where it ends, every request has been answered and every shutdown has returned, its waiter with it. */
  lemma EndsDrained(run: seq<Step>)
    requires Possible(START, run)
    requires forall step | Proper(step) :: !Enabled(Reached(run), step)
    ensures forall h | h in Reached(run).handlers :: HandlerOver(Reached(run).handlers[h])
    ensures forall c | c in Reached(run).closers :: CloserOver(Reached(run), c)
  {
    hide Enabled, Possible, After, Proper, CloserOver, HandlerOver;
    var s := Reached(run);
    if (exists h | h in s.handlers :: !HandlerOver(s.handlers[h])) || (exists c | c in s.closers :: !CloserOver(s, c)) {
      var step := NeverStuck(run);
      assert false;
    }
  }

  // ---------- the gateway's own code ----------

  lemma {:induction false} Extended(s: State, first: seq<Step>, rest: seq<Step>)
    requires Possible(s, first) && Possible(After(s, first), rest)
    ensures Possible(s, first + rest) && After(s, first + rest) == After(After(s, first), rest)
    decreases first
  {
    hide Enabled, Next;
    if first == [] {
      assert first + rest == rest;
    } else {
      assert (first + rest)[1..] == first[1..] + rest;
      Extended(Next(s, first[0]), first[1..], rest);
    }
  }

  lemma OneStep(s: State, step: Step, rest: seq<Step>)
    requires Enabled(s, step) && Possible(Next(s, step), rest)
    ensures Possible(s, [step] + rest) && After(s, [step] + rest) == After(Next(s, step), rest)
  {
    hide Enabled, Next;
    assert ([step] + rest)[1..] == rest;
  }

  /** What `track` does while it holds the mutex. */
  function TrackSteps(h: nat, refuse: bool): seq<Step> {
    [Lock(h)] + ([ReadFlag(h)] + ((if refuse then [] else [Add(h)]) + ([Unlock(h)] + [])))
  }

  lemma TrackRuns(s: State, h: nat)
    requires HandlerAt(s, h, Arrived) && s.mutex == Nobody
    ensures Possible(s, TrackSteps(h, s.draining))
    ensures After(s, TrackSteps(h, s.draining)) ==
            s.(handlers := s.handlers[h := if s.draining then Rejected else Serving],
               active := s.active + if s.draining then 0 else 1)
  {
    hide Possible, After;
    var s1 := Next(s, Lock(h));
    var s2 := Next(s1, ReadFlag(h));
    var s3 := if s.draining then s2 else Next(s2, Add(h));
    var s4 := Next(s3, Unlock(h));
    Nothing(s4);
    OneStep(s3, Unlock(h), []);
    if s.draining {
      assert [] + ([Unlock(h)] + []) == [Unlock(h)] + [];
    } else {
      OneStep(s2, Add(h), [Unlock(h)] + []);
    }
    OneStep(s1, ReadFlag(h), (if s.draining then [] else [Add(h)]) + ([Unlock(h)] + []));
    OneStep(s, Lock(h), [ReadFlag(h)] + ((if s.draining then [] else [Add(h)]) + ([Unlock(h)] + [])));
  }

  lemma Nothing(s: State)
    ensures Possible(s, []) && After(s, []) == s
  {
  }

  function CloseSteps(c: nat): seq<Step> {
    [LockClose(c)] + ([SetFlag(c)] + ([UnlockClose(c)] + []))
  }

  lemma CloseRuns(s: State, c: nat)
    requires CloserAt(s, c, Called) && s.mutex == Nobody
    ensures Possible(s, CloseSteps(c))
    ensures After(s, CloseSteps(c)) == s.(closers := s.closers[c := Waiting], draining := true)
  {
    hide Possible, After;
    var s1 := Next(s, LockClose(c));
    var s2 := Next(s1, SetFlag(c));
    var s3 := Next(s2, UnlockClose(c));
    Nothing(s3);
    OneStep(s2, UnlockClose(c), []);
    OneStep(s1, SetFlag(c), [UnlockClose(c)] + []);
    OneStep(s, LockClose(c), [SetFlag(c)] + ([UnlockClose(c)] + []));
  }

  /** The gateway's fields, with the run of steps that led to them. Each method is one stretch of `track` or
      `Shutdown` that no other thread can get into. */
  class Gateway {
    var draining: bool
    var active: int
    ghost var run: seq<Step>

    ghost predicate Valid()
      reads this
    {
      Possible(START, run) && Reached(run).mutex == Nobody
      && Reached(run).draining == draining && Reached(run).active == active
    }

    constructor ()
      ensures Valid() && run == []
    {
      draining, active, run := false, 0, [];
    }

    /** A request or a shutdown turns up, as the first thing `Enter` and `Close` record. */
    ghost method Appear(step: Step)
      requires Valid() && Enabled(Reached(run), step) && (step.Arrive? || step.Call?)
      modifies `run
      ensures Valid() && run == old(run) + [step]
      ensures Reached(run) == Next(old(Reached(run)), step)
    {
      hide Possible, After;
      Nothing(Next(Reached(run), step));
      OneStep(Reached(run), step, []);
      assert [step] + [] == [step];
      Extended(START, run, [step]);
      run := run + [step];
    }

    /** `track` up to the wrapped handler: false means the request is answered 503. */
    method Enter(h: nat) returns (admitted: bool)
      requires Valid() && h !in Reached(run).handlers
      modifies this
      ensures Valid() && run == old(run) + [Arrive(h)] + TrackSteps(h, !admitted)
      ensures admitted <==> !old(draining)
      ensures HandlerAt(Reached(run), h, if admitted then Serving else Rejected)
    {
      hide Possible, After;
      Appear(Arrive(h));
      TrackRuns(Reached(run), h);
      Extended(START, run, TrackSteps(h, draining));
      run := run + TrackSteps(h, draining);
      if draining {
        return false;
      }
      active := active + 1;
      admitted := true;
    }

    /** The deferred `Done`; a wait group whose count fell below zero would panic. */
    method Leave(h: nat)
      requires Valid() && HandlerAt(Reached(run), h, Serving)
      modifies this
      ensures Valid() && run == old(run) + [Done(h)] && active == old(active) - 1 >= 0
    {
      hide Possible, After;
      Nothing(Next(Reached(run), Done(h)));
      OneStep(Reached(run), Done(h), []);
      assert [Done(h)] + [] == [Done(h)];
      Extended(START, run, [Done(h)]);
      Settled(run + [Done(h)]);
      active := active - 1;
      run := run + [Done(h)];
    }

    /** `Shutdown` up to the start of its waiter. */
    method Close(c: nat)
      requires Valid() && c !in Reached(run).closers
      modifies this
      ensures Valid() && run == old(run) + [Call(c)] + CloseSteps(c) && draining && active == old(active)
      ensures CloserAt(Reached(run), c, Waiting)
    {
      hide Possible, After;
      Appear(Call(c));
      CloseRuns(Reached(run), c);
      Extended(START, run, CloseSteps(c));
      draining := true;
      run := run + CloseSteps(c);
    }

    /** The select that ends `Shutdown`: it can take the deadline, or, when the count is zero, the waiter's signal.
        A drain that is reported complete is: nothing is in flight. */
    method Await(c: nat, deadline: bool) returns (complete: bool)
      requires Valid() && CloserAt(Reached(run), c, Waiting) && c !in Reached(run).signalled
      requires deadline || active == 0
      modifies this
      ensures Valid() && draining == old(draining) && active == old(active)
      ensures complete <==> !deadline
      ensures CloserAt(Reached(run), c, if complete then Complete else TimedOut)
      ensures complete ==> InFlight(Reached(run)) == {}
    {
      hide Possible, After, InFlight;
      var s := Reached(run);
      ghost var steps := if deadline then [Timeout(c)] + [] else [Signal(c)] + ([Return(c)] + []);
      if deadline {
        Nothing(Next(s, Timeout(c)));
        OneStep(s, Timeout(c), []);
      } else {
        var s1 := Next(s, Signal(c));
        Nothing(Next(s1, Return(c)));
        OneStep(s1, Return(c), []);
        OneStep(s, Signal(c), [Return(c)] + []);
      }
      Extended(START, run, steps);
      run := run + steps;
      Settled(run);
      complete := !deadline;
    }
  }

  /** What every reachable state owes to the invariant. */
  lemma Settled(run: seq<Step>)
    requires Possible(START, run)
    ensures Reached(run).active >= 0 && (Reached(run).signalled != {} ==> InFlight(Reached(run)) == {})
  {
    hide Possible, After, MutexInv, FlagInv, Enabled, Next, InFlight;
    StartInv();
    ReachableInv(START, run);
  }
}
