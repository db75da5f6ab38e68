/** Any number of refreshes interleaved, SQL statement by statement, with each other and with every other use of the
    vault (credential/oauth/generic/oauth.go, `RefreshProfile`; credential/store/sqlite.go). */
module RefreshRuns {
  import opened Text
  import opened Payload
  import opened Store
  import opened Refinement
  import opened Refresh
  import D = Statements

  /** A refresh that has read its credential and got its answer. `current` is the number of its update while one is
      under way. */
  datatype Job = Job(profile: string, mat: Material, tries: nat, current: Option<nat>)

  /** The database, and the refreshes in flight by number; numbers are handed out in the order of the reads. */
  datatype System = System(db: D.Database, jobs: map<nat, Job>, next: nat)

  datatype Step =
    | Read(profile: string, answer: Answer, now: int)
    | Attempt(job: nat, ok: bool, now: int)   // the SELECT of a refresh's update, which may fail
    | GiveUp(job: nat)                        // its caller has given up
    | Other(op: Op, now: int)                 // the first statement of someone else's operation
    | Proceed(id: nat, now: int)              // the next statement of an operation, a refresh's update included
    | Break(id: nat)                          // which fails instead

  predicate MayAttempt(s: System, j: nat) {
    j in s.jobs && s.jobs[j].current.None? && s.jobs[j].tries < ATTEMPTS
  }

  /** The statement a step runs, if it runs one. */
  function StmtOf(s: System, step: Step): Option<D.Statement> {
    match step
    case Read(_, _, _) => None
    case GiveUp(_) => None
    case Attempt(j, ok, now) =>
      if ok && MayAttempt(s, j) then Some(D.Begin(UpdateOAuth(s.jobs[j].profile, s.jobs[j].mat), Some(j), now)) else None
    case Other(op, now) => Some(D.Begin(op, None, now))
    case Proceed(o, now) => Some(D.Go(o, now))
    case Break(o) => Some(D.Stop(o))
  }

  /** After a failed attempt, there is another unless it was the last. */
  function Again(jobs: map<nat, Job>, j: nat, tries: nat): map<nat, Job>
    requires j in jobs
  {
    if tries >= ATTEMPTS then jobs - {j} else jobs[j := jobs[j].(tries := tries, current := None)]
  }

  /** The refreshes in flight after a step. */
  function JobsAfter(s: System, step: Step): map<nat, Job> {
    match step
    case Read(profile, answer, now) =>
      (match Prepared(s.db.vault, profile, answer, now)
       case Err(_) => s.jobs
       case Ok(mat) => s.jobs[s.next := Job(profile, mat, 0, None)])
    case Attempt(j, ok, now) =>
      if !MayAttempt(s, j) then s.jobs
      else if ok && NewestOAuth(s.db.vault.rows, s.jobs[j].profile).Some? then
        s.jobs[j := s.jobs[j].(tries := s.jobs[j].tries + 1, current := Some(s.db.next))]
      else Again(s.jobs, j, s.jobs[j].tries + 1)
    case GiveUp(j) => if j in s.jobs && s.jobs[j].current.None? then s.jobs - {j} else s.jobs
    case Other(_, _) => s.jobs
    case Proceed(o, _) =>
      if o in s.db.ops && s.db.ops[o].Written? && s.db.ops[o].job.Some? then s.jobs - {s.db.ops[o].job.value} else s.jobs
    case Break(o) =>
      if o in s.db.ops && s.db.ops[o].job.Some? && s.db.ops[o].job.value in s.jobs
      then Again(s.jobs, s.db.ops[o].job.value, s.jobs[s.db.ops[o].job.value].tries) else s.jobs
  }

  function Next(s: System, step: Step): System {
    System(match StmtOf(s, step) case None => s.db case Some(stmt) => D.Exec(s.db, stmt),
           JobsAfter(s, step),
           if step.Read? && Prepared(s.db.vault, step.profile, step.answer, step.now).Ok? then s.next + 1 else s.next)
  }

  function After(s: System, steps: seq<Step>): System {
    if steps == [] then s else Next(After(s, steps[..|steps| - 1]), steps[|steps| - 1])
  }

  ghost predicate Sound(s: System) {
    && D.Sound(s.db)
    && (forall j | j in s.jobs :: j < s.next)
    && (forall o | o in s.db.ops && s.db.ops[o].job.Some? :: s.db.ops[o].job.value < s.next)
  }

  /** How the operations in progress change: one may begin, one may go on or end. */
  lemma OpsAfter(s: System, step: Step, o: nat)
    requires Sound(s) && o in Next(s, step).db.ops
    ensures var p := Next(s, step).db.ops[o];
            if o in s.db.ops then p.job == s.db.ops[o].job && (p.Chosen? ==> p == s.db.ops[o])
            else StmtOf(s, step).Some? && StmtOf(s, step).value.Begin? && p.job == StmtOf(s, step).value.job
                 && (p.Chosen? ==> StmtOf(s, step).value.op.UpdateOAuth? && p.mat == StmtOf(s, step).value.op.mat
                                   && NewestOAuth(s.db.vault.rows, StmtOf(s, step).value.op.profile) == Some(p.row))
  {
    hide Last, EncodeOAuth, EncodeApiKey, Prepared, JobsAfter;
  }

  lemma NextSound(s: System, step: Step)
    requires Sound(s)
    ensures Sound(Next(s, step)) && s.next <= Next(s, step).next
  {
    hide Prepared, D.Exec, D.Sound;
    if StmtOf(s, step).Some? {
      D.ExecSound(s.db, StmtOf(s, step).value);
    }
    var t := Next(s, step);
    forall o | o in t.db.ops && t.db.ops[o].job.Some? ensures t.db.ops[o].job.value < t.next {
      OpsAfter(s, step, o);
    }
  }

  /** A job in flight after a step was in flight before it, with the same profile and material, or the step read it. */
  lemma NextJobs(s: System, step: Step, j: nat)
    requires Sound(s) && j in JobsAfter(s, step)
    ensures var job := JobsAfter(s, step)[j];
            if j in s.jobs then job.profile == s.jobs[j].profile && job.mat == s.jobs[j].mat
            else j == s.next && step.Read? && step.profile == job.profile
                 && Prepared(s.db.vault, step.profile, step.answer, step.now) == Ok(job.mat)
  {
    hide Prepared;
  }

  lemma OneMoreStep(s: System, steps: seq<Step>, k: nat)
    requires k < |steps|
    ensures After(s, steps[..k + 1]) == Next(After(s, steps[..k]), steps[k])
  {
    hide Next;
    assert steps[..k + 1][..k] == steps[..k];
  }

  // ---------- what a statement does to a row ----------

  /** The statement writes row `i`: a disable by its id, or an update that has selected it. */
  predicate WritesRow(d: D.Database, s: D.Statement, i: nat) {
    match s
    case Begin(Disable(id, _), _, _) => ById(d.vault.rows, id) == Some(i)
    case Go(o, _) => o in d.ops && d.ops[o].Chosen? && d.ops[o].row == i < |d.vault.rows|
    case _ => false
  }

  lemma ExecGrows(d: D.Database, s: D.Statement)
    ensures Grown(d.vault, D.Exec(d, s).vault) && |D.Exec(d, s).vault.rows| <= |d.vault.rows| + 1
    ensures |D.Exec(d, s).vault.rows| > |d.vault.rows| <==> s.Begin? && (s.op.PutApiKey? || s.op.PutOAuth?)
  {
    hide Last, EncodeOAuth, EncodeApiKey;
  }

  /** An update's write replaces the whole credential in the row its SELECT chose, and enables it; no other row changes.
      A login stored in a newer row since the SELECT is not touched. */
  lemma ExecWrites(d: D.Database, s: D.Statement, i: nat)
    requires i < |d.vault.rows|
    ensures i < |D.Exec(d, s).vault.rows|
    ensures var w := D.Exec(d, s).vault;
            if !WritesRow(d, s, i) then w.rows[i] == d.vault.rows[i]
            else if s.Begin? then w.rows[i].disabledCause == s.op.cause && w.rows[i].data == d.vault.rows[i].data
            else w.rows[i].disabledCause == "" && w.rows[i].data == EncodeOAuth(d.ops[s.id].mat)
  {
    hide Last, EncodeOAuth, EncodeApiKey;
  }

  lemma NextGrows(s: System, step: Step)
    ensures Grown(s.db.vault, Next(s, step).db.vault)
  {
    hide D.Exec, JobsAfter, Prepared;
    if StmtOf(s, step).Some? {
      ExecGrows(s.db, StmtOf(s, step).value);
    }
  }

  // ---------- a refresh alone is a run of steps ----------

  lemma {:induction false} AfterAppend(s: System, first: seq<Step>, rest: seq<Step>)
    ensures After(s, first + rest) == After(After(s, first), rest)
    decreases rest
  {
    hide Next;
    if rest == [] {
      assert first + rest == first;
    } else {
      var n := |rest| - 1;
      AfterAppend(s, first, rest[..n]);
      assert (first + rest)[..|first + rest| - 1] == first + rest[..n];
    }
  }

  lemma AfterFew(s: System, a: Step, b: Step, c: Step)
    ensures After(s, []) == s && After(s, [a]) == Next(s, a)
    ensures After(s, [a, b]) == Next(Next(s, a), b)
    ensures After(s, [a, b, c]) == Next(Next(Next(s, a), b), c)
  {
    hide Next;
    assert [a][..0] == [] && [a, b][..1] == [a] && [a, b, c][..2] == [a, b];
  }

  function StepOf(stmt: D.Statement): Step {
    match stmt
    case Begin(op, _, now) => Other(op, now)
    case Go(o, now) => Proceed(o, now)
    case Stop(o) => Break(o)
  }

  function StepsFor(stmts: seq<D.Statement>): seq<Step> {
    seq(|stmts|, k requires 0 <= k < |stmts| => StepOf(stmts[k]))
  }

  /** The statement has nothing to do with a refresh. */
  predicate Foreign(d: D.Database, stmt: D.Statement) {
    match stmt
    case Begin(_, job, _) => job.None?
    case Go(o, _) => o in d.ops ==> d.ops[o].job.None?
    case Stop(o) => o in d.ops ==> d.ops[o].job.None?
  }

  lemma ForeignStep(s: System, stmt: D.Statement)
    requires Foreign(s.db, stmt)
    ensures Next(s, StepOf(stmt)) == s.(db := D.Exec(s.db, stmt))
  {
    hide D.Exec;
  }

  lemma {:induction false} ForeignRun(s: System, stmts: seq<D.Statement>)
    requires forall k | 0 <= k < |stmts| :: Foreign(D.Run(s.db, stmts[..k]), stmts[k])
    ensures After(s, StepsFor(stmts)) == s.(db := D.Run(s.db, stmts))
  {
    hide D.Exec, Next, Foreign;
    if stmts != [] {
      var n := |stmts| - 1;
      forall k | 0 <= k < n ensures Foreign(D.Run(s.db, stmts[..n][..k]), stmts[..n][k]) {
        assert stmts[..n][..k] == stmts[..k];
      }
      ForeignRun(s, stmts[..n]);
      ForeignStep(s.(db := D.Run(s.db, stmts[..n])), stmts[n]);
      assert StepsFor(stmts)[..n] == StepsFor(stmts[..n]);
    }
  }

  /** A whole operation of someone else, none of whose statements anything comes between. */
  lemma CallIsARun(s: System, c: FaultyCall)
    ensures After(s, StepsFor(D.StatementsOf(s.db, c))) == s.(db := D.Run(s.db, D.StatementsOf(s.db, c)))
  {
    hide D.Exec, After, D.Run, D.StatementsOf;
    OwnOp(s.db, c);
    ForeignRun(s, D.StatementsOf(s.db, c));
  }

  /** The operation such a call begins is nobody's refresh. */
  lemma OwnOp(d: D.Database, c: FaultyCall)
    ensures var stmts := D.StatementsOf(d, c);
            forall k | 0 <= k < |stmts| :: Foreign(D.Run(d, stmts[..k]), stmts[k])
  {
    hide Last, EncodeOAuth, EncodeApiKey, D.Run;
    var stmts := D.StatementsOf(d, c);
    forall k | 0 <= k < |stmts| ensures Foreign(D.Run(d, stmts[..k]), stmts[k]) {
      D.NoStatements(d);
      assert stmts[..0] == [];
      if k > 0 {
        D.RunOne(d, stmts[0]);
        assert stmts[..1] == [stmts[0]];
      }
      if k > 1 {
        D.OneMore(d, stmts, 1);
      }
    }
  }

  /** Whole operations of others, one after the other. */
  function Others(s: System, calls: seq<FaultyCall>): seq<Step> {
    if calls == [] then []
    else
      var front := Others(s, calls[..|calls| - 1]);
      front + StepsFor(D.StatementsOf(After(s, front).db, calls[|calls| - 1]))
  }

  lemma {:induction false} OthersRun(s: System, calls: seq<FaultyCall>)
    requires Sound(s)
    ensures var t := After(s, Others(s, calls));
            && Sound(t) && t.db.vault == History(s.db.vault, calls) && t.db.ops == s.db.ops
            && t.jobs == s.jobs && t.next == s.next
  {
    hide D.Run, D.Exec, Apply, D.StatementsOf, StepsFor, After;
    if calls == [] {
      AfterFew(s, GiveUp(0), GiveUp(0), GiveUp(0));
    } else {
      var n := |calls| - 1;
      var front := Others(s, calls[..n]);
      OthersRun(s, calls[..n]);
      var u := After(s, front);
      var last := StepsFor(D.StatementsOf(u.db, calls[n]));
      CallIsARun(u, calls[n]);
      D.WholeOperation(u.db, calls[n]);
      D.RunSound(u.db, D.StatementsOf(u.db, calls[n]));
      AfterAppend(s, front, last);
    }
  }

  /** One attempt of a refresh: its SELECT fails, or its UPDATE comes and then its bump or that one's failure. */
  function AttemptSteps(o: nat, j: nat, t: Attempt): seq<Step> {
    if t.fault == BeforeWrite then [Step.Attempt(j, false, t.now)]
    else [Step.Attempt(j, true, t.now), Proceed(o, t.now), if t.fault == NoFault then Proceed(o, t.now) else Break(o)]
  }

  lemma SelectRuns(s: System, j: nat, now: int)
    requires MayAttempt(s, j) && NewestOAuth(s.db.vault.rows, s.jobs[j].profile).Some?
    ensures var job, o := s.jobs[j], s.db.next;
            Next(s, Step.Attempt(j, true, now)) ==
            System(D.Database(s.db.vault,
                              s.db.ops[o := D.Chosen(NewestOAuth(s.db.vault.rows, job.profile).value, job.mat, Some(j))],
                              o + 1),
                   s.jobs[j := job.(tries := job.tries + 1, current := Some(o))], s.next)
  {
    hide Last, EncodeOAuth, EncodeApiKey;
  }

  lemma WriteRuns(s: System, o: nat, now: int)
    requires o in s.db.ops && s.db.ops[o].Chosen? && s.db.ops[o].row < |s.db.vault.rows|
    ensures var p := s.db.ops[o];
            Next(s, Proceed(o, now)) ==
            s.(db := s.db.(vault := Rewritten(s.db.vault, p.row, p.mat, p.mat.email, now), ops := s.db.ops[o := D.Written(p.job)]))
  {
    hide Last, EncodeOAuth, EncodeApiKey;
  }

  lemma EndRuns(s: System, o: nat, j: nat, now: int)
    requires o in s.db.ops && s.db.ops[o] == D.Written(Some(j)) && j in s.jobs
    ensures Next(s, Proceed(o, now)) ==
            s.(db := s.db.(vault := Bumped(s.db.vault, now), ops := s.db.ops - {o}), jobs := s.jobs - {j})
    ensures Next(s, Break(o)) ==
            s.(db := s.db.(ops := s.db.ops - {o}), jobs := Again(s.jobs, j, s.jobs[j].tries))
  {
    hide Last, EncodeOAuth, EncodeApiKey;
  }

  lemma FailRuns(s: System, j: nat, now: int)
    requires MayAttempt(s, j)
    ensures Next(s, Step.Attempt(j, false, now)) == s.(jobs := Again(s.jobs, j, s.jobs[j].tries + 1))
  {
  }

  lemma AttemptRuns(s: System, j: nat, t: Attempt)
    requires Sound(s) && MayAttempt(s, j) && NewestOAuth(s.db.vault.rows, s.jobs[j].profile).Some?
    ensures var job := s.jobs[j];
            var u := After(s, AttemptSteps(s.db.next, j, t));
            && Sound(u)
            && u.db.vault == SqlStep(s.db.vault, UpdateOAuth(job.profile, job.mat), t.now, t.fault).0
            && u.db.ops == s.db.ops && u.next == s.next
            && u.jobs == if t.fault == NoFault then s.jobs - {j} else Again(s.jobs, j, job.tries + 1)
  {
    hide Last, EncodeOAuth, EncodeApiKey, Prepared, After, Next, D.Sound;
    var steps, o := AttemptSteps(s.db.next, j, t), s.db.next;
    assert o !in s.db.ops by { Unused(s.db); }
    if t.fault == BeforeWrite {
      FailRuns(s, j, t.now);
      AfterFew(s, steps[0], steps[0], steps[0]);
      assert steps == [steps[0]];
      NextSound(s, steps[0]);
    } else {
      SelectRuns(s, j, t.now);
      var s1 := Next(s, steps[0]);
      WriteRuns(s1, o, t.now);
      var s2 := Next(s1, steps[1]);
      EndRuns(s2, o, j, t.now);
      AfterFew(s, steps[0], steps[1], steps[2]);
      assert steps == [steps[0], steps[1], steps[2]];
      NextSound(s, steps[0]);
      NextSound(s1, steps[1]);
      NextSound(s2, steps[2]);
      var u := Next(s2, steps[2]);
      assert u.db.ops == s.db.ops;
      SameAgain(s.jobs, s2.jobs, j);
    }
  }

  lemma Unused(d: D.Database)
    requires D.Sound(d)
    ensures d.next !in d.ops
  {
  }

  lemma SameAgain(jobs: map<nat, Job>, later: map<nat, Job>, j: nat)
    requires j in jobs && exists o :: later == jobs[j := jobs[j].(tries := jobs[j].tries + 1, current := Some(o))]
    ensures later - {j} == jobs - {j} && j in later && Again(later, j, later[j].tries) == Again(jobs, j, jobs[j].tries + 1)
  {
  }

  /** What others did before an attempt, and the attempt. */
  function Round(s: System, j: nat, t: Attempt): seq<Step> {
    Others(s, t.before) + AttemptSteps(After(s, Others(s, t.before)).db.next, j, t)
  }

  /** The steps of the write loop: what others did before each attempt, and the attempt, up to the last one made. */
  function StepsOf(s: System, j: nat, attempts: seq<Attempt>): seq<Step>
    decreases attempts
  {
    if attempts == [] then []
    else
      var t := attempts[0];
      var here := Round(s, j, t);
      if t.fault == NoFault then here
      else if t.cancelled then here + [GiveUp(j)]
      else here + StepsOf(After(s, here), j, attempts[1..])
  }

  lemma RoundOnVault(v: Vault, profile: string, mat: Material, t: Attempt)
    requires NewestOAuth(v.rows, profile).Some?
    ensures NewestOAuth(History(v, t.before).rows, profile).Some?
    ensures var step := SqlStep(History(v, t.before), UpdateOAuth(profile, mat), t.now, t.fault);
            NewestOAuth(step.0.rows, profile).Some? && (step.1.Fail? <==> t.fault != NoFault)
  {
    hide Last, History, EncodeOAuth, Decode, SqlStep, Apply;
    var u := History(v, t.before);
    HistoryGrows(v, t.before);
    NewestGrows(v, u, profile);
    UpdateStores(u, profile, mat, FaultyCall(UpdateOAuth(profile, mat), t.now, t.fault));
  }

  lemma RoundRuns(s: System, j: nat, t: Attempt)
    requires Sound(s) && MayAttempt(s, j) && NewestOAuth(s.db.vault.rows, s.jobs[j].profile).Some?
    ensures var job := s.jobs[j];
            var w := After(s, Round(s, j, t));
            var step := SqlStep(History(s.db.vault, t.before), UpdateOAuth(job.profile, job.mat), t.now, t.fault);
            && Sound(w) && w.db.vault == step.0 && (step.1.Fail? <==> t.fault != NoFault)
            && w.db.ops == s.db.ops && w.next == s.next
            && w.jobs == (if t.fault == NoFault then s.jobs - {j} else Again(s.jobs, j, job.tries + 1))
            && NewestOAuth(w.db.vault.rows, job.profile).Some?
  {
    hide NewestOAuth, History, Others, After, AttemptSteps, D.Exec, SqlStep, Sound, Again, Next;
    var job := s.jobs[j];
    var before := Others(s, t.before);
    OthersRun(s, t.before);
    RoundOnVault(s.db.vault, job.profile, job.mat, t);
    var u := After(s, before);
    AttemptRuns(u, j, t);
    AfterAppend(s, before, AttemptSteps(u.db.next, j, t));
  }

  lemma {:induction false} WritesAreSteps(s: System, j: nat, attempts: seq<Attempt>)
    requires Sound(s) && j in s.jobs && s.jobs[j].current == None
    requires attempts != [] && s.jobs[j].tries + |attempts| == ATTEMPTS
    requires NewestOAuth(s.db.vault.rows, s.jobs[j].profile).Some?
    ensures var job := s.jobs[j];
            var u := After(s, StepsOf(s, j, attempts));
            && u.db.vault == Writes(s.db.vault, job.profile, job.mat, attempts).0
            && u.db.ops == s.db.ops && u.jobs == s.jobs - {j} && u.next == s.next
    decreases attempts
  {
    hide Last, History, Round, After, D.Exec, Prepared, SqlStep, Sound;
    var job, t := s.jobs[j], attempts[0];
    RoundRuns(s, j, t);
    var here := Round(s, j, t);
    var w := After(s, here);
    if t.fault != NoFault && t.cancelled {
      AfterFew(w, GiveUp(j), GiveUp(j), GiveUp(j));
      AfterAppend(s, here, [GiveUp(j)]);
    } else if t.fault != NoFault {
      AfterAppend(s, here, StepsOf(w, j, attempts[1..]));
      if |attempts| > 1 {
        WritesAreSteps(w, j, attempts[1..]);
        assert w.jobs - {j} == s.jobs - {j};
      } else {
        AfterFew(w, GiveUp(j), GiveUp(j), GiveUp(j));
        assert attempts[1..] == [];
      }
    }
  }

  /** The method's specification is one of these runs: a read, and then the attempts it made with what others did
      between them. */
  lemma RefreshIsARun(s: System, profile: string, a: Answer, now: int, attempts: Attempts)
    requires Sound(s) && Prepared(s.db.vault, profile, a, now).Ok?
    ensures var read := Read(profile, a, now);
            var u := After(s, [read] + StepsOf(Next(s, read), s.next, attempts));
            && u.db.vault == RefreshStep(s.db.vault, profile, a, now, attempts).0
            && u.db.ops == s.db.ops && u.jobs == s.jobs && u.next == s.next + 1
  {
    hide D.Exec, Prepared, Writes, After, StepsOf, Last, Renewed, Lookup, Stored;
    var read := Read(profile, a, now);
    var t := Next(s, read);
    PreparedFrom(s.db.vault, profile, a, now);
    NextSound(s, read);
    AfterFew(s, read, read, read);
    AfterAppend(s, [read], StepsOf(t, s.next, attempts));
    WritesAreSteps(t, s.next, attempts);
    assert t.jobs - {s.next} == s.jobs;
  }

  // ---------- disabled rows ----------

  predicate Down(v: Vault, i: nat) {
    i < |v.rows| && v.rows[i].disabledCause != ""
  }

  /** Someone else enables row `i`: by a disable without a cause, or by the write of an update that selected it. */
  predicate EnabledByOther(t: System, step: Step, i: nat) {
    match step
    case Other(Disable(id, cause), _) => cause == "" && ById(t.db.vault.rows, id) == Some(i)
    case Proceed(o, _) =>
      o in t.db.ops && t.db.ops[o].Chosen? && t.db.ops[o].row == i < |t.db.vault.rows| && t.db.ops[o].job.None?
    case _ => false
  }

  /** The write of a refresh that had read before number `from` was handed out, and whose SELECT chose row `i`. */
  predicate EnabledByRefresh(t: System, step: Step, from: nat, i: nat) {
    step.Proceed? && step.id in t.db.ops &&
    var p := t.db.ops[step.id];
    p.Chosen? && p.row == i < |t.db.vault.rows| && p.job.Some? && p.job.value < from
  }

  predicate Enabling(t: System, step: Step, from: nat, i: nat) {
    EnabledByOther(t, step, i) || EnabledByRefresh(t, step, from, i)
  }

  /** If row `i` is an OAuth row of the profile, there is a newer one. */
  ghost predicate Misses(v: Vault, profile: string, i: nat)
    requires i < |v.rows|
  {
    OAuthOf(profile).Matches(v.rows[i]) ==>
      NewestOAuth(v.rows, profile).Some? && NewestOAuth(v.rows, profile).value > i
  }

  lemma MissesGrows(v: Vault, w: Vault, profile: string, i: nat)
    requires Grown(v, w) && i < |v.rows| && Misses(v, profile, i)
    ensures Misses(w, profile, i)
  {
    hide Last;
    if OAuthOf(profile).Matches(w.rows[i]) {
      NewestGrows(v, w, profile);
    }
  }

  /** A refresh that reads while row `i` is disabled is not about row `i`. */
  lemma ReadMisses(v: Vault, profile: string, a: Answer, now: int, i: nat)
    requires Down(v, i) && Prepared(v, profile, a, now).Ok?
    ensures Misses(v, profile, i)
  {
    hide Last, Prepared, Renewed, Lookup, Stored;
    PreparedFrom(v, profile, a, now);
  }

  /** No refresh read at or after number `from` is about row `i`, nor has an update of one selected it. */
  ghost predicate LateOnesMiss(t: System, from: nat, i: nat)
    requires i < |t.db.vault.rows|
  {
    && (forall j | j in t.jobs && j >= from :: Misses(t.db.vault, t.jobs[j].profile, i))
    && (forall o | o in t.db.ops && t.db.ops[o].Chosen? && t.db.ops[o].job.Some? && t.db.ops[o].job.value >= from ::
          t.db.ops[o].row != i)
  }

  lemma LateJobsMiss(t: System, step: Step, from: nat, i: nat, j: nat)
    requires Sound(t) && Down(t.db.vault, i) && LateOnesMiss(t, from, i)
    requires j in Next(t, step).jobs && j >= from
    ensures i < |Next(t, step).db.vault.rows| && Misses(Next(t, step).db.vault, Next(t, step).jobs[j].profile, i)
  {
    hide D.Exec, JobsAfter, Last, Prepared, Misses;
    NextGrows(t, step);
    NextJobs(t, step, j);
    if j !in t.jobs {
      ReadMisses(t.db.vault, step.profile, step.answer, step.now, i);
    }
    MissesGrows(t.db.vault, Next(t, step).db.vault, Next(t, step).jobs[j].profile, i);
  }

  lemma LateOpsMiss(t: System, step: Step, from: nat, i: nat, o: nat)
    requires Sound(t) && i < |t.db.vault.rows| && LateOnesMiss(t, from, i)
    requires o in Next(t, step).db.ops
    ensures var p := Next(t, step).db.ops[o];
            p.Chosen? && p.job.Some? && p.job.value >= from ==> p.row != i
  {
    hide Next, Last, Prepared;
    OpsAfter(t, step, o);
  }

  lemma StaysDownOneStep(t: System, step: Step, from: nat, i: nat)
    requires Sound(t) && from <= t.next && Down(t.db.vault, i) && LateOnesMiss(t, from, i)
    requires !Enabling(t, step, from, i)
    ensures Sound(Next(t, step)) && from <= Next(t, step).next
    ensures Down(Next(t, step).db.vault, i) && LateOnesMiss(Next(t, step), from, i)
  {
    hide JobsAfter, Last, Prepared, D.Exec, Misses, Sound;
    var u := Next(t, step);
    NextSound(t, step);
    StaysDownItself(t, step, from, i);
    forall j | j in u.jobs && j >= from ensures Misses(u.db.vault, u.jobs[j].profile, i) {
      LateJobsMiss(t, step, from, i, j);
    }
    forall o | o in u.db.ops && u.db.ops[o].Chosen? && u.db.ops[o].job.Some? && u.db.ops[o].job.value >= from
      ensures u.db.ops[o].row != i
    {
      LateOpsMiss(t, step, from, i, o);
    }
  }

  lemma StaysDownItself(t: System, step: Step, from: nat, i: nat)
    requires Down(t.db.vault, i) && LateOnesMiss(t, from, i) && !Enabling(t, step, from, i)
    ensures Down(Next(t, step).db.vault, i)
  {
    hide JobsAfter, Last, Prepared, D.Exec, Misses;
    if StmtOf(t, step).Some? {
      ExecWrites(t.db, StmtOf(t, step).value, i);
    }
  }

  lemma {:induction false} StaysDown(s: System, steps: seq<Step>, i: nat)
    requires Sound(s) && Down(s.db.vault, i)
    requires forall k | 0 <= k < |steps| :: !Enabling(After(s, steps[..k]), steps[k], s.next, i)
    ensures var t := After(s, steps);
            Sound(t) && s.next <= t.next && Down(t.db.vault, i) && LateOnesMiss(t, s.next, i)
  {
    hide Enabling, Next, LateOnesMiss, Sound;
    if steps == [] {
      NoneLate(s, i);
    } else {
      var n := |steps| - 1;
      forall k | 0 <= k < n ensures !Enabling(After(s, steps[..n][..k]), steps[..n][k], s.next, i) {
        assert steps[..n][..k] == steps[..k];
      }
      StaysDown(s, steps[..n], i);
      StaysDownOneStep(After(s, steps[..n]), steps[n], s.next, i);
    }
  }

  lemma NoneLate(s: System, i: nat)
    requires Sound(s) && i < |s.db.vault.rows|
    ensures LateOnesMiss(s, s.next, i)
  {
  }

  lemma EnablingEnables(t: System, step: Step, from: nat, i: nat)
    requires i < |t.db.vault.rows| && Enabling(t, step, from, i)
    ensures !Down(Next(t, step).db.vault, i)
  {
    hide JobsAfter, Last, Prepared, D.Exec;
    ExecWrites(t.db, StmtOf(t, step).value, i);
  }

  /** Over every interleaving of the statements of refreshes and of other operations, with any failures: a disabled row
      is ever enabled again exactly when someone else enables it, or a refresh that had already read its credential
      when the row was disabled writes the row its SELECT chose, and that is this one. A refresh that reads later
      never enables it. */
  lemma EnabledIff(s: System, steps: seq<Step>, i: nat)
    requires Sound(s) && Down(s.db.vault, i)
    ensures (exists n | 0 <= n <= |steps| :: !Down(After(s, steps[..n]).db.vault, i)) <==>
            exists k | 0 <= k < |steps| :: Enabling(After(s, steps[..k]), steps[k], s.next, i)
  {
    hide Enabling, Down, Next, Sound;
    if k :| 0 <= k < |steps| && Enabling(After(s, steps[..k]), steps[k], s.next, i) {
      RunGrows(s, steps[..k], i);
      EnablingEnables(After(s, steps[..k]), steps[k], s.next, i);
      OneMoreStep(s, steps, k);
    }
    if n :| 0 <= n <= |steps| && !Down(After(s, steps[..n]).db.vault, i) {
      if forall k | 0 <= k < |steps| :: !Enabling(After(s, steps[..k]), steps[k], s.next, i) {
        forall k | 0 <= k < n ensures !Enabling(After(s, steps[..n][..k]), steps[..n][k], s.next, i) {
          assert steps[..n][..k] == steps[..k];
        }
        StaysDown(s, steps[..n], i);
        assert false;
      }
    }
  }

  lemma {:induction false} RunGrows(s: System, steps: seq<Step>, i: nat)
    requires Down(s.db.vault, i)
    ensures i < |After(s, steps).db.vault.rows|
  {
    hide Next;
    if steps != [] {
      var n := |steps| - 1;
      RunGrows(s, steps[..n], i);
      NextGrows(After(s, steps[..n]), steps[n]);
    }
  }

  /** No refresh is in flight, and no update of one is under way. */
  ghost predicate NoRefresh(s: System) {
    s.jobs == map[] && forall o | o in s.db.ops :: s.db.ops[o].job.None?
  }

  /** With no refresh in flight, a disabled row stays disabled over every interleaving exactly when nobody else enables
      it, whatever refreshes come. */
  lemma DisabledStaysDisabled(s: System, steps: seq<Step>, i: nat)
    requires Sound(s) && NoRefresh(s) && Down(s.db.vault, i)
    ensures (forall n | 0 <= n <= |steps| :: Down(After(s, steps[..n]).db.vault, i)) <==>
            forall k | 0 <= k < |steps| :: !EnabledByOther(After(s, steps[..k]), steps[k], i)
  {
    hide EnabledByOther, EnabledByRefresh, Down, Next, OnlyLate;
    EnabledIff(s, steps, i);
    forall k | 0 <= k < |steps| ensures !EnabledByRefresh(After(s, steps[..k]), steps[k], s.next, i) {
      StayLate(s, steps[..k]);
      LateEnableNothing(After(s, steps[..k]), steps[k], s.next, i);
    }
  }

  /** Every refresh there is has read at or after number `from`. */
  ghost predicate OnlyLate(t: System, from: nat) {
    && Sound(t) && from <= t.next && (forall j | j in t.jobs :: j >= from)
    && forall o | o in t.db.ops && t.db.ops[o].job.Some? :: t.db.ops[o].job.value >= from
  }

  lemma {:induction false} StayLate(s: System, steps: seq<Step>)
    requires Sound(s) && NoRefresh(s)
    ensures OnlyLate(After(s, steps), s.next)
  {
    hide Next, OnlyLate;
    if steps == [] {
      NothingLate(s);
    } else {
      var n := |steps| - 1;
      StayLate(s, steps[..n]);
      StayLateOneStep(After(s, steps[..n]), steps[n], s.next);
    }
  }

  lemma NothingLate(s: System)
    requires Sound(s) && NoRefresh(s)
    ensures OnlyLate(s, s.next)
  {
  }

  lemma StayLateOneStep(t: System, step: Step, from: nat)
    requires OnlyLate(t, from)
    ensures OnlyLate(Next(t, step), from)
  {
    hide D.Exec, JobsAfter, Prepared, D.Sound;
    NextSound(t, step);
    var u := Next(t, step);
    forall j | j in u.jobs ensures j >= from {
      NextJobs(t, step, j);
    }
    forall o | o in u.db.ops && u.db.ops[o].job.Some? ensures u.db.ops[o].job.value >= from {
      OpsAfter(t, step, o);
    }
  }

  lemma LateEnableNothing(t: System, step: Step, from: nat, i: nat)
    requires OnlyLate(t, from)
    ensures !EnabledByRefresh(t, step, from, i)
  {
  }

  // ---------- what refreshes keep ----------

  /** The profile's newest row is an OAuth credential with a refresh token, this email and these extras. */
  predicate Holds(v: Vault, profile: string, email: string, extras: Extras) {
    var n := Newest(v.rows, profile);
    n.Some? && v.rows[n.value].kind == OAuthKind && Reads(v.rows[n.value].data, email, extras)
  }

  predicate Reads(j: Json, email: string, extras: Extras) {
    var m := Decode("", OAuthKind, j);
    m.refreshToken != "" && m.email == email && m.extras == extras
  }

  /** What a login stores reads back with a refresh token, this email and these extras. */
  predicate Carries(mat: Material, email: string, extras: Extras) {
    mat.refreshToken != "" && mat.email == email && CloneExtras(mat.extras) == extras
  }

  lemma CarriesReads(mat: Material, email: string, extras: Extras)
    ensures Reads(EncodeOAuth(mat), email, extras) <==> Carries(mat, email, extras)
  {
    TrimEmpty();
    hide Trim;
  }

  /** The statement leaves the profile's email and extras alone: it is no other login of the profile. An update is one
      when it writes the profile's newest row, and then unless it carries the same. */
  predicate Leaves(d: D.Database, s: D.Statement, profile: string, email: string, extras: Extras) {
    match s
    case Begin(PutApiKey(p, _), _, _) => p != profile
    case Begin(PutOAuth(p, mat), _, _) => p != profile || Carries(mat, email, extras)
    case Go(o, _) =>
      o in d.ops && d.ops[o].Chosen? && Newest(d.vault.rows, profile) == Some(d.ops[o].row) ==>
        Carries(d.ops[o].mat, email, extras)
    case _ => true
  }

  /** In state `t`: the step is not another login of the profile, nor the write of a refresh that was in flight before
      number `from` was handed out and carries another email or other extras. */
  predicate Keeps(t: System, step: Step, from: nat, profile: string, email: string, extras: Extras) {
    match step
    case Other(op, now) => Leaves(t.db, D.Begin(op, None, now), profile, email, extras)
    case Proceed(o, now) =>
      o in t.db.ops && (t.db.ops[o].job.None? || t.db.ops[o].job.value < from) ==>
        Leaves(t.db, D.Go(o, now), profile, email, extras)
    case _ => true
  }

  lemma HoldsIff(d: D.Database, s: D.Statement, profile: string, email: string, extras: Extras)
    requires Holds(d.vault, profile, email, extras)
    ensures Holds(D.Exec(d, s).vault, profile, email, extras) <==> Leaves(d, s, profile, email, extras)
  {
    hide Last, EncodeOAuth, EncodeApiKey, Reads, Carries, D.Exec;
    var w := D.Exec(d, s).vault;
    var n := Newest(d.vault.rows, profile).value;
    ExecGrows(d, s);
    if |w.rows| > |d.vault.rows| {
      NewRow(d, s, profile, email, extras);
    } else {
      SameNewest(d.vault, w, profile);
      ExecWrites(d, s, n);
      if s.Go? && s.id in d.ops && d.ops[s.id].Chosen? {
        CarriesReads(d.ops[s.id].mat, email, extras);
      }
    }
  }

  lemma SameNewest(v: Vault, w: Vault, profile: string)
    requires Grown(v, w) && |w.rows| == |v.rows|
    ensures Newest(w.rows, profile) == Newest(v.rows, profile)
  {
    hide Last;
    assert forall j | 0 <= j < |v.rows| :: OfProfile(profile).Matches(w.rows[j]) == OfProfile(profile).Matches(v.rows[j]);
    SameLast(v.rows, w.rows, OfProfile(profile));
  }

  lemma NewRow(d: D.Database, s: D.Statement, profile: string, email: string, extras: Extras)
    requires Holds(d.vault, profile, email, extras) && |D.Exec(d, s).vault.rows| > |d.vault.rows|
    ensures Holds(D.Exec(d, s).vault, profile, email, extras) <==> Leaves(d, s, profile, email, extras)
  {
    hide EncodeOAuth, EncodeApiKey, Reads, Carries;
    ExecGrows(d, s);
    var w := D.Exec(d, s).vault;
    assert w.rows[..|d.vault.rows|] == d.vault.rows;
    if s.op.PutOAuth? {
      CarriesReads(s.op.mat, email, extras);
    }
  }

  /** A refresh that reads the credential carries its email and extras. */
  lemma ReadCarries(v: Vault, profile: string, a: Answer, now: int, email: string, extras: Extras)
    requires Holds(v, profile, email, extras) && Prepared(v, profile, a, now).Ok?
    ensures Carries(Prepared(v, profile, a, now).value, email, extras)
  {
    hide Last, Prepared, Renewed, Decode, EncodeOAuth;
    PreparedFrom(v, profile, a, now);
    var cur := Lookup(v, profile).value;
    LookupExtrasClean(v, profile);
    RenewedReads(profile, cur, a, now);
    SameForAll(profile, v.rows[Newest(v.rows, profile).value].data);
    SameForAll(profile, EncodeOAuth(Renewed(profile, cur, a, now)));
    CarriesReads(Renewed(profile, cur, a, now), email, extras);
  }

  lemma SameForAll(profile: string, j: Json)
    ensures var m, n := Decode(profile, OAuthKind, j), Decode("", OAuthKind, j);
            m.refreshToken == n.refreshToken && m.email == n.email && m.extras == n.extras
  {
  }

  /** Every refresh read at or after number `from` carries the profile's email and extras, and so does its update. */
  ghost predicate LateOnesCarry(t: System, from: nat, profile: string, email: string, extras: Extras) {
    && (forall j | j in t.jobs && j >= from && t.jobs[j].profile == profile :: Carries(t.jobs[j].mat, email, extras))
    && (forall o | o in t.db.ops && LateUpdate(t, o, from, profile) :: Carries(t.db.ops[o].mat, email, extras))
  }

  predicate LateUpdate(t: System, o: nat, from: nat, profile: string)
    requires o in t.db.ops
  {
    var p := t.db.ops[o];
    p.Chosen? && p.job.Some? && p.job.value >= from && p.row < |t.db.vault.rows| && t.db.vault.rows[p.row].profile == profile
  }

  lemma LateJobsCarry(t: System, step: Step, from: nat, profile: string, email: string, extras: Extras, j: nat)
    requires Sound(t) && Holds(t.db.vault, profile, email, extras) && LateOnesCarry(t, from, profile, email, extras)
    requires j in Next(t, step).jobs && j >= from && Next(t, step).jobs[j].profile == profile
    ensures Carries(Next(t, step).jobs[j].mat, email, extras)
  {
    hide D.Exec, JobsAfter, Prepared, Holds, Carries;
    NextJobs(t, step, j);
    if j !in t.jobs {
      ReadCarries(t.db.vault, profile, step.answer, step.now, email, extras);
    }
  }

  lemma LateOpsCarry(t: System, step: Step, from: nat, profile: string, email: string, extras: Extras, o: nat)
    requires Sound(t) && LateOnesCarry(t, from, profile, email, extras)
    requires o in Next(t, step).db.ops && LateUpdate(Next(t, step), o, from, profile)
    ensures Carries(Next(t, step).db.ops[o].mat, email, extras)
  {
    hide D.Exec, JobsAfter, Prepared, Carries, Last;
    NextGrows(t, step);
    OpsAfter(t, step, o);
  }

  lemma HoldsOneStep(t: System, step: Step, from: nat, profile: string, email: string, extras: Extras)
    requires Sound(t) && from <= t.next && Holds(t.db.vault, profile, email, extras)
    requires LateOnesCarry(t, from, profile, email, extras)
    ensures Sound(Next(t, step)) && from <= Next(t, step).next
    ensures LateOnesCarry(Next(t, step), from, profile, email, extras)
    ensures Holds(Next(t, step).db.vault, profile, email, extras) <==> Keeps(t, step, from, profile, email, extras)
  {
    hide Next, Carries, Holds, Keeps, Sound;
    NextSound(t, step);
    var u := Next(t, step);
    HoldsIffKeeps(t, step, from, profile, email, extras);
    forall j | j in u.jobs && j >= from && u.jobs[j].profile == profile ensures Carries(u.jobs[j].mat, email, extras) {
      LateJobsCarry(t, step, from, profile, email, extras, j);
    }
    forall o | o in u.db.ops && LateUpdate(u, o, from, profile)
      ensures u.db.ops[o].Chosen? && Carries(u.db.ops[o].mat, email, extras)
    {
      LateOpsCarry(t, step, from, profile, email, extras, o);
    }
  }

  lemma HoldsIffKeeps(t: System, step: Step, from: nat, profile: string, email: string, extras: Extras)
    requires Holds(t.db.vault, profile, email, extras) && LateOnesCarry(t, from, profile, email, extras)
    ensures Holds(Next(t, step).db.vault, profile, email, extras) <==> Keeps(t, step, from, profile, email, extras)
  {
    hide JobsAfter, Prepared, Carries, D.Exec, Last, Holds;
    if StmtOf(t, step).Some? {
      HoldsIff(t.db, StmtOf(t, step).value, profile, email, extras);
      NewestIsOfProfile(t.db.vault, profile);
    }
  }

  lemma NewestIsOfProfile(v: Vault, profile: string)
    ensures var n := Newest(v.rows, profile); n.Some? ==> n.value < |v.rows| && v.rows[n.value].profile == profile
  {
    hide Last;
  }

  lemma {:induction false} KeptThroughout(
    s: System, steps: seq<Step>, profile: string, email: string, extras: Extras)
    requires Sound(s) && Holds(s.db.vault, profile, email, extras)
    requires forall k | 0 <= k < |steps| :: Keeps(After(s, steps[..k]), steps[k], s.next, profile, email, extras)
    ensures var t := After(s, steps);
            && Sound(t) && s.next <= t.next && Holds(t.db.vault, profile, email, extras)
            && LateOnesCarry(t, s.next, profile, email, extras)
  {
    hide Next, Holds, Keeps, Carries, Sound, LateOnesCarry;
    if steps == [] {
      NoneCarried(s, profile, email, extras);
    } else {
      var n := |steps| - 1;
      forall k | 0 <= k < n ensures Keeps(After(s, steps[..n][..k]), steps[..n][k], s.next, profile, email, extras) {
        assert steps[..n][..k] == steps[..k];
      }
      KeptThroughout(s, steps[..n], profile, email, extras);
      HoldsOneStep(After(s, steps[..n]), steps[n], s.next, profile, email, extras);
    }
  }

  lemma NoneCarried(s: System, profile: string, email: string, extras: Extras)
    requires Sound(s)
    ensures LateOnesCarry(s, s.next, profile, email, extras)
  {
  }

  /** Over every interleaving of the statements of refreshes and of other operations, with any answers and failures: a
      profile's newest credential keeps a refresh token, its email and its extras at all times exactly when nobody
      logs it in with others, and no refresh writes that had read others before. */
  lemma RefreshesLoseNothing(s: System, steps: seq<Step>, profile: string, email: string, extras: Extras)
    requires Sound(s) && Holds(s.db.vault, profile, email, extras)
    ensures (forall n | 0 <= n <= |steps| :: Holds(After(s, steps[..n]).db.vault, profile, email, extras)) <==>
            forall k | 0 <= k < |steps| :: Keeps(After(s, steps[..k]), steps[k], s.next, profile, email, extras)
  {
    hide Next, Holds, Keeps, Sound;
    if forall k | 0 <= k < |steps| :: Keeps(After(s, steps[..k]), steps[k], s.next, profile, email, extras) {
      forall n | 0 <= n <= |steps| ensures Holds(After(s, steps[..n]).db.vault, profile, email, extras) {
        forall k | 0 <= k < n ensures Keeps(After(s, steps[..n][..k]), steps[..n][k], s.next, profile, email, extras) {
          assert steps[..n][..k] == steps[..k];
        }
        KeptThroughout(s, steps[..n], profile, email, extras);
      }
    } else {
      var k := FirstLoss(s, steps, profile, email, extras);
      OneMoreStep(s, steps, k);
      forall m | 0 <= m < k ensures Keeps(After(s, steps[..k][..m]), steps[..k][m], s.next, profile, email, extras) {
        assert steps[..k][..m] == steps[..m];
      }
      KeptThroughout(s, steps[..k], profile, email, extras);
      HoldsOneStep(After(s, steps[..k]), steps[k], s.next, profile, email, extras);
    }
  }

  lemma {:induction false} FirstLoss(
    s: System, steps: seq<Step>, profile: string, email: string, extras: Extras) returns (k: nat)
    requires exists m | 0 <= m < |steps| :: !Keeps(After(s, steps[..m]), steps[m], s.next, profile, email, extras)
    ensures k < |steps| && !Keeps(After(s, steps[..k]), steps[k], s.next, profile, email, extras)
    ensures forall m | 0 <= m < k :: Keeps(After(s, steps[..m]), steps[m], s.next, profile, email, extras)
  {
    hide Next, Keeps, After;
    k := 0;
    while Keeps(After(s, steps[..k]), steps[k], s.next, profile, email, extras)
      invariant k < |steps|
      invariant forall m | 0 <= m < k :: Keeps(After(s, steps[..m]), steps[m], s.next, profile, email, extras)
      decreases |steps| - k
    {
      k := k + 1;
    }
  }

  // ---------- a disable while a refresh is under way ----------

  /** Call `k` is the last of these to write row `i`. */
  ghost predicate LastTouch(v: Vault, calls: seq<FaultyCall>, k: nat, i: nat) {
    && k < |calls| && Touches(History(v, calls[..k]), calls[k], i)
    && forall m | k < m < |calls| :: !Touches(History(v, calls[..m]), calls[m], i)
  }

  /** The last of these calls to write row `i` disabled it. */
  ghost predicate Disabled(v: Vault, calls: seq<FaultyCall>, i: nat) {
    exists k: nat | LastTouch(v, calls, k, i) :: calls[k].op.Disable? && calls[k].op.cause != ""
  }

  lemma LastTouchGrows(v: Vault, calls: seq<FaultyCall>, k: nat, i: nat)
    requires calls != []
    ensures var n := |calls| - 1;
            LastTouch(v, calls, k, i) <==>
            if Touches(History(v, calls[..n]), calls[n], i) then k == n else LastTouch(v, calls[..n], k, i)
  {
    hide Touches, Apply;
    var n := |calls| - 1;
    assert forall m | 0 <= m <= n :: calls[..n][..m] == calls[..m];
    if LastTouch(v, calls[..n], k, i) && !Touches(History(v, calls[..n]), calls[n], i) {
      forall m | k < m < |calls| ensures !Touches(History(v, calls[..m]), calls[m], i) {
        assert m < n ==> calls[..n][m] == calls[m];
      }
    }
    if LastTouch(v, calls, k, i) && k < n {
      forall m | k < m < n ensures !Touches(History(v, calls[..n][..m]), calls[..n][m], i) {}
    }
  }

  /** A row that was enabled, or was not there, is disabled afterwards exactly when the last call to write it
      disabled it. */
  lemma {:induction false} DownIff(v: Vault, calls: seq<FaultyCall>, i: nat)
    requires !Down(v, i)
    ensures Down(History(v, calls), i) <==> Disabled(v, calls, i)
  {
    hide Touches, Apply, LastTouch;
    if calls == [] {
      NoTouch(v, i);
    } else {
      var n := |calls| - 1;
      var u, c := History(v, calls[..n]), calls[n];
      DownIff(v, calls[..n], i);
      CallGrows(u, c);
      forall k: nat { LastTouchGrows(v, calls, k, i); }
      if Touches(u, c, i) {
        TouchedIsThere(u, c, i);
        CallTouches(u, c, i);
        assert LastTouch(v, calls, n, i);
      } else {
        if i < |u.rows| {
          CallTouches(u, c, i);
        }
        assert forall k: nat | LastTouch(v, calls, k, i) ::
            LastTouch(v, calls[..n], k, i) && calls[..n][k] == calls[k] by {
          InFront(v, calls[..n], i);
        }
        assert forall k: nat | LastTouch(v, calls[..n], k, i) ::
            LastTouch(v, calls, k, i) && calls[..n][k] == calls[k] by {
          InFront(v, calls[..n], i);
        }
      }
    }
  }

  lemma InFront(v: Vault, front: seq<FaultyCall>, i: nat)
    ensures forall k: nat | LastTouch(v, front, k, i) :: k < |front|
  {
  }

  lemma NoTouch(v: Vault, i: nat)
    ensures forall k: nat :: !LastTouch(v, [], k, i)
  {
  }

  lemma TouchedIsThere(v: Vault, c: FaultyCall, i: nat)
    requires Touches(v, c, i)
    ensures i < |v.rows|
  {
  }

  lemma WriteEnables(u: Vault, c: FaultyCall, i: nat)
    requires c.op.UpdateOAuth? && Down(u, i)
    ensures !Down(Apply(u, c), i) <==> c.fault != BeforeWrite && NewestOAuth(u.rows, c.op.profile) == Some(i)
  {
    hide Last, Apply;
    CallTouches(u, c, i);
  }

  /** A refresh read at `v`, whose write comes after these calls, enables a disabled credential exactly when the
      write reaches the database and the last call to write the row it fills disabled it. */
  lemma DisabledWhileRefreshing(
    v: Vault, profile: string, a: Answer, now: int, calls: seq<FaultyCall>, fault: Fault, later: int)
    requires Prepared(v, profile, a, now).Ok?
    ensures var u := History(v, calls);
            var w := Apply(u, FaultyCall(UpdateOAuth(profile, Prepared(v, profile, a, now).value), later, fault));
            && NewestOAuth(u.rows, profile).Some?
            && ((exists i: nat :: Down(u, i) && !Down(w, i)) <==>
                fault != BeforeWrite && Disabled(v, calls, NewestOAuth(u.rows, profile).value))
  {
    hide Last, Apply, Prepared, Disabled, History, Renewed, Lookup, Stored, Touches;
    PreparedFrom(v, profile, a, now);
    var u := History(v, calls);
    HistoryGrows(v, calls);
    NewestGrows(v, u, profile);
    var n := NewestOAuth(u.rows, profile).value;
    assert !Down(v, n);
    DownIff(v, calls, n);
    var c := FaultyCall(UpdateOAuth(profile, Prepared(v, profile, a, now).value), later, fault);
    forall i: nat | Down(u, i) ensures !Down(Apply(u, c), i) <==> fault != BeforeWrite && i == n {
      WriteEnables(u, c, i);
    }
  }

  // ---------- a login while a refresh is under way ----------

  /** The last login these calls stored for the profile. */
  function LastLogin(v: Vault, calls: seq<FaultyCall>, profile: string): Option<Material> {
    if calls == [] then None
    else
      var c, front := calls[|calls| - 1], calls[..|calls| - 1];
      if c.fault != BeforeWrite && c.op.PutOAuth? && c.op.profile == profile then Some(c.op.mat)
      else if c.fault != BeforeWrite && c.op.UpdateOAuth? && c.op.profile == profile
              && NewestOAuth(History(v, front).rows, profile).Some? then Some(c.op.mat)
      else LastLogin(v, front, profile)
  }

  lemma {:induction false} StoredIsLastLogin(v: Vault, calls: seq<FaultyCall>, profile: string)
    requires Stored(v, profile).Some?
    ensures Stored(History(v, calls), profile) ==
            match LastLogin(v, calls, profile)
            case None => Stored(v, profile)
            case Some(mat) => Some(Decode(profile, OAuthKind, EncodeOAuth(mat)))
  {
    hide Last, EncodeOAuth, Decode, Apply;
    if calls != [] {
      var n := |calls| - 1;
      StoredIsLastLogin(v, calls[..n], profile);
      StoredStep(History(v, calls[..n]), calls[n], profile);
    }
  }

  lemma StoredStep(u: Vault, c: FaultyCall, profile: string)
    requires Stored(u, profile).Some?
    ensures Stored(Apply(u, c), profile) ==
            if c.fault != BeforeWrite && (c.op.PutOAuth? || c.op.UpdateOAuth?) && c.op.profile == profile
            then Some(Decode(profile, OAuthKind, EncodeOAuth(c.op.mat))) else Stored(u, profile)
  {
    hide EncodeOAuth, EncodeApiKey, Decode;
    var w := Apply(u, c);
    var n := NewestOAuth(u.rows, profile).value;
    if |w.rows| > |u.rows| {
      assert w.rows[..|u.rows|] == u.rows;
    } else {
      CallGrows(u, c);
      CallTouches(u, c, n);
      SameNewestOAuth(u, w, profile);
    }
  }

  lemma SameNewestOAuth(v: Vault, w: Vault, profile: string)
    requires Grown(v, w) && |w.rows| == |v.rows|
    ensures NewestOAuth(w.rows, profile) == NewestOAuth(v.rows, profile)
  {
    hide Last;
    assert forall j | 0 <= j < |v.rows| :: OAuthOf(profile).Matches(w.rows[j]) == OAuthOf(profile).Matches(v.rows[j]);
    SameLast(v.rows, w.rows, OAuthOf(profile));
  }

  /** Two logins that are stored alike: the same tokens, email and extras, and the same expiry once reread. */
  predicate StoredAlike(a: Material, b: Material) {
    && a.accessToken == b.accessToken && a.refreshToken == b.refreshToken && a.email == b.email
    && CloneExtras(a.extras) == CloneExtras(b.extras) && ReadExpiry(a) == ReadExpiry(b)
  }

  /** The expiry a reader of the stored login gets. */
  function ReadExpiry(mat: Material): int {
    var t := if mat.expiresAt == ZERO_TIME then 0 else UnixMilli(mat.expiresAt);
    if t > 0 then t * NS_PER_MS else ZERO_TIME
  }

  /** A refresh read at `v`, whose write comes after these calls and reaches the database, stores the email and extras
      it had read and tokens issued for them. A login stored meanwhile survives as a whole exactly when it is stored
      like what the refresh writes; another account is undone exactly when its email or extras differ. */
  lemma LostLogin(
    v: Vault, profile: string, a: Answer, now: int, calls: seq<FaultyCall>, fault: Fault, later: int)
    requires Prepared(v, profile, a, now).Ok? && fault != BeforeWrite
    ensures Lookup(v, profile).Ok?
    ensures var u, cur, mat := History(v, calls), Lookup(v, profile).value, Prepared(v, profile, a, now).value;
            var w := Apply(u, FaultyCall(UpdateOAuth(profile, mat), later, fault));
            var login := LastLogin(v, calls, profile);
            && Stored(u, profile).Some? && Stored(w, profile).Some? && |w.rows| == |u.rows|
            && (login.Some? ==> (Stored(w, profile) == Stored(u, profile) <==> StoredAlike(login.value, mat)))
            && var before, after := Stored(u, profile).value, Stored(w, profile).value;
               && after.email == cur.email && after.extras == cur.extras && after.accessToken == a.access
               && after.refreshToken == (if a.refresh == "" then cur.refreshToken else a.refresh)
               && (after.email == before.email && after.extras == before.extras <==>
                   login.None? || (login.value.email == cur.email && CloneExtras(login.value.extras) == cur.extras))
  {
    hide Last, Apply, Prepared, Renewed, Decode, EncodeOAuth, Stored, LastLogin, History, CloneExtras, StoredAlike;
    PreparedFrom(v, profile, a, now);
    var u, cur := History(v, calls), Lookup(v, profile).value;
    var mat := Prepared(v, profile, a, now).value;
    var login := LastLogin(v, calls, profile);
    StoredIsLastLogin(v, calls, profile);
    var c := FaultyCall(UpdateOAuth(profile, mat), later, fault);
    StoredStep(u, c, profile);
    UpdateAddsNothing(u, c);
    LookupExtrasClean(v, profile);
    RenewedReads(profile, cur, a, now);
    RenewedTokens(profile, cur, a, now);
    if login.Some? {
      LoginReads(profile, login.value);
      AlikeIff(profile, login.value, mat);
    }
  }

  lemma AlikeIff(profile: string, a: Material, b: Material)
    ensures Decode(profile, OAuthKind, EncodeOAuth(a)) == Decode(profile, OAuthKind, EncodeOAuth(b)) <==> StoredAlike(a, b)
  {
    hide Decode, EncodeOAuth;
    LoginReads(profile, a);
    LoginReads(profile, b);
  }

  lemma UpdateAddsNothing(u: Vault, c: FaultyCall)
    requires c.op.UpdateOAuth? || c.op.Disable?
    ensures |Apply(u, c).rows| == |u.rows|
  {
    hide Last, EncodeOAuth;
  }

  lemma LoginReads(profile: string, mat: Material)
    ensures Decode(profile, OAuthKind, EncodeOAuth(mat)) ==
            Material(profile, OAuthKind, "", mat.accessToken, mat.refreshToken, ReadExpiry(mat), mat.email, CloneExtras(mat.extras))
  {
    TrimEmpty();
    hide Trim;
  }

  /** The step is the write of an update whose SELECT chose row `i`, and stores something else there. */
  predicate Overwrites(t: System, step: Step, i: nat, data: Json) {
    step.Proceed? && step.id in t.db.ops &&
    var p := t.db.ops[step.id];
    p.Chosen? && p.row == i < |t.db.vault.rows| && EncodeOAuth(p.mat) != data
  }

  lemma RowKept(t: System, step: Step, i: nat, data: Json)
    requires HasLogin(t, i, data)
    ensures HasLogin(Next(t, step), i, data) <==> !Overwrites(t, step, i, data)
  {
    hide JobsAfter, Last, Prepared, D.Exec, EncodeOAuth;
    if StmtOf(t, step).Some? {
      ExecWrites(t.db, StmtOf(t, step).value, i);
    }
  }

  /** Row `i` is there at all moments up to `n` and holds this login. */
  ghost predicate KeptUpTo(s: System, steps: seq<Step>, n: nat, i: nat, data: Json)
    requires n <= |steps|
  {
    forall m | 0 <= m <= n :: HasLogin(After(s, steps[..m]), i, data)
  }

  predicate HasLogin(t: System, i: nat, data: Json) {
    i < |t.db.vault.rows| && t.db.vault.rows[i].data == data
  }

  /** Statement by statement: a login stays in its row at all moments exactly when no update whose SELECT chose that row
      writes another there. One stored in a newer row between a refresh's SELECT and its UPDATE is safe from it. */
  lemma {:induction false} LoginKeptIff(s: System, steps: seq<Step>, n: nat, i: nat, data: Json)
    requires n <= |steps| && HasLogin(s, i, data)
    ensures KeptUpTo(s, steps, n, i, data) <==>
            forall k | 0 <= k < n :: !Overwrites(After(s, steps[..k]), steps[k], i, data)
    decreases n
  {
    hide Next, Overwrites, HasLogin, After;
    if n == 0 {
      assert After(s, steps[..0]) == s by { AfterFew(s, GiveUp(0), GiveUp(0), GiveUp(0)); }
    } else {
      LoginKeptIff(s, steps, n - 1, i, data);
      if KeptUpTo(s, steps, n - 1, i, data) {
        OneMoreStep(s, steps, n - 1);
        RowKept(After(s, steps[..n - 1]), steps[n - 1], i, data);
      }
    }
  }

  // ---------- one login, and what a refresh under way does to it ----------

  /** Account `e` of profile `p` refreshes; meanwhile its only row is disabled, and the refresh enables it again. */
  lemma DisabledAndEnabled(now: int)
    ensures var v := ONE_LOGIN;
            var u := History(v, [FaultyCall(Disable(1, "revoked"), now, NoFault)]);
            && Prepared(v, "p", FRESH_TOKENS, now).Ok? && Down(u, 0)
            && var w := Apply(u, FaultyCall(UpdateOAuth("p", Prepared(v, "p", FRESH_TOKENS, now).value), now, NoFault));
               !Down(w, 0)
  {
    hide Prepared, EncodeOAuth, Last, Apply, History;
    OneLoginPrepares(FRESH_TOKENS, now);
    var v := ONE_LOGIN;
    var c := FaultyCall(Disable(1, "revoked"), now, NoFault);
    OneRowQueries(v.rows);
    HistoryOfOne(v, c);
    CallTouches(v, c, 0);
    CallGrows(v, c);
    UpdateAddsNothing(v, c);
    OneRowQueries(Apply(v, c).rows);
    WriteEnables(
      Apply(v, c), FaultyCall(UpdateOAuth("p", Prepared(v, "p", FRESH_TOKENS, now).value), now, NoFault), 0);
  }

  lemma HistoryOfOne(v: Vault, c: FaultyCall)
    ensures History(v, [c]) == Apply(v, c)
  {
    hide Apply;
    assert [c][..0] == [];
    assert History(v, []) == v;
  }

  /** Account `e` refreshes and meanwhile logs in again: the token that login had brought is gone. */
  lemma LoginAgainLost(now: int)
    ensures var v := ONE_LOGIN;
            var again := LOGIN.(accessToken := "new");
            var u := History(v, [FaultyCall(PutOAuth("p", again), now, NoFault)]);
            && Prepared(v, "p", FRESH_TOKENS, now).Ok?
            && var w := Apply(u, FaultyCall(UpdateOAuth("p", Prepared(v, "p", FRESH_TOKENS, now).value), now, NoFault));
               && Stored(u, "p").Some? && Stored(u, "p").value.accessToken == "new"
               && Stored(w, "p").Some? && Stored(w, "p").value.accessToken == "a"
               && Stored(w, "p").value.email == Stored(u, "p").value.email == "e"
  {
    hide Prepared, EncodeOAuth, Last, Decode, Stored, Apply, History;
    OneLoginPrepares(FRESH_TOKENS, now);
    var v, again := ONE_LOGIN, LOGIN.(accessToken := "new");
    var c := FaultyCall(PutOAuth("p", again), now, NoFault);
    var calls := [c];
    assert LastLogin(v, calls, "p") == Some(again);
    LostLogin(v, "p", FRESH_TOKENS, now, calls, NoFault, now);
    PreparedFrom(v, "p", FRESH_TOKENS, now);
    StoredIsLastLogin(v, calls, "p");
    LoginReads("p", again);
  }
}
