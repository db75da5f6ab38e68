/** The SQL store statement by statement. An operation is up to three SQL statements with no transaction around them,
    and statements of any number of operations, in this process or another, come in any order
    (credential/store/sqlite.go). */
module Statements {
  import opened Text
  import opened Payload
  import opened Store
  import opened Refinement

  /** Where an operation stands after its last statement. Rows are never moved or deleted, so a row's place in the
      table stands for its id. `job` is the refresh an update belongs to, if it is one's. */
  datatype Progress =
    | Chosen(row: nat, mat: Material, job: Option<nat>)   // an update has selected its row and not written it
    | Written(job: Option<nat>)                           // the row is written, the generation not yet bumped

  /** The tables, and the operations in progress by number. */
  datatype Database = Database(vault: Vault, ops: map<nat, Progress>, next: nat)

  datatype Statement =
    | Begin(op: Op, job: Option<nat>, now: int)   // the first statement of an operation
    | Go(id: nat, now: int)                      // the next statement of operation `id`
    | Stop(id: nat)                              // that statement fails, or its process is gone

  /** An insert and a disable write at once; an update only looks its row up; an operation that finds no row is over. */
  function Exec(d: Database, s: Statement): Database {
    var v := d.vault;
    match s
    case Begin(PutApiKey(profile, key), job, now) =>
      Database(Inserted(v, profile, ApiKeyKind, "", EncodeApiKey(key), now), d.ops[d.next := Written(job)], d.next + 1)
    case Begin(PutOAuth(profile, mat), job, now) =>
      Database(Inserted(v, profile, OAuthKind, mat.email, EncodeOAuth(mat), now), d.ops[d.next := Written(job)], d.next + 1)
    case Begin(UpdateOAuth(profile, mat), job, now) =>
      (match NewestOAuth(v.rows, profile)
       case None => d
       case Some(i) => Database(v, d.ops[d.next := Chosen(i, mat, job)], d.next + 1))
    case Begin(Disable(id, cause), job, now) =>
      (match ById(v.rows, id)
       case None => d
       case Some(i) => Database(Flagged(v, i, cause, now), d.ops[d.next := Written(job)], d.next + 1))
    case Begin(Bump, job, now) => d.(vault := Bumped(v, now))
    case Go(o, now) =>
      if o !in d.ops then d
      else
        (match d.ops[o]
         case Chosen(i, mat, job) =>
           if i < |v.rows| then d.(vault := Rewritten(v, i, mat, mat.email, now), ops := d.ops[o := Written(job)]) else d
         case Written(_) => d.(vault := Bumped(v, now), ops := d.ops - {o}))
    case Stop(o) => d.(ops := d.ops - {o})
  }

  function Run(d: Database, stmts: seq<Statement>): Database {
    if stmts == [] then d else Exec(Run(d, stmts[..|stmts| - 1]), stmts[|stmts| - 1])
  }

  /** Operation numbers are handed out in order, and a selected row is there. */
  ghost predicate Sound(d: Database) {
    && (forall o | o in d.ops :: o < d.next)
    && (forall o | o in d.ops && d.ops[o].Chosen? :: d.ops[o].row < |d.vault.rows|)
  }

  lemma ExecSound(d: Database, s: Statement)
    requires Sound(d)
    ensures Sound(Exec(d, s)) && d.next <= Exec(d, s).next && |d.vault.rows| <= |Exec(d, s).vault.rows|
  {
    hide Last, EncodeOAuth, EncodeApiKey;
  }

  lemma OneMore(d: Database, stmts: seq<Statement>, k: nat)
    requires k < |stmts|
    ensures Run(d, stmts[..k + 1]) == Exec(Run(d, stmts[..k]), stmts[k])
  {
    hide Exec;
    assert stmts[..k + 1][..k] == stmts[..k];
  }

  lemma {:induction false} RunAppend(d: Database, first: seq<Statement>, rest: seq<Statement>)
    ensures Run(d, first + rest) == Run(Run(d, first), rest)
    decreases rest
  {
    hide Exec;
    if rest == [] {
      assert first + rest == first;
    } else {
      var n := |rest| - 1;
      RunAppend(d, first, rest[..n]);
      assert (first + rest)[..|first + rest| - 1] == first + rest[..n];
    }
  }

  lemma RunOne(d: Database, s: Statement)
    ensures Run(d, [s]) == Exec(d, s)
  {
    hide Exec;
    assert Run(d, [s][..0]) == d;
  }

  lemma {:induction false} RunSound(d: Database, stmts: seq<Statement>)
    requires Sound(d)
    ensures Sound(Run(d, stmts))
  {
    hide Exec, Sound;
    if stmts != [] {
      RunSound(d, stmts[..|stmts| - 1]);
      ExecSound(Run(d, stmts[..|stmts| - 1]), stmts[|stmts| - 1]);
    }
  }

  // ---------- an undisturbed operation ----------

  function Finding(v: Vault, op: Op): bool {
    match op
    case UpdateOAuth(profile, _) => NewestOAuth(v.rows, profile).Some?
    case Disable(id, _) => ById(v.rows, id).Some?
    case _ => true
  }

  /** The statements of an operation that nothing comes between. */
  function StatementsOf(d: Database, c: FaultyCall): seq<Statement> {
    var start := Begin(c.op, None, c.now);
    var end := if c.fault == NoFault then Go(d.next, c.now) else Stop(d.next);
    if c.fault == BeforeWrite || (c.op.Bump? && c.fault != NoFault) then []
    else if c.op.Bump? || !Finding(d.vault, c.op) then [start]
    else if c.op.UpdateOAuth? then [start, Go(d.next, c.now), end]
    else [start, end]
  }

  /** Undisturbed, the statements of an operation do what the operation does as one step, whatever fails. */
  lemma WholeOperation(d: Database, c: FaultyCall)
    requires Sound(d)
    ensures var e := Run(d, StatementsOf(d, c));
            e.vault == Apply(d.vault, c) && e.ops == d.ops && e.next >= d.next
  {
    hide Last, EncodeOAuth, EncodeApiKey, Run;
    var stmts := StatementsOf(d, c);
    assert d.ops - {d.next} == d.ops;
    if stmts == [] {
      assert Run(d, []) == d by { NoStatements(d); }
    } else {
      var e1 := Exec(d, stmts[0]);
      RunOne(d, stmts[0]);
      if |stmts| == 1 {
        assert stmts == [stmts[0]];
      } else {
        var e2 := Exec(e1, stmts[1]);
        RunOne(e1, stmts[1]);
        RunAppend(d, [stmts[0]], [stmts[1]]);
        assert Run(d, [stmts[0]] + [stmts[1]]) == e2;
        if |stmts| == 2 {
          assert stmts == [stmts[0]] + [stmts[1]];
        } else {
          RunOne(e2, stmts[2]);
          RunAppend(d, [stmts[0]] + [stmts[1]], [stmts[2]]);
          assert stmts == ([stmts[0]] + [stmts[1]]) + [stmts[2]];
        }
      }
    }
  }

  lemma NoStatements(d: Database)
    ensures Run(d, []) == d
  {
  }

  // ---------- writes and bumps ----------

  /** The statement adds a row, or writes one it leaves different from what it was. */
  predicate Writes(d: Database, s: Statement) {
    var v := d.vault;
    match s
    case Begin(PutApiKey(_, _), _, _) => true
    case Begin(PutOAuth(_, _), _, _) => true
    case Begin(Disable(id, cause), _, now) =>
      var hit := ById(v.rows, id);
      hit.Some? && Flagged(v, hit.value, cause, now).rows[hit.value] != v.rows[hit.value]
    case Go(o, now) =>
      o in d.ops && d.ops[o].Chosen? && d.ops[o].row < |v.rows| &&
      var i := d.ops[o].row;
      Rewritten(v, i, d.ops[o].mat, d.ops[o].mat.email, now).rows[i] != v.rows[i]
    case _ => false
  }

  /** The statement raises the generation. */
  predicate Bumps(d: Database, s: Statement) {
    (s.Begin? && s.op.Bump?) || (s.Go? && s.id in d.ops && d.ops[s.id].Written?)
  }

  /** No statement both writes a row and raises the generation. */
  lemma WriteOrBump(d: Database, s: Statement)
    ensures Exec(d, s).vault.rows != d.vault.rows <==> Writes(d, s)
    ensures Exec(d, s).vault.gen == d.vault.gen + if Bumps(d, s) then 1 else 0
    ensures !Writes(d, s) && !Bumps(d, s) ==> Exec(d, s).vault == d.vault
  {
    hide Last, EncodeOAuth, EncodeApiKey;
    var v, w := d.vault, Exec(d, s).vault;
    match s
    case Begin(PutApiKey(_, _), _, _) => assert |w.rows| == |v.rows| + 1;
    case Begin(PutOAuth(_, _), _, _) => assert |w.rows| == |v.rows| + 1;
    case Begin(Disable(id, _), _, _) =>
      var hit := ById(v.rows, id);
      assert hit.Some? ==> w.rows == v.rows[hit.value := w.rows[hit.value]];
      assert hit.Some? && w.rows[hit.value] == v.rows[hit.value] ==> w.rows == v.rows;
    case Go(o, now) =>
      if o in d.ops && d.ops[o].Chosen? && d.ops[o].row < |v.rows| {
        var i := d.ops[o].row;
        assert w.rows == v.rows[i := w.rows[i]];
        assert w.rows[i] == v.rows[i] ==> w.rows == v.rows;
      }
    case _ =>
  }

  /** The number of the operation a statement belongs to. */
  function OpOf(d: Database, s: Statement): nat {
    if s.Begin? then d.next else s.id
  }

  ghost predicate SameThroughout(d: Database, stmts: seq<Statement>, a: nat, b: nat)
    requires a <= b <= |stmts|
  {
    forall m | a <= m <= b :: Run(d, stmts[..m]).vault == Run(d, stmts[..a]).vault
  }

  /** Statement `m` is the bump of operation `o`. */
  predicate BumpsFor(d: Database, stmts: seq<Statement>, m: nat, o: nat)
    requires m < |stmts|
  {
    stmts[m].Go? && stmts[m].id == o && Bumps(Run(d, stmts[..m]), stmts[m])
  }

  /** By moment `b`, every operation that wrote a row since moment `a` has had its bump. */
  ghost predicate Settled(d: Database, stmts: seq<Statement>, a: nat, b: nat)
    requires a <= b <= |stmts|
  {
    forall k | a <= k < b && Writes(Run(d, stmts[..k]), stmts[k]) ::
      exists m | k < m < b :: BumpsFor(d, stmts, m, OpOf(Run(d, stmts[..k]), stmts[k]))
  }

  lemma {:induction false} GenerationRises(d: Database, stmts: seq<Statement>, a: nat, b: nat)
    requires a <= b <= |stmts|
    ensures Run(d, stmts[..a]).vault.gen <= Run(d, stmts[..b]).vault.gen
    ensures Run(d, stmts[..a]).vault.gen == Run(d, stmts[..b]).vault.gen <==>
            forall k | a <= k < b :: !Bumps(Run(d, stmts[..k]), stmts[k])
    decreases b
  {
    hide Exec, Bumps, Writes;
    if a < b {
      GenerationRises(d, stmts, a, b - 1);
      OneMore(d, stmts, b - 1);
      WriteOrBump(Run(d, stmts[..b - 1]), stmts[b - 1]);
    }
  }

  lemma {:induction false} NothingWritten(d: Database, stmts: seq<Statement>, a: nat, b: nat)
    requires a <= b <= |stmts|
    requires forall k | a <= k < b :: !Bumps(Run(d, stmts[..k]), stmts[k]) && !Writes(Run(d, stmts[..k]), stmts[k])
    ensures Run(d, stmts[..b]).vault == Run(d, stmts[..a]).vault
    decreases b
  {
    hide Exec, Bumps, Writes;
    if a < b {
      NothingWritten(d, stmts, a, b - 1);
      OneMore(d, stmts, b - 1);
      WriteOrBump(Run(d, stmts[..b - 1]), stmts[b - 1]);
    }
  }

  /** Two moments with the same generation: the vault is the same at all moments from one to the other exactly when no
      statement in between wrote a row. */
  lemma EqualGenerations(d: Database, stmts: seq<Statement>, a: nat, b: nat)
    requires a <= b <= |stmts| && Run(d, stmts[..a]).vault.gen == Run(d, stmts[..b]).vault.gen
    ensures SameThroughout(d, stmts, a, b) <==> forall k | a <= k < b :: !Writes(Run(d, stmts[..k]), stmts[k])
  {
    hide Exec, Bumps, Writes;
    GenerationRises(d, stmts, a, b);
    if forall k | a <= k < b :: !Writes(Run(d, stmts[..k]), stmts[k]) {
      forall m | a <= m <= b ensures Run(d, stmts[..m]).vault == Run(d, stmts[..a]).vault {
        NothingWritten(d, stmts, a, m);
      }
    } else {
      var k :| a <= k < b && Writes(Run(d, stmts[..k]), stmts[k]);
      OneMore(d, stmts, k);
      WriteOrBump(Run(d, stmts[..k]), stmts[k]);
    }
  }

  /** The vault is the same at all moments from one to another exactly when they have the same generation and every
      operation that wrote a row in between has had its bump. */
  lemma SameIffSettled(d: Database, stmts: seq<Statement>, a: nat, b: nat)
    requires a <= b <= |stmts|
    ensures SameThroughout(d, stmts, a, b) <==>
            Run(d, stmts[..a]).vault.gen == Run(d, stmts[..b]).vault.gen && Settled(d, stmts, a, b)
  {
    hide Exec, Bumps, Writes;
    if Run(d, stmts[..a]).vault.gen == Run(d, stmts[..b]).vault.gen {
      EqualGenerations(d, stmts, a, b);
      GenerationRises(d, stmts, a, b);
      if Settled(d, stmts, a, b) {
        forall k | a <= k < b ensures !Writes(Run(d, stmts[..k]), stmts[k]) {
          assert forall m | k < m < b :: !BumpsFor(d, stmts, m, OpOf(Run(d, stmts[..k]), stmts[k]));
        }
      }
    }
  }

  /** With nothing failing: after the first statement of a put, the vault differs at an equal generation. */
  lemma PutHalfDone(d: Database, profile: string, key: string, now: int)
    ensures var e := Exec(d, Begin(PutApiKey(profile, key), None, now));
            e.vault != d.vault && e.vault.gen == d.vault.gen
  {
    var e := Exec(d, Begin(PutApiKey(profile, key), None, now));
    assert |e.vault.rows| == |d.vault.rows| + 1;
  }
}
