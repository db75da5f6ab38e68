/** The admin snapshot stream: it announces the vault's generation on subscribing and whenever a poll finds it changed,
    while other requests change the vault (credential/admin/server.go, `snapshotStream`). On the SQL store the
    polls fall between single statements; on the in-memory store, between whole operations. */
module Snapshot {
  import opened Text
  import opened Store
  import opened Statements
  import Refinement

  /** What can happen next: another request changes the vault, or one of the stream's own channels is ready. */
  datatype Event =
    | Changed(stmt: Statement)      // one statement on the SQL store
    | Locked(op: Op, now: int)      // one operation on the in-memory store, under its mutex
    | PollTick(readOk: bool, writeOk: bool)
    | KeepaliveTick(writeOk: bool)
    | Cancelled

  function Next(d: Database, e: Event): Database {
    match e
    case Changed(s) => Exec(d, s)
    case Locked(op, now) => d.(vault := MemStep(d.vault, op, now).0)
    case _ => d
  }

  /** The store after these events. */
  function After(d: Database, events: seq<Event>): Database {
    if events == [] then d else Next(After(d, events[..|events| - 1]), events[|events| - 1])
  }

  /** The generation at the moment before event `k`. */
  function GenAt(d: Database, events: seq<Event>, k: nat): nat
    requires k <= |events|
  {
    After(d, events[..k]).vault.gen
  }

  /** The generations the polls among these events find. */
  ghost function Polled(d: Database, events: seq<Event>): set<nat> {
    set k | 0 <= k < |events| && events[k].PollTick? :: GenAt(d, events, k)
  }

  ghost predicate Increasing(gens: seq<nat>) {
    forall i, j | 0 <= i < j < |gens| :: gens[i] < gens[j]
  }

  /** The event raises the generation: a bump, or an operation of the in-memory store that succeeds. */
  predicate Raises(d: Database, e: Event) {
    match e
    case Changed(s) => Bumps(d, s)
    case Locked(op, now) => !MemStep(d.vault, op, now).1.Fail?
    case _ => false
  }

  /** Nothing raises the generation from event `k` on. */
  ghost predicate QuietFrom(d: Database, events: seq<Event>, k: nat) {
    forall j | k <= j < |events| :: !Raises(After(d, events[..j]), events[j])
  }

  lemma EventEffect(d: Database, e: Event)
    ensures Next(d, e).vault.gen == d.vault.gen + if Raises(d, e) then 1 else 0
  {
    hide Exec, Bumps, MemStep;
    match e
    case Changed(s) => WriteOrBump(d, s);
    case Locked(op, now) => Refinement.GenerationCounts(d.vault, op, now);
    case _ =>
  }

  lemma OneMoreEvent(d: Database, events: seq<Event>, i: nat)
    requires i < |events|
    ensures events[..i + 1][..i] == events[..i]
    ensures After(d, events[..i + 1]) == Next(After(d, events[..i]), events[i])
    ensures GenAt(d, events, i + 1) == GenAt(d, events, i) + if Raises(After(d, events[..i]), events[i]) then 1 else 0
    ensures Polled(d, events[..i + 1]) ==
            Polled(d, events[..i]) + if events[i].PollTick? then {GenAt(d, events, i)} else {}
  {
    hide Next, Raises;
    assert events[..i + 1][..i] == events[..i];
    EventEffect(After(d, events[..i]), events[i]);
    assert forall k | 0 <= k < i :: events[..i + 1][..k] == events[..k] && events[..i][..k] == events[..k];
  }

  lemma NoEvents(d: Database, events: seq<Event>)
    ensures After(d, events[..0]) == d && Polled(d, events[..0]) == {}
  {
  }

  lemma QuietMore(d: Database, events: seq<Event>, i: nat, k: nat)
    requires k <= i < |events| && QuietFrom(d, events[..i + 1], k)
    ensures QuietFrom(d, events[..i], k) && !Raises(After(d, events[..i]), events[i])
  {
    hide Raises, After;
    assert events[..i + 1][..i] == events[..i] && events[..i + 1][i] == events[i];
    forall j | k <= j < i ensures !Raises(After(d, events[..i][..j]), events[..i][j]) {
      assert events[..i][..j] == events[..i + 1][..j] && events[..i][j] == events[..i + 1][j];
    }
  }

  /** The loop of `snapshotStream`. It returns what it sent, how many events it lived through (all of them
      unless a read or write failed or the client left), and the store as it last was.

      What it sends is fixed by its postcondition: strictly increasing generations, starting with the one on
      subscribing, and made of exactly those its polls found; after a poll that follows the last bump, the last of
      them is the store's own. */
  method Stream(start: Database, events: seq<Event>) returns (sent: seq<nat>, upto: nat, d: Database)
    ensures upto <= |events| && d == After(start, events[..upto])
    ensures sent != [] && sent[0] == start.vault.gen && Increasing(sent)
    ensures Elements(sent) == {start.vault.gen} + Polled(start, events[..upto])
    ensures forall k | 0 <= k < upto && events[k].PollTick? && QuietFrom(start, events[..upto], k) ::
              sent[|sent| - 1] == d.vault.gen
    ensures upto == |events| || events[upto] == Cancelled || events[upto] == KeepaliveTick(false)
            || (events[upto].PollTick? && !(events[upto].readOk && events[upto].writeOk))
  {
    hide After, Next, Polled, Raises, QuietFrom;
    NoEvents(start, events);
    d := start;
    var lastGen := start.vault.gen;
    sent := [start.vault.gen];
    upto := 0;
    while upto < |events|
      invariant 0 <= upto <= |events| && d == After(start, events[..upto])
      invariant sent != [] && sent[0] == start.vault.gen && Increasing(sent) && sent[|sent| - 1] == lastGen <= d.vault.gen
      invariant Elements(sent) == {start.vault.gen} + Polled(start, events[..upto])
      invariant forall k | 0 <= k < upto && events[k].PollTick? && QuietFrom(start, events[..upto], k) ::
                  lastGen == d.vault.gen
    {
      OneMoreEvent(start, events, upto);
      EventEffect(d, events[upto]);
      forall k | 0 <= k <= upto && QuietFrom(start, events[..upto + 1], k)
        ensures (k < upto && events[k].PollTick? ==> lastGen == d.vault.gen) && !Raises(d, events[upto])
      {
        QuietMore(start, events, upto, k);
      }
      match events[upto] {
        case Changed(_) =>
          d := Next(d, events[upto]);
        case Locked(_, _) =>
          d := Next(d, events[upto]);
        case Cancelled =>
          break;
        case KeepaliveTick(writeOk) =>
          if !writeOk {
            break;
          }
          NoChange(d, events[upto]);
        case PollTick(readOk, writeOk) =>
          if !readOk {
            break;
          }
          if d.vault.gen != lastGen {
            if !writeOk {
              break;
            }
            assert Elements(sent + [d.vault.gen]) == Elements(sent) + {d.vault.gen};
            sent := sent + [d.vault.gen];
            lastGen := d.vault.gen;
          }
          NoChange(d, events[upto]);
      }
      upto := upto + 1;
    }
  }

  lemma NoChange(d: Database, e: Event)
    requires !e.Changed? && !e.Locked?
    ensures Next(d, e) == d
  {
  }

  // ---------- what a client may conclude ----------

  lemma {:induction false} GenRises(d: Database, events: seq<Event>, a: nat, b: nat)
    requires a <= b <= |events|
    ensures GenAt(d, events, a) <= GenAt(d, events, b)
    ensures GenAt(d, events, a) == GenAt(d, events, b) <==>
            forall k | a <= k < b :: !Raises(After(d, events[..k]), events[k])
    decreases b
  {
    hide After, Raises;
    if a < b {
      GenRises(d, events, a, b - 1);
      OneMoreEvent(d, events, b - 1);
    }
  }

  lemma NewsComesLater(d: Database, events: seq<Event>, k: nat, p: nat)
    requires k <= |events| && p < |events| && events[p].PollTick? && GenAt(d, events, p) > GenAt(d, events, k)
    ensures exists m | k <= m < p :: Raises(After(d, events[..m]), events[m])
  {
    hide After, Raises;
    if p <= k {
      GenRises(d, events, p, k);
    } else {
      GenRises(d, events, k, p);
    }
  }

  lemma LaterIsNews(d: Database, events: seq<Event>, k: nat, m: nat, p: nat)
    requires k <= m < p < |events| && events[p].PollTick? && Raises(After(d, events[..m]), events[m])
    ensures GenAt(d, events, p) in Polled(d, events) && GenAt(d, events, p) > GenAt(d, events, k)
  {
    hide After, Raises;
    GenRises(d, events, k, m);
    OneMoreEvent(d, events, m);
    GenRises(d, events, m + 1, p);
  }

  /** Whatever happened at moment `k`, the client is told a generation above the one of that moment exactly when some
      bump comes after it and a poll after that. A change whose bump fails is heard of only through another's. */
  lemma NewsIff(d: Database, events: seq<Event>, k: nat)
    requires k <= |events|
    ensures (exists g | g in {d.vault.gen} + Polled(d, events) :: g > GenAt(d, events, k)) <==>
            exists m, p | k <= m < p < |events| :: events[p].PollTick? && Raises(After(d, events[..m]), events[m])
  {
    hide After, Raises, GenAt;
    assert d.vault.gen <= GenAt(d, events, k) by { StartIsLow(d, events, k); }
    if g :| g in {d.vault.gen} + Polled(d, events) && g > GenAt(d, events, k) {
      var p :| 0 <= p < |events| && events[p].PollTick? && GenAt(d, events, p) == g;
      NewsComesLater(d, events, k, p);
    }
    if m, p :| k <= m < p < |events| && events[p].PollTick? && Raises(After(d, events[..m]), events[m]) {
      LaterIsNews(d, events, k, m, p);
    }
  }

  lemma StartIsLow(d: Database, events: seq<Event>, k: nat)
    requires k <= |events|
    ensures d.vault.gen <= GenAt(d, events, k)
  {
    NoEvents(d, events);
    GenRises(d, events, 0, k);
  }

  /** The statements among these events. */
  function Stmts(events: seq<Event>): seq<Statement> {
    if events == [] then []
    else
      var e := events[|events| - 1];
      Stmts(events[..|events| - 1]) + if e.Changed? then [e.stmt] else []
  }

  ghost predicate OnSql(events: seq<Event>) {
    forall e | e in events :: !e.Locked?
  }

  lemma {:induction false} AfterIsRun(d: Database, events: seq<Event>)
    requires OnSql(events)
    ensures After(d, events) == Run(d, Stmts(events))
  {
    hide Exec;
    if events != [] {
      var n := |events| - 1;
      assert events[n] in events;
      AfterIsRun(d, events[..n]);
      if events[n].Changed? {
        assert Stmts(events)[..|Stmts(events)| - 1] == Stmts(events[..n]);
      } else {
        assert Stmts(events) == Stmts(events[..n]);
      }
    }
  }

  /** The statements of the first events are the first statements. */
  lemma {:induction false} StmtsFront(events: seq<Event>, k: nat)
    requires k <= |events|
    ensures Stmts(events[..k]) <= Stmts(events)
  {
    if k < |events| {
      var n := |events| - 1;
      StmtsFront(events[..n], k);
      assert events[..n][..k] == events[..k];
    } else {
      assert events[..k] == events;
    }
  }

  /** How many statements are over at moment `k`. */
  function Moment(events: seq<Event>, k: nat): nat
    requires k <= |events|
  {
    |Stmts(events[..k])|
  }

  lemma {:induction false} MomentsRise(events: seq<Event>, a: nat, b: nat)
    requires a <= b <= |events|
    ensures Moment(events, a) <= Moment(events, b) <= |Stmts(events)|
    ensures Stmts(events)[..Moment(events, b)] == Stmts(events[..b])
    decreases b
  {
    StmtsFront(events, b);
    if a < b {
      MomentsRise(events, a, b - 1);
      assert events[..b][..b - 1] == events[..b - 1];
    }
  }

  /** Every number of statements in between is that of some moment. */
  lemma {:induction false} MomentOf(events: seq<Event>, a: nat, b: nat, j: nat) returns (m: nat)
    requires a <= b <= |events| && Moment(events, a) <= j <= Moment(events, b)
    ensures a <= m <= b && Moment(events, m) == j
    decreases b
  {
    if j == Moment(events, b) {
      m := b;
    } else {
      assert events[..b][..b - 1] == events[..b - 1];
      m := MomentOf(events, a, b - 1, j);
    }
  }

  ghost predicate Unchanged(d: Database, events: seq<Event>, p: nat, q: nat)
    requires p <= q <= |events|
  {
    forall m | p <= m <= q :: After(d, events[..m]).vault == After(d, events[..p]).vault
  }

  /** A client of the SQL store can trust that nothing changed between two moments exactly when it finds the same
      generation at both, and every operation that wrote a row in between has had its bump. */
  lemma SilenceMeansNoChange(d: Database, events: seq<Event>, p: nat, q: nat)
    requires OnSql(events) && p <= q <= |events|
    ensures Moment(events, p) <= Moment(events, q) <= |Stmts(events)|
    ensures Unchanged(d, events, p, q) <==>
            GenAt(d, events, p) == GenAt(d, events, q)
            && Settled(d, Stmts(events), Moment(events, p), Moment(events, q))
  {
    hide Run, After, Stmts, Settled;
    var stmts, a, b := Stmts(events), Moment(events, p), Moment(events, q);
    MomentsRise(events, p, q);
    forall m | p <= m <= q ensures a <= Moment(events, m) <= b {
      MomentsRise(events, p, m);
      MomentsRise(events, m, q);
    }
    forall m | p <= m <= q
      ensures After(d, events[..m]) == Run(d, stmts[..Moment(events, m)])
    {
      MomentsRise(events, p, m);
      AfterIsRun(d, events[..m]);
    }
    SameIffSettled(d, stmts, a, b);
    if Unchanged(d, events, p, q) {
      forall j | a <= j <= b ensures Run(d, stmts[..j]).vault == Run(d, stmts[..a]).vault {
        var m := MomentOf(events, p, q, j);
        assert After(d, events[..m]).vault == After(d, events[..p]).vault;
      }
    }
    if SameThroughout(d, stmts, a, b) {
      forall m | p <= m <= q ensures After(d, events[..m]).vault == After(d, events[..p]).vault {
        assert a <= Moment(events, m) <= b;
      }
    }
  }
}
