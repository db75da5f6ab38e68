/** When the in-memory store and the SQL store behave alike, over whole runs of operations
    (credential/store/memory.go against credential/store/sqlite.go). */
module Refinement {
  import opened Text
  import opened Payload
  import opened Store

  /** Two rows that may differ in the identity key only. */
  predicate SameRow(a: Row, b: Row) {
    a.(identity := "") == b.(identity := "")
  }

  /** Two vaults that agree on everything but identity keys. */
  ghost predicate Same(a: Vault, b: Vault) {
    && a.lastId == b.lastId && a.gen == b.gen && a.genAt == b.genAt
    && |a.rows| == |b.rows|
    && forall i | 0 <= i < |a.rows| :: SameRow(a.rows[i], b.rows[i])
  }

  predicate SameReply(r: Reply, s: Reply) {
    r == s || (r.Fail? && s.Fail?)
  }

  /** The update looks for an OAuth row that a newer API key row of the profile hides from the index. */
  predicate Shadowed(v: Vault, op: Op) {
    op.UpdateOAuth? &&
    var newest := Newest(v.rows, op.profile);
    newest.Some? && v.rows[newest.value].kind != OAuthKind && NewestOAuth(v.rows, op.profile).Some?
  }

  lemma LastSame(a: Vault, b: Vault, q: Query)
    requires Same(a, b)
    ensures Last(a.rows, q) == Last(b.rows, q)
  {
    hide Last;
    assert forall i | 0 <= i < |a.rows| :: SameRow(a.rows[i], b.rows[i]) && (q.Matches(a.rows[i]) <==> q.Matches(b.rows[i]));
  }

  lemma LookupSame(a: Vault, b: Vault, profile: string)
    requires Same(a, b)
    ensures Lookup(a, profile) == Lookup(b, profile)
  {
    hide Last, Decode;
    LastSame(a, b, OfProfile(profile));
    var hit := Newest(a.rows, profile);
    assert hit.Some? ==> SameRow(a.rows[hit.value], b.rows[hit.value]);
  }

  /** Unless it is shadowed, the newest OAuth row of a profile is its newest row. */
  lemma NewestAgree(rows: seq<Row>, profile: string)
    ensures var n, o := Newest(rows, profile), NewestOAuth(rows, profile);
            && (o.Some? ==> n.Some?)
            && (n.Some? && rows[n.value].kind == OAuthKind ==> o == n)
  {
    hide Last;
    var n, o := Newest(rows, profile), NewestOAuth(rows, profile);
    if o.Some? {
      assert OfProfile(profile).Matches(rows[o.value]);
    }
    if n.Some? && rows[n.value].kind == OAuthKind {
      assert OAuthOf(profile).Matches(rows[n.value]);
    }
  }

  lemma UpdateAgrees(a: Vault, b: Vault, op: Op, now: int)
    requires Same(a, b) && op.UpdateOAuth?
    ensures var m, s := MemStep(a, op, now), SqlStep(b, op, now, NoFault);
            && (SameReply(m.1, s.1) <==> !Shadowed(a, op))
            && (!Shadowed(a, op) ==> Same(m.0, s.0))
  {
    hide Last, EncodeOAuth;
    LastSame(a, b, OfProfile(op.profile));
    LastSame(a, b, OAuthOf(op.profile));
    NewestAgree(a.rows, op.profile);
    var hit := Newest(a.rows, op.profile);
    if hit.Some? {
      assert SameRow(a.rows[hit.value], b.rows[hit.value]);
    }
  }

  /** One operation with a working database: the two stores answer alike exactly when the operation is not
      a shadowed update, and then they also stay alike. */
  lemma StepAgrees(a: Vault, b: Vault, op: Op, now: int)
    requires Same(a, b)
    ensures var m, s := MemStep(a, op, now), SqlStep(b, op, now, NoFault);
            && (SameReply(m.1, s.1) <==> !Shadowed(a, op))
            && (!Shadowed(a, op) ==> Same(m.0, s.0))
  {
    hide Last, EncodeOAuth, EncodeApiKey;
    if op.UpdateOAuth? {
      UpdateAgrees(a, b, op, now);
    } else if op.Disable? {
      LastSame(a, b, WithId(op.id));
      var hit := ById(a.rows, op.id);
      assert hit.Some? ==> SameRow(a.rows[hit.value], b.rows[hit.value]);
    }
  }

  /** From one vault, an update that is not shadowed leaves the very same vault in both stores exactly when
      it brings an email or there was no identity key to keep. */
  lemma IdentityAgrees(v: Vault, profile: string, mat: Material, now: int)
    requires !Shadowed(v, UpdateOAuth(profile, mat))
    ensures var hit := NewestOAuth(v.rows, profile);
            MemStep(v, UpdateOAuth(profile, mat), now).0 == SqlStep(v, UpdateOAuth(profile, mat), now, NoFault).0 <==>
            (hit.Some? ==> mat.email != "" || v.rows[hit.value].identity == "")
  {
    hide Last, EncodeOAuth;
    NewestAgree(v.rows, profile);
    var hit := NewestOAuth(v.rows, profile);
    if hit.Some? {
      var i := hit.value;
      var m, s := MemStep(v, UpdateOAuth(profile, mat), now).0, SqlStep(v, UpdateOAuth(profile, mat), now, NoFault).0;
      assert m.rows[i].identity == if mat.email != "" then mat.email else v.rows[i].identity;
      assert s.rows[i].identity == mat.email;
    }
  }

  /** A login with an email, then an update without one: memory keeps the identity key, SQL clears it. */
  lemma EmptyEmailDiverges(mat: Material, now: int)
    requires mat.email == ""
    ensures var v := MemStep(Fresh(now), PutOAuth("p", mat.(email := "e")), now).0;
            && MemStep(v, UpdateOAuth("p", mat), now).0.rows[0].identity == "e"
            && SqlStep(v, UpdateOAuth("p", mat), now, NoFault).0.rows[0].identity == ""
  {
    hide EncodeOAuth;
    var v := MemStep(Fresh(now), PutOAuth("p", mat.(email := "e")), now).0;
    assert |v.rows| == 1;
    NewestAgree(v.rows, "p");
  }

  // ---------- runs ----------

  datatype Call = Call(op: Op, now: int)

  function MemRun(v: Vault, calls: seq<Call>): (Vault, seq<Reply>)
    decreases calls
  {
    if calls == [] then (v, [])
    else
      var (v1, r) := MemStep(v, calls[0].op, calls[0].now);
      var (v2, rs) := MemRun(v1, calls[1..]);
      (v2, [r] + rs)
  }

  function SqlRun(v: Vault, calls: seq<Call>): (Vault, seq<Reply>)
    decreases calls
  {
    if calls == [] then (v, [])
    else
      var (v1, r) := SqlStep(v, calls[0].op, calls[0].now, NoFault);
      var (v2, rs) := SqlRun(v1, calls[1..]);
      (v2, [r] + rs)
  }

  /** No update of the run is shadowed when it comes. */
  ghost predicate NeverShadowed(v: Vault, calls: seq<Call>)
    decreases calls
  {
    calls == [] ||
    (!Shadowed(v, calls[0].op) && NeverShadowed(MemStep(v, calls[0].op, calls[0].now).0, calls[1..]))
  }

  ghost predicate SameReplies(rs: seq<Reply>, ss: seq<Reply>) {
    |rs| == |ss| && forall i | 0 <= i < |rs| :: SameReply(rs[i], ss[i])
  }

  /** Over every run, the two stores give the same answers exactly when no update is shadowed; their tables
      and generations then end up alike. */
  lemma {:induction false} RunsAgree(a: Vault, b: Vault, calls: seq<Call>)
    requires Same(a, b)
    ensures SameReplies(MemRun(a, calls).1, SqlRun(b, calls).1) <==> NeverShadowed(a, calls)
    ensures NeverShadowed(a, calls) ==> Same(MemRun(a, calls).0, SqlRun(b, calls).0)
    decreases calls
  {
    hide MemStep, SqlStep, Shadowed;
    if calls != [] {
      var op, now := calls[0].op, calls[0].now;
      StepAgrees(a, b, op, now);
      var (a1, r) := MemStep(a, op, now);
      var (b1, s) := SqlStep(b, op, now, NoFault);
      SameRepliesCons(r, MemRun(a1, calls[1..]).1, s, SqlRun(b1, calls[1..]).1);
      if !Shadowed(a, op) {
        RunsAgree(a1, b1, calls[1..]);
      }
    }
  }

  lemma SameRepliesCons(r: Reply, rs: seq<Reply>, s: Reply, ss: seq<Reply>)
    ensures SameReplies([r] + rs, [s] + ss) <==> SameReply(r, s) && SameReplies(rs, ss)
  {
    var l, m := [r] + rs, [s] + ss;
    assert l[0] == r && m[0] == s;
    assert l[1..] == rs && m[1..] == ss;
    assert forall i | 0 <= i < |rs| :: l[i + 1] == rs[i];
    assert forall i | 0 <= i < |ss| :: m[i + 1] == ss[i];
  }

  /** Which kind of credential each profile holds; a put of another kind never happens. */
  predicate KeepsKinds(kindOf: map<string, Kind>, op: Op) {
    match op
    case PutApiKey(p, _) => p in kindOf && kindOf[p] == ApiKeyKind
    case PutOAuth(p, _) => p in kindOf && kindOf[p] == OAuthKind
    case _ => true
  }

  ghost predicate RowsKeepKinds(kindOf: map<string, Kind>, rows: seq<Row>) {
    forall r | r in rows :: r.profile in kindOf && kindOf[r.profile] == r.kind
  }

  lemma KindsKept(kindOf: map<string, Kind>, v: Vault, op: Op, now: int)
    requires RowsKeepKinds(kindOf, v.rows) && KeepsKinds(kindOf, op)
    ensures !Shadowed(v, op)
    ensures RowsKeepKinds(kindOf, MemStep(v, op, now).0.rows)
  {
    hide Last, EncodeOAuth, EncodeApiKey;
    if op.UpdateOAuth? {
      var n, o := Newest(v.rows, op.profile), NewestOAuth(v.rows, op.profile);
      assert n.Some? ==> v.rows[n.value] in v.rows;
      assert o.Some? ==> v.rows[o.value] in v.rows;
    }
    forall r | r in MemStep(v, op, now).0.rows ensures r.profile in kindOf && kindOf[r.profile] == r.kind {
      var i :| 0 <= i < |MemStep(v, op, now).0.rows| && MemStep(v, op, now).0.rows[i] == r;
      assert i < |v.rows| ==> v.rows[i] in v.rows;
    }
  }

  lemma {:induction false} KindsKeptOverRun(kindOf: map<string, Kind>, v: Vault, calls: seq<Call>)
    requires RowsKeepKinds(kindOf, v.rows) && forall c | c in calls :: KeepsKinds(kindOf, c.op)
    ensures NeverShadowed(v, calls)
    decreases calls
  {
    if calls != [] {
      assert calls[0] in calls;
      KindsKept(kindOf, v, calls[0].op, calls[0].now);
      KindsKeptOverRun(kindOf, MemStep(v, calls[0].op, calls[0].now).0, calls[1..]);
    }
  }

  /** Over every run in which no profile mixes kinds, and whatever the clock reads, the in-memory store gives
      the SQL store's answers: operations, lookups, disabled rows and generation. */
  lemma MemoryRefinesSql(kindOf: map<string, Kind>, start: int, calls: seq<Call>, profile: string)
    requires forall c | c in calls :: KeepsKinds(kindOf, c.op)
    ensures var m, s := MemRun(Fresh(start), calls), SqlRun(Fresh(start), calls);
            && SameReplies(m.1, s.1) && Same(m.0, s.0)
            && Lookup(m.0, profile) == Lookup(s.0, profile)
  {
    KindsKeptOverRun(kindOf, Fresh(start), calls);
    RunsAgree(Fresh(start), Fresh(start), calls);
    LookupSame(MemRun(Fresh(start), calls).0, SqlRun(Fresh(start), calls).0, profile);
  }

  /** Mixing kinds does break it: after an API key is put over an OAuth credential, an update fails in
      memory and succeeds in SQL. */
  lemma ShadowedUpdateDiverges(mat: Material, t: int)
    ensures var calls := [Call(PutOAuth("p", mat), t), Call(PutApiKey("p", "k"), t)];
            Shadowed(MemRun(Fresh(t), calls).0, UpdateOAuth("p", mat))
  {
    hide EncodeOAuth, EncodeApiKey;
    var v1 := MemStep(Fresh(t), PutOAuth("p", mat), t).0;
    var v2 := MemStep(v1, PutApiKey("p", "k"), t).0;
    assert v2.rows == [v2.rows[0], v2.rows[1]];
    assert v2.rows[..1] == v1.rows;
    var calls := [Call(PutOAuth("p", mat), t), Call(PutApiKey("p", "k"), t)];
    assert calls[1..] == [Call(PutApiKey("p", "k"), t)];
    assert calls[1..][1..] == [];
    assert MemRun(v2, []).0 == v2;
    assert MemRun(v1, calls[1..]).0 == v2;
  }

  // ---------- the generation ----------

  /** With a working database every operation either fails and changes nothing, or succeeds and raises the
      generation by exactly one. */
  lemma GenerationCounts(v: Vault, op: Op, now: int)
    ensures var m := MemStep(v, op, now);
            if m.1.Fail? then m.0 == v else m.0.gen == v.gen + 1
    ensures var s := SqlStep(v, op, now, NoFault);
            if s.1.Fail? then s.0 == v else s.0.gen == v.gen + 1
  {
  }

  function Successes(rs: seq<Reply>): nat {
    if rs == [] then 0 else (if rs[0].Fail? then 0 else 1) + Successes(rs[1..])
  }

  /** Two readings of the generation are equal only if no operation in between succeeded; the vault is then
      the same: the counter never hides a change. */
  lemma {:induction false} GenerationTellsChange(v: Vault, calls: seq<Call>)
    ensures MemRun(v, calls).0.gen == v.gen + Successes(MemRun(v, calls).1)
    ensures SqlRun(v, calls).0.gen == v.gen + Successes(SqlRun(v, calls).1)
    ensures MemRun(v, calls).0.gen == v.gen ==> MemRun(v, calls).0 == v
    ensures SqlRun(v, calls).0.gen == v.gen ==> SqlRun(v, calls).0 == v
    decreases calls
  {
    hide MemStep, SqlStep;
    if calls != [] {
      var op, now := calls[0].op, calls[0].now;
      GenerationCounts(v, op, now);
      var m1, s1 := MemStep(v, op, now), SqlStep(v, op, now, NoFault);
      GenerationTellsChange(m1.0, calls[1..]);
      GenerationTellsChange(s1.0, calls[1..]);
      var m, s := MemRun(m1.0, calls[1..]), SqlRun(s1.0, calls[1..]);
      assert ([m1.1] + m.1)[1..] == m.1 && ([s1.1] + s.1)[1..] == s.1;
    }
  }

  // ---------- a failing database ----------

  /** One operation on the SQL store, and where its database calls fail. */
  datatype FaultyCall = FaultyCall(op: Op, now: int, fault: Fault)

  function Apply(v: Vault, c: FaultyCall): Vault {
    SqlStep(v, c.op, c.now, c.fault).0
  }

  /** The vault after these operations. */
  function History(v: Vault, calls: seq<FaultyCall>): Vault {
    if calls == [] then v else Apply(History(v, calls[..|calls| - 1]), calls[|calls| - 1])
  }

  /** The row the operation is about to add or rewrite is there and will not end up as it was. */
  predicate Changes(v: Vault, op: Op, now: int) {
    match op
    case PutApiKey(_, _) => true
    case PutOAuth(_, _) => true
    case UpdateOAuth(profile, mat) =>
      var hit := NewestOAuth(v.rows, profile);
      hit.Some? && Rewritten(v, hit.value, mat, mat.email, now).rows[hit.value] != v.rows[hit.value]
    case Disable(id, cause) =>
      var hit := ById(v.rows, id);
      hit.Some? && Flagged(v, hit.value, cause, now).rows[hit.value] != v.rows[hit.value]
    case Bump => false
  }

  /** The operation changes a row, and the bump after it is what fails. */
  predicate Silent(v: Vault, c: FaultyCall) {
    c.fault == BeforeBump && Changes(v, c.op, c.now)
  }

  /** A change goes through without the generation moving exactly when the bump is what fails and the operation
      found a row to change or added one. */
  lemma SilentChange(v: Vault, c: FaultyCall)
    ensures Apply(v, c) != v && Apply(v, c).gen == v.gen <==> Silent(v, c)
    ensures Apply(v, c).rows != v.rows <==> c.fault != BeforeWrite && Changes(v, c.op, c.now)
    ensures v.gen <= Apply(v, c).gen <= v.gen + 1
  {
    hide Last, EncodeOAuth, EncodeApiKey;
    var w := Apply(v, c);
    if c.fault != BeforeWrite {
      match c.op {
        case PutApiKey(_, _) => assert |w.rows| == |v.rows| + 1;
        case PutOAuth(_, _) => assert |w.rows| == |v.rows| + 1;
        case UpdateOAuth(profile, mat) =>
          var hit := NewestOAuth(v.rows, profile);
          assert hit.Some? ==> w.rows == v.rows[hit.value := w.rows[hit.value]];
          assert hit.Some? && w.rows[hit.value] == v.rows[hit.value] ==> w.rows == v.rows;
        case Disable(id, cause) =>
          var hit := ById(v.rows, id);
          assert hit.Some? ==> w.rows == v.rows[hit.value := w.rows[hit.value]];
          assert hit.Some? && w.rows[hit.value] == v.rows[hit.value] ==> w.rows == v.rows;
        case Bump =>
      }
    }
  }

  /** The generation tells any two moments between whole operations apart at which the vaults differ. */
  ghost predicate Telling(v: Vault, calls: seq<FaultyCall>) {
    forall a, b | 0 <= a <= b <= |calls| && History(v, calls[..a]).gen == History(v, calls[..b]).gen ::
      History(v, calls[..a]) == History(v, calls[..b])
  }

  /** Over every run of whole operations on the SQL store, whatever fails: equal generations mean equal vaults, at all
      moments between operations, exactly when no operation of the run is silent when it comes. */
  lemma GenerationTellsSqlChange(v: Vault, calls: seq<FaultyCall>)
    ensures Telling(v, calls) <==> forall k | 0 <= k < |calls| :: !Silent(History(v, calls[..k]), calls[k])
  {
    hide Silent, Apply;
    if forall k | 0 <= k < |calls| :: !Silent(History(v, calls[..k]), calls[k]) {
      forall a, b | 0 <= a <= b <= |calls| && History(v, calls[..a]).gen == History(v, calls[..b]).gen
        ensures History(v, calls[..a]) == History(v, calls[..b])
      {
        NothingSilent(v, calls, a, b);
      }
    } else {
      var k :| 0 <= k < |calls| && Silent(History(v, calls[..k]), calls[k]);
      OneMoreCall(v, calls, k);
      SilentChange(History(v, calls[..k]), calls[k]);
    }
  }

  lemma OneMoreCall(v: Vault, calls: seq<FaultyCall>, k: nat)
    requires k < |calls|
    ensures History(v, calls[..k + 1]) == Apply(History(v, calls[..k]), calls[k])
  {
    hide Apply;
    assert calls[..k + 1][..k] == calls[..k];
  }

  lemma {:induction false} NothingSilent(v: Vault, calls: seq<FaultyCall>, a: nat, b: nat)
    requires a <= b <= |calls|
    requires forall k | 0 <= k < |calls| :: !Silent(History(v, calls[..k]), calls[k])
    ensures History(v, calls[..a]).gen <= History(v, calls[..b]).gen
    ensures History(v, calls[..a]).gen == History(v, calls[..b]).gen ==> History(v, calls[..a]) == History(v, calls[..b])
    decreases b
  {
    hide Silent, Apply;
    if a < b {
      NothingSilent(v, calls, a, b - 1);
      OneMoreCall(v, calls, b - 1);
      SilentChange(History(v, calls[..b - 1]), calls[b - 1]);
    }
  }

  /** A put can be silent, and its caller is told it succeeded. */
  lemma SilentPut(v: Vault, profile: string, key: string, now: int)
    ensures Silent(v, FaultyCall(PutApiKey(profile, key), now, BeforeBump))
    ensures SqlStep(v, PutApiKey(profile, key), now, BeforeBump).1.Id?
  {
  }
}
