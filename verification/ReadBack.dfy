/** What a profile's credential reads as, told from the operations alone: no rows, no queries and no encoding. Both
    stores give this answer after every run (credential/store/memory.go, sqlite.go and payload.go). */
module ReadBack {
  import opened Text
  import opened Payload
  import opened Store
  import opened Refinement

  datatype Secret = Key(key: string) | Login(mat: Material)

  /** A profile's last put credential: its row id, what was last written into it, and why it is disabled. */
  datatype Held = Nothing | Holds(id: nat, secret: Secret, cause: string)

  /** What one operation that reaches the store makes of it; `id` is the row id a put gets. */
  function HeldAfter(h: Held, profile: string, id: nat, op: Op): Held {
    match op
    case PutApiKey(p, key) => if p == profile then Holds(id, Key(key), "") else h
    case PutOAuth(p, mat) => if p == profile then Holds(id, Login(mat), "") else h
    case UpdateOAuth(p, mat) =>
      if p == profile && h.Holds? && h.secret.Login? then h.(secret := Login(mat), cause := "") else h
    case Disable(id, cause) => if h.Holds? && h.id == id then h.(cause := cause) else h
    case Bump => h
  }

  predicate IsPut(c: FaultyCall) {
    c.fault != BeforeWrite && (c.op.PutApiKey? || c.op.PutOAuth?)
  }

  /** How many puts of a run went through; the last of them got this row id. */
  function Puts(calls: seq<FaultyCall>): nat {
    if calls == [] then 0
    else Puts(calls[..|calls| - 1]) + if IsPut(calls[|calls| - 1]) then 1 else 0
  }

  function HeldBy(calls: seq<FaultyCall>, profile: string): Held {
    if calls == [] then Nothing
    else
      var front, c := calls[..|calls| - 1], calls[|calls| - 1];
      if c.fault == BeforeWrite then HeldBy(front, profile)
      else HeldAfter(HeldBy(front, profile), profile, Puts(front) + 1, c.op)
  }

  /** Storage cuts an expiry to the millisecond, and drops one that is not after the first millisecond of 1970. */
  function Kept(t: int): int {
    if t >= 1_000_000 then t - t % 1_000_000 else ZERO_TIME
  }

  function AsRead(profile: string, s: Secret): Material {
    match s
    case Key(key) => Material(profile, ApiKeyKind, key, "", "", ZERO_TIME, "", map[])
    case Login(m) =>
      Material(profile, OAuthKind, "", m.accessToken, m.refreshToken, Kept(m.expiresAt), m.email,
               map k | k in m.extras && !Blank(m.extras[k]) :: Trim(m.extras[k]))
  }

  function Answer(profile: string, h: Held): Result<Material, Error> {
    match h
    case Nothing => Err(NotFound)
    case Holds(id, secret, cause) => if cause != "" then Err(Disabled(id, cause)) else Ok(AsRead(profile, secret))
  }

  // ---------- the rows behind it ----------

  ghost predicate Behind(v: Vault, profile: string, puts: nat, h: Held) {
    && IdsCount(v.rows) && |v.rows| == v.lastId == puts
    && match h
       case Nothing => Newest(v.rows, profile) == None
       case Holds(id, secret, cause) =>
         && Newest(v.rows, profile).Some?
         && var r := v.rows[Newest(v.rows, profile).value];
            r.id == id && r.disabledCause == cause && Decode(profile, r.kind, r.data) == AsRead(profile, secret)
  }

  lemma BehindLookup(v: Vault, profile: string, puts: nat, h: Held)
    requires Behind(v, profile, puts, h)
    ensures Lookup(v, profile) == Answer(profile, h)
  {
    hide Decode, AsRead, Last;
  }

  lemma LoginDecodes(profile: string, m: Material)
    ensures Decode(profile, OAuthKind, EncodeOAuth(m)) == AsRead(profile, Login(m))
  {
    TrimEmpty();
    hide Trim;
  }

  lemma KeyDecodes(profile: string, key: string)
    ensures Decode(profile, ApiKeyKind, EncodeApiKey(key)) == AsRead(profile, Key(key))
  {
  }

  lemma LastIs(rows: seq<Row>, q: Query, i: nat)
    requires i < |rows| && q.Matches(rows[i]) && forall j | i < j < |rows| :: !q.Matches(rows[j])
    ensures Last(rows, q) == Some(i)
  {
    hide Last;
  }

  lemma InsertBehind(
    v: Vault, profile: string, puts: nat, h: Held, p: string, kind: Kind, identity: string, data: Json, now: int, s: Secret)
    requires Behind(v, profile, puts, h) && Decode(p, kind, data) == AsRead(p, s)
    ensures Behind(Inserted(v, p, kind, identity, data, now), profile, puts + 1,
                   if p == profile then Holds(puts + 1, s, "") else h)
  {
    hide Last, Decode, AsRead;
    var rows := Inserted(v, p, kind, identity, data, now).rows;
    var hit := Newest(v.rows, profile);
    if p == profile {
      LastIs(rows, OfProfile(profile), |v.rows|);
    } else if hit.Some? {
      LastIs(rows, OfProfile(profile), hit.value);
    }
  }

  /** A row other than the newest of the profile changes, or the newest one does, keeping its id and profile. */
  lemma RowChangeBehind(v: Vault, w: Vault, profile: string, puts: nat, h: Held, i: nat, h': Held)
    requires Behind(v, profile, puts, h) && i < |v.rows| == |w.rows| && w.lastId == v.lastId
    requires w.rows == v.rows[i := w.rows[i]]
    requires w.rows[i].id == v.rows[i].id && w.rows[i].profile == v.rows[i].profile
    requires if Newest(v.rows, profile) == Some(i)
             then h'.Holds? && h'.id == v.rows[i].id && h'.cause == w.rows[i].disabledCause
                  && Decode(profile, w.rows[i].kind, w.rows[i].data) == AsRead(profile, h'.secret)
             else h' == h
    ensures Behind(w, profile, puts, h')
  {
    hide Last, Decode, AsRead;
    var hit := Newest(v.rows, profile);
    if hit.Some? {
      LastIs(w.rows, OfProfile(profile), hit.value);
    }
  }

  lemma RewriteBehind(
    v: Vault, profile: string, puts: nat, h: Held, i: nat, mat: Material, identity: string, now: int)
    requires Behind(v, profile, puts, h) && i < |v.rows| && v.rows[i].kind == OAuthKind
    ensures Behind(Rewritten(v, i, mat, identity, now), profile, puts,
                   if Newest(v.rows, profile) == Some(i) then h.(secret := Login(mat), cause := "") else h)
  {
    hide Last, Decode, AsRead, EncodeOAuth;
    LoginDecodes(profile, mat);
    RowChangeBehind(v, Rewritten(v, i, mat, identity, now), profile, puts, h, i,
                    if Newest(v.rows, profile) == Some(i) then h.(secret := Login(mat), cause := "") else h);
  }

  lemma FlagBehind(v: Vault, profile: string, puts: nat, h: Held, id: int, cause: string, now: int)
    requires Behind(v, profile, puts, h)
    ensures var hit := ById(v.rows, id);
            Behind(if hit.Some? then Flagged(v, hit.value, cause, now) else v, profile, puts,
                   HeldAfter(h, profile, puts + 1, Disable(id, cause)))
  {
    hide Last, Decode, AsRead;
    var hit, newest := ById(v.rows, id), Newest(v.rows, profile);
    assert hit.Some? ==> WithId(id).Matches(v.rows[hit.value]);
    if newest.Some? && v.rows[newest.value].id == id {
      LastIs(v.rows, WithId(id), newest.value);
    }
    if hit.Some? {
      RowChangeBehind(v, Flagged(v, hit.value, cause, now), profile, puts, h, hit.value,
                      HeldAfter(h, profile, puts + 1, Disable(id, cause)));
    }
  }

  /** The kind of the newest row is that of what is held. */
  lemma KindBehind(v: Vault, profile: string, puts: nat, h: Held)
    requires Behind(v, profile, puts, h) && h.Holds?
    ensures v.rows[Newest(v.rows, profile).value].kind == OAuthKind <==> h.secret.Login?
  {
    hide Last;
  }

  lemma UpdateBehind(v: Vault, profile: string, puts: nat, h: Held, p: string, mat: Material, identity: string, now: int)
    requires Behind(v, profile, puts, h) && NewestOAuth(v.rows, p).Some?
    ensures Behind(Rewritten(v, NewestOAuth(v.rows, p).value, mat, identity, now), profile, puts,
                   HeldAfter(h, profile, puts + 1, UpdateOAuth(p, mat)))
  {
    hide Last, Decode, AsRead, EncodeOAuth, Rewritten, Behind;
    var i := NewestOAuth(v.rows, p).value;
    NewestAgree(v.rows, profile);
    if h.Holds? {
      KindBehind(v, profile, puts, h);
    } else {
      NothingBehind(v, profile, puts);
    }
    SomethingBehind(v, profile, puts, h);
    assert OAuthOf(p).Matches(v.rows[i]);
    RewriteBehind(v, profile, puts, h, i, mat, identity, now);
  }

  /** An update that finds no OAuth row changes nothing, and no login is held. */
  lemma NoUpdateBehind(v: Vault, profile: string, puts: nat, h: Held, p: string, mat: Material)
    requires Behind(v, profile, puts, h) && NewestOAuth(v.rows, p).None?
    ensures HeldAfter(h, profile, puts + 1, UpdateOAuth(p, mat)) == h
  {
    hide Last, Decode, AsRead;
    if h.Holds? && p == profile {
      KindBehind(v, profile, puts, h);
      assert !OAuthOf(p).Matches(v.rows[Newest(v.rows, profile).value]);
    }
  }

  lemma LastIdBehind(v: Vault, profile: string, puts: nat, h: Held)
    requires Behind(v, profile, puts, h)
    ensures v.lastId == puts
  {
  }

  lemma NothingBehind(v: Vault, profile: string, puts: nat)
    requires Behind(v, profile, puts, Nothing)
    ensures Newest(v.rows, profile) == None
  {
    hide Last;
  }

  lemma SomethingBehind(v: Vault, profile: string, puts: nat, h: Held)
    requires Behind(v, profile, puts, h)
    ensures h.Holds? <==> Newest(v.rows, profile).Some?
  {
    hide Last, Decode, AsRead;
  }

  lemma BumpBehind(v: Vault, profile: string, puts: nat, h: Held, now: int)
    requires Behind(v, profile, puts, h)
    ensures Behind(Bumped(v, now), profile, puts, h)
  {
    hide Last, Decode, AsRead;
  }

  // ---------- one operation ----------

  lemma SqlStepBehind(v: Vault, profile: string, puts: nat, h: Held, c: FaultyCall)
    requires Behind(v, profile, puts, h)
    ensures var h' := if c.fault == BeforeWrite then h else HeldAfter(h, profile, puts + 1, c.op);
            Behind(Apply(v, c), profile, puts + if IsPut(c) then 1 else 0, h')
  {
    hide Last, Decode, AsRead, EncodeOAuth, EncodeApiKey, Rewritten, Flagged, Inserted, Behind, Bumped, HeldAfter;
    if c.fault != BeforeWrite {
      var w := Apply(v, c);
      var quiet := SqlStep(v, c.op, c.now, BeforeBump).0;
      var n := puts + if IsPut(c) then 1 else 0;
      QuietStepBehind(v, profile, puts, h, c.op, c.now);
      BumpBehind(quiet, profile, n, HeldAfter(h, profile, puts + 1, c.op), c.now);
      assert w == quiet || w == Bumped(quiet, c.now);
    }
  }

  /** An operation whose bump fails, or that is followed by one. */
  lemma QuietStepBehind(v: Vault, profile: string, puts: nat, h: Held, op: Op, now: int)
    requires Behind(v, profile, puts, h)
    ensures Behind(SqlStep(v, op, now, BeforeBump).0, profile,
                   puts + if op.PutApiKey? || op.PutOAuth? then 1 else 0, HeldAfter(h, profile, puts + 1, op))
  {
    hide Last, AsRead, EncodeOAuth, Rewritten, Flagged, Inserted, Behind, Bumped, Newest, NewestOAuth, ById;
    LastIdBehind(v, profile, puts, h);
    match op {
      case PutApiKey(p, key) =>
        assert Decode(p, ApiKeyKind, EncodeApiKey(key)) == AsRead(p, Key(key)) by { KeyDecodes(p, key); }
        InsertBehind(v, profile, puts, h, p, ApiKeyKind, "", EncodeApiKey(key), now, Key(key));
      case PutOAuth(p, mat) =>
        LoginDecodes(p, mat);
        InsertBehind(v, profile, puts, h, p, OAuthKind, mat.email, EncodeOAuth(mat), now, Login(mat));
      case UpdateOAuth(p, mat) =>
        if NewestOAuth(v.rows, p).Some? {
          UpdateBehind(v, profile, puts, h, p, mat, mat.email, now);
        } else {
          NoUpdateBehind(v, profile, puts, h, p, mat);
        }
      case Disable(id, cause) => FlagBehind(v, profile, puts, h, id, cause, now);
      case Bump =>
    }
  }

  lemma MemStepBehind(v: Vault, profile: string, puts: nat, h: Held, op: Op, now: int)
    requires Behind(v, profile, puts, h)
    ensures Behind(MemStep(v, op, now).0, profile,
                   puts + if op.PutApiKey? || op.PutOAuth? then 1 else 0, HeldAfter(h, profile, puts + 1, op))
  {
    hide Last, AsRead, EncodeOAuth, Rewritten, Flagged, Inserted, Behind, Bumped, Newest, NewestOAuth, ById, HeldAfter;
    QuietStepBehind(v, profile, puts, h, op, now);
    BumpBehind(SqlStep(v, op, now, BeforeBump).0, profile,
               puts + if op.PutApiKey? || op.PutOAuth? then 1 else 0, HeldAfter(h, profile, puts + 1, op), now);
    if op.UpdateOAuth? {
      MemUpdateBehind(v, profile, puts, h, op.profile, op.mat, now);
    }
  }

  /** An update refused because a key hides the OAuth row leaves the key; SQL changes the hidden row. */
  lemma MemUpdateBehind(v: Vault, profile: string, puts: nat, h: Held, p: string, mat: Material, now: int)
    requires Behind(v, profile, puts, h)
    ensures Behind(MemStep(v, UpdateOAuth(p, mat), now).0, profile, puts, HeldAfter(h, profile, puts + 1, UpdateOAuth(p, mat)))
  {
    hide Last, Decode, AsRead, EncodeOAuth, Rewritten, Behind, Bumped;
    var newest := Newest(v.rows, p);
    NewestAgree(v.rows, p);
    if newest.Some? && v.rows[newest.value].kind == OAuthKind {
      var identity := if mat.email != "" then mat.email else v.rows[newest.value].identity;
      UpdateBehind(v, profile, puts, h, p, mat, identity, now);
      BumpBehind(Rewritten(v, newest.value, mat, identity, now), profile, puts,
                 HeldAfter(h, profile, puts + 1, UpdateOAuth(p, mat)), now);
    } else if p == profile && h.Holds? {
      SomethingBehind(v, profile, puts, h);
      KindBehind(v, profile, puts, h);
    }
  }

  // ---------- whole runs ----------

  lemma {:induction false} SqlBehind(start: int, calls: seq<FaultyCall>, profile: string)
    ensures Behind(History(Fresh(start), calls), profile, Puts(calls), HeldBy(calls, profile))
    decreases calls
  {
    hide Apply, HeldAfter;
    if calls != [] {
      var n := |calls| - 1;
      SqlBehind(start, calls[..n], profile);
      SqlStepBehind(History(Fresh(start), calls[..n]), profile, Puts(calls[..n]), HeldBy(calls[..n], profile), calls[n]);
    }
  }

  /** The same operations on a store whose writes cannot fail. */
  function Faultless(calls: seq<Call>): seq<FaultyCall> {
    seq(|calls|, i requires 0 <= i < |calls| => FaultyCall(calls[i].op, calls[i].now, NoFault))
  }

  lemma {:induction false} MemOneMore(v: Vault, calls: seq<Call>, c: Call)
    ensures MemRun(v, calls + [c]).0 == MemStep(MemRun(v, calls).0, c.op, c.now).0
    ensures MemRun(v, calls + [c]).1 == MemRun(v, calls).1 + [MemStep(MemRun(v, calls).0, c.op, c.now).1]
    decreases calls
  {
    hide MemStep;
    if calls == [] {
      assert [c][1..] == [];
    } else {
      assert (calls + [c])[1..] == calls[1..] + [c];
      MemOneMore(MemStep(v, calls[0].op, calls[0].now).0, calls[1..], c);
    }
  }

  lemma {:induction false} MemBehind(start: int, calls: seq<Call>, profile: string)
    ensures Behind(MemRun(Fresh(start), calls).0, profile, Puts(Faultless(calls)), HeldBy(Faultless(calls), profile))
    decreases calls
  {
    hide MemStep, MemRun, HeldAfter;
    var v := Fresh(start);
    if calls == [] {
      NoneRun(v);
    } else {
      var n := |calls| - 1;
      var c := calls[n];
      assert calls == calls[..n] + [c];
      assert Faultless(calls)[..n] == Faultless(calls[..n]);
      MemBehind(start, calls[..n], profile);
      MemOneMore(v, calls[..n], c);
      MemStepBehind(MemRun(v, calls[..n]).0, profile, Puts(Faultless(calls[..n])),
                    HeldBy(Faultless(calls[..n]), profile), c.op, c.now);
    }
  }

  lemma NoneRun(v: Vault)
    ensures MemRun(v, []) == (v, [])
  {
  }

  /** After every run on the SQL store, wherever its database calls fail, a profile reads as its last put says: the very
      key, or the last login written into that row, unless a later operation disabled the row. */
  lemma SqlReads(start: int, calls: seq<FaultyCall>, profile: string)
    ensures Lookup(History(Fresh(start), calls), profile) == Answer(profile, HeldBy(calls, profile))
  {
    SqlBehind(start, calls, profile);
    BehindLookup(History(Fresh(start), calls), profile, Puts(calls), HeldBy(calls, profile));
  }

  /** And so it does after every run on the in-memory store, so that the two stores always read alike, even when kinds
      are mixed and an update is answered differently. */
  lemma MemReads(start: int, calls: seq<Call>, profile: string)
    ensures Lookup(MemRun(Fresh(start), calls).0, profile) == Answer(profile, HeldBy(Faultless(calls), profile))
    ensures Lookup(MemRun(Fresh(start), calls).0, profile) == Lookup(SqlRun(Fresh(start), calls).0, profile)
  {
    hide Lookup, Answer;
    MemBehind(start, calls, profile);
    BehindLookup(MemRun(Fresh(start), calls).0, profile, Puts(Faultless(calls)), HeldBy(Faultless(calls), profile));
    SqlReads(start, Faultless(calls), profile);
    SqlRunIsHistory(Fresh(start), calls);
  }

  lemma {:induction false} SqlOneMore(v: Vault, calls: seq<Call>, c: Call)
    ensures SqlRun(v, calls + [c]).0 == SqlStep(SqlRun(v, calls).0, c.op, c.now, NoFault).0
    decreases calls
  {
    hide SqlStep;
    if calls == [] {
      assert [c][1..] == [];
    } else {
      assert (calls + [c])[1..] == calls[1..] + [c];
      SqlOneMore(SqlStep(v, calls[0].op, calls[0].now, NoFault).0, calls[1..], c);
    }
  }

  lemma {:induction false} SqlRunIsHistory(v: Vault, calls: seq<Call>)
    ensures SqlRun(v, calls).0 == History(v, Faultless(calls))
    decreases calls
  {
    hide SqlStep;
    if calls != [] {
      var n := |calls| - 1;
      assert calls == calls[..n] + [calls[n]];
      assert Faultless(calls)[..n] == Faultless(calls[..n]);
      SqlRunIsHistory(v, calls[..n]);
      SqlOneMore(v, calls[..n], calls[n]);
    }
  }

  // ---------- API keys ----------

  /** A put of another credential for the profile, or a disable that names the row, that reaches the store. */
  predicate Overrides(c: FaultyCall, profile: string, id: nat) {
    c.fault != BeforeWrite &&
    match c.op
    case PutApiKey(p, _) => p == profile
    case PutOAuth(p, _) => p == profile
    case Disable(row, _) => row == id
    case _ => false
  }

  lemma {:induction false} KeyStaysHeld(calls: seq<FaultyCall>, k: nat, profile: string, key: string)
    requires k < |calls| && calls[k].op == PutApiKey(profile, key) && calls[k].fault != BeforeWrite
    requires forall j | k < j < |calls| :: !Overrides(calls[j], profile, Puts(calls[..k + 1]))
    ensures HeldBy(calls, profile) == Holds(Puts(calls[..k + 1]), Key(key), "")
    decreases |calls|
  {
    var n := |calls| - 1;
    if k == n {
      assert calls[..k + 1] == calls;
    } else {
      assert calls[..n][..k + 1] == calls[..k + 1];
      KeyStaysHeld(calls[..n], k, profile, key);
      assert !Overrides(calls[n], profile, Puts(calls[..k + 1]));
    }
  }

  /** An API key that was put, and that nothing since has replaced or disabled, is read back from the SQL store, whatever
      else happens and fails before and after. */
  lemma {:induction false} SqlKeyReadsBack(start: int, calls: seq<FaultyCall>, k: nat, profile: string, key: string)
    requires k < |calls| && calls[k].op == PutApiKey(profile, key) && calls[k].fault != BeforeWrite
    requires forall j | k < j < |calls| :: !Overrides(calls[j], profile, Puts(calls[..k + 1]))
    ensures SqlStep(History(Fresh(start), calls[..k]), calls[k].op, calls[k].now, calls[k].fault).1 == Id(Puts(calls[..k + 1]))
    ensures Lookup(History(Fresh(start), calls), profile) ==
            Ok(Material(profile, ApiKeyKind, key, "", "", ZERO_TIME, "", map[]))
  {
    hide Lookup, HeldBy, EncodeApiKey, Puts;
    SqlReads(start, calls, profile);
    KeyStaysHeld(calls, k, profile, key);
    SqlBehind(start, calls[..k], profile);
    LastIdBehind(History(Fresh(start), calls[..k]), profile, Puts(calls[..k]), HeldBy(calls[..k], profile));
    OneMorePut(calls, k);
  }

  lemma OneMorePut(calls: seq<FaultyCall>, k: nat)
    requires k < |calls|
    ensures Puts(calls[..k + 1]) == Puts(calls[..k]) + if IsPut(calls[k]) then 1 else 0
  {
    assert calls[..k + 1][..k] == calls[..k];
  }

  /** The same from the in-memory store. */
  lemma {:induction false} MemKeyReadsBack(start: int, calls: seq<Call>, k: nat, profile: string, key: string)
    requires k < |calls| && calls[k].op == PutApiKey(profile, key)
    requires forall j | k < j < |calls| :: !Overrides(Faultless(calls)[j], profile, Puts(Faultless(calls)[..k + 1]))
    ensures MemStep(MemRun(Fresh(start), calls[..k]).0, calls[k].op, calls[k].now).1 == Id(Puts(Faultless(calls)[..k + 1]))
    ensures Lookup(MemRun(Fresh(start), calls).0, profile) ==
            Ok(Material(profile, ApiKeyKind, key, "", "", ZERO_TIME, "", map[]))
  {
    hide Lookup, Puts, MemRun, MemStep, SqlRun;
    SqlKeyReadsBack(start, Faultless(calls), k, profile, key);
    MemReads(start, calls, profile);
    SqlRunIsHistory(Fresh(start), calls);
    MemPutReply(start, calls, k);
  }

  lemma MemPutReply(start: int, calls: seq<Call>, k: nat)
    requires k < |calls| && calls[k].op.PutApiKey?
    ensures MemStep(MemRun(Fresh(start), calls[..k]).0, calls[k].op, calls[k].now).1 == Id(Puts(Faultless(calls)[..k + 1]))
  {
    hide EncodeApiKey, Puts, MemRun;
    MemLastId(start, calls[..k]);
    assert Faultless(calls)[..k] == Faultless(calls[..k]);
    OneMorePut(Faultless(calls), k);
  }

  lemma MemLastId(start: int, calls: seq<Call>)
    ensures MemRun(Fresh(start), calls).0.lastId == Puts(Faultless(calls))
  {
    MemBehind(start, calls, "");
  }

  /** Put and read at once, on any vault and in both stores: every key comes back as it was, in a material of its kind
      with every other field empty. */
  lemma KeyRoundTrip(v: Vault, profile: string, key: string, now: int, fault: Fault)
    requires fault != BeforeWrite
    ensures var expected := Ok(Material(profile, ApiKeyKind, key, "", "", ZERO_TIME, "", map[]));
            && Lookup(SqlStep(v, PutApiKey(profile, key), now, fault).0, profile) == expected
            && Lookup(MemStep(v, PutApiKey(profile, key), now).0, profile) == expected
  {
    hide Last, EncodeApiKey, Decode, AsRead;
    KeyDecodes(profile, key);
    KeyIs(profile, key);
    var rows := Inserted(v, profile, ApiKeyKind, "", EncodeApiKey(key), now).rows;
    LastIs(rows, OfProfile(profile), |v.rows|);
  }

  lemma KeyIs(profile: string, key: string)
    ensures AsRead(profile, Key(key)) == Material(profile, ApiKeyKind, key, "", "", ZERO_TIME, "", map[])
  {
  }

  // ---------- what the stores answer ----------

  /** What the in-memory store answers to one operation, of the profile it names and the row ids given out so far. */
  function MemAnswer(held: Held, puts: nat, op: Op): Reply {
    match op
    case PutApiKey(_, _) => Id(puts + 1)
    case PutOAuth(_, _) => Id(puts + 1)
    case UpdateOAuth(_, _) =>
      if held.Nothing? then Fail(NotFound) else if held.secret.Key? then Fail(NotOAuth) else Done
    case Disable(id, _) => if 1 <= id <= puts then Done else Fail(NotFound)
    case Bump => Done
  }

  function NamedBy(op: Op): string {
    if op.PutApiKey? || op.PutOAuth? || op.UpdateOAuth? then op.profile else ""
  }

  lemma MemStepAnswer(v: Vault, op: Op, now: int, puts: nat, h: Held)
    requires Behind(v, NamedBy(op), puts, h)
    ensures MemStep(v, op, now).1 == MemAnswer(h, puts, op)
  {
    hide Last, Decode, AsRead, EncodeOAuth, EncodeApiKey, Rewritten, Flagged, Behind;
    LastIdBehind(v, NamedBy(op), puts, h);
    if op.UpdateOAuth? {
      SomethingBehind(v, op.profile, puts, h);
      if h.Holds? { KindBehind(v, op.profile, puts, h); }
    } else if op.Disable? {
      IdsBehind(v, NamedBy(op), puts, h);
      IdIsIndex(v.rows, op.id);
    }
  }

  lemma IdsBehind(v: Vault, profile: string, puts: nat, h: Held)
    requires Behind(v, profile, puts, h)
    ensures IdsCount(v.rows) && |v.rows| == puts
  {
  }

  /** Over every run, each answer of the in-memory store is told by the operations before it: puts get the row ids in
      turn, an update succeeds exactly when its profile holds a login, a disable exactly when the id was given out. */
  lemma MemAnswers(start: int, calls: seq<Call>, k: nat)
    requires k < |calls|
    ensures |MemRun(Fresh(start), calls).1| == |calls|
    ensures MemRun(Fresh(start), calls).1[k] ==
            MemAnswer(HeldBy(Faultless(calls[..k]), NamedBy(calls[k].op)), Puts(Faultless(calls[..k])), calls[k].op)
  {
    hide MemRun, MemAnswer;
    MemRepliesAre(Fresh(start), calls, k);
    MemBehind(start, calls[..k], NamedBy(calls[k].op));
    MemStepAnswer(MemRun(Fresh(start), calls[..k]).0, calls[k].op, calls[k].now, Puts(Faultless(calls[..k])),
                  HeldBy(Faultless(calls[..k]), NamedBy(calls[k].op)));
  }

  lemma {:induction false} MemRepliesAre(v: Vault, calls: seq<Call>, k: nat)
    requires k < |calls|
    ensures |MemRun(v, calls).1| == |calls|
    ensures MemRun(v, calls).1[k] == MemStep(MemRun(v, calls[..k]).0, calls[k].op, calls[k].now).1
    decreases calls
  {
    hide MemStep, MemRun;
    var n := |calls| - 1;
    assert calls == calls[..n] + [calls[n]];
    MemOneMore(v, calls[..n], calls[n]);
    if calls[..n] == [] {
      NoneRun(v);
    } else {
      MemRepliesAre(v, calls[..n], if k < n then k else 0);
      assert k < n ==> calls[..n][..k] == calls[..k];
    }
  }

  /** A login for the profile has reached the store. */
  predicate LoggedIn(calls: seq<FaultyCall>, profile: string) {
    exists c | c in calls :: IsPut(c) && c.op.PutOAuth? && c.op.profile == profile
  }

  /** Over every run on the SQL store, whatever fails in it, its answer to one more operation: an update finds a row
      exactly when some login for the profile has reached the store, even under a newer key, and any operation but a put
      reports a failed bump. */
  lemma SqlAnswers(start: int, calls: seq<FaultyCall>, c: FaultyCall)
    ensures SqlStep(History(Fresh(start), calls), c.op, c.now, c.fault).1 ==
            if c.fault == BeforeWrite then Fail(Unavailable)
            else if c.op.PutApiKey? || c.op.PutOAuth? then Id(Puts(calls) + 1)
            else if c.op.UpdateOAuth? && !LoggedIn(calls, c.op.profile) then Fail(NotFound)
            else if c.op.Disable? && !(1 <= c.op.id <= Puts(calls)) then Fail(NotFound)
            else if c.fault == BeforeBump then Fail(Unavailable)
            else Done
  {
    hide Last, Decode, AsRead, EncodeOAuth, EncodeApiKey, Rewritten, Flagged, Behind, LoggedIn;
    var v := History(Fresh(start), calls);
    SqlBehind(start, calls, "");
    LastIdBehind(v, "", Puts(calls), HeldBy(calls, ""));
    IdsBehind(v, "", Puts(calls), HeldBy(calls, ""));
    if c.op.UpdateOAuth? {
      OAuthRowIff(start, calls, c.op.profile);
    } else if c.op.Disable? {
      IdIsIndex(v.rows, c.op.id);
    }
  }

  lemma {:induction false} OAuthRowIff(start: int, calls: seq<FaultyCall>, profile: string)
    ensures NewestOAuth(History(Fresh(start), calls).rows, profile).Some? <==> LoggedIn(calls, profile)
    decreases calls
  {
    hide Last, Apply;
    if calls != [] {
      var n := |calls| - 1;
      OAuthRowIff(start, calls[..n], profile);
      OAuthRowStep(History(Fresh(start), calls[..n]), calls[n], profile);
      assert forall c | c in calls :: c in calls[..n] || c == calls[n];
    }
  }

  lemma OAuthRowStep(v: Vault, c: FaultyCall, profile: string)
    ensures NewestOAuth(Apply(v, c).rows, profile).Some? <==>
            NewestOAuth(v.rows, profile).Some? || (IsPut(c) && c.op.PutOAuth? && c.op.profile == profile)
  {
    hide Last, EncodeOAuth, EncodeApiKey;
    var w := Apply(v, c);
    var q := OAuthOf(profile);
    assert forall i | 0 <= i < |v.rows| :: w.rows[i].profile == v.rows[i].profile && w.rows[i].kind == v.rows[i].kind;
    if NewestOAuth(v.rows, profile).Some? {
      assert q.Matches(w.rows[NewestOAuth(v.rows, profile).value]);
    }
    if NewestOAuth(w.rows, profile).Some? && NewestOAuth(w.rows, profile).value < |v.rows| {
      assert q.Matches(v.rows[NewestOAuth(w.rows, profile).value]);
    }
    if IsPut(c) && c.op.PutOAuth? && c.op.profile == profile {
      assert q.Matches(w.rows[|v.rows|]);
    }
  }
}
