/** Refreshing an OAuth credential: read it, trade its refresh token at the server, write the result back with up
    to three attempts (credential/oauth/generic/oauth.go, `RefreshProfile` and `Refresh`). Between the read and the
    writes other requests may do anything to the vault. */
module Refresh {
  import opened Text
  import opened Payload
  import opened Store
  import opened Refinement

  /** The token endpoint's answer; `Refused` stands for a transport error, a status of 400 or more, or bad JSON. */
  datatype Answer = Tokens(access: string, refresh: string, expiresIn: int) | Refused

  /** One write attempt: what others did to the vault since the read or the last attempt, how the database behaves,
      and whether the caller has given up by the time it failed. */
  datatype Attempt = Attempt(before: seq<FaultyCall>, fault: Fault, cancelled: bool, now: int)

  datatype Outcome =
    | Refreshed
    | NoCredential(error: Error)
    | NotAnOAuthProfile
    | NoRefreshToken
    | ServerRefused
    | GaveUp
    | Cancelled

  const NS_PER_S: int := 1_000_000_000

  /** What is written back: the new tokens, the old refresh token if the server sent none, and the current
      email and extras, which a token response never carries. */
  function Renewed(profile: string, cur: Material, a: Answer, now: int): Material
    requires a.Tokens?
  {
    Material(profile, OAuthKind, "", a.access,
             if cur.refreshToken != "" && a.refresh == "" then cur.refreshToken else a.refresh,
             if a.expiresIn > 0 then now + a.expiresIn * NS_PER_S else ZERO_TIME,
             cur.email, Merged(cur.extras, map[]))
  }

  /** What a refresh of the credential it reads would write, or how it ends without writing. */
  function Prepared(v: Vault, profile: string, a: Answer, now: int): Result<Material, Outcome> {
    match Lookup(v, profile)
    case Err(e) => Err(NoCredential(e))
    case Ok(cur) =>
      if cur.kind != OAuthKind then Err(NotAnOAuthProfile)
      else if Blank(cur.refreshToken) then Err(NoRefreshToken)
      else if a.Refused? then Err(ServerRefused)
      else Ok(Renewed(profile, cur, a, now))
  }

  /** The write loop: the first attempt that succeeds ends it, and so does a cancellation after a failure. */
  function Writes(v: Vault, profile: string, mat: Material, attempts: seq<Attempt>): (Vault, Outcome)
    decreases attempts
  {
    if attempts == [] then (v, GaveUp)
    else
      var t := attempts[0];
      var (v1, r) := SqlStep(History(v, t.before), UpdateOAuth(profile, mat), t.now, t.fault);
      if !r.Fail? then (v1, Refreshed)
      else if t.cancelled then (v1, Cancelled)
      else Writes(v1, profile, mat, attempts[1..])
  }

  const ATTEMPTS: nat := 3

  type Attempts = a: seq<Attempt> | |a| == ATTEMPTS witness seq(ATTEMPTS, _ => Attempt([], NoFault, false, 0))

  /** The whole of `RefreshProfile`, for one answer and one fate of its attempts. */
  function RefreshStep(v: Vault, profile: string, a: Answer, now: int, attempts: Attempts): (Vault, Outcome) {
    match Prepared(v, profile, a, now)
    case Err(outcome) => (v, outcome)
    case Ok(mat) => Writes(v, profile, mat, attempts)
  }

  /** What other requests do to the database meanwhile. */
  method Meanwhile(st: SQLite, calls: seq<FaultyCall>)
    modifies st
    ensures st.Contents() == History(old(st.Contents()), calls)
  {
    hide SqlStep;
    ghost var start := st.Contents();
    for i := 0 to |calls|
      invariant st.Contents() == History(start, calls[..i])
    {
      OneMoreCall(start, calls, i);
      var c := calls[i];
      match c.op {
        case PutApiKey(profile, key) => var _ := st.PutAPIKey(profile, key, c.now, c.fault);
        case PutOAuth(profile, mat) => var _ := st.PutOAuthMaterial(profile, mat, c.now, c.fault);
        case UpdateOAuth(profile, mat) => var _ := st.Update(profile, mat, c.now, c.fault);
        case Disable(id, cause) => var _ := st.DisableRow(id, cause, c.now, c.fault);
        case Bump =>
          BumpStep(st.Contents(), c);
          var _ := st.BumpGeneration(c.now, c.fault);
      }
    }
    assert calls[..|calls|] == calls;
  }

  lemma BumpStep(v: Vault, c: FaultyCall)
    requires c.op == Bump
    ensures Apply(v, c) == if c.fault == NoFault then Bumped(v, c.now) else v
  {
  }

  method RefreshProfile(st: SQLite, profile: string, a: Answer, now: int, attempts: Attempts)
    returns (outcome: Outcome, tries: nat)
    modifies st
    ensures (st.Contents(), outcome) == RefreshStep(old(st.Contents()), profile, a, now, attempts)
    ensures tries <= 3
    ensures tries == 0 <==> Prepared(old(st.Contents()), profile, a, now).Err?
    ensures outcome == GaveUp ==> tries == ATTEMPTS
    ensures outcome == Cancelled ==> attempts[tries - 1].cancelled
    ensures forall i | 0 <= i < tries - 1 :: !attempts[i].cancelled
  {
    hide Blank, Decode, SqlStep, Lookup, Merged, CloneExtras, Trim, History;
    tries := 0;
    var got := st.Get(profile);
    if got.Err? {
      return NoCredential(got.error), 0;
    }
    var cur := got.value;
    if cur.kind != OAuthKind {
      return NotAnOAuthProfile, 0;
    }
    if Blank(cur.refreshToken) {
      return NoRefreshToken, 0;
    }
    if a.Refused? {
      return ServerRefused, 0;
    }
    var mat := Material(profile, OAuthKind, "", a.access, a.refresh,
                        if a.expiresIn > 0 then now + a.expiresIn * NS_PER_S else ZERO_TIME, "", map[]);
    if cur.refreshToken != "" && a.refresh == "" {
      mat := mat.(refreshToken := cur.refreshToken);
    }
    if mat.email == "" {
      mat := mat.(email := cur.email);
    }
    var extras := MergeExtras(cur.extras, mat.extras);
    mat := mat.(extras := extras);
    assert mat == Renewed(profile, cur, a, now);
    ghost var start := st.Contents();
    while tries < ATTEMPTS
      invariant 0 <= tries <= ATTEMPTS
      invariant Writes(start, profile, mat, attempts) == Writes(st.Contents(), profile, mat, attempts[tries..])
      invariant forall i | 0 <= i < tries :: !attempts[i].cancelled
    {
      assert attempts[tries..][1..] == attempts[tries + 1..];
      Meanwhile(st, attempts[tries].before);
      var r := st.Update(profile, mat, attempts[tries].now, attempts[tries].fault);
      tries := tries + 1;
      if !r.Fail? {
        return Refreshed, tries;
      }
      if attempts[tries - 1].cancelled {
        return Cancelled, tries;
      }
    }
    return GaveUp, tries;
  }

  // ---------- what others can do to a row ----------

  /** The call writes row `i` of the table as it is. */
  predicate Touches(v: Vault, c: FaultyCall, i: nat) {
    c.fault != BeforeWrite &&
    match c.op
    case UpdateOAuth(profile, _) => NewestOAuth(v.rows, profile) == Some(i)
    case Disable(id, _) => ById(v.rows, id) == Some(i)
    case _ => false
  }

  /** No call removes a row, moves it, or gives it another profile or kind; one call adds at most one. */
  ghost predicate Grown(v: Vault, w: Vault) {
    && |v.rows| <= |w.rows|
    && forall i | 0 <= i < |v.rows| ::
         w.rows[i].id == v.rows[i].id && w.rows[i].profile == v.rows[i].profile && w.rows[i].kind == v.rows[i].kind
  }

  lemma CallGrows(v: Vault, c: FaultyCall)
    ensures Grown(v, Apply(v, c)) && |Apply(v, c).rows| <= |v.rows| + 1
    ensures |Apply(v, c).rows| > |v.rows| ==>
              && (c.op.PutApiKey? || c.op.PutOAuth?)
              && Apply(v, c).rows[|v.rows|] ==
                 Row(v.lastId + 1, c.op.profile, if c.op.PutApiKey? then ApiKeyKind else OAuthKind,
                     if c.op.PutApiKey? then "" else c.op.mat.email, "", c.now, c.now, Apply(v, c).rows[|v.rows|].data)
  {
    hide Last, EncodeOAuth, EncodeApiKey;
  }

  /** A call changes a row only by touching it: an update fills and enables it, a disable sets its cause. */
  lemma CallTouches(v: Vault, c: FaultyCall, i: nat)
    requires i < |v.rows|
    ensures i < |Apply(v, c).rows|
    ensures var w := Apply(v, c);
            if !Touches(v, c, i) then w.rows[i] == v.rows[i]
            else if c.op.Disable? then w.rows[i] == v.rows[i].(disabledCause := c.op.cause, updatedAt := c.now)
            else w.rows[i] == v.rows[i].(disabledCause := "", identity := c.op.mat.email, updatedAt := c.now,
                                         data := EncodeOAuth(c.op.mat))
  {
    hide Last, EncodeOAuth, EncodeApiKey;
  }

  lemma NewestGrows(v: Vault, w: Vault, profile: string)
    requires Grown(v, w) && NewestOAuth(v.rows, profile).Some?
    ensures NewestOAuth(w.rows, profile).Some?
    ensures NewestOAuth(w.rows, profile).value >= NewestOAuth(v.rows, profile).value
  {
    hide Last;
    var i := NewestOAuth(v.rows, profile).value;
    assert OAuthOf(profile).Matches(w.rows[i]);
  }

  lemma {:induction false} HistoryGrows(v: Vault, calls: seq<FaultyCall>)
    ensures Grown(v, History(v, calls))
  {
    hide Apply;
    if calls != [] {
      HistoryGrows(v, calls[..|calls| - 1]);
      CallGrows(History(v, calls[..|calls| - 1]), calls[|calls| - 1]);
    }
  }

  // ---------- what is stored ----------

  /** The credential in the profile's newest OAuth row, disabled or not. */
  function Stored(v: Vault, profile: string): Option<Material> {
    match NewestOAuth(v.rows, profile)
    case None => None
    case Some(i) => Some(Decode(profile, OAuthKind, v.rows[i].data))
  }

  /** What a refresh was prepared from is the enabled, newest row of its profile. */
  lemma PreparedFrom(v: Vault, profile: string, a: Answer, now: int)
    requires Prepared(v, profile, a, now).Ok?
    ensures a.Tokens? && Lookup(v, profile).Ok? && Stored(v, profile) == Some(Lookup(v, profile).value)
    ensures Lookup(v, profile).value.refreshToken != ""
    ensures Prepared(v, profile, a, now).value == Renewed(profile, Lookup(v, profile).value, a, now)
    ensures Newest(v.rows, profile).Some? && NewestOAuth(v.rows, profile) == Newest(v.rows, profile)
    ensures v.rows[Newest(v.rows, profile).value].disabledCause == ""
  {
    hide Last, Decode, Renewed, Blank;
    BlankNothing();
    NewestAgree(v.rows, profile);
    var row := v.rows[Newest(v.rows, profile).value];
    KindKept(profile, row.kind, row.data);
  }

  lemma RenewedReads(profile: string, cur: Material, a: Answer, now: int)
    requires a.Tokens? && CloneExtras(cur.extras) == cur.extras
    ensures var m := Decode(profile, OAuthKind, EncodeOAuth(Renewed(profile, cur, a, now)));
            && m.kind == OAuthKind && m.email == cur.email && m.extras == cur.extras
            && m.refreshToken == if cur.refreshToken != "" && a.refresh == "" then cur.refreshToken else a.refresh
  {
    TrimEmpty();
    hide Trim;
    assert Merged(cur.extras, map[]) == cur.extras;
  }

  lemma LookupExtrasClean(v: Vault, profile: string)
    requires Lookup(v, profile).Ok?
    ensures CloneExtras(Lookup(v, profile).value.extras) == Lookup(v, profile).value.extras
  {
    hide Last;
    var row := v.rows[Newest(v.rows, profile).value];
    if row.kind == OAuthKind {
      DecodedClean(profile, row.data);
    } else {
      assert CloneExtras(map[]) == map[];
    }
  }

  lemma DecodedClean(profile: string, j: Json)
    ensures var m := Decode(profile, OAuthKind, j); CloneExtras(m.extras) == m.extras
  {
    hide Trim;
    CloneIdempotent(j.extras);
    TrimIdempotent(j.account);
    TrimIdempotent(j.accountCamel);
    TrimIdempotent(j.project);
    TrimIdempotent(j.projectCamel);
    TrimIdempotent(FirstNonEmpty(j.account, j.accountCamel));
    TrimIdempotent(FirstNonEmpty(j.project, j.projectCamel));
    var m := MergeLegacy(j);
    forall k | k in m ensures Trim(m[k]) == m[k] && m[k] != "" {
      if k in CloneExtras(j.extras) {
        TrimIdempotent(j.extras[k]);
      }
    }
  }

  lemma BlankNothing()
    ensures Blank("")
  {
    TrimEmpty();
  }

  lemma RenewedTokens(profile: string, cur: Material, a: Answer, now: int)
    requires a.Tokens?
    ensures var m := Decode(profile, OAuthKind, EncodeOAuth(Renewed(profile, cur, a, now)));
            && m.profile == profile && m.accessToken == a.access
            && (now >= 0 && a.expiresIn > 0 ==>
                  m.expiresAt <= now + a.expiresIn * NS_PER_S < m.expiresAt + NS_PER_MS)
            && (a.expiresIn <= 0 ==> m.expiresAt == ZERO_TIME)
  {
    hide MergeLegacy, Merged;
  }

  lemma KindKept(profile: string, kind: Kind, j: Json)
    ensures Decode(profile, kind, j).kind == kind
  {
  }

  // ---------- what an undisturbed refresh writes ----------

  /** `w` is `v`, except that row `i` may now hold `mat` and be enabled. */
  ghost predicate OnlyFilled(v: Vault, w: Vault, i: nat, mat: Material) {
    && |w.rows| == |v.rows| && i < |v.rows|
    && (forall j | 0 <= j < |v.rows| && j != i :: w.rows[j] == v.rows[j])
    && w.rows[i].id == v.rows[i].id && w.rows[i].profile == v.rows[i].profile && w.rows[i].kind == v.rows[i].kind
    && (w.rows[i] == v.rows[i] || (w.rows[i].data == EncodeOAuth(mat) && w.rows[i].disabledCause == ""))
  }

  lemma FilledKeepsPlaces(v: Vault, w: Vault, i: nat, mat: Material, profile: string)
    requires OnlyFilled(v, w, i, mat)
    ensures Newest(w.rows, profile) == Newest(v.rows, profile)
    ensures NewestOAuth(w.rows, profile) == NewestOAuth(v.rows, profile)
  {
    hide Last, EncodeOAuth;
    assert forall j | 0 <= j < |v.rows| :: w.rows[j].profile == v.rows[j].profile && w.rows[j].kind == v.rows[j].kind;
    assert forall q: Query, j | 0 <= j < |v.rows| && !q.WithId? :: q.Matches(w.rows[j]) == q.Matches(v.rows[j]);
    SameLast(v.rows, w.rows, OfProfile(profile));
    SameLast(v.rows, w.rows, OAuthOf(profile));
  }

  lemma SameLast(a: seq<Row>, b: seq<Row>, q: Query)
    requires |a| == |b| && forall j | 0 <= j < |a| :: q.Matches(a[j]) == q.Matches(b[j])
    ensures Last(a, q) == Last(b, q)
  {
    hide Last;
  }

  /** Nothing came between the read and the writes. */
  ghost predicate Undisturbed(attempts: seq<Attempt>) {
    forall t | t in attempts :: t.before == []
  }

  lemma {:induction false} WritesFill(v: Vault, profile: string, mat: Material, attempts: seq<Attempt>, i: nat)
    requires NewestOAuth(v.rows, profile) == Some(i) && Undisturbed(attempts)
    ensures OnlyFilled(v, Writes(v, profile, mat, attempts).0, i, mat)
    ensures Writes(v, profile, mat, attempts).1 == Refreshed ==>
              Writes(v, profile, mat, attempts).0.rows[i].data == EncodeOAuth(mat)
    decreases attempts
  {
    hide Last, EncodeOAuth;
    if attempts != [] {
      assert attempts[0] in attempts;
      var (v1, r) := SqlStep(v, UpdateOAuth(profile, mat), attempts[0].now, attempts[0].fault);
      assert OnlyFilled(v, v1, i, mat);
      FilledKeepsPlaces(v, v1, i, mat, profile);
      if r.Fail? && !attempts[0].cancelled {
        WritesFill(v1, profile, mat, attempts[1..], i);
      }
    }
  }

  /** An undisturbed refresh changes at most the newest row of its profile, which is an enabled OAuth row. */
  lemma RefreshFills(v: Vault, profile: string, a: Answer, now: int, attempts: Attempts)
    requires Undisturbed(attempts)
    ensures var w := RefreshStep(v, profile, a, now, attempts).0;
            w == v ||
            exists i, cur | Newest(v.rows, profile) == Some(i) && Lookup(v, profile) == Ok(cur) ::
              && a.Tokens? && v.rows[i].kind == OAuthKind && v.rows[i].disabledCause == ""
              && !Blank(cur.refreshToken) && OnlyFilled(v, w, i, Renewed(profile, cur, a, now))
  {
    hide Last, EncodeOAuth, Blank, Writes, Merged;
    var w := RefreshStep(v, profile, a, now, attempts).0;
    if w != v {
      var cur := Lookup(v, profile).value;
      var i := Newest(v.rows, profile).value;
      assert cur.kind == v.rows[i].kind;
      NewestAgree(v.rows, profile);
      WritesFill(v, profile, Renewed(profile, cur, a, now), attempts, i);
    }
  }

  // ---------- what a refresh that went through leaves ----------

  lemma {:induction false} WritesStore(v: Vault, profile: string, mat: Material, attempts: seq<Attempt>)
    requires NewestOAuth(v.rows, profile).Some?
    ensures var w := Writes(v, profile, mat, attempts);
            w.1 == Refreshed ==> Stored(w.0, profile) == Some(Decode(profile, OAuthKind, EncodeOAuth(mat)))
    decreases attempts
  {
    hide Last, EncodeOAuth, Decode, History, Apply;
    if attempts != [] {
      var t := attempts[0];
      var u := History(v, t.before);
      HistoryGrows(v, t.before);
      NewestGrows(v, u, profile);
      var c := FaultyCall(UpdateOAuth(profile, mat), t.now, t.fault);
      UpdateStores(u, profile, mat, c);
      if SqlStep(u, c.op, c.now, c.fault).1.Fail? && !t.cancelled {
        WritesStore(Apply(u, c), profile, mat, attempts[1..]);
      }
    }
  }

  lemma UpdateStores(u: Vault, profile: string, mat: Material, c: FaultyCall)
    requires NewestOAuth(u.rows, profile).Some? && c.op == UpdateOAuth(profile, mat)
    ensures NewestOAuth(Apply(u, c).rows, profile) == NewestOAuth(u.rows, profile)
    ensures c.fault != BeforeWrite ==> Stored(Apply(u, c), profile) == Some(Decode(profile, OAuthKind, EncodeOAuth(mat)))
    ensures c.fault == BeforeWrite ==> Apply(u, c) == u
    ensures SqlStep(u, c.op, c.now, c.fault).0 == Apply(u, c)
    ensures SqlStep(u, c.op, c.now, c.fault).1 == if c.fault == NoFault then Done else Fail(Unavailable)
  {
    hide Last, EncodeOAuth, Decode;
    var i := NewestOAuth(u.rows, profile).value;
    assert OnlyFilled(u, Apply(u, c), i, mat);
    FilledKeepsPlaces(u, Apply(u, c), i, mat, profile);
  }

  /** Whatever others did meanwhile, a refresh that went through leaves a token the next refresh will reject exactly
      when the server sent one made of white space. */
  lemma BlankTokenFromServer(v: Vault, profile: string, a: Answer, now: int, attempts: Attempts)
    requires RefreshStep(v, profile, a, now, attempts).1 == Refreshed
    ensures var w := Stored(RefreshStep(v, profile, a, now, attempts).0, profile);
            && w.Some?
            && (Blank(w.value.refreshToken) <==> a.Tokens? && a.refresh != "" && Blank(a.refresh))
  {
    hide Last, EncodeOAuth, Decode, Blank, Writes, Renewed, Stored, Lookup;
    WentThrough(v, profile, a, now, attempts);
    var cur := Lookup(v, profile).value;
    LookupExtrasClean(v, profile);
    RenewedReads(profile, cur, a, now);
    assert !Blank(cur.refreshToken);
  }

  lemma WentThrough(v: Vault, profile: string, a: Answer, now: int, attempts: Attempts)
    requires RefreshStep(v, profile, a, now, attempts).1 == Refreshed
    ensures Prepared(v, profile, a, now).Ok? && a.Tokens? && Lookup(v, profile).Ok?
    ensures Stored(RefreshStep(v, profile, a, now, attempts).0, profile) ==
            Some(Decode(profile, OAuthKind, EncodeOAuth(Renewed(profile, Lookup(v, profile).value, a, now))))
  {
    hide Last, EncodeOAuth, Decode, Blank, Writes, Renewed, Stored, Lookup;
    var mat := Prepared(v, profile, a, now).value;
    PreparedFrom(v, profile, a, now);
    WritesStore(v, profile, mat, attempts);
  }

  /** What is stored after a refresh that went through, whatever others did meanwhile: the server's tokens, the old
      refresh token if it sent none, the expiry cut to whole milliseconds, and the email and extras as they were
      when it read. */
  lemma RefreshedReads(v: Vault, profile: string, a: Answer, now: int, attempts: Attempts)
    requires RefreshStep(v, profile, a, now, attempts).1 == Refreshed
    ensures a.Tokens? && Lookup(v, profile).Ok?
    ensures var w, cur := Stored(RefreshStep(v, profile, a, now, attempts).0, profile), Lookup(v, profile).value;
            && w.Some?
            && var m := w.value;
               && m.kind == OAuthKind && m.profile == profile && m.accessToken == a.access
               && m.refreshToken == (if a.refresh == "" then cur.refreshToken else a.refresh)
               && m.email == cur.email && m.extras == cur.extras
               && (now >= 0 && a.expiresIn > 0 ==>
                     m.expiresAt <= now + a.expiresIn * 1_000_000_000 < m.expiresAt + 1_000_000)
               && (a.expiresIn <= 0 ==> m.expiresAt == ZERO_TIME)
  {
    hide Last, Decode, EncodeOAuth, Blank, Writes, Renewed, Stored, Lookup;
    WentThrough(v, profile, a, now, attempts);
    PreparedFrom(v, profile, a, now);
    var cur := Lookup(v, profile).value;
    LookupExtrasClean(v, profile);
    RenewedReads(profile, cur, a, now);
    RenewedTokens(profile, cur, a, now);
  }

  // ---------- how a refresh ends ----------

  /** One attempt after the other: the first on which the database works ends the loop, and so does a caller who has given
      up when one fails. */
  function EndOf(attempts: seq<Attempt>): Outcome
    decreases attempts
  {
    if attempts == [] then GaveUp
    else if attempts[0].fault == NoFault then Refreshed
    else if attempts[0].cancelled then Cancelled
    else EndOf(attempts[1..])
  }

  lemma {:induction false} WritesEnd(v: Vault, profile: string, mat: Material, attempts: seq<Attempt>)
    requires NewestOAuth(v.rows, profile).Some?
    ensures Writes(v, profile, mat, attempts).1 == EndOf(attempts)
    decreases attempts
  {
    hide Last, EncodeOAuth, History, Apply;
    if attempts != [] {
      var t := attempts[0];
      var u := History(v, t.before);
      HistoryGrows(v, t.before);
      NewestGrows(v, u, profile);
      var c := FaultyCall(UpdateOAuth(profile, mat), t.now, t.fault);
      UpdateStores(u, profile, mat, c);
      if t.fault != NoFault && !t.cancelled {
        WritesEnd(Apply(u, c), profile, mat, attempts[1..]);
      }
    }
  }

  /** How every refresh ends, whatever others do meanwhile. A profile that cannot be read, holds an API key, has a blank
      refresh token, or is refused by the server is left alone; otherwise there are three attempts, of which the first on
      which the database works is the last, and none follows a failure once the caller has given up. */
  lemma RefreshEnds(v: Vault, profile: string, a: Answer, now: int, attempts: Attempts)
    ensures var (w, outcome) := RefreshStep(v, profile, a, now, attempts);
            match Lookup(v, profile)
            case Err(e) => w == v && outcome == NoCredential(e)
            case Ok(cur) =>
              if cur.kind == ApiKeyKind then w == v && outcome == NotAnOAuthProfile
              else if Blank(cur.refreshToken) then w == v && outcome == NoRefreshToken
              else if a == Refused then w == v && outcome == ServerRefused
              else outcome == EndOf(attempts)
    ensures EndOf(attempts) ==
            if attempts[0].fault == NoFault then Refreshed
            else if attempts[0].cancelled then Cancelled
            else if attempts[1].fault == NoFault then Refreshed
            else if attempts[1].cancelled then Cancelled
            else if attempts[2].fault == NoFault then Refreshed
            else if attempts[2].cancelled then Cancelled
            else GaveUp
  {
    hide Lookup, Blank, Writes, Renewed, Last, EndOf;
    if Prepared(v, profile, a, now).Ok? {
      PreparedFrom(v, profile, a, now);
      WritesEnd(v, profile, Prepared(v, profile, a, now).value, attempts);
    }
    ThreeAttempts(attempts);
  }

  lemma ThreeAttempts(attempts: Attempts)
    ensures EndOf(attempts) ==
            if attempts[0].fault == NoFault then Refreshed
            else if attempts[0].cancelled then Cancelled
            else if attempts[1].fault == NoFault then Refreshed
            else if attempts[1].cancelled then Cancelled
            else if attempts[2].fault == NoFault then Refreshed
            else if attempts[2].cancelled then Cancelled
            else GaveUp
  {
    assert attempts[1..][1..] == attempts[2..] && attempts[2..][1..] == [];
    assert EndOf(attempts[2..]) == if attempts[2].fault == NoFault then Refreshed
                                   else if attempts[2].cancelled then Cancelled else EndOf([]);
  }

  // ---------- one login ----------

  /** A vault with one login: profile `p`, account `e`. */
  const LOGIN := Material("p", OAuthKind, "", "t", "r", ZERO_TIME, "e", map[])

  const ONE_LOGIN := Vault([Row(1, "p", OAuthKind, "e", "", 0, 0, EncodeOAuth(LOGIN))], 1, 2, 0)

  const FRESH_TOKENS := Tokens("a", "", 0)

  lemma OneRowQueries(rows: seq<Row>)
    requires |rows| == 1 && rows[0].profile == "p" && rows[0].kind == OAuthKind && rows[0].id == 1
    ensures Newest(rows, "p") == Some(0) && NewestOAuth(rows, "p") == Some(0) && ById(rows, 1) == Some(0)
  {
  }

  lemma NotBlank()
    ensures !Blank("r") && Blank(" ")
  {
  }

  lemma OneLoginPrepares(a: Answer, now: int)
    requires a.Tokens?
    ensures Lookup(ONE_LOGIN, "p").Ok? && Lookup(ONE_LOGIN, "p").value.refreshToken == "r"
    ensures Lookup(ONE_LOGIN, "p").value.email == "e" && Prepared(ONE_LOGIN, "p", a, now).Ok?
  {
    hide Last, Blank, MergeLegacy;
    OneRowQueries(ONE_LOGIN.rows);
    NotBlank();
  }

  /** The server answers a refresh with a blank refresh token: it is stored, and the next refresh is refused. */
  lemma BlankTokenStored(b: Answer, now: int, later: int)
    ensures var attempts := seq(ATTEMPTS, _ => Attempt([], NoFault, false, now));
            var step := RefreshStep(ONE_LOGIN, "p", Tokens("a", " ", 0), now, attempts);
            && step.1 == Refreshed
            && RefreshStep(step.0, "p", b, later, attempts) == (step.0, NoRefreshToken)
  {
    hide Last, Blank, EncodeOAuth, Decode, Renewed, Prepared, Stored;
    var a := Tokens("a", " ", 0);
    var attempts := seq(ATTEMPTS, _ => Attempt([], NoFault, false, now));
    OneLoginPrepares(a, now);
    OneRowQueries(ONE_LOGIN.rows);
    var mat := Prepared(ONE_LOGIN, "p", a, now).value;
    assert History(ONE_LOGIN, attempts[0].before) == ONE_LOGIN;
    var w := SqlStep(ONE_LOGIN, UpdateOAuth("p", mat), now, NoFault).0;
    assert RefreshStep(ONE_LOGIN, "p", a, now, attempts) == (w, Refreshed);
    OneRowQueries(w.rows);
    PreparedFrom(ONE_LOGIN, "p", a, now);
    var cur := Lookup(ONE_LOGIN, "p").value;
    LookupExtrasClean(ONE_LOGIN, "p");
    RenewedReads("p", cur, a, now);
    NotBlank();
    BlankRefused(w, b, later);
  }

  lemma BlankRefused(w: Vault, b: Answer, later: int)
    requires |w.rows| == 1 && w.rows[0].profile == "p" && w.rows[0].kind == OAuthKind && w.rows[0].id == 1
    requires w.rows[0].disabledCause == "" && Blank(Decode("p", OAuthKind, w.rows[0].data).refreshToken)
    ensures Prepared(w, "p", b, later) == Err(NoRefreshToken)
  {
    hide Last, Blank;
    OneRowQueries(w.rows);
  }
}
