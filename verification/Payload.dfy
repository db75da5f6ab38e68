/** Credential material and its stored JSON form (credential/store/types.go and payload.go). */
module Payload {
  import opened Text

  datatype Kind = ApiKeyKind | OAuthKind

  type Extras = map<string, string>

  /** Times are nanoseconds since the Unix epoch; Go's zero `time.Time` is the start of year 1. */
  const ZERO_TIME: int := -62_135_596_800_000_000_000

  const NS_PER_MS: int := 1_000_000

  datatype Material = Material(
    profile: string, kind: Kind, apiKey: string,
    accessToken: string, refreshToken: string, expiresAt: int, email: string, extras: Extras)
  {
    /** A trimmed metadata value, empty when the key is missing. */
    function Extra(key: string): string {
      if key in extras then Trim(extras[key]) else ""
    }
  }

  /** The stored JSON object; a field left out of the text reads as its zero value. */
  datatype Json = Json(
    key: string, access: string, refresh: string, expires: int, email: string, extras: Extras,
    account: string, accountCamel: string, project: string, projectCamel: string)

  const EMPTY_JSON := Json("", "", "", 0, "", map[], "", "", "", "")

  // ---------- extras ----------

  function CloneExtras(m: Extras): Extras {
    map k | k in m && Trim(m[k]) != "" :: Trim(m[k])
  }

  method CloneExtrasLoop(m: Extras) returns (out: Extras)
    ensures out == CloneExtras(m)
  {
    hide Trim;
    out := map[];
    var rest := m.Keys;
    while rest != {}
      invariant rest <= m.Keys
      invariant out == map k | k in m && k !in rest && Trim(m[k]) != "" :: Trim(m[k])
      decreases rest
    {
      var k :| k in rest;
      rest := rest - {k};
      var s := Trim(m[k]);
      if s != "" {
        out := out[k := s];
      }
    }
  }

  function FirstNonEmpty(a: string, b: string): string {
    if Trim(a) != "" then Trim(a) else Trim(b)
  }

  /** `setExtra` guarded as its caller guards it: only a missing key is filled, and never with a blank. */
  function FillExtra(m: Extras, key: string, value: string): Extras {
    if key in m || Trim(value) == "" then m else m[key := Trim(value)]
  }

  function MergeLegacy(j: Json): Extras {
    FillExtra(
      FillExtra(CloneExtras(j.extras), "account_id", FirstNonEmpty(j.account, j.accountCamel)),
      "project_id", FirstNonEmpty(j.project, j.projectCamel))
  }

  method MergeOAuthExtras(j: Json) returns (out: Extras)
    ensures out == MergeLegacy(j)
  {
    hide Trim;
    TrimIdempotent(j.account);
    TrimIdempotent(j.accountCamel);
    TrimIdempotent(j.project);
    TrimIdempotent(j.projectCamel);
    out := CloneExtrasLoop(j.extras);
    if "account_id" !in out {
      var id := FirstNonEmpty(j.account, j.accountCamel);
      if id != "" {
        out := out["account_id" := Trim(id)];
      }
    }
    if "project_id" !in out {
      var id := FirstNonEmpty(j.project, j.projectCamel);
      if id != "" {
        out := out["project_id" := Trim(id)];
      }
    }
  }

  /** `MergeExtras`: what the refreshed credential leaves out is kept from the current one. */
  function Merged(cur: Extras, refreshed: Extras): Extras {
    if cur == map[] then refreshed else cur + CloneExtras(refreshed)
  }

  method MergeExtras(cur: Extras, refreshed: Extras) returns (out: Extras)
    ensures out == Merged(cur, refreshed)
  {
    hide Trim;
    if cur == map[] {
      return refreshed;
    }
    out := CloneExtrasLoop(refreshed);
    ghost var start := out;
    var rest := cur.Keys;
    while rest != {}
      invariant rest <= cur.Keys
      invariant out.Keys == start.Keys + (cur.Keys - rest)
      invariant forall k | k in out :: out[k] == if k in start then start[k] else cur[k]
      decreases rest
    {
      var k :| k in rest;
      rest := rest - {k};
      if k !in out {
        out := out[k := cur[k]];
      }
    }
  }

  // ---------- encode and decode ----------

  /** `time.Time.UnixMilli`: whole milliseconds, rounding toward the past. */
  function UnixMilli(t: int): int {
    t / NS_PER_MS
  }

  function EncodeApiKey(key: string): Json {
    EMPTY_JSON.(key := key)
  }

  function EncodeOAuth(m: Material): Json {
    EMPTY_JSON.(
      access := m.accessToken, refresh := m.refreshToken,
      expires := if m.expiresAt == ZERO_TIME then 0 else UnixMilli(m.expiresAt),
      email := m.email, extras := m.extras)
  }

  /** `MaterialFromDecrypted`, for the two kinds a row can have. */
  function Decode(profile: string, kind: Kind, j: Json): Material {
    match kind
    case ApiKeyKind =>
      Material(profile, kind, j.key, "", "", ZERO_TIME, "", map[])
    case OAuthKind =>
      Material(profile, kind, "", j.access, j.refresh,
               if j.expires > 0 then j.expires * NS_PER_MS else ZERO_TIME,
               j.email, MergeLegacy(j))
  }

  function Reread(m: Material): Material {
    Decode(m.profile, OAuthKind, EncodeOAuth(m))
  }

  // ---------- properties ----------

  /** An expiry that survives storage: unset, or a whole millisecond after the epoch. */
  predicate StorableExpiry(t: int) {
    t == ZERO_TIME || (t > 0 && t % NS_PER_MS == 0)
  }

  lemma CloneIdempotent(m: Extras)
    ensures CloneExtras(CloneExtras(m)) == CloneExtras(m)
  {
    hide Trim;
    forall k | k in CloneExtras(m) ensures Trim(CloneExtras(m)[k]) == CloneExtras(m)[k] {
      TrimIdempotent(m[k]);
    }
  }

  /** Decoding an encoded OAuth credential gives it back with its extras trimmed and the blank ones dropped;
      its expiry comes back exactly when it is unset or a whole millisecond after the epoch. */
  lemma OAuthRoundTrip(m: Material)
    requires m.kind == OAuthKind
    ensures var r := Reread(m);
            && r == m.(apiKey := "", extras := CloneExtras(m.extras), expiresAt := r.expiresAt)
            && (r.expiresAt == m.expiresAt <==> StorableExpiry(m.expiresAt))
  {
    TrimEmpty();
    hide Trim;
  }

  /** Storing what was read changes nothing more, whatever was stored first. */
  lemma RereadTwice(m: Material)
    ensures Reread(Reread(m)) == Reread(m)
  {
    TrimEmpty();
    hide Trim;
    CloneIdempotent(m.extras);
    var r := Reread(m);
    assert r.extras == CloneExtras(m.extras);
    assert r.expiresAt != ZERO_TIME ==> UnixMilli(r.expiresAt) == UnixMilli(m.expiresAt);
  }

  /** The first candidate that is not blank, trimmed. */
  function Preferred(candidates: seq<string>): string {
    if candidates == [] then ""
    else if !Blank(candidates[0]) then Trim(candidates[0])
    else Preferred(candidates[1..])
  }

  function At(m: Extras, key: string): string {
    if key in m then m[key] else ""
  }

  lemma CloneAt(m: Extras, key: string)
    ensures key in CloneExtras(m) <==> !Blank(At(m, key))
    ensures At(CloneExtras(m), key) == Trim(At(m, key))
  {
    TrimEmpty();
    hide Trim;
  }

  lemma FillAt(m: Extras, k: string, value: string, key: string)
    ensures key in FillExtra(m, k, value) <==> key in m || (key == k && !Blank(value))
    ensures At(FillExtra(m, k, value), key) == if key == k && key !in m then Trim(value) else At(m, key)
  {
    hide Trim;
  }

  lemma PreferredOfThree(a: string, b: string, c: string)
    ensures Preferred([a, b, c]) == if Blank(a) then FirstNonEmpty(b, c) else Trim(a)
    ensures Trim(FirstNonEmpty(b, c)) == FirstNonEmpty(b, c)
  {
    hide Trim;
    TrimIdempotent(b);
    TrimIdempotent(c);
    assert [a, b, c][1..] == [b, c] && [b, c][1..] == [c] && [c][1..] == [];
    assert Preferred([c]) == Trim(c);
    assert Preferred([b, c]) == FirstNonEmpty(b, c);
  }

  /** Legacy fields fill only the two keys the extras lack, snake case before camel case, and no value is blank. */
  lemma LegacyPrecedence(j: Json, key: string)
    ensures var m := Decode("", OAuthKind, j).extras;
            && (key in m ==> !Blank(m[key]))
            && At(m, key) ==
               (if key == "account_id" then Preferred([At(j.extras, key), j.account, j.accountCamel])
                else if key == "project_id" then Preferred([At(j.extras, key), j.project, j.projectCamel])
                else Trim(At(j.extras, key)))
  {
    hide Trim, CloneExtras, FillExtra, Preferred, FirstNonEmpty, At;
    var clean := CloneExtras(j.extras);
    var account, project := FirstNonEmpty(j.account, j.accountCamel), FirstNonEmpty(j.project, j.projectCamel);
    var filled := FillExtra(clean, "account_id", account);
    CloneAt(j.extras, key);
    TrimIdempotent(At(j.extras, key));
    FillAt(clean, "account_id", account, key);
    FillAt(filled, "project_id", project, key);
    PreferredOfThree(At(j.extras, key), j.account, j.accountCamel);
    PreferredOfThree(At(j.extras, key), j.project, j.projectCamel);
    AtIs(MergeLegacy(j), key);
    assert "account_id" != "project_id" by { assert "account_id"[0] != "project_id"[0]; }
  }

  lemma AtIs(m: Extras, key: string)
    ensures At(m, key) == if key in m then m[key] else ""
  {
  }

  /** A merge loses no key, and prefers what was refreshed unless that is blank. */
  lemma MergeKeepsKeys(cur: Extras, refreshed: Extras)
    ensures cur.Keys <= Merged(cur, refreshed).Keys
    ensures forall k | k in cur ::
              Merged(cur, refreshed)[k] ==
              if k in refreshed && !Blank(refreshed[k]) then Trim(refreshed[k]) else cur[k]
  {
    hide Trim;
  }
}
