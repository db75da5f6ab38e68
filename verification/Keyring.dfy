/** Gateway keys: two-phase creation, revocation, expiry and verification (ingress/keyring/keyring.go).
    argon2id is ideal: a sealed hash accepts exactly the secret it was made from, and the empty string that an
    unsealed row holds accepts none (ingress/argonhash/argonhash.go). Scopes survive their JSON column. */
module Keyring {
  import opened Text
  import opened SecretText
  import Payload

  datatype KeyKind = Static | Issued

  datatype Hash = Unsealed | Argon(secret: string)

  type Scopes = seq<string>

  datatype KeyRow = KeyRow(
    name: string, kind: KeyKind, hash: Hash, expiresAt: Option<int>, scopes: Option<Scopes>, revoked: bool)

  datatype Table = Table(rows: map<nat, KeyRow>, lastId: nat)

  const EMPTY := Table(map[], 0)

  datatype Principal = Principal(name: string, keyId: nat, scopes: Scopes)

  function EncodeScopes(scopes: Scopes): Option<Scopes> {
    if scopes == [] then None else Some(scopes)
  }

  function DecodeScopes(raw: Option<Scopes>): Scopes {
    if raw.None? then [] else raw.value
  }

  /** One SQL statement, run atomically. `Create` is an Insert and, later, a Seal of the id it got; whatever
      other requests do comes in between. Times and durations are in nanoseconds. */
  datatype Event =
    | Insert(name: string, kind: KeyKind, ttl: int, scopes: Scopes, now: int)
    | Seal(id: nat, tail: string)
    | Revoke(key: int)

  /** An issued key must have a lifetime, and ids end where SQLite's row ids do. */
  predicate Accepted(e: Event, lastId: nat)
    requires e.Insert?
  {
    (e.ttl > 0 || e.kind == Static) && lastId < MAX_INT64
  }

  function Expiry(ttl: int, now: int): Option<int> {
    if ttl > 0 then Some(Payload.UnixMilli(now + ttl)) else None
  }

  function Step(t: Table, e: Event): Table {
    match e
    case Insert(name, kind, ttl, scopes, now) =>
      if !Accepted(e, t.lastId) then t
      else Table(t.rows[t.lastId + 1 := KeyRow(name, kind, Unsealed, Expiry(ttl, now), EncodeScopes(scopes), false)],
                 t.lastId + 1)
    case Seal(id, tail) =>
      if id in t.rows then t.(rows := t.rows[id := t.rows[id].(hash := Argon(Format(id, tail)))]) else t
    case Revoke(id) =>
      if id >= 0 && id in t.rows then t.(rows := t.rows[id := t.rows[id].(revoked := true)]) else t
  }

  /** The table after these statements, from an empty one. */
  function After(log: seq<Event>): Table {
    if log == [] then EMPTY else Step(After(log[..|log| - 1]), log[|log| - 1])
  }

  /** `verifyByID` behind `Verify`. */
  function Verified(rows: map<nat, KeyRow>, secret: string, now: int): Option<Principal> {
    var id := ParseKeyId(secret);
    if id.None? || id.value !in rows then None
    else
      var row := rows[id.value];
      if row.revoked then None
      else if row.expiresAt.Some? && Payload.UnixMilli(now) > row.expiresAt.value then None
      else if row.hash != Argon(secret) then None
      else Some(Principal(row.name, id.value, DecodeScopes(row.scopes)))
  }

  // ---------- the history of a key ----------

  /** Every Seal is the second half of one Create: it seals, with a non-empty tail, a row not sealed before. */
  ghost predicate WellFormed(log: seq<Event>) {
    forall i | 0 <= i < |log| && log[i].Seal? ::
      var t := After(log[..i]);
      log[i].tail != "" && log[i].id in t.rows && t.rows[log[i].id].hash == Unsealed
  }

  /** How many ids these statements handed out. */
  function Minted(log: seq<Event>): nat {
    if log == [] then 0
    else
      var n := Minted(log[..|log| - 1]);
      var e := log[|log| - 1];
      if e.Insert? && Accepted(e, n) then n + 1 else n
  }

  /** Statement `i` is the insert that handed out `id`. */
  predicate Inserts(log: seq<Event>, i: nat, id: nat) {
    i < |log| && log[i].Insert? && Accepted(log[i], Minted(log[..i])) && id == Minted(log[..i]) + 1
  }

  predicate RevokedSince(log: seq<Event>, i: nat, id: nat) {
    exists k | i < k < |log| :: log[k] == Revoke(id)
  }

  predicate SealedSince(log: seq<Event>, i: nat, id: nat, secret: string) {
    exists k | i < k < |log| :: log[k].Seal? && log[k].id == id && secret == Format(id, log[k].tail)
  }

  /** In these statements, one Create inserted `p.keyId` for `p` and sealed `secret` into it, the key was not
      revoked at any time since the insert, and its lifetime is not over at `now`. */
  ghost predicate Vouched(log: seq<Event>, secret: string, now: int, p: Principal) {
    exists i: nat | Inserts(log, i, p.keyId) ::
      && p.name == log[i].name && p.scopes == log[i].scopes
      && SealedSince(log, i, p.keyId, secret)
      && !RevokedSince(log, i, p.keyId)
      && (log[i].ttl > 0 ==> Payload.UnixMilli(now) <= Payload.UnixMilli(log[i].now + log[i].ttl))
  }

  /** Row `id` of the table is what the statements since its insert, statement `i`, made it. */
  ghost predicate RowTells(log: seq<Event>, i: nat, id: nat) {
    && Inserts(log, i, id) && id in After(log).rows
    && var row, e := After(log).rows[id], log[i];
    && row.name == e.name && row.scopes == EncodeScopes(e.scopes) && row.expiresAt == Expiry(e.ttl, e.now)
    && (row.revoked <==> RevokedSince(log, i, id))
    && (forall s :: row.hash == Argon(s) <==> SealedSince(log, i, id, s))
  }

  lemma {:induction false} CountsIds(log: seq<Event>)
    ensures After(log).lastId == Minted(log) <= MAX_INT64
    ensures forall id :: id in After(log).rows <==> 1 <= id <= Minted(log)
  {
    if log != [] {
      CountsIds(log[..|log| - 1]);
    }
  }

  lemma Shorter(log: seq<Event>, n: nat, m: nat)
    requires m <= n <= |log|
    ensures log[..n][..m] == log[..m]
  {
  }

  lemma WellFormedPrefix(log: seq<Event>, n: nat)
    requires WellFormed(log) && n <= |log|
    ensures WellFormed(log[..n])
  {
    forall i | 0 <= i < n && log[..n][i].Seal?
      ensures var t := After(log[..n][..i]);
              log[i].tail != "" && log[i].id in t.rows && t.rows[log[i].id].hash == Unsealed
    {
      Shorter(log, n, i);
    }
  }

  lemma SinceGrows(log: seq<Event>, n: nat, i: nat, id: nat)
    requires |log| == n + 1 && i < n
    ensures RevokedSince(log, i, id) <==> RevokedSince(log[..n], i, id) || log[n] == Revoke(id)
    ensures forall s :: SealedSince(log, i, id, s) <==>
              SealedSince(log[..n], i, id, s) || (log[n].Seal? && log[n].id == id && s == Format(id, log[n].tail))
    ensures Inserts(log, i, id) <==> Inserts(log[..n], i, id)
  {
    hide Format, Minted, Accepted;
    Shorter(log, n, i);
    assert forall k | 0 <= k < n :: log[..n][k] == log[k];
  }

  lemma {:induction false} RowHistory(log: seq<Event>, id: nat) returns (i: nat)
    requires WellFormed(log) && id in After(log).rows
    ensures RowTells(log, i, id)
  {
    hide Format, Expiry;
    var n := |log| - 1;
    var before := After(log[..n]);
    CountsIds(log[..n]);
    if id in before.rows {
      WellFormedPrefix(log, n);
      i := RowHistory(log[..n], id);
      RowStep(log, i, id);
    } else {
      i := n;
      Shorter(log, n, n);
      assert log[..n][..n] == log[..n];
    }
  }

  lemma RowStep(log: seq<Event>, i: nat, id: nat)
    requires log != [] && WellFormed(log) && RowTells(log[..|log| - 1], i, id)
    ensures RowTells(log, i, id)
  {
    hide Format, Expiry, RevokedSince, SealedSince, Minted;
    var n := |log| - 1;
    CountsIds(log[..n]);
    SinceGrows(log, n, i, id);
    assert log[..n][i] == log[i];
    var before := After(log[..n]);
    assert log[n].Seal? && log[n].id == id ==> before.rows[id].hash == Unsealed;
  }

  lemma {:induction false} InsertedOnce(log: seq<Event>, i: nat, j: nat, id: nat)
    requires Inserts(log, i, id) && Inserts(log, j, id)
    ensures i == j
  {
    if i < j {
      MintedGrows(log, i, j);
    } else if j < i {
      MintedGrows(log, j, i);
    }
  }

  lemma {:induction false} MintedGrows(log: seq<Event>, i: nat, j: nat)
    requires i < j <= |log| && log[i].Insert? && Accepted(log[i], Minted(log[..i]))
    ensures Minted(log[..i]) + 1 <= Minted(log[..j])
  {
    Shorter(log, j, j - 1);
    assert log[..j][..j - 1] == log[..j - 1];
    if j > i + 1 {
      MintedGrows(log, i, j - 1);
    }
  }

  lemma {:induction false} InsertStays(log: seq<Event>, i: nat, id: nat)
    requires Inserts(log, i, id)
    ensures id in After(log).rows
  {
    CountsIds(log);
    MintedGrows(log, i, |log|);
    assert log[..|log|] == log;
  }

  // ---------- main results ----------

  /** Over every interleaving of inserts, seals and revocations, and for every clock reading: a secret verifies as
      a principal exactly when one Create sealed that secret into the row it had inserted for that principal, the
      key was not revoked since the insert, and its lifetime is not over. */
  lemma VerifiesIffVouched(log: seq<Event>, secret: string, now: int, p: Principal)
    requires WellFormed(log)
    ensures Verified(After(log).rows, secret, now) == Some(p) <==> Vouched(log, secret, now, p)
  {
    hide Format, ParseKeyId, RevokedSince, Minted, After, WellFormed;
    if Verified(After(log).rows, secret, now) == Some(p) {
      var i := RowHistory(log, p.keyId);
      HistoryVouches(log, i, secret, now, p);
    }
    if Vouched(log, secret, now, p) {
      var i: nat :| Inserts(log, i, p.keyId) && p.name == log[i].name && p.scopes == log[i].scopes &&
                    SealedSince(log, i, p.keyId, secret) && !RevokedSince(log, i, p.keyId) &&
                    (log[i].ttl > 0 ==> Payload.UnixMilli(now) <= Payload.UnixMilli(log[i].now + log[i].ttl));
      InsertStays(log, i, p.keyId);
      var j := RowHistory(log, p.keyId);
      InsertedOnce(log, i, j, p.keyId);
      var k :| i < k < |log| && log[k].Seal? && log[k].id == p.keyId && secret == Format(p.keyId, log[k].tail);
      SealedTextParses(log, k);
    }
  }

  lemma HistoryVouches(log: seq<Event>, i: nat, secret: string, now: int, p: Principal)
    requires RowTells(log, i, p.keyId) && Verified(After(log).rows, secret, now) == Some(p)
    ensures Vouched(log, secret, now, p)
  {
    hide Format, ParseKeyId, RevokedSince, SealedSince, Minted, Inserts, After;
  }

  /** The text a Create hands back carries its row's id. */
  lemma SealedTextParses(log: seq<Event>, k: nat)
    requires WellFormed(log) && k < |log| && log[k].Seal?
    ensures ParseKeyId(Format(log[k].id, log[k].tail)) == Some(log[k].id)
  {
    hide Format, ParseKeyId;
    CountsIds(log[..k]);
    PrintedParses(log[k].id, log[k].tail);
  }

  /** A row whose Create has not got to its Seal accepts no secret at all. */
  lemma HalfCreatedNeverVerifies(log: seq<Event>, i: nat, id: nat, secret: string, now: int)
    requires WellFormed(log) && Inserts(log, i, id)
    requires forall k | i < k < |log| :: !(log[k].Seal? && log[k].id == id)
    requires ParseKeyId(secret) == Some(id)
    ensures Verified(After(log).rows, secret, now) == None
  {
    hide Format, ParseKeyId, Minted, Inserts, After, WellFormed;
    InsertStays(log, i, id);
    var j := RowHistory(log, id);
    InsertedOnce(log, i, j, id);
  }

  lemma {:induction false} DeadRowStays(log: seq<Event>, more: seq<Event>, id: nat)
    requires id in After(log).rows
    ensures id in After(log + more).rows
    ensures After(log).rows[id].revoked ==> After(log + more).rows[id].revoked
    ensures After(log + more).rows[id].expiresAt == After(log).rows[id].expiresAt
  {
    if more == [] {
      assert log + more == log;
    } else {
      var m := |more| - 1;
      assert (log + more)[..|log + more| - 1] == log + more[..m];
      assert (log + more)[|log + more| - 1] == more[m];
      CountsIds(log + more[..m]);
      DeadRowStays(log, more[..m], id);
    }
  }

  /** A key that was revoked, or whose lifetime is over, never verifies again: whatever statements follow, a
      Seal that was still to come included, and however late the clock reads. */
  lemma NeverRevived(log: seq<Event>, more: seq<Event>, secret: string, now: int, later: int)
    requires ParseKeyId(secret).Some? && ParseKeyId(secret).value in After(log).rows && now <= later
    requires var row := After(log).rows[ParseKeyId(secret).value];
             row.revoked || (row.expiresAt.Some? && Payload.UnixMilli(now) > row.expiresAt.value)
    ensures Verified(After(log + more).rows, secret, later) == None
  {
    hide ParseKeyId, After;
    DeadRowStays(log, more, ParseKeyId(secret).value);
  }

  // ---------- what a create does to the ids ----------

  /** One request for a key. */
  datatype Creation = Creation(name: string, kind: KeyKind, ttl: int, scopes: Scopes, now: int, tail: string)

  /** An issued key without a lifetime is refused. */
  predicate Refused(c: Creation) {
    c.ttl <= 0 && c.kind != Static
  }

  /** The table after a create in the SQL store, and the id it handed out. */
  function SqlCreate(t: Table, c: Creation): (Table, Option<nat>) {
    var e := Insert(c.name, c.kind, c.ttl, c.scopes, c.now);
    if Accepted(e, t.lastId) then (Step(Step(t, e), Seal(t.lastId + 1, c.tail)), Some(t.lastId + 1)) else (t, None)
  }

  /** The in-memory store's counter after a create, and the id it handed out. */
  function MemoryCreate(next: nat, c: Creation): (nat, Option<nat>) {
    (next + 1, if Refused(c) then None else Some(next + 1))
  }

  function SqlIds(t: Table, creates: seq<Creation>): seq<Option<nat>>
    decreases creates
  {
    if creates == [] then [] else [SqlCreate(t, creates[0]).1] + SqlIds(SqlCreate(t, creates[0]).0, creates[1..])
  }

  function MemoryIds(next: nat, creates: seq<Creation>): seq<Option<nat>>
    decreases creates
  {
    if creates == [] then []
    else [MemoryCreate(next, creates[0]).1] + MemoryIds(MemoryCreate(next, creates[0]).0, creates[1..])
  }

  function IdOf(r: Option<(string, nat)>): Option<nat> {
    if r.None? then None else Some(r.value.1)
  }

  // ---------- the SQL store ----------

  class SQLStore {
    var table: Table

    constructor ()
      ensures table == EMPTY
    {
      table := EMPTY;
    }

    method InsertRow(name: string, kind: KeyKind, ttl: int, scopes: Scopes, now: int) returns (id: Option<nat>)
      modifies this
      ensures table == Step(old(table), Insert(name, kind, ttl, scopes, now))
      ensures id == if table == old(table) then None else Some(table.lastId)
    {
      var exp: Option<int> := None;
      if ttl > 0 {
        exp := Some(Payload.UnixMilli(now + ttl));
      } else if kind != Static {
        return None;
      }
      if table.lastId >= MAX_INT64 {
        return None;
      }
      var n := table.lastId + 1;
      table := Table(table.rows[n := KeyRow(name, kind, Unsealed, exp, EncodeScopes(scopes), false)], n);
      id := Some(n);
    }

    method SealRow(id: nat, tail: string) returns (secret: string)
      modifies this
      ensures table == Step(old(table), Seal(id, tail))
      ensures secret == Format(id, tail)
    {
      secret := Format(id, tail);
      if id in table.rows {
        table := table.(rows := table.rows[id := table.rows[id].(hash := Argon(secret))]);
      }
    }

    /** `Create`, when nothing comes between its two statements: the secret it returns verifies at once. */
    method Create(name: string, kind: KeyKind, ttl: int, scopes: Scopes, now: int, tail: string)
      returns (r: Option<(string, nat)>)
      requires tail != ""
      modifies this
      ensures (table, IdOf(r)) == SqlCreate(old(table), Creation(name, kind, ttl, scopes, now, tail))
      ensures r.None? ==> table == old(table)
      ensures r.None? <==> (kind == Issued && ttl <= 0) || old(table).lastId >= 0x7FFF_FFFF_FFFF_FFFF
      ensures r.Some? ==>
                forall t: int :: Verified(table.rows, r.value.0, t) ==
                  if ttl > 0 && t / 1_000_000 > (now + ttl) / 1_000_000 then None
                  else Some(Principal(name, r.value.1, scopes))
      ensures r.Some? ==>
                && table == Step(Step(old(table), Insert(name, kind, ttl, scopes, now)), Seal(r.value.1, tail))
                && Verified(table.rows, r.value.0, now) == Some(Principal(name, r.value.1, scopes))
    {
      hide Format, ParseKeyId;
      var id := InsertRow(name, kind, ttl, scopes, now);
      if id.None? {
        return None;
      }
      PrintedParses(id.value, tail);
      var secret := SealRow(id.value, tail);
      r := Some((secret, id.value));
    }

    /** Whether the row was there. */
    method RevokeRow(id: int) returns (found: bool)
      modifies this
      ensures table == Step(old(table), Revoke(id))
      ensures found <==> id >= 0 && id in old(table).rows
    {
      found := id >= 0 && id in table.rows;
      if found {
        table := table.(rows := table.rows[id := table.rows[id].(revoked := true)]);
      }
    }

    method Verify(secret: string, now: int) returns (p: Option<Principal>)
      ensures p == Verified(table.rows, secret, now)
    {
      var id := ParseKeyId(secret);
      if id.None? || id.value !in table.rows {
        return None;
      }
      var row := table.rows[id.value];
      if row.revoked {
        return None;
      }
      if row.expiresAt.Some? && Payload.UnixMilli(now) > row.expiresAt.value {
        return None;
      }
      if row.hash != Argon(secret) {
        return None;
      }
      p := Some(Principal(row.name, id.value, DecodeScopes(row.scopes)));
    }
  }

  // ---------- the in-memory store ----------

  datatype Record = Record(id: nat, row: KeyRow)

  /** The in-memory store scans its records; it must find what a lookup by id would. */
  class MemoryStore {
    var records: seq<Record>
    var next: nat

    ghost predicate Valid()
      reads this
    {
      && (forall i | 0 <= i < |records| :: records[i].id <= next)
      && (forall i, j | 0 <= i < j < |records| :: records[i].id != records[j].id)
    }

    /** The records as a table keyed by id. */
    ghost function Rows(): map<nat, KeyRow>
      reads this
    {
      RowsOf(records)
    }

    constructor ()
      ensures Valid() && Rows() == map[] && next == 0
    {
      records, next := [], 0;
    }

    /** An id is used up even when the key is refused. */
    method Create(name: string, kind: KeyKind, ttl: int, scopes: Scopes, now: int, tail: string)
      returns (r: Option<(string, nat)>)
      requires Valid()
      modifies this
      ensures Valid() && (next, IdOf(r)) == MemoryCreate(old(next), Creation(name, kind, ttl, scopes, now, tail))
      ensures r.None? <==> ttl <= 0 && kind != Static
      ensures Rows() == if r.None? then old(Rows())
                        else old(Rows())[next := KeyRow(name, kind, Argon(Format(next, tail)), Expiry(ttl, now),
                                                        EncodeScopes(scopes), false)]
      ensures r.Some? ==> r.value == (Format(next, tail), next)
    {
      next := next + 1;
      var id := next;
      var secret := Format(id, tail);
      var exp: Option<int> := None;
      if ttl > 0 {
        exp := Some(Payload.UnixMilli(now + ttl));
      } else if kind != Static {
        return None;
      }
      var record := Record(id, KeyRow(name, kind, Argon(secret), exp, EncodeScopes(scopes), false));
      RowsOfAppend(records, record);
      records := records + [record];
      r := Some((secret, id));
    }

    method Verify(secret: string, now: int) returns (p: Option<Principal>)
      requires Valid()
      ensures p == Verified(Rows(), secret, now)
    {
      hide ParseKeyId;
      var id := ParseKeyId(secret);
      if id.None? {
        return None;
      }
      var i := 0;
      while i < |records|
        invariant 0 <= i <= |records|
        invariant forall j | 0 <= j < i :: records[j].id != id.value || records[j].row.revoked
      {
        var record := records[i];
        RowsOfAt(records, i);
        if record.id != id.value || record.row.revoked {
          i := i + 1;
          continue;
        }
        if record.row.expiresAt.Some? && Payload.UnixMilli(now) > record.row.expiresAt.value {
          return None;
        }
        if record.row.hash == Argon(secret) {
          return Some(Principal(record.row.name, record.id, DecodeScopes(record.row.scopes)));
        }
        return None;
      }
      RowsOfHas(records, id.value);
      p := None;
    }

    method RevokeRow(id: int) returns (found: bool)
      requires Valid()
      modifies this
      ensures Valid() && next == old(next)
      ensures found <==> id >= 0 && id in old(Rows())
      ensures Rows() == if found then old(Rows())[id := old(Rows())[id].(revoked := true)] else old(Rows())
    {
      var i := 0;
      while i < |records|
        invariant 0 <= i <= |records|
        invariant forall j | 0 <= j < i :: records[j].id != id
        invariant records == old(records)
      {
        if records[i].id == id {
          RowsOfAt(records, i);
          RowsOfUpdate(records, i, records[i].row.(revoked := true));
          records := records[i := records[i].(row := records[i].row.(revoked := true))];
          return true;
        }
        i := i + 1;
      }
      if id >= 0 {
        RowsOfHas(records, id);
      }
      found := false;
    }
  }

  ghost function RowsOf(records: seq<Record>): map<nat, KeyRow> {
    if records == [] then map[]
    else RowsOf(records[..|records| - 1])[records[|records| - 1].id := records[|records| - 1].row]
  }

  lemma RowsOfAppend(records: seq<Record>, r: Record)
    ensures RowsOf(records + [r]) == RowsOf(records)[r.id := r.row]
  {
    assert (records + [r])[..|records|] == records;
  }

  lemma {:induction false} RowsOfHas(records: seq<Record>, id: nat)
    ensures id in RowsOf(records) <==> exists i | 0 <= i < |records| :: records[i].id == id
    ensures id in RowsOf(records) ==> exists i | 0 <= i < |records| :: records[i] == Record(id, RowsOf(records)[id])
  {
    if records != [] {
      var n := |records| - 1;
      RowsOfHas(records[..n], id);
      assert forall i | 0 <= i < n :: records[..n][i] == records[i];
      if records[n].id == id {
        assert records[n] == Record(id, RowsOf(records)[id]);
      }
    }
  }

  lemma RowsOfAt(records: seq<Record>, i: nat)
    requires i < |records| && forall i, j | 0 <= i < j < |records| :: records[i].id != records[j].id
    ensures records[i].id in RowsOf(records) && RowsOf(records)[records[i].id] == records[i].row
  {
    RowsOfHas(records, records[i].id);
  }

  lemma RowsOfUpdate(records: seq<Record>, i: nat, row: KeyRow)
    requires i < |records| && forall i, j | 0 <= i < j < |records| :: records[i].id != records[j].id
    ensures RowsOf(records[i := records[i].(row := row)]) == RowsOf(records)[records[i].id := row]
  {
    var n := |records| - 1;
    var changed := records[i := records[i].(row := row)];
    if i < n {
      assert changed[..n] == records[..n][i := records[..n][i].(row := row)];
      RowsOfUpdate(records[..n], i, row);
    } else {
      assert changed[..n] == records[..n];
    }
  }

  // ---------- the two stores side by side ----------

  /** Over every log of creates, the two stores hand out the same ids exactly when no refused create is followed by an
      accepted one: the in-memory store uses up an id for each refusal. */
  lemma IdsAgree(creates: seq<Creation>)
    requires |creates| <= MAX_INT64
    ensures SqlIds(EMPTY, creates) == MemoryIds(0, creates) <==>
            forall i, j | 0 <= i < j < |creates| && Refused(creates[i]) :: Refused(creates[j])
  {
    IdsFrom(EMPTY, 0, creates);
  }

  lemma {:induction false} IdsFrom(t: Table, next: nat, creates: seq<Creation>)
    requires t.lastId <= next && t.lastId + |creates| <= MAX_INT64
    ensures SqlIds(t, creates) == MemoryIds(next, creates) <==>
            if t.lastId == next then forall i, j | 0 <= i < j < |creates| && Refused(creates[i]) :: Refused(creates[j])
            else forall j | 0 <= j < |creates| :: Refused(creates[j])
    decreases creates
  {
    if creates != [] {
      var c, rest := creates[0], creates[1..];
      var (t1, a) := SqlCreate(t, c);
      var (n1, b) := MemoryCreate(next, c);
      IdsFrom(t1, n1, rest);
      assert ([a] + SqlIds(t1, rest))[1..] == SqlIds(t1, rest);
      assert ([b] + MemoryIds(n1, rest))[1..] == MemoryIds(n1, rest);
      assert creates == [c] + rest;
      assert forall j | 0 <= j < |rest| :: rest[j] == creates[j + 1];
      assert forall j | 1 <= j < |creates| :: creates[j] == rest[j - 1];
    }
  }

  /** An issued key without a lifetime is refused; the next key is number 1 in SQL and number 2 in memory. */
  lemma IdsDiverge()
    ensures var refused, accepted := Creation("a", Issued, 0, [], 0, "x"), Creation("b", Static, 0, [], 0, "x");
            && SqlIds(EMPTY, [refused, accepted]) == [None, Some(1)]
            && MemoryIds(0, [refused, accepted]) == [None, Some(2)]
  {
    var refused, accepted := Creation("a", Issued, 0, [], 0, "x"), Creation("b", Static, 0, [], 0, "x");
    assert [refused, accepted][1..] == [accepted] && [accepted][1..] == [];
    assert SqlIds(EMPTY, [accepted]) == [Some(1)] && MemoryIds(1, [accepted]) == [Some(2)];
  }
}
