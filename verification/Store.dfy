/** The credential vault: what its operations do to the table of rows, and the two stores that keep it
    (credential/store/memory.go, credential/store/sqlite.go). Sealing a row is ideal: a row holds the JSON
    it decrypts to. An empty identity or disabled cause stands for NULL as well. */
module Store {
  import opened Text
  import opened Payload

  datatype Row = Row(
    id: nat, profile: string, kind: Kind, identity: string, disabledCause: string,
    createdAt: int, updatedAt: int, data: Json)

  /** The credentials table in id order, its AUTOINCREMENT counter and the snapshot row. */
  datatype Vault = Vault(rows: seq<Row>, lastId: nat, gen: nat, genAt: int)

  datatype Op =
    | PutApiKey(profile: string, key: string)
    | PutOAuth(profile: string, mat: Material)
    | UpdateOAuth(profile: string, mat: Material)
    | Disable(id: int, cause: string)
    | Bump

  datatype Error = NotFound | NotOAuth | Disabled(id: nat, cause: string) | Unavailable

  datatype Reply = Id(id: nat) | Done | Fail(error: Error)

  /** How far a database call gets: all the way, nothing written, or written but the generation not bumped. */
  datatype Fault = NoFault | BeforeWrite | BeforeBump

  function Fresh(now: int): Vault {
    Vault([], 0, 1, now)
  }

  ghost predicate WellFormed(v: Vault) {
    && (forall i | 0 <= i < |v.rows| :: 1 <= v.rows[i].id <= v.lastId)
    && (forall i, j | 0 <= i < j < |v.rows| :: v.rows[i].id < v.rows[j].id)
  }

  // ---------- queries ----------

  /** The WHERE clauses the SQL store uses. */
  datatype Query = OfProfile(profile: string) | OAuthOf(profile: string) | WithId(id: int) {
    predicate Matches(r: Row) {
      match this
      case OfProfile(p) => r.profile == p
      case OAuthOf(p) => r.profile == p && r.kind == OAuthKind
      case WithId(id) => r.id == id
    }
  }

  /** `SELECT ... WHERE q ORDER BY id DESC LIMIT 1`, as an index into the table. */
  function Last(rows: seq<Row>, q: Query): (r: Option<nat>)
    ensures r.Some? ==> r.value < |rows| && q.Matches(rows[r.value]) && forall j | r.value < j < |rows| :: !q.Matches(rows[j])
    ensures r.None? ==> forall j | 0 <= j < |rows| :: !q.Matches(rows[j])
  {
    if rows == [] then None
    else if q.Matches(rows[|rows| - 1]) then Some(|rows| - 1)
    else Last(rows[..|rows| - 1], q)
  }

  function Newest(rows: seq<Row>, profile: string): Option<nat> {
    Last(rows, OfProfile(profile))
  }

  function NewestOAuth(rows: seq<Row>, profile: string): Option<nat> {
    Last(rows, OAuthOf(profile))
  }

  function ById(rows: seq<Row>, id: int): Option<nat> {
    Last(rows, WithId(id))
  }

  /** `Get`: the newest row of the profile, unless it is disabled. */
  function Lookup(v: Vault, profile: string): Result<Material, Error> {
    match Newest(v.rows, profile)
    case None => Err(NotFound)
    case Some(i) =>
      var r := v.rows[i];
      if r.disabledCause != "" then Err(Disabled(r.id, r.disabledCause))
      else Ok(Decode(profile, r.kind, r.data))
  }

  // ---------- changes ----------

  function Bumped(v: Vault, now: int): Vault {
    v.(gen := v.gen + 1, genAt := now)
  }

  function Inserted(v: Vault, profile: string, kind: Kind, identity: string, data: Json, now: int): Vault {
    v.(rows := v.rows + [Row(v.lastId + 1, profile, kind, identity, "", now, now, data)], lastId := v.lastId + 1)
  }

  function Rewritten(v: Vault, i: nat, mat: Material, identity: string, now: int): Vault
    requires i < |v.rows|
  {
    v.(rows := v.rows[i := v.rows[i].(data := EncodeOAuth(mat), identity := identity,
                                       disabledCause := "", updatedAt := now)])
  }

  function Flagged(v: Vault, i: nat, cause: string, now: int): Vault
    requires i < |v.rows|
  {
    v.(rows := v.rows[i := v.rows[i].(disabledCause := cause, updatedAt := now)])
  }

  /** One operation of the in-memory store. */
  function MemStep(v: Vault, op: Op, now: int): (Vault, Reply) {
    match op
    case PutApiKey(profile, key) =>
      (Bumped(Inserted(v, profile, ApiKeyKind, "", EncodeApiKey(key), now), now), Id(v.lastId + 1))
    case PutOAuth(profile, mat) =>
      (Bumped(Inserted(v, profile, OAuthKind, mat.email, EncodeOAuth(mat), now), now), Id(v.lastId + 1))
    case UpdateOAuth(profile, mat) =>
      (match Newest(v.rows, profile)
       case None => (v, Fail(NotFound))
       case Some(i) =>
         if v.rows[i].kind != OAuthKind then (v, Fail(NotOAuth))
         else (Bumped(Rewritten(v, i, mat, if mat.email != "" then mat.email else v.rows[i].identity, now), now), Done))
    case Disable(id, cause) =>
      (match ById(v.rows, id)
       case None => (v, Fail(NotFound))
       case Some(i) => (Bumped(Flagged(v, i, cause, now), now), Done))
    case Bump => (Bumped(v, now), Done)
  }

  function BumpedUnless(fault: Fault, v: Vault, now: int): Vault {
    if fault == BeforeBump then v else Bumped(v, now)
  }

  /** One operation of the SQL store, with the database failing where `fault` says. */
  function SqlStep(v: Vault, op: Op, now: int, fault: Fault): (Vault, Reply) {
    if fault == BeforeWrite then (v, Fail(Unavailable))
    else
      var done := if fault == BeforeBump then Fail(Unavailable) else Done;
      match op
      case PutApiKey(profile, key) =>
        (BumpedUnless(fault, Inserted(v, profile, ApiKeyKind, "", EncodeApiKey(key), now), now), Id(v.lastId + 1))
      case PutOAuth(profile, mat) =>
        (BumpedUnless(fault, Inserted(v, profile, OAuthKind, mat.email, EncodeOAuth(mat), now), now), Id(v.lastId + 1))
      case UpdateOAuth(profile, mat) =>
        (match NewestOAuth(v.rows, profile)
         case None => (v, Fail(NotFound))
         case Some(i) => (BumpedUnless(fault, Rewritten(v, i, mat, mat.email, now), now), done))
      case Disable(id, cause) =>
        (match ById(v.rows, id)
         case None => (v, Fail(NotFound))
         case Some(i) => (BumpedUnless(fault, Flagged(v, i, cause, now), now), done))
      case Bump => (BumpedUnless(fault, v, now), done)
  }

  // ---------- the in-memory store ----------

  lemma MemUpdates(v: Vault, profile: string, mat: Material, now: int)
    ensures MemStep(v, UpdateOAuth(profile, mat), now) ==
            match Newest(v.rows, profile)
            case None => (v, Fail(NotFound))
            case Some(i) =>
              if v.rows[i].kind != OAuthKind then (v, Fail(NotOAuth))
              else (Bumped(Rewritten(v, i, mat, if mat.email != "" then mat.email else v.rows[i].identity, now), now), Done)
  {
  }

  class MemRow {
    const id: nat
    const profile: string
    const kind: Kind
    const createdAt: int
    var identity: string
    var disabledCause: string
    var updatedAt: int
    var data: Json

    constructor (id: nat, profile: string, kind: Kind, identity: string, now: int, data: Json)
      ensures Val() == Row(id, profile, kind, identity, "", now, now, data)
    {
      this.id, this.profile, this.kind, this.createdAt := id, profile, kind, now;
      this.identity, this.disabledCause, this.updatedAt, this.data := identity, "", now, data;
    }

    function Val(): Row
      reads this
    {
      Row(id, profile, kind, identity, disabledCause, createdAt, updatedAt, data)
    }

    method Refill(mat: Material, now: int)
      modifies this
      ensures Val() == old(Val()).(data := EncodeOAuth(mat), updatedAt := now, disabledCause := "",
                                   identity := if mat.email != "" then mat.email else old(identity))
    {
      data := EncodeOAuth(mat);
      updatedAt := now;
      if mat.email != "" {
        identity := mat.email;
      }
      disabledCause := "";
    }

    method Flag(cause: string, now: int)
      modifies this
      ensures Val() == old(Val()).(disabledCause := cause, updatedAt := now)
    {
      disabledCause := cause;
      updatedAt := now;
    }
  }

  ghost predicate IdsCount(table: seq<Row>) {
    forall i | 0 <= i < |table| :: table[i].id == i + 1
  }

  /** `byProf` gives the greatest id of each profile that has a row, and nothing else. */
  ghost predicate Indexes(byProf: map<string, nat>, table: seq<Row>) {
    && (forall i | 0 <= i < |table| :: table[i].profile in byProf && i < byProf[table[i].profile])
    && (forall p | p in byProf :: 1 <= byProf[p] <= |table| && table[byProf[p] - 1].profile == p)
  }

  lemma IndexIsNewest(byProf: map<string, nat>, table: seq<Row>, profile: string)
    requires Indexes(byProf, table)
    ensures Newest(table, profile) == if profile in byProf then Some(byProf[profile] - 1) else None
  {
    hide Last;
  }

  lemma IdIsIndex(table: seq<Row>, id: int)
    requires IdsCount(table)
    ensures ById(table, id) == if 1 <= id <= |table| then Some(id - 1) else None
  {
    hide Last;
    assert 1 <= id <= |table| ==> WithId(id).Matches(table[id - 1]);
  }

  lemma IndexExtended(byProf: map<string, nat>, table: seq<Row>, r: Row)
    requires Indexes(byProf, table) && IdsCount(table) && r.id == |table| + 1
    ensures Indexes(byProf[r.profile := |table| + 1], table + [r]) && IdsCount(table + [r])
  {
  }

  lemma RowReplaced(byProf: map<string, nat>, table: seq<Row>, i: nat, r: Row)
    requires Indexes(byProf, table) && IdsCount(table) && i < |table|
    requires r.profile == table[i].profile && r.id == table[i].id
    ensures Indexes(byProf, table[i := r]) && IdsCount(table[i := r])
  {
  }

  class Memory {
    var rows: map<nat, MemRow>
    var byProf: map<string, nat>
    var nextID: nat
    var gen: nat
    var genAt: int
    /** The same rows as a table in id order. */
    ghost var table: seq<Row>

    /** Row ids run from 1 to `nextID`, and the index maps each profile to its greatest row id. */
    ghost predicate Valid()
      reads this, rows.Values
    {
      && |table| == nextID
      && (forall i {:trigger i in rows} :: i in rows <==> 1 <= i <= nextID)
      && (forall i {:trigger rows[i]} | 1 <= i <= nextID :: rows[i].id == i && rows[i].Val() == table[i - 1])
      && IdsCount(table)
      && Indexes(byProf, table)
    }

    /** The vault this store keeps. */
    ghost function Contents(): Vault
      reads this
    {
      Vault(table, nextID, gen, genAt)
    }

    constructor (now: int)
      ensures Valid() && fresh(rows.Values) && Contents() == Fresh(now)
    {
      rows, byProf, nextID, gen, genAt, table := map[], map[], 0, 1, now, [];
    }

    method Get(profile: string) returns (r: Result<Material, Error>)
      requires Valid()
      ensures r == Lookup(Contents(), profile)
    {
      hide Last, Decode;
      IndexIsNewest(byProf, table, profile);
      if profile !in byProf {
        return Err(NotFound);
      }
      var id := byProf[profile];
      var row := rows[id];
      if row.disabledCause != "" {
        return Err(Disabled(id, row.disabledCause));
      }
      r := Ok(Decode(row.profile, row.kind, row.data));
    }

    method Put(profile: string, kind: Kind, identity: string, data: Json, now: int) returns (id: nat)
      requires Valid()
      modifies this
      ensures Valid() && fresh(rows.Values - old(rows.Values))
      ensures id == old(nextID) + 1
      ensures Contents() == Bumped(Inserted(old(Contents()), profile, kind, identity, data, now), now)
    {
      hide Indexes, IdsCount;
      id := nextID + 1;
      nextID := id;
      var row := new MemRow(id, profile, kind, identity, now, data);
      rows := rows[id := row];
      table := table + [row.Val()];
      byProf := byProf[profile := id];
      gen := gen + 1;
      genAt := now;
      RowAdded(row);
    }

    method PutAPIKey(profile: string, key: string, now: int) returns (id: nat)
      requires Valid()
      modifies this
      ensures Valid() && fresh(rows.Values - old(rows.Values))
      ensures (Contents(), Id(id)) == MemStep(old(Contents()), PutApiKey(profile, key), now)
    {
      id := Put(profile, ApiKeyKind, "", EncodeApiKey(key), now);
    }

    method PutOAuthMaterial(profile: string, mat: Material, now: int) returns (id: nat)
      requires Valid()
      modifies this
      ensures Valid() && fresh(rows.Values - old(rows.Values))
      ensures (Contents(), Id(id)) == MemStep(old(Contents()), PutOAuth(profile, mat), now)
    {
      id := Put(profile, OAuthKind, mat.email, EncodeOAuth(mat), now);
    }

    /** Restores the invariant after a new row object was filed. */
    twostate lemma RowAdded(new row: MemRow)
      requires old(Valid()) && nextID == old(nextID) + 1 && row.id == nextID
      requires rows == old(rows)[nextID := row] && table == old(table) + [row.Val()]
      requires byProf == old(byProf)[row.profile := nextID]
      requires forall i | i in old(rows) :: unchanged(old(rows)[i])
      ensures Valid()
    {
      hide Indexes, IdsCount;
      IndexExtended(old(byProf), old(table), row.Val());
      forall i | 1 <= i <= nextID ensures rows[i].id == i && rows[i].Val() == table[i - 1] {
        if i < nextID {
          assert i in old(rows);
        }
      }
    }

    /** Restores the invariant after one row object was changed in place. */
    twostate lemma RowChanged(id: nat)
      requires old(Valid()) && old(id in rows)
      requires rows == old(rows) && byProf == old(byProf) && nextID == old(nextID)
      requires forall i | i in rows && i != id :: unchanged(rows[i])
      requires table == old(table)[id - 1 := rows[id].Val()]
      ensures Valid()
    {
      hide Indexes, IdsCount;
      RowReplaced(byProf, old(table), id - 1, rows[id].Val());
      forall i | 1 <= i <= nextID ensures rows[i].id == i && rows[i].Val() == table[i - 1] {
        assert i in rows;
      }
    }

    /** What the index says about a profile. */
    lemma Indexed(profile: string)
      requires Valid()
      ensures Newest(table, profile) == if profile in byProf then Some(byProf[profile] - 1) else None
      ensures profile in byProf ==>
                var id := byProf[profile]; id in rows && 1 <= id <= |table| && rows[id].Val() == table[id - 1]
    {
      hide Last;
      IndexIsNewest(byProf, table, profile);
    }

    /** Fills one row in place and bumps the generation. */
    method Refilled(id: nat, mat: Material, now: int)
      requires Valid() && id in rows
      modifies this, rows.Values
      ensures Valid() && rows == old(rows)
      ensures var v := old(Contents());
              id - 1 < |v.rows| &&
              Contents() == Bumped(Rewritten(v, id - 1, mat,
                                             if mat.email != "" then mat.email else v.rows[id - 1].identity, now), now)
    {
      hide Last, EncodeOAuth, Indexes, IdsCount;
      var row := rows[id];
      assert row.Val() == table[id - 1];
      row.Refill(mat, now);
      table := table[id - 1 := row.Val()];
      gen := gen + 1;
      genAt := now;
      RowChanged(id);
    }

    method Update(profile: string, mat: Material, now: int) returns (r: Reply)
      requires Valid()
      modifies this, rows.Values
      ensures Valid() && rows == old(rows)
      ensures (Contents(), r) == MemStep(old(Contents()), UpdateOAuth(profile, mat), now)
    {
      hide Valid, Last, Newest, NewestOAuth, ById, EncodeOAuth, EncodeApiKey, MemStep, Rewritten, Bumped;
      MemUpdates(Contents(), profile, mat, now);
      Indexed(profile);
      if profile !in byProf {
        return Fail(NotFound);
      }
      var id := byProf[profile];
      if rows[id].kind != OAuthKind {
        return Fail(NotOAuth);
      }
      Refilled(id, mat, now);
      r := Done;
    }

    method DisableRow(id: int, cause: string, now: int) returns (r: Reply)
      requires Valid()
      modifies this, rows.Values
      ensures Valid() && rows == old(rows)
      ensures (Contents(), r) == MemStep(old(Contents()), Disable(id, cause), now)
    {
      hide Last, Newest, NewestOAuth, ById, EncodeOAuth, EncodeApiKey, Indexes, IdsCount;
      IdIsIndex(table, id);
      if id < 0 || id !in rows {
        return Fail(NotFound);
      }
      var row := rows[id];
      row.Flag(cause, now);
      table := table[id - 1 := row.Val()];
      gen := gen + 1;
      genAt := row.updatedAt;
      r := Done;
      RowChanged(id);
    }

    method BumpGeneration(now: int)
      requires Valid()
      modifies this
      ensures Valid() && rows == old(rows)
      ensures Contents() == MemStep(old(Contents()), Bump, now).0
    {
      gen := gen + 1;
      genAt := now;
    }
  }

  // ---------- the SQL store ----------

  /** The broker database. Each method takes the place where its database calls fail, if they do. */
  class SQLite {
    var table: seq<Row>
    var lastId: nat
    var gen: nat
    var genAt: int

    function Contents(): Vault
      reads this
    {
      Vault(table, lastId, gen, genAt)
    }

    constructor (now: int)
      ensures Contents() == Fresh(now)
    {
      table, lastId, gen, genAt := [], 0, 1, now;
    }

    method Get(profile: string) returns (r: Result<Material, Error>)
      ensures r == Lookup(Contents(), profile)
    {
      var hit := Newest(table, profile);
      if hit.None? {
        return Err(NotFound);
      }
      var row := table[hit.value];
      if row.disabledCause != "" {
        return Err(Disabled(row.id, row.disabledCause));
      }
      r := Ok(Decode(profile, row.kind, row.data));
    }

    method BumpGeneration(now: int, fault: Fault) returns (ok: bool)
      modifies this
      ensures ok <==> fault == NoFault
      ensures Contents() == if ok then Bumped(old(Contents()), now) else old(Contents())
    {
      ok := fault == NoFault;
      if ok {
        gen := gen + 1;
        genAt := now;
      }
    }

    method Insert(profile: string, kind: Kind, identity: string, data: Json, now: int) returns (id: nat)
      modifies this
      ensures Contents() == Inserted(old(Contents()), profile, kind, identity, data, now)
      ensures id == lastId
    {
      id := lastId + 1;
      table := table + [Row(id, profile, kind, identity, "", now, now, data)];
      lastId := id;
    }

    /** A bump that fails after the insert is ignored. */
    method PutAPIKey(profile: string, key: string, now: int, fault: Fault) returns (r: Reply)
      modifies this
      ensures (Contents(), r) == SqlStep(old(Contents()), PutApiKey(profile, key), now, fault)
    {
      if fault == BeforeWrite {
        return Fail(Unavailable);
      }
      var id := Insert(profile, ApiKeyKind, "", EncodeApiKey(key), now);
      var _ := BumpGeneration(now, fault);
      r := Id(id);
    }

    method PutOAuthMaterial(profile: string, mat: Material, now: int, fault: Fault) returns (r: Reply)
      modifies this
      ensures (Contents(), r) == SqlStep(old(Contents()), PutOAuth(profile, mat), now, fault)
    {
      if fault == BeforeWrite {
        return Fail(Unavailable);
      }
      var id := Insert(profile, OAuthKind, mat.email, EncodeOAuth(mat), now);
      var _ := BumpGeneration(now, fault);
      r := Id(id);
    }

    /** The row is rewritten even when the bump after it fails and an error is returned. */
    method Update(profile: string, mat: Material, now: int, fault: Fault) returns (r: Reply)
      modifies this
      ensures (Contents(), r) == SqlStep(old(Contents()), UpdateOAuth(profile, mat), now, fault)
    {
      if fault == BeforeWrite {
        return Fail(Unavailable);
      }
      var hit := NewestOAuth(table, profile);
      if hit.None? {
        return Fail(NotFound);
      }
      var row := table[hit.value];
      table := table[hit.value := row.(data := EncodeOAuth(mat), identity := mat.email,
                                       disabledCause := "", updatedAt := now)];
      var ok := BumpGeneration(now, fault);
      r := if ok then Done else Fail(Unavailable);
    }

    method DisableRow(id: int, cause: string, now: int, fault: Fault) returns (r: Reply)
      modifies this
      ensures (Contents(), r) == SqlStep(old(Contents()), Disable(id, cause), now, fault)
    {
      if fault == BeforeWrite {
        return Fail(Unavailable);
      }
      var hit := ById(table, id);
      if hit.None? {
        return Fail(NotFound);
      }
      table := table[hit.value := table[hit.value].(disabledCause := cause, updatedAt := now)];
      var ok := BumpGeneration(now, fault);
      r := if ok then Done else Fail(Unavailable);
    }
  }
}
